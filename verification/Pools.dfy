/** Bounded worker pools as steps between awaits: the fail-fast pool that maps a list, and the
    abortable pool that collects every failure. A schedule says who moves next, so a statement over
    all schedules is a statement over all interleavings. */
module Pools {
  import opened Basics

  /** What one operation settles with. Each index is started at most once (PoolSafety), so a list of
      outcomes describes every operation completely. */
  datatype Outcome<R> = Done(value: R) | Failure(reason: string)

  datatype Rule = FailFast | CollectAll

  datatype Worker = Idle | Running(index: nat) | Returned | Threw

  datatype Claim = Claim(worker: nat, index: nat)

  /** `errors` lists the failed indexes in the order their operations failed; `claims` is the
      history of which worker took which index. */
  datatype Pool<R> = Pool(cursor: nat, stopped: bool, results: seq<Option<R>>, errors: seq<nat>,
                          workers: seq<Worker>, claims: seq<Claim>)

  datatype Event = Turn(worker: nat) | Abort

  function Min(a: nat, b: nat): nat { if a < b then a else b }

  function Start<R>(n: nat, concurrency: nat): Pool<R> {
    Pool(0, false, seq(n, i => None), [], seq(Min(concurrency, n), i => Idle), [])
  }

  /** The loop head of one worker: claim the next index, or return. */
  function AtLoopHead<R>(rule: Rule, n: nat, s: Pool<R>, w: nat): Pool<R>
    requires w < |s.workers|
  {
    if s.stopped then s.(workers := s.workers[w := Returned])
    else if s.cursor < n then
      s.(cursor := s.cursor + 1, workers := s.workers[w := Running(s.cursor)], claims := s.claims + [Claim(w, s.cursor)])
    else
      s.(cursor := if rule.CollectAll? then s.cursor + 1 else s.cursor, workers := s.workers[w := Returned])
  }

  /** One worker's operation settles. */
  function Settle<R>(rule: Rule, outcomes: seq<Outcome<R>>, s: Pool<R>, w: nat): Pool<R>
    requires w < |s.workers| && s.workers[w].Running? && s.workers[w].index < |outcomes| == |s.results|
  {
    var i := s.workers[w].index;
    match outcomes[i]
    case Done(v) => s.(results := s.results[i := Some(v)], workers := s.workers[w := Idle])
    case Failure(_) =>
      if rule.FailFast? then s.(stopped := true, errors := s.errors + [i], workers := s.workers[w := Threw])
      else s.(errors := s.errors + [i], workers := s.workers[w := Idle])
  }

  predicate Live<R>(s: Pool<R>, w: nat) {
    w < |s.workers| && (s.workers[w].Idle? || s.workers[w].Running?)
  }

  function After<R>(rule: Rule, outcomes: seq<Outcome<R>>, s: Pool<R>, e: Event): Pool<R> {
    match e
    case Abort => if rule.CollectAll? then s.(stopped := true) else s
    case Turn(w) =>
      if !Live(s, w) then s
      else if s.workers[w].Idle? then AtLoopHead(rule, |outcomes|, s, w)
      else if s.workers[w].index < |outcomes| == |s.results| then Settle(rule, outcomes, s, w)
      else s
  }

  function Run<R>(rule: Rule, outcomes: seq<Outcome<R>>, s: Pool<R>, schedule: seq<Event>): Pool<R>
    decreases |schedule|
  {
    if schedule == [] then s
    else After(rule, outcomes, Run(rule, outcomes, s, schedule[..|schedule| - 1]), schedule[|schedule| - 1])
  }

  predicate Finished<R>(s: Pool<R>) {
    forall w :: 0 <= w < |s.workers| ==> s.workers[w].Returned? || s.workers[w].Threw?
  }

  // ----- what every step keeps

  /** A claimed index is with its one worker, or has its result, or is among the errors. */
  ghost predicate Accounted<R>(outcomes: seq<Outcome<R>>, s: Pool<R>, i: nat)
    requires i < |s.claims| && |s.claims| <= |outcomes| == |s.results|
  {
    var w := s.claims[i].worker;
    if w < |s.workers| && s.workers[w] == Running(i) then s.results[i].None? && i !in s.errors
    else match outcomes[i]
      case Done(v) => s.results[i] == Some(v) && i !in s.errors
      case Failure(_) => s.results[i].None? && i in s.errors
  }

  ghost predicate Inv<R>(rule: Rule, outcomes: seq<Outcome<R>>, s: Pool<R>) {
    && |s.results| == |outcomes|
    && |s.claims| == Min(s.cursor, |outcomes|)
    && (forall i :: 0 <= i < |s.claims| ==> s.claims[i].index == i && Accounted(outcomes, s, i))
    && (forall i :: |s.claims| <= i < |outcomes| ==> s.results[i].None?)
    && (forall i :: i in s.errors ==> i < |s.claims|)
    && (forall j, k :: 0 <= j < k < |s.errors| ==> s.errors[j] != s.errors[k])
    && (forall w :: 0 <= w < |s.workers| && s.workers[w].Running? ==>
          s.workers[w].index < |s.claims| && s.claims[s.workers[w].index].worker == w)
    && (rule.FailFast? ==> (s.stopped <==> s.errors != []))
    && (forall w :: 0 <= w < |s.workers| && s.workers[w].Returned? ==> s.stopped || s.cursor >= |outcomes|)
    && (forall w :: 0 <= w < |s.workers| && s.workers[w].Threw? ==> s.stopped)
  }

  lemma HeadKeepsInv<R>(rule: Rule, outcomes: seq<Outcome<R>>, s: Pool<R>, w: nat)
    requires Inv(rule, outcomes, s) && w < |s.workers| && s.workers[w].Idle?
    ensures Inv(rule, outcomes, AtLoopHead(rule, |outcomes|, s, w))
  {
    var t := AtLoopHead(rule, |outcomes|, s, w);
    forall i | 0 <= i < |t.claims| ensures t.claims[i].index == i && Accounted(outcomes, t, i) {
      if i < |s.claims| { assert Accounted(outcomes, s, i); }
    }
  }

  lemma SettleKeepsAccounts<R>(rule: Rule, outcomes: seq<Outcome<R>>, s: Pool<R>, w: nat, i: nat)
    requires Inv(rule, outcomes, s) && w < |s.workers| && s.workers[w].Running? && i < |s.claims|
    ensures Accounted(outcomes, Settle(rule, outcomes, s, w), i)
  {
    assert Accounted(outcomes, s, i);
    assert Accounted(outcomes, s, s.workers[w].index);
  }

  lemma SettleKeepsInv<R>(rule: Rule, outcomes: seq<Outcome<R>>, s: Pool<R>, w: nat)
    requires Inv(rule, outcomes, s) && w < |s.workers| && s.workers[w].Running?
    ensures Inv(rule, outcomes, Settle(rule, outcomes, s, w))
  {
    var t := Settle(rule, outcomes, s, w);
    assert Accounted(outcomes, s, s.workers[w].index);
    forall i | 0 <= i < |t.claims| ensures t.claims[i].index == i && Accounted(outcomes, t, i) {
      SettleKeepsAccounts(rule, outcomes, s, w, i);
    }
  }

  lemma StepKeepsInv<R>(rule: Rule, outcomes: seq<Outcome<R>>, s: Pool<R>, e: Event)
    requires Inv(rule, outcomes, s)
    ensures Inv(rule, outcomes, After(rule, outcomes, s, e))
    ensures |After(rule, outcomes, s, e).workers| == |s.workers|
    ensures s.claims <= After(rule, outcomes, s, e).claims
  {
    match e
    case Abort =>
      forall i | 0 <= i < |s.claims| ensures Accounted(outcomes, After(rule, outcomes, s, e), i) {
        assert Accounted(outcomes, s, i);
      }
    case Turn(w) =>
      if Live(s, w) {
        if s.workers[w].Idle? { HeadKeepsInv(rule, outcomes, s, w); } else { SettleKeepsInv(rule, outcomes, s, w); }
      }
  }

  lemma {:induction false} RunKeepsInv<R>(rule: Rule, outcomes: seq<Outcome<R>>, concurrency: nat, schedule: seq<Event>)
    ensures var s := Run(rule, outcomes, Start(|outcomes|, concurrency), schedule);
            Inv(rule, outcomes, s) && |s.workers| == Min(concurrency, |outcomes|)
    decreases |schedule|
  {
    if schedule != [] {
      var before := schedule[..|schedule| - 1];
      RunKeepsInv(rule, outcomes, concurrency, before);
      StepKeepsInv(rule, outcomes, Run(rule, outcomes, Start(|outcomes|, concurrency), before), schedule[|schedule| - 1]);
    }
  }

  /** Indexes started and not settled yet. */
  function InFlight<R>(s: Pool<R>): set<nat> {
    set i | 0 <= i < |s.claims| && i < |s.results| && s.results[i].None? && i !in s.errors
  }

  lemma {:induction false} FewInFlight(workers: seq<Worker>, flying: set<nat>)
    requires forall i :: i in flying ==> exists w :: 0 <= w < |workers| && workers[w] == Running(i)
    ensures |flying| <= |workers|
    decreases |workers|
  {
    if workers == [] {
      assert flying == {};
    } else {
      var last := workers[|workers| - 1];
      var others := workers[..|workers| - 1];
      var rest := if last.Running? then flying - {last.index} else flying;
      forall i | i in rest ensures exists w :: 0 <= w < |others| && others[w] == Running(i) {
        var w :| 0 <= w < |workers| && workers[w] == Running(i);
        assert others[w] == Running(i);
      }
      FewInFlight(others, rest);
      assert flying <= rest + if last.Running? then {last.index} else {};
    }
  }

  /** In every interleaving, under either rule: the k-th claim is of index k, so an index is started
      by one worker, once; and no more than min(concurrency, n) operations are under way. */
  lemma PoolSafety<R>(rule: Rule, outcomes: seq<Outcome<R>>, concurrency: nat, schedule: seq<Event>)
    ensures var s := Run(rule, outcomes, Start(|outcomes|, concurrency), schedule);
            && |s.claims| <= |outcomes|
            && (forall k :: 0 <= k < |s.claims| ==> s.claims[k].index == k)
            && |InFlight(s)| <= Min(concurrency, |outcomes|)
  {
    RunKeepsInv(rule, outcomes, concurrency, schedule);
    var s := Run(rule, outcomes, Start(|outcomes|, concurrency), schedule);
    forall i | i in InFlight(s) ensures exists w :: 0 <= w < |s.workers| && s.workers[w] == Running(i) {
      assert Accounted(outcomes, s, i);
      assert s.workers[s.claims[i].worker] == Running(i);
    }
    FewInFlight(s.workers, InFlight(s));
  }

  /** After a failure under the fail-fast rule, and after an abort under the other, no schedule
      starts another index. */
  lemma {:induction false} NothingStartsOnceStopped<R>(rule: Rule, outcomes: seq<Outcome<R>>, s: Pool<R>, schedule: seq<Event>)
    requires s.stopped
    ensures Run(rule, outcomes, s, schedule).claims == s.claims && Run(rule, outcomes, s, schedule).stopped
    decreases |schedule|
  {
    if schedule != [] { NothingStartsOnceStopped(rule, outcomes, s, schedule[..|schedule| - 1]); }
  }

  lemma {:induction false} RunConcat<R>(rule: Rule, outcomes: seq<Outcome<R>>, s: Pool<R>, a: seq<Event>, b: seq<Event>)
    ensures Run(rule, outcomes, s, a + b) == Run(rule, outcomes, Run(rule, outcomes, s, a), b)
    decreases |b|
  {
    if b == [] {
      assert a + b == a;
    } else {
      RunConcat(rule, outcomes, s, a, b[..|b| - 1]);
      assert (a + b)[..|a + b| - 1] == a + b[..|b| - 1];
    }
  }

  /** The same said of a whole call: what is in flight when the first failure is recorded, or the
      abort is signalled, is all that ever runs. */
  lemma StoppedForGood<R>(rule: Rule, outcomes: seq<Outcome<R>>, concurrency: nat, a: seq<Event>, b: seq<Event>)
    requires if rule.FailFast? then Run(rule, outcomes, Start(|outcomes|, concurrency), a).errors != [] else Abort in a
    ensures Run(rule, outcomes, Start(|outcomes|, concurrency), a + b).claims
            == Run(rule, outcomes, Start(|outcomes|, concurrency), a).claims
  {
    RunKeepsInv(rule, outcomes, concurrency, a);
    AbortedMeansStopped(outcomes, concurrency, a);
    RunConcat(rule, outcomes, Start(|outcomes|, concurrency), a, b);
    NothingStartsOnceStopped(rule, outcomes, Run(rule, outcomes, Start(|outcomes|, concurrency), a), b);
  }

  lemma {:induction false} AbortedMeansStopped<R>(outcomes: seq<Outcome<R>>, concurrency: nat, schedule: seq<Event>)
    ensures Run(CollectAll, outcomes, Start(|outcomes|, concurrency), schedule).stopped <==> Abort in schedule
    decreases |schedule|
  {
    if schedule != [] { AbortedMeansStopped(outcomes, concurrency, schedule[..|schedule| - 1]); }
  }

  // ----- every run ends

  function Weight(w: Worker): nat {
    match w case Idle => 1 case Running(_) => 2 case _ => 0
  }

  function Weights(workers: seq<Worker>): nat {
    if workers == [] then 0 else Weight(workers[0]) + Weights(workers[1..])
  }

  /** An upper bound on the turns still to come. */
  function TurnsLeft<R>(n: nat, s: Pool<R>): nat {
    (if |s.claims| < n then 2 * (n - |s.claims|) else 0) + Weights(s.workers)
  }

  lemma {:induction false} WeightsUpdate(workers: seq<Worker>, w: nat, to: Worker)
    requires w < |workers|
    ensures Weights(workers[w := to]) + Weight(workers[w]) == Weights(workers) + Weight(to)
  {
    if w == 0 {
      assert workers[w := to][1..] == workers[1..];
    } else {
      WeightsUpdate(workers[1..], w - 1, to);
      assert workers[w := to][1..] == workers[1..][w - 1 := to];
    }
  }

  lemma EveryTurnCounts<R>(rule: Rule, outcomes: seq<Outcome<R>>, s: Pool<R>, w: nat)
    requires Inv(rule, outcomes, s) && Live(s, w)
    ensures TurnsLeft(|outcomes|, After(rule, outcomes, s, Turn(w))) < TurnsLeft(|outcomes|, s)
  {
    var t := After(rule, outcomes, s, Turn(w));
    WeightsUpdate(s.workers, w, t.workers[w]);
    assert t.workers == s.workers[w := t.workers[w]];
  }

  /** Every turn of the schedule is one a worker could really take. */
  predicate Effective<R>(rule: Rule, outcomes: seq<Outcome<R>>, s: Pool<R>, schedule: seq<Event>)
    decreases |schedule|
  {
    schedule == [] ||
    var before := schedule[..|schedule| - 1];
    var e := schedule[|schedule| - 1];
    Effective(rule, outcomes, s, before) && e.Turn? && Live(Run(rule, outcomes, s, before), e.worker)
  }

  lemma {:induction false} IdleWeights(n: nat)
    ensures Weights(seq(n, i => Idle)) == n
  {
    if n > 0 {
      IdleWeights(n - 1);
      assert seq(n, i => Idle)[1..] == seq(n - 1, i => Idle);
    }
  }

  /** No livelock: a run has at most 2n + min(concurrency, n) turns, and unless it is finished some
      worker can move. */
  lemma {:induction false} EveryRunEnds<R>(rule: Rule, outcomes: seq<Outcome<R>>, concurrency: nat, schedule: seq<Event>)
    requires Effective(rule, outcomes, Start(|outcomes|, concurrency), schedule)
    ensures var s := Run(rule, outcomes, Start(|outcomes|, concurrency), schedule);
            && |schedule| + TurnsLeft(|outcomes|, s) <= 2 * |outcomes| + Min(concurrency, |outcomes|)
            && (!Finished(s) ==> exists w :: Live(s, w))
    decreases |schedule|
  {
    var s := Run(rule, outcomes, Start(|outcomes|, concurrency), schedule);
    if schedule == [] {
      IdleWeights(Min(concurrency, |outcomes|));
    } else {
      var before := schedule[..|schedule| - 1];
      EveryRunEnds(rule, outcomes, concurrency, before);
      RunKeepsInv(rule, outcomes, concurrency, before);
      EveryTurnCounts(rule, outcomes, Run(rule, outcomes, Start(|outcomes|, concurrency), before), schedule[|schedule| - 1].worker);
    }
    if !Finished(s) {
      var w :| 0 <= w < |s.workers| && !s.workers[w].Returned? && !s.workers[w].Threw?;
      assert Live(s, w);
    }
  }

  // ----- what a finished call reports

  ghost predicate AllDone<R>(outcomes: seq<Outcome<R>>) {
    forall i :: 0 <= i < |outcomes| ==> outcomes[i].Done?
  }

  lemma FinishedSettled<R>(rule: Rule, outcomes: seq<Outcome<R>>, s: Pool<R>)
    requires Inv(rule, outcomes, s) && Finished(s)
    ensures forall i :: 0 <= i < |s.claims| && outcomes[i].Done? ==> s.results[i] == Some(outcomes[i].value)
    ensures forall i :: 0 <= i < |s.claims| ==> (i in s.errors <==> outcomes[i].Failure?)
    ensures s.stopped || |s.workers| == 0 || |s.claims| == |outcomes|
  {
    forall i | 0 <= i < |s.claims|
      ensures if outcomes[i].Done? then s.results[i] == Some(outcomes[i].value) && i !in s.errors else i in s.errors
    {
      assert Accounted(outcomes, s, i);
    }
    if |s.workers| > 0 { assert s.workers[0].Returned? || s.workers[0].Threw?; }
  }

  /** The fail-fast map, whatever the interleaving: the call fails exactly when some operation does,
      and otherwise returns every operation's value in input order. */
  lemma MapMeansAll<R>(outcomes: seq<Outcome<R>>, concurrency: nat, schedule: seq<Event>)
    requires concurrency >= 1 && Finished(Run(FailFast, outcomes, Start(|outcomes|, concurrency), schedule))
    ensures var s := Run(FailFast, outcomes, Start(|outcomes|, concurrency), schedule);
            && (s.errors == [] <==> AllDone(outcomes))
            && (forall i :: i in s.errors ==> i < |outcomes| && outcomes[i].Failure?)
            && (s.errors == [] ==> |s.results| == |outcomes| && forall i :: 0 <= i < |outcomes| ==> outcomes[i].Done? && s.results[i] == Some(outcomes[i].value))
  {
    RunKeepsInv(FailFast, outcomes, concurrency, schedule);
    var s := Run(FailFast, outcomes, Start(|outcomes|, concurrency), schedule);
    FinishedSettled(FailFast, outcomes, s);
    if s.errors != [] {
      assert s.errors[0] in s.errors;
    } else {
      assert |s.claims| == |outcomes|;
      forall i | 0 <= i < |outcomes| ensures outcomes[i].Done? { assert i !in s.errors; }
    }
  }

  function Failures<R>(outcomes: seq<Outcome<R>>, upTo: nat): set<nat> {
    set i | 0 <= i < upTo && i < |outcomes| && outcomes[i].Failure?
  }

  /** The abortable pool, whatever the interleaving: what it reports are exactly the failures among
      the items it started, each once, and unless aborted it started every item. */
  lemma CollectsEveryFailure<R>(outcomes: seq<Outcome<R>>, concurrency: nat, schedule: seq<Event>)
    requires concurrency >= 1 && Finished(Run(CollectAll, outcomes, Start(|outcomes|, concurrency), schedule))
    ensures var s := Run(CollectAll, outcomes, Start(|outcomes|, concurrency), schedule);
            && multiset(s.errors) == multiset(Failures(outcomes, |s.claims|))
            && (Abort !in schedule ==> |s.claims| == |outcomes|)
  {
    var s := Run(CollectAll, outcomes, Start(|outcomes|, concurrency), schedule);
    RunKeepsInv(CollectAll, outcomes, concurrency, schedule);
    FinishedSettled(CollectAll, outcomes, s);
    AbortedMeansStopped(outcomes, concurrency, schedule);
    NoRepeats(s.errors);
    assert (set i | i in s.errors) == Failures(outcomes, |s.claims|);
  }

  lemma {:induction false} NoRepeats(a: seq<nat>)
    requires forall j, k :: 0 <= j < k < |a| ==> a[j] != a[k]
    ensures multiset(a) == multiset(set i | i in a)
  {
    if a != [] {
      var b := a[..|a| - 1];
      NoRepeats(b);
      assert a == b + [a[|a| - 1]];
      assert (set i | i in a) == (set i | i in b) + {a[|a| - 1]};
    }
  }

  /** What a scheduler needs of one turn: the run grows by it, the bound falls, and the index being
      worked on exists. */
  lemma TurnTaken<R>(rule: Rule, outcomes: seq<Outcome<R>>, concurrency: nat, schedule: seq<Event>, w: nat)
    requires Live(Run(rule, outcomes, Start(|outcomes|, concurrency), schedule), w)
    ensures var s := Run(rule, outcomes, Start(|outcomes|, concurrency), schedule);
            var t := After(rule, outcomes, s, Turn(w));
            && Run(rule, outcomes, Start(|outcomes|, concurrency), schedule + [Turn(w)]) == t
            && TurnsLeft(|outcomes|, t) < TurnsLeft(|outcomes|, s)
            && |s.results| == |outcomes|
            && (s.workers[w].Running? ==> s.workers[w].index < |outcomes|)
  {
    RunKeepsInv(rule, outcomes, concurrency, schedule);
    EveryTurnCounts(rule, outcomes, Run(rule, outcomes, Start(|outcomes|, concurrency), schedule), w);
    RunConcat(rule, outcomes, Start(|outcomes|, concurrency), schedule, [Turn(w)]);
  }

  // ----- the calls

  datatype Settled<R> = Resolved(values: seq<R>) | Rejected(reasons: seq<string>) | BadConcurrency

  function OutcomesOf<T, R>(items: seq<T>, operation: (T, nat) -> Outcome<R>): (r: seq<Outcome<R>>) {
    seq(|items|, i requires 0 <= i < |items| => operation(items[i], i))
  }

  /** Which live worker moves is left open at every turn. */
  method MapBounded<T, R(0)>(items: seq<T>, concurrency: int, operation: (T, nat) -> Outcome<R>)
    returns (r: Settled<R>)
    ensures r.BadConcurrency? <==> !(1 <= concurrency <= 64)
    ensures 1 <= concurrency <= 64 ==> (r.Resolved? <==> AllDone(OutcomesOf(items, operation)))
    ensures r.Resolved? ==> |r.values| == |items| && forall i :: 0 <= i < |items| ==> operation(items[i], i) == Done(r.values[i])
    ensures r.Rejected? ==> |r.reasons| == 1 && exists i :: 0 <= i < |items| && operation(items[i], i) == Failure(r.reasons[0])
  {
    if concurrency < 1 || concurrency > 64 { return BadConcurrency; }
    var n := |items|;
    var results := new Option<R>[n](_ => None);
    var cursor, failed, rejections := 0, false, [];
    var workers := seq(Min(concurrency, n), i => Idle);
    ghost var outcomes := OutcomesOf(items, operation);
    ghost var schedule: seq<Event> := [];
    ghost var claims: seq<Claim> := [];
    ghost var errors: seq<nat> := [];
    assert results[..] == Start<R>(n, concurrency).results;
    while exists w :: 0 <= w < |workers| && (workers[w].Idle? || workers[w].Running?)
      invariant Run(FailFast, outcomes, Start(n, concurrency), schedule) == Pool(cursor, failed, results[..], errors, workers, claims)
      invariant |rejections| == |errors| && forall k :: 0 <= k < |errors| ==> errors[k] < n && outcomes[errors[k]] == Failure(rejections[k])
      decreases TurnsLeft(n, Pool(cursor, failed, results[..], errors, workers, claims))
    {
      var w :| 0 <= w < |workers| && (workers[w].Idle? || workers[w].Running?);
      ghost var s := Pool(cursor, failed, results[..], errors, workers, claims);
      TurnTaken(FailFast, outcomes, concurrency, schedule, w);
      if workers[w].Idle? {
        if cursor < n && !failed {
          claims := claims + [Claim(w, cursor)];
          workers := workers[w := Running(cursor)];
          cursor := cursor + 1;
        } else {
          workers := workers[w := Returned];
        }
      } else {
        var index := workers[w].index;
        match operation(items[index], index) {
          case Done(value) =>
            results[index] := Some(value);
            workers := workers[w := Idle];
          case Failure(reason) =>
            failed := true;
            rejections := rejections + [reason];
            errors := errors + [index];
            workers := workers[w := Threw];
        }
      }
      schedule := schedule + [Turn(w)];
      assert Pool(cursor, failed, results[..], errors, workers, claims) == After(FailFast, outcomes, s, Turn(w));
    }
    MapMeansAll(outcomes, concurrency, schedule);
    if rejections != [] {
      assert outcomes[errors[0]] == operation(items[errors[0]], errors[0]);
      return Rejected([rejections[0]]);
    }
    var values := [];
    for i := 0 to n
      invariant |values| == i
      invariant forall k :: 0 <= k < i ==> operation(items[k], k) == Done(values[k])
    {
      assert results[..][i] == Some(outcomes[i].value);
      values := values + [results[i].value];
    }
    return Resolved(values);
  }

  /** The abort signal may be raised between any two turns. `started` is how many items were
      attempted. */
  method RunBounded<T>(items: seq<T>, concurrency: int, operation: (T, nat) -> Outcome<()>)
    returns (r: Settled<()>, ghost started: nat, ghost aborted: bool)
    ensures r.BadConcurrency? <==> concurrency < 1
    ensures started <= |items| && (concurrency >= 1 && !aborted ==> started == |items|)
    ensures concurrency >= 1 ==> (r.Resolved? <==> forall i :: 0 <= i < started ==> operation(items[i], i).Done?)
    ensures r.Rejected? ==> ReasonsOfAll(items, operation, started, r.reasons)
  {
    if concurrency < 1 { return BadConcurrency, 0, false; }
    var n := |items|;
    var next, errors, signalled := 0, [], false;
    var workers := seq(Min(concurrency, n), i => Idle);
    ghost var outcomes := OutcomesOf(items, operation);
    ghost var schedule: seq<Event> := [];
    ghost var s: Pool<()> := Start(n, concurrency);
    while exists w :: 0 <= w < |workers| && (workers[w].Idle? || workers[w].Running?)
      invariant s == Run(CollectAll, outcomes, Start(n, concurrency), schedule)
      invariant s.cursor == next && s.stopped == signalled && s.workers == workers
      invariant ReasonsOf(s.errors, items, operation, errors)
      decreases TurnsLeft(n, s)
    {
      var abort: bool := *;
      if abort {
        RunConcat(CollectAll, outcomes, Start(n, concurrency), schedule, [Abort]);
        schedule, s, signalled := schedule + [Abort], s.(stopped := true), true;
      }
      var w :| 0 <= w < |workers| && (workers[w].Idle? || workers[w].Running?);
      TurnTaken(CollectAll, outcomes, concurrency, schedule, w);
      if workers[w].Idle? {
        if signalled {
          workers := workers[w := Returned];
        } else {
          var index := next;
          next := next + 1;
          workers := workers[w := if index >= n then Returned else Running(index)];
        }
      } else {
        var index := workers[w].index;
        match operation(items[index], index) {
          case Done(_) =>
          case Failure(reason) =>
            ReasonsGrow(s.errors, items, operation, errors, index);
            errors := errors + [reason];
        }
        workers := workers[w := Idle];
      }
      schedule := schedule + [Turn(w)];
      s := After(CollectAll, outcomes, s, Turn(w));
    }
    Reported(items, concurrency, operation, schedule, errors);
    started, aborted := |s.claims|, signalled;
    r := if errors == [] then Resolved([]) else Rejected(errors);
  }

  lemma ReasonsGrow<T>(failures: seq<nat>, items: seq<T>, operation: (T, nat) -> Outcome<()>, reasons: seq<string>, i: nat)
    requires ReasonsOf(failures, items, operation, reasons)
    requires i < |items| && operation(items[i], i).Failure?
    ensures ReasonsOf(failures + [i], items, operation, reasons + [operation(items[i], i).reason])
  {
  }

  lemma NoFailures<R>(outcomes: seq<Outcome<R>>, errors: seq<nat>, started: nat)
    requires started <= |outcomes| && multiset(errors) == multiset(Failures(outcomes, started))
    ensures errors == [] <==> forall i :: 0 <= i < started ==> outcomes[i].Done?
  {
    if errors != [] {
      assert errors[0] in multiset(errors);
      assert errors[0] in Failures(outcomes, started);
    } else {
      forall i | 0 <= i < started ensures outcomes[i].Done? {
        assert i !in multiset(errors);
        assert i !in Failures(outcomes, started);
      }
    }
  }

  /** One reason for each failure among the first `started` items, in some order. */
  ghost predicate ReasonsOfAll<T>(items: seq<T>, operation: (T, nat) -> Outcome<()>, started: nat, reasons: seq<string>) {
    exists failures: seq<nat> ::
      && multiset(failures) == multiset(Failures(OutcomesOf(items, operation), started))
      && ReasonsOf(failures, items, operation, reasons)
  }

  lemma Reported<T>(items: seq<T>, concurrency: nat, operation: (T, nat) -> Outcome<()>, schedule: seq<Event>, reasons: seq<string>)
    requires concurrency >= 1
    requires Finished(Run(CollectAll, OutcomesOf(items, operation), Start(|items|, concurrency), schedule))
    requires ReasonsOf(Run(CollectAll, OutcomesOf(items, operation), Start(|items|, concurrency), schedule).errors,
                       items, operation, reasons)
    ensures var s := Run(CollectAll, OutcomesOf(items, operation), Start(|items|, concurrency), schedule);
            && |s.claims| <= |items|
            && (!s.stopped ==> |s.claims| == |items|)
            && (reasons == [] <==> forall i :: 0 <= i < |s.claims| ==> operation(items[i], i).Done?)
            && ReasonsOfAll(items, operation, |s.claims|, reasons)
  {
    var outcomes := OutcomesOf(items, operation);
    var s := Run(CollectAll, outcomes, Start(|items|, concurrency), schedule);
    AbortedMeansStopped(outcomes, concurrency, schedule);
    PoolSafety(CollectAll, outcomes, concurrency, schedule);
    CollectsEveryFailure(outcomes, concurrency, schedule);
    NoFailures(outcomes, s.errors, |s.claims|);
    assert forall i :: 0 <= i < |s.claims| ==> outcomes[i] == operation(items[i], i);
  }

  /** The reasons are those of the listed failures, in that order. */
  ghost predicate ReasonsOf<T>(failures: seq<nat>, items: seq<T>, operation: (T, nat) -> Outcome<()>, reasons: seq<string>) {
    |reasons| == |failures|
    && forall k :: 0 <= k < |failures| ==> failures[k] < |items| && operation(items[failures[k]], failures[k]) == Failure(reasons[k])
  }
}
