/** The graph writer's connection: one connect attempt at a time, a generation counter that a close
    bumps, and the retry loop of a write. Between awaits the writer's fields change in one step, so
    a schedule of events describes an interleaving of connects, closes and failures. */
module Connection {
  import opened Basics

  /** How far the asynchronous body of one connect attempt has come. */
  datatype Phase = AwaitHeaders | AwaitOpen(conn: nat) | AwaitClose(conn: nat) | Resolved(conn: nat) | Failed

  /** `tidied`: the attempt's `finally` has run. */
  datatype Attempt = Attempt(generation: nat, phase: Phase, tidied: bool)

  /** The writer's four fields, and beside them what the environment holds: every attempt so far, the
      attempt that created each connection, the connections that are open, and those that were told
      to close. A repository is named by the connection it was made over. */
  datatype Link = Link(connection: Option<nat>, repository: Option<nat>, connecting: Option<nat>, generation: nat,
                       attempts: seq<Attempt>, owners: seq<nat>, open: set<nat>, closing: set<nat>)

  datatype Event =
    | GetRepository
    | HeadersReady(attempt: nat) | HeadersFailed(attempt: nat)
    | SocketOpens(attempt: nat) | Opened(attempt: nat) | OpenFailed(attempt: nat)
    | CloseSettled(attempt: nat) | Tidy(attempt: nat)
    | SocketDrops(conn: nat)
    | Close

  const Fresh: Link := Link(None, None, None, 0, [], [], {}, {})

  predicate HandsOutRepository(s: Link) {
    s.connection.Some? && s.connection.value in s.open && s.repository.Some?
  }

  function At(s: Link, a: nat): Option<Phase> {
    if a < |s.attempts| && !s.attempts[a].tidied then Some(s.attempts[a].phase) else None
  }

  function Enter(s: Link, a: nat, phase: Phase): Link
    requires a < |s.attempts|
  {
    s.(attempts := s.attempts[a := s.attempts[a].(phase := phase)])
  }

  function Ask(s: Link): Link {
    if HandsOutRepository(s) || s.connecting.Some? then s
    else s.(attempts := s.attempts + [Attempt(s.generation, AwaitHeaders, false)], connecting := Some(|s.attempts|))
  }

  function Connect(s: Link, a: nat): Link
    requires a < |s.attempts|
  {
    if s.attempts[a].generation != s.generation then Enter(s, a, Failed)
    else Enter(s, a, AwaitOpen(|s.owners|)).(owners := s.owners + [a], connection := Some(|s.owners|))
  }

  function Reject(s: Link, a: nat, c: nat): Link
    requires a < |s.attempts|
  {
    Enter(s, a, AwaitClose(c)).(connection := if s.connection == Some(c) then None else s.connection,
                                closing := s.closing + {c})
  }

  function Install(s: Link, a: nat, c: nat): Link
    requires a < |s.attempts|
  {
    if s.attempts[a].generation != s.generation then Reject(s, a, c)
    else Enter(s, a, Resolved(c)).(repository := Some(c))
  }

  function Finish(s: Link, a: nat): Link
    requires a < |s.attempts|
  {
    s.(attempts := s.attempts[a := s.attempts[a].(tidied := true)],
       connecting := if s.connecting == Some(a) then None else s.connecting)
  }

  function Shut(s: Link): Link {
    s.(generation := s.generation + 1, connection := None, repository := None, connecting := None,
       closing := if s.connection.Some? then s.closing + {s.connection.value} else s.closing)
  }

  function After(s: Link, e: Event): Link {
    match e
    case GetRepository => Ask(s)
    case HeadersReady(a) => if At(s, a) == Some(AwaitHeaders) then Connect(s, a) else s
    case HeadersFailed(a) => if At(s, a) == Some(AwaitHeaders) then Enter(s, a, Failed) else s
    case SocketOpens(a) =>
      if At(s, a).Some? && At(s, a).value.AwaitOpen? then s.(open := s.open + {At(s, a).value.conn}) else s
    case Opened(a) =>
      if At(s, a).Some? && At(s, a).value.AwaitOpen? then Install(s, a, At(s, a).value.conn) else s
    case OpenFailed(a) =>
      if At(s, a).Some? && At(s, a).value.AwaitOpen? then Reject(s, a, At(s, a).value.conn) else s
    case CloseSettled(a) =>
      if At(s, a).Some? && At(s, a).value.AwaitClose? then Enter(s, a, Failed) else s
    case Tidy(a) =>
      if At(s, a).Some? && (At(s, a).value.Resolved? || At(s, a).value.Failed?) then Finish(s, a) else s
    case SocketDrops(c) => s.(open := s.open - {c})
    case Close => Shut(s)
  }

  function Run(s: Link, schedule: seq<Event>): Link
    decreases |schedule|
  {
    if schedule == [] then s else After(Run(s, schedule[..|schedule| - 1]), schedule[|schedule| - 1])
  }

  // ----- what every step keeps

  predicate AttemptOk(s: Link, a: nat)
    requires a < |s.attempts|
  {
    var t := s.attempts[a];
    && t.generation <= s.generation
    && (t.generation == s.generation && !t.tidied ==> s.connecting == Some(a))
    && (t.tidied ==> t.phase.Resolved? || t.phase.Failed?)
    && (t.phase.AwaitOpen? || t.phase.AwaitClose? || t.phase.Resolved? ==>
          t.phase.conn < |s.owners| && s.owners[t.phase.conn] == a)
    && (t.phase.AwaitOpen? && t.generation == s.generation ==> s.connection == Some(t.phase.conn))
  }

  /** A connection is current, was told to close, or was lost after its attempt had succeeded. */
  predicate ConnectionOk(s: Link, c: nat)
    requires c < |s.owners|
  {
    && s.owners[c] < |s.attempts|
    && !s.attempts[s.owners[c]].phase.AwaitHeaders?
    && (s.connection == Some(c) || c in s.closing || (c !in s.open && s.attempts[s.owners[c]].phase == Resolved(c)))
  }

  predicate FieldsOk(s: Link) {
    && (s.connecting.Some? ==>
          var a := s.connecting.value;
          a < |s.attempts| && s.attempts[a].generation == s.generation && !s.attempts[a].tidied
          && (s.attempts[a].phase.AwaitHeaders? && s.connection.Some? ==> s.connection.value !in s.open))
    && (s.repository.Some? ==>
          var c := s.repository.value;
          c < |s.owners| && s.owners[c] < |s.attempts| && s.attempts[s.owners[c]] .generation == s.generation
          && s.attempts[s.owners[c]].phase == Resolved(c))
    && (s.connection.Some? ==>
          var c := s.connection.value;
          c < |s.owners| && s.owners[c] < |s.attempts| && s.attempts[s.owners[c]].generation == s.generation
          && (s.attempts[s.owners[c]].phase == AwaitOpen(c)
              || (s.attempts[s.owners[c]].phase == Resolved(c) && s.repository == Some(c))))
  }

  ghost predicate Inv(s: Link) {
    && (forall a :: 0 <= a < |s.attempts| ==> AttemptOk(s, a))
    && (forall c :: 0 <= c < |s.owners| ==> ConnectionOk(s, c))
    && (forall c :: c in s.open ==> c < |s.owners|)
    && FieldsOk(s)
  }

  lemma ConnectKeepsInv(s: Link, a: nat)
    requires Inv(s) && At(s, a) == Some(AwaitHeaders)
    ensures Inv(Connect(s, a))
  {
    var t := Connect(s, a);
    assert AttemptOk(s, a);
    if s.connection.Some? { assert AttemptOk(s, s.owners[s.connection.value]); }
    forall b | 0 <= b < |t.attempts| ensures AttemptOk(t, b) { assert AttemptOk(s, b); }
    forall c | 0 <= c < |t.owners| ensures ConnectionOk(t, c) {
      if c < |s.owners| { assert ConnectionOk(s, c); }
    }
  }

  lemma InstallKeepsInv(s: Link, a: nat, c: nat)
    requires Inv(s) && At(s, a) == Some(AwaitOpen(c))
    ensures Inv(Install(s, a, c)) && Inv(Reject(s, a, c))
  {
    assert AttemptOk(s, a);
    forall b | 0 <= b < |s.attempts| ensures AttemptOk(Install(s, a, c), b) && AttemptOk(Reject(s, a, c), b) {
      assert AttemptOk(s, b);
    }
    forall d | 0 <= d < |s.owners| ensures ConnectionOk(Install(s, a, c), d) && ConnectionOk(Reject(s, a, c), d) {
      assert ConnectionOk(s, d);
    }
  }

  lemma SocketKeepsInv(s: Link, a: nat)
    requires Inv(s) && At(s, a).Some?
    ensures Inv(After(s, SocketOpens(a)))
  {
    var t := After(s, SocketOpens(a));
    assert AttemptOk(s, a);
    forall b | 0 <= b < |s.attempts| ensures AttemptOk(t, b) { assert AttemptOk(s, b); }
    forall c | 0 <= c < |s.owners| ensures ConnectionOk(t, c) { assert ConnectionOk(s, c); }
  }

  lemma AskKeepsInv(s: Link)
    requires Inv(s)
    ensures Inv(Ask(s))
  {
    if s.connection.Some? { assert AttemptOk(s, s.owners[s.connection.value]); }
    forall b | 0 <= b < |Ask(s).attempts| ensures AttemptOk(Ask(s), b) {
      if b < |s.attempts| { assert AttemptOk(s, b); }
    }
    forall c | 0 <= c < |s.owners| ensures ConnectionOk(Ask(s), c) { assert ConnectionOk(s, c); }
  }

  lemma EndingKeepsInv(s: Link, a: nat)
    requires Inv(s) && At(s, a).Some?
    ensures At(s, a).value.AwaitHeaders? || At(s, a).value.AwaitClose? ==> Inv(Enter(s, a, Failed))
    ensures At(s, a).value.Resolved? || At(s, a).value.Failed? ==> Inv(Finish(s, a))
  {
    var phase := At(s, a).value;
    assert AttemptOk(s, a);
    if phase.AwaitHeaders? || phase.AwaitClose? {
      var t := Enter(s, a, Failed);
      forall b | 0 <= b < |s.attempts| ensures AttemptOk(t, b) { assert AttemptOk(s, b); }
      forall c | 0 <= c < |s.owners| ensures ConnectionOk(t, c) { assert ConnectionOk(s, c); }
    } else if phase.Resolved? || phase.Failed? {
      var t := Finish(s, a);
      forall b | 0 <= b < |s.attempts| ensures AttemptOk(t, b) { assert AttemptOk(s, b); }
      forall c | 0 <= c < |s.owners| ensures ConnectionOk(t, c) { assert ConnectionOk(s, c); }
    }
  }

  lemma ShutKeepsInv(s: Link)
    requires Inv(s)
    ensures Inv(Shut(s))
  {
    forall b | 0 <= b < |s.attempts| ensures AttemptOk(Shut(s), b) { assert AttemptOk(s, b); }
    forall c | 0 <= c < |s.owners| ensures ConnectionOk(Shut(s), c) { assert ConnectionOk(s, c); }
  }

  lemma DropKeepsInv(s: Link, conn: nat)
    requires Inv(s)
    ensures Inv(s.(open := s.open - {conn}))
  {
    var t := s.(open := s.open - {conn});
    forall b | 0 <= b < |s.attempts| ensures AttemptOk(t, b) { assert AttemptOk(s, b); }
    forall c | 0 <= c < |s.owners| ensures ConnectionOk(t, c) { assert ConnectionOk(s, c); }
  }

  lemma StepKeepsInv(s: Link, e: Event)
    requires Inv(s)
    ensures Inv(After(s, e))
  {
    match e
    case GetRepository => AskKeepsInv(s);
    case HeadersReady(a) => if At(s, a) == Some(AwaitHeaders) { ConnectKeepsInv(s, a); }
    case SocketOpens(a) => if At(s, a).Some? { SocketKeepsInv(s, a); }
    case Opened(a) => if At(s, a).Some? && At(s, a).value.AwaitOpen? { InstallKeepsInv(s, a, At(s, a).value.conn); }
    case OpenFailed(a) => if At(s, a).Some? && At(s, a).value.AwaitOpen? { InstallKeepsInv(s, a, At(s, a).value.conn); }
    case HeadersFailed(a) => if At(s, a).Some? { EndingKeepsInv(s, a); }
    case CloseSettled(a) => if At(s, a).Some? { EndingKeepsInv(s, a); }
    case Tidy(a) => if At(s, a).Some? { EndingKeepsInv(s, a); }
    case SocketDrops(c) => DropKeepsInv(s, c);
    case Close => ShutKeepsInv(s);
  }

  lemma {:induction false} RunKeepsInv(s: Link, schedule: seq<Event>)
    requires Inv(s)
    ensures Inv(Run(s, schedule))
    decreases |schedule|
  {
    if schedule != [] {
      RunKeepsInv(s, schedule[..|schedule| - 1]);
      StepKeepsInv(Run(s, schedule[..|schedule| - 1]), schedule[|schedule| - 1]);
    }
  }

  // ----- main results, over every interleaving from a new writer

  /** An unfinished attempt of the current generation. */
  predicate Pending(s: Link, a: nat) {
    a < |s.attempts| && s.attempts[a].generation == s.generation && !s.attempts[a].tidied
  }

  /** A connection whose attempt began before the last close. */
  predicate Overtaken(s: Link, c: nat) {
    c < |s.owners| && s.owners[c] < |s.attempts| && s.attempts[s.owners[c]].generation < s.generation
  }

  /** Single flight: two unfinished attempts of the current generation are the same attempt, and it is
      the one later callers join. */
  lemma OneAttemptAtATime(schedule: seq<Event>, a: nat, b: nat)
    requires Pending(Run(Fresh, schedule), a) && Pending(Run(Fresh, schedule), b)
    ensures a == b && Run(Fresh, schedule).connecting == Some(a)
  {
    RunKeepsInv(Fresh, schedule);
    var s := Run(Fresh, schedule);
    assert AttemptOk(s, a) && AttemptOk(s, b);
  }

  /** No connection leaks: one that is open is the current one or has been told to close. */
  lemma NoConnectionLeaks(schedule: seq<Event>, c: nat)
    requires c in Run(Fresh, schedule).open
    ensures Run(Fresh, schedule).connection == Some(c) || c in Run(Fresh, schedule).closing
  {
    RunKeepsInv(Fresh, schedule);
    assert ConnectionOk(Run(Fresh, schedule), c);
  }

  /** A connection created by an attempt that a close has overtaken was told to close, unless it was
      already lost when its attempt had long succeeded. */
  lemma OvertakenConnectionsAreClosed(schedule: seq<Event>, c: nat)
    requires Overtaken(Run(Fresh, schedule), c)
    ensures var s := Run(Fresh, schedule);
            c in s.closing || (c !in s.open && s.attempts[s.owners[c]].phase == Resolved(c))
  {
    RunKeepsInv(Fresh, schedule);
    assert ConnectionOk(Run(Fresh, schedule), c);
  }

  /** Whatever `s` holds belongs to attempts numbered `from` or later, and earlier attempts are of
      older generations. */
  ghost predicate OnlySince(s: Link, from: nat) {
    && from <= |s.attempts|
    && (forall a :: 0 <= a < from ==> s.attempts[a].generation < s.generation)
    && (s.repository.Some? ==> s.repository.value < |s.owners| && s.owners[s.repository.value] >= from)
    && (s.connection.Some? ==> s.connection.value < |s.owners| && s.owners[s.connection.value] >= from)
  }

  lemma InstallStaysSince(s: Link, from: nat, a: nat, c: nat)
    requires Inv(s) && OnlySince(s, from) && At(s, a) == Some(AwaitOpen(c))
    ensures OnlySince(Install(s, a, c), from) && OnlySince(Reject(s, a, c), from)
  {
    assert AttemptOk(s, a);
  }

  lemma ConnectStaysSince(s: Link, from: nat, a: nat)
    requires Inv(s) && OnlySince(s, from) && At(s, a) == Some(AwaitHeaders)
    ensures OnlySince(Connect(s, a), from)
  {
    assert AttemptOk(s, a);
  }

  lemma EndingStaysSince(s: Link, from: nat, a: nat)
    requires OnlySince(s, from) && a < |s.attempts|
    ensures OnlySince(Enter(s, a, Failed), from) && OnlySince(Finish(s, a), from)
  {
  }

  lemma AskStaysSince(s: Link, from: nat)
    requires OnlySince(s, from)
    ensures OnlySince(Ask(s), from)
  {
  }

  lemma ShutStaysSince(s: Link, from: nat)
    requires OnlySince(s, from)
    ensures OnlySince(Shut(s), from)
  {
  }

  lemma OnlyAskingBegins(s: Link, e: Event)
    requires !e.GetRepository?
    ensures |After(s, e).attempts| == |s.attempts|
  {
  }

  lemma StepStaysSince(s: Link, from: nat, e: Event)
    requires Inv(s) && OnlySince(s, from)
    ensures OnlySince(After(s, e), from)
  {
    match e
    case Opened(a) =>
      if At(s, a).Some? && At(s, a).value.AwaitOpen? { InstallStaysSince(s, from, a, At(s, a).value.conn); }
    case OpenFailed(a) =>
      if At(s, a).Some? && At(s, a).value.AwaitOpen? { InstallStaysSince(s, from, a, At(s, a).value.conn); }
    case HeadersReady(a) => if At(s, a) == Some(AwaitHeaders) { ConnectStaysSince(s, from, a); }
    case HeadersFailed(a) => if At(s, a).Some? { EndingStaysSince(s, from, a); }
    case CloseSettled(a) => if At(s, a).Some? { EndingStaysSince(s, from, a); }
    case Tidy(a) => if At(s, a).Some? { EndingStaysSince(s, from, a); }
    case GetRepository => AskStaysSince(s, from);
    case Close => ShutStaysSince(s, from);
    case _ =>
  }

  lemma {:induction false} StaysSince(s: Link, from: nat, schedule: seq<Event>)
    requires Inv(s) && OnlySince(s, from)
    ensures OnlySince(Run(s, schedule), from)
    ensures GetRepository !in schedule ==> |Run(s, schedule).attempts| == |s.attempts|
    decreases |schedule|
  {
    if schedule != [] {
      var before := schedule[..|schedule| - 1];
      StaysSince(s, from, before);
      RunKeepsInv(s, before);
      StepStaysSince(Run(s, before), from, schedule[|schedule| - 1]);
      if !schedule[|schedule| - 1].GetRepository? { OnlyAskingBegins(Run(s, before), schedule[|schedule| - 1]); }
    }
  }

  /** An attempt begun before a close never installs anything after it: from the close on, the current
      connection and repository belong to attempts begun after it. If nobody asks again, the writer
      stays empty, and every connection still open has been told to close. */
  lemma NothingInstalledAcrossClose(earlier: seq<Event>, later: seq<Event>)
    ensures var n := |Run(Fresh, earlier).attempts|;
            var t := Run(Shut(Run(Fresh, earlier)), later);
            && OnlySince(t, n)
            && (GetRepository !in later ==> t.connection.None? && t.repository.None? && t.open <= t.closing)
  {
    var s := Run(Fresh, earlier);
    RunKeepsInv(Fresh, earlier);
    forall a | 0 <= a < |s.attempts| ensures s.attempts[a].generation < Shut(s).generation {
      assert AttemptOk(s, a);
    }
    StepKeepsInv(s, Close);
    StaysSince(Shut(s), |s.attempts|, later);
    RunKeepsInv(Shut(s), later);
    var t := Run(Shut(s), later);
    forall c | c in t.open ensures ConnectionOk(t, c) {}
  }

  /** When a caller is handed the stored repository, it is the current connection's exactly when that
      connection is not still being opened. */
  lemma HandedOutIsCurrentExactlyWhen(schedule: seq<Event>)
    requires HandsOutRepository(Run(Fresh, schedule))
    ensures var s := Run(Fresh, schedule);
            s.repository == s.connection
            <==> !(exists a :: 0 <= a < |s.attempts| && s.attempts[a].phase == AwaitOpen(s.connection.value))
  {
    RunKeepsInv(Fresh, schedule);
    var s := Run(Fresh, schedule);
    forall a | 0 <= a < |s.attempts| && s.attempts[a].phase == AwaitOpen(s.connection.value)
      ensures a == s.owners[s.connection.value]
    {
      assert AttemptOk(s, a);
    }
  }

  /** The other case happens: a connection drops, its replacement is open but its attempt has not
      resumed, and a caller is handed the repository of the dropped one. */
  lemma StaleRepositoryHandedOut()
    ensures exists schedule ::
              var s := Run(Fresh, schedule);
              HandsOutRepository(s) && s.repository == Some(0) && s.connection == Some(1) && 0 !in s.open
  {
    var first := [GetRepository, HeadersReady(0), SocketOpens(0), Opened(0), Tidy(0)];
    var second := [SocketDrops(0), GetRepository, HeadersReady(1), SocketOpens(1)];
    var s0 := Link(Some(0), Some(0), None, 0, [Attempt(0, Resolved(0), true)], [0], {0}, {});
    assert Run(Fresh, first) == s0 by { RunFive(Fresh, first); }
    var s1 := Run(s0, second);
    RunFour(s0, second);
    RunConcat(Fresh, first, second);
    assert HandsOutRepository(Run(Fresh, first + second));
  }

  lemma {:induction false} RunConcat(s: Link, a: seq<Event>, b: seq<Event>)
    ensures Run(s, a + b) == Run(Run(s, a), b)
    decreases |b|
  {
    if b == [] {
      assert a + b == a;
    } else {
      RunConcat(s, a, b[..|b| - 1]);
      assert (a + b)[..|a + b| - 1] == a + b[..|b| - 1];
    }
  }

  lemma RunOne(s: Link, e: Event)
    ensures Run(s, [e]) == After(s, e)
  {
    assert [e][..0] == [];
    assert Run(s, [e][..0]) == s;
  }

  lemma RunFour(s: Link, es: seq<Event>)
    requires |es| == 4
    ensures Run(s, es) == After(After(After(After(s, es[0]), es[1]), es[2]), es[3])
  {
    assert es[..3][..2] == es[..2] && es[..2][..1] == es[..1];
    assert Run(s, es[..1]) == After(Run(s, es[..1][..0]), es[0]);
    assert Run(s, es[..2]) == After(Run(s, es[..1]), es[1]);
    assert Run(s, es[..3]) == After(Run(s, es[..2]), es[2]);
  }

  lemma RunFive(s: Link, es: seq<Event>)
    requires |es| == 5
    ensures Run(s, es) == After(After(After(After(After(s, es[0]), es[1]), es[2]), es[3]), es[4])
  {
    RunFour(s, es[..4]);
  }

  // ----- the writer

  /** How the repository over some connection answers a write. */
  datatype Answer = Wrote | Refused(retryable: bool)

  /** One try: no repository could be had, or the one over `conn` was asked. */
  datatype Try = NoRepository(retryable: bool) | Asked(conn: nat, answer: Answer)

  predicate Succeeded(t: Try) { t.Asked? && t.answer.Wrote? }

  predicate Retryable(t: Try) {
    match t
    case NoRepository(retryable) => retryable
    case Asked(_, answer) => answer.Refused? && answer.retryable
  }

  /** A try ends in one of three ways: it wrote; it failed for good, by the repository's answer or because none
      could be had; or it failed so that another is worth making. */
  lemma TryEndsExactly(t: Try)
    ensures Succeeded(t) <==> t.Asked? && t.answer == Wrote
    ensures Retryable(t) <==> t == NoRepository(true) || (t.Asked? && t.answer == Refused(true))
    ensures !Succeeded(t) && !Retryable(t) <==> t == NoRepository(false) || (t.Asked? && t.answer == Refused(false))
  {
  }

  /** The connection was created by an attempt that opened it. */
  predicate WasOpened(s: Link, c: nat) {
    c < |s.owners| && s.owners[c] < |s.attempts| && s.attempts[s.owners[c]].phase == Resolved(c)
  }

  lemma {:induction false} OpenedStays(s: Link, schedule: seq<Event>, c: nat)
    requires Inv(s) && WasOpened(s, c)
    ensures WasOpened(Run(s, schedule), c)
    decreases |schedule|
  {
    if schedule != [] {
      OpenedStays(s, schedule[..|schedule| - 1], c);
      StepKeepsOpened(Run(s, schedule[..|schedule| - 1]), schedule[|schedule| - 1], c);
    }
  }

  lemma StepKeepsOpened(s: Link, e: Event, c: nat)
    requires WasOpened(s, c)
    ensures WasOpened(After(s, e), c)
  {
  }

  /** A repository handed out, stored or by an attempt that resolved, is over a connection that was opened. */
  lemma HandedWasOpened(s: Link, a: nat, c: nat)
    requires Inv(s)
    requires (HandsOutRepository(s) && s.repository == Some(c)) || (a < |s.attempts| && s.attempts[a].phase == Resolved(c))
    ensures WasOpened(s, c)
  {
    if a < |s.attempts| && s.attempts[a].phase == Resolved(c) { assert AttemptOk(s, a); }
  }

  /** The writer's four fields, and the environment's share of the state. */
  class NeptuneGraphWriter {
    var connection: Option<nat>
    var repository: Option<nat>
    var connecting: Option<nat>
    var generation: nat
    var attempts: seq<Attempt>
    var owners: seq<nat>
    var sockets: set<nat>
    var closing: set<nat>

    ghost function Value(): Link
      reads this
    {
      Link(connection, repository, connecting, generation, attempts, owners, sockets, closing)
    }

    constructor ()
      ensures Value() == Fresh
    {
      connection, repository, connecting, generation := None, None, None, 0;
      attempts, owners, sockets, closing := [], [], {}, {};
    }

    /** What a caller gets: the stored repository, or the attempt to wait for. */
    method GetRepository() returns (stored: Option<nat>, joined: Option<nat>)
      modifies this
      ensures Value() == After(old(Value()), Event.GetRepository)
      ensures stored == if HandsOutRepository(old(Value())) then old(repository) else None
      ensures joined == if stored.Some? then None else connecting
      ensures stored.Some? || joined.Some?
    {
      if connection.Some? && connection.value in sockets && repository.Some? { return repository, None; }
      if connecting.Some? { return None, connecting; }
      attempts := attempts + [Attempt(generation, AwaitHeaders, false)];
      connecting := Some(|attempts| - 1);
      return None, connecting;
    }

    /** The attempt resumes with headers, or with their failure. */
    method ResumeWithHeaders(a: nat, ok: bool)
      requires a < |attempts| && !attempts[a].tidied && attempts[a].phase == AwaitHeaders
      modifies this
      ensures Value() == After(old(Value()), if ok then HeadersReady(a) else HeadersFailed(a))
    {
      if !ok || attempts[a].generation != generation {
        attempts := attempts[a := attempts[a].(phase := Failed)];
        return;
      }
      var conn := |owners|;
      owners := owners + [a];
      connection := Some(conn);
      attempts := attempts[a := attempts[a].(phase := AwaitOpen(conn))];
    }

    /** The attempt resumes after `open` settled. */
    method ResumeAfterOpen(a: nat, ok: bool)
      requires a < |attempts| && !attempts[a].tidied && attempts[a].phase.AwaitOpen?
      modifies this
      ensures Value() == After(old(Value()), if ok then Opened(a) else OpenFailed(a))
    {
      var conn := attempts[a].phase.conn;
      if !ok || attempts[a].generation != generation {
        if connection == Some(conn) { connection := None; }
        closing := closing + {conn};
        attempts := attempts[a := attempts[a].(phase := AwaitClose(conn))];
        return;
      }
      repository := Some(conn);
      attempts := attempts[a := attempts[a].(phase := Resolved(conn))];
    }

    method TidyUp(a: nat)
      requires a < |attempts| && !attempts[a].tidied && (attempts[a].phase.Resolved? || attempts[a].phase.Failed?)
      modifies this
      ensures Value() == After(old(Value()), Tidy(a))
    {
      attempts := attempts[a := attempts[a].(tidied := true)];
      if connecting == Some(a) { connecting := None; }
    }

    method CloseConnection()
      modifies this
      ensures Value() == After(old(Value()), Close)
    {
      generation := generation + 1;
      var conn := connection;
      connection, repository, connecting := None, None, None;
      if conn.Some? { closing := closing + {conn.value}; }
    }

    /** While one caller waits, anything else may happen: other callers, closes, sockets opening and
        dropping, attempts resuming. */
    method Wait() returns (ghost schedule: seq<Event>)
      modifies this
      ensures Value() == Run(old(Value()), schedule)
    {
      ghost var start := Value();
      schedule := [];
      var more: bool, steps: nat := *, *;
      while more && steps > 0
        invariant Value() == Run(start, schedule)
      {
        ghost var before := Value();
        var choice: nat, a: nat, ok: bool := *, *, *;
        var live := a < |attempts| && !attempts[a].tidied;
        ghost var e := SocketDrops(a);
        if choice == 0 {
          var stored, joined := GetRepository();
          e := Event.GetRepository;
        } else if choice == 1 {
          CloseConnection();
          e := Close;
        } else if live && attempts[a].phase.AwaitHeaders? {
          ResumeWithHeaders(a, ok);
          e := if ok then HeadersReady(a) else HeadersFailed(a);
        } else if live && attempts[a].phase.AwaitOpen? && choice == 2 {
          sockets := sockets + {attempts[a].phase.conn};
          e := SocketOpens(a);
        } else if live && attempts[a].phase.AwaitOpen? {
          ResumeAfterOpen(a, ok);
          e := if ok then Opened(a) else OpenFailed(a);
        } else if live && attempts[a].phase.AwaitClose? {
          attempts := attempts[a := attempts[a].(phase := Failed)];
          e := CloseSettled(a);
        } else if live {
          TidyUp(a);
          e := Tidy(a);
        } else {
          sockets := sockets - {a};
        }
        RunConcat(start, schedule, [e]);
        RunOne(before, e);
        schedule := schedule + [e];
        more, steps := *, steps - 1;
      }
    }

    /** The repository a try works with: the stored one, or that of the attempt it waits for, unless
        the attempt fails or the wait is too long. */
    method AwaitRepository() returns (conn: Option<nat>, ghost schedule: seq<Event>)
      requires Inv(Value())
      modifies this
      ensures Value() == Run(old(Value()), schedule) && Inv(Value())
      ensures conn.Some? ==> WasOpened(Value(), conn.value)
    {
      ghost var start := Value();
      var stored, joined := GetRepository();
      schedule := [Event.GetRepository];
      RunOne(start, Event.GetRepository);
      RunKeepsInv(start, schedule);
      if stored.Some? {
        HandedWasOpened(start, |start.attempts|, stored.value);
        OpenedStays(start, schedule, stored.value);
        return stored, schedule;
      }
      ghost var meanwhile := Wait();
      RunConcat(start, schedule, meanwhile);
      schedule := schedule + meanwhile;
      RunKeepsInv(start, schedule);
      var tooLong: bool := *;
      conn := None;
      if !tooLong && joined.value < |attempts| && attempts[joined.value].phase.Resolved? {
        conn := Some(attempts[joined.value].phase.conn);
        HandedWasOpened(Value(), joined.value, conn.value);
      }
    }

    /** Closes, and waits for the connection to close and for the pause before the next try. */
    method Reset() returns (ghost schedule: seq<Event>)
      requires Inv(Value())
      modifies this
      ensures Value() == Run(old(Value()), schedule) && Inv(Value())
      ensures exists meanwhile :: Value() == Run(Shut(old(Value())), meanwhile)
    {
      ghost var start := Value();
      CloseConnection();
      RunOne(start, Close);
      ghost var meanwhile := Wait();
      RunConcat(start, [Close], meanwhile);
      schedule := [Close] + meanwhile;
      RunKeepsInv(start, schedule);
    }

    /** The k-th try: get a repository, ask it, and reset after a retryable failure. `answers` is how
        the repository over a connection answers that try; `fatal` whether not getting one is final. */
    method TryOnce(k: nat, answers: (nat, nat) -> Answer, fatal: nat -> bool) returns (t: Try, ghost schedule: seq<Event>)
      requires Inv(Value())
      modifies this
      ensures Value() == Run(old(Value()), schedule) && Inv(Value())
      ensures TryOf(k, answers, fatal, t) && (t.Asked? ==> WasOpened(Value(), t.conn))
    {
      ghost var start := Value();
      var conn;
      conn, schedule := AwaitRepository();
      t := NoRepository(!fatal(k));
      if conn.Some? {
        ghost var here := Value();
        ghost var meanwhile := Wait();
        RunConcat(start, schedule, meanwhile);
        schedule := schedule + meanwhile;
        RunKeepsInv(start, schedule);
        OpenedStays(here, meanwhile, conn.value);
        t := Asked(conn.value, answers(k, conn.value));
      }
      if Retryable(t) {
        ghost var here := Value();
        ghost var closing := Reset();
        RunConcat(start, schedule, closing);
        if t.Asked? { OpenedStays(here, closing, t.conn); }
        schedule := schedule + closing;
      }
    }

    /** Tries until one writes, one fails for good, or the budget is spent: every try but the last failed
        retryably. A try asks a repository at most once, only one over a connection that was opened, and
        the write succeeds exactly when the last one asked wrote. Every field change along the way is one
        of the events above. */
    method Write(maxAttempts: nat, answers: (nat, nat) -> Answer, fatal: nat -> bool)
      returns (ok: bool, ghost tries: seq<Try>, ghost schedule: seq<Event>)
      requires Inv(Value())
      modifies this
      ensures Value() == Run(old(Value()), schedule) && Inv(Value())
      ensures |tries| <= maxAttempts
      ensures AllOpened(Value(), tries, answers, fatal)
      ensures forall k :: 0 <= k < |tries| - 1 ==> Retryable(tries[k])
      ensures ok <==> tries != [] && Succeeded(tries[|tries| - 1])
      ensures !ok && |tries| < maxAttempts ==> tries != [] && !Retryable(tries[|tries| - 1])
    {
      ghost var start := Value();
      tries, schedule := [], [];
      for attempt := 1 to maxAttempts + 1
        invariant Value() == Run(start, schedule) && Inv(Value())
        invariant |tries| == attempt - 1 && forall k :: 0 <= k < |tries| ==> Retryable(tries[k])
        invariant AllOpened(Value(), tries, answers, fatal)
      {
        ghost var here := Value();
        ghost var more;
        var t;
        t, more := TryOnce(attempt, answers, fatal);
        RunConcat(start, schedule, more);
        OneMoreTry(here, more, tries, t, answers, fatal);
        schedule, tries := schedule + more, tries + [t];
        if !Retryable(t) || attempt == maxAttempts { return Succeeded(t), tries, schedule; }
      }
      ok := false;
    }
  }

  /** The try ended as the environment has it for that number. */
  ghost predicate TryOf(k: nat, answers: (nat, nat) -> Answer, fatal: nat -> bool, t: Try) {
    match t
    case NoRepository(retryable) => retryable == !fatal(k)
    case Asked(conn, answer) => answer == answers(k, conn)
  }

  ghost predicate AllOpened(s: Link, tries: seq<Try>, answers: (nat, nat) -> Answer, fatal: nat -> bool) {
    forall k :: 0 <= k < |tries| ==> TryOf(k + 1, answers, fatal, tries[k]) && (tries[k].Asked? ==> WasOpened(s, tries[k].conn))
  }

  lemma OneMoreTry(s: Link, schedule: seq<Event>, tries: seq<Try>, t: Try, answers: (nat, nat) -> Answer, fatal: nat -> bool)
    requires Inv(s) && AllOpened(s, tries, answers, fatal)
    requires TryOf(|tries| + 1, answers, fatal, t) && (t.Asked? ==> WasOpened(Run(s, schedule), t.conn))
    ensures AllOpened(Run(s, schedule), tries + [t], answers, fatal)
  {
    forall k | 0 <= k < |tries| && tries[k].Asked? ensures WasOpened(Run(s, schedule), tries[k].conn) {
      OpenedStays(s, schedule, tries[k].conn);
    }
  }
}
