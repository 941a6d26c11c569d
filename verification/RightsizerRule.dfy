/** The rightsizer, said of texts and times: what a use is called, which patterns stay, what an operation
    is shortened to, and what each kept pattern becomes. */
module RightsizerRule {
  import opened Glob
  import opened Policy
  import opened Rightsizer

  // ----- uses

  /** The service domain stands at place i. */
  predicate DomainAt(source: string, i: int)
    requires 0 <= i <= |source|
  {
    ".amazonaws.com" <= source[i..]
  }

  lemma FromOneOn(s: string, i: nat)
    requires s != "" && i <= |s| - 1
    ensures s[1..][i..] == s[i + 1..]
  {
  }

  lemma DomainFromOneOn(s: string, i: nat)
    requires s != "" && i <= |s| - 1
    ensures DomainAt(s[1..], i) == DomainAt(s, i + 1)
  {
    FromOneOn(s, i);
  }

  lemma StripsOne(s: string)
    requires s != "" && !DomainAt(s, 0)
    ensures StripDomain(s) == [s[0]] + StripDomain(s[1..])
  {
    assert s[0..] == s;
  }

  /** A use is named after its source, without the first service domain in it, and its event. */
  lemma {:induction false} DomainStripped(before: string, after: string)
    requires forall i :: 0 <= i < |before| ==> !DomainAt(before + ".amazonaws.com" + after, i)
    ensures StripDomain(before + ".amazonaws.com" + after) == before + after
    decreases |before|
  {
    var s := before + ".amazonaws.com" + after;
    if before == "" {
      assert s == ".amazonaws.com" + after && s[14..] == after;
    } else {
      assert s[1..] == before[1..] + ".amazonaws.com" + after;
      forall i | 0 <= i < |before[1..]| ensures !DomainAt(before[1..] + ".amazonaws.com" + after, i) { DomainFromOneOn(s, i); }
      DomainStripped(before[1..], after);
      StripsOne(s);
      assert [s[0]] + (before[1..] + after) == before + after;
    }
  }

  lemma {:induction false} NoDomainKept(source: string)
    requires forall i :: 0 <= i <= |source| ==> !DomainAt(source, i)
    ensures StripDomain(source) == source
    decreases |source|
  {
    if source != "" {
      forall i | 0 <= i <= |source[1..]| ensures !DomainAt(source[1..], i) { DomainFromOneOn(source, i); }
      NoDomainKept(source[1..]);
      StripsOne(source);
    }
  }

  /** Some use of the principal since the cutoff is matched by the pattern. */
  predicate UsedSince(pattern: string, used: seq<UsedAction>, principal: string, cutoff: int) {
    exists e :: e in used && e.principal == principal && cutoff <= e.lastUsed && IsActionMatched(pattern, StripDomain(e.eventSource) + ":" + e.eventName)
  }

  predicate LineBreakFree(s: string) {
    forall c :: c in s ==> c as int != 10 && c as int != 13 && c as int != 0x2028 && c as int != 0x2029
  }

  predicate CapitalAt(s: string, i: nat) { i < |s| && 'A' <= s[i] <= 'Z' }

  /** The pattern reads: after a colon on its first line it names a reading verb, most of them followed by a
      capital. */
  predicate Reads(pattern: string) {
    exists i :: 0 <= i < |pattern| && pattern[i] == ':' && LineBreakFree(pattern[..i]) && ReadingVerb(pattern[i + 1..])
  }

  predicate ReadingVerb(s: string) {
    || (exists v :: v in READ_VERBS_CAPITAL && v <= s && CapitalAt(s, |v|))
    || (exists v :: v in READ_VERBS && v <= s)
  }

  lemma LineBreaksSay(s: string)
    ensures LineBreakFree(s) <==> OneLine(s)
  {
    assert '\n' as int == 10 && '\r' as int == 13 && '\U{2028}' as int == 0x2028 && '\U{2029}' as int == 0x2029;
  }

  lemma VerbSays(s: string)
    ensures ReadingVerb(s) <==> ReadsAfter(s)
  {
    forall v: string ensures CapitalAt(s, |v|) <==> |v| < |s| && IsUpper(s[|v|]) {}
  }

  lemma ReadsAt(pattern: string, i: nat)
    requires i < |pattern|
    ensures LineBreakFree(pattern[..i]) <==> OneLine(pattern[..i])
    ensures ReadingVerb(pattern[i + 1..]) <==> ReadsAfter(pattern[i + 1..])
  {
    LineBreaksSay(pattern[..i]);
    VerbSays(pattern[i + 1..]);
  }

  lemma ReadsSay(pattern: string)
    ensures Reads(pattern) <==> IsReadOnlyAction(pattern)
  {
    if i :| 0 <= i < |pattern| && pattern[i] == ':' && LineBreakFree(pattern[..i]) && ReadingVerb(pattern[i + 1..]) { ReadsAt(pattern, i); }
    if i :| 0 <= i < |pattern| && pattern[i] == ':' && OneLine(pattern[..i]) && ReadsAfter(pattern[i + 1..]) { ReadsAt(pattern, i); }
  }

  /** A pattern stays exactly when a use since the cutoff matches it, or reads are kept and it reads. */
  lemma KeptExactlyWhen(allowed: seq<string>, used: seq<UsedAction>, principal: string, cutoff: int, keepReads: bool, pattern: string)
    ensures var names := NamesOf(RecentActions(used, principal, cutoff));
            && (pattern in Staying(allowed, names, keepReads, true)
                <==> pattern in allowed && (UsedSince(pattern, used, principal, cutoff) || (keepReads && Reads(pattern))))
            && (pattern in Staying(allowed, names, keepReads, false)
                <==> pattern in allowed && !UsedSince(pattern, used, principal, cutoff) && !(keepReads && Reads(pattern)))
  {
    var recent := RecentActions(used, principal, cutoff);
    var names := NamesOf(recent);
    StayingMembers(allowed, names, keepReads, true);
    StayingMembers(allowed, names, keepReads, false);
    RecentMembers(used, principal, cutoff);
    ReadsSay(pattern);
    UsedSays(pattern, used, principal, cutoff);
  }

  lemma UsedSays(pattern: string, used: seq<UsedAction>, principal: string, cutoff: int)
    ensures UsedSince(pattern, used, principal, cutoff)
       <==> exists u :: u in NamesOf(RecentActions(used, principal, cutoff)) && IsActionMatched(pattern, u)
  {
    RecentMembers(used, principal, cutoff);
    var recent := RecentActions(used, principal, cutoff);
    if e :| e in used && e.principal == principal && cutoff <= e.lastUsed && IsActionMatched(pattern, StripDomain(e.eventSource) + ":" + e.eventName) {
      assert e in recent && UsedName(e) in NamesOf(recent);
    }
    if u :| u in NamesOf(recent) && IsActionMatched(pattern, u) {
      var e :| e in recent && UsedName(e) == u;
      assert e in used;
    }
  }

  // ----- what an operation is shortened to

  predicate NoCapital(s: string) { forall i :: 0 <= i < |s| ==> !('A' <= s[i] <= 'Z') }

  predicate AllSmall(s: string) { forall i :: 0 <= i < |s| ==> 'a' <= s[i] <= 'z' }

  lemma {:induction false} FirstUpperAt(before: string, tail: string)
    requires NoCapital(before) && (tail == "" || 'A' <= tail[0] <= 'Z')
    ensures FirstUpper(before + tail) == |before|
    decreases |before|
  {
    if before == "" {
      assert before + tail == tail;
    } else {
      assert (before + tail)[1..] == before[1..] + tail && (before + tail)[0] == before[0];
      FirstUpperAt(before[1..], tail);
    }
  }

  /** The first word with a capital and the small letters after it stay, with all that is before, and the
      rest of that line goes. */
  lemma PrefixExactly(before: string, capital: char, small: string, middle: string, rest: string)
    requires NoCapital(before) && 'A' <= capital <= 'Z' && AllSmall(small) && LineBreakFree(middle)
    requires rest == "" || !LineBreakFree([rest[0]])
    requires middle != "" ==> !('a' <= middle[0] <= 'z')
    ensures PrefixOf(before + [capital] + small + (middle + rest)) == before + [capital] + small + rest
  {
    var word, tail := before + [capital] + small, middle + rest;
    WordEndAt(before, capital, small, tail);
    LineSkipped(middle, rest);
    if tail != "" {
      Joined(word, tail, 0);
      assert PrefixOf(word + tail) == SkipLine(word, tail);
    } else {
      assert word + tail == word && word + rest == word;
    }
  }

  lemma WordEndAt(before: string, capital: char, small: string, tail: string)
    requires NoCapital(before) && 'A' <= capital <= 'Z' && AllSmall(small) && (tail == "" || !('a' <= tail[0] <= 'z'))
    ensures WordEnd(before + [capital] + small + tail) == |before| + 1 + |small|
  {
    var op := before + [capital] + small + tail;
    FirstUpperAt(before, [capital] + small + tail);
    assert op == before + ([capital] + small + tail);
    forall c | c in small ensures IsLower(c) {}
    LowerRunEnds(small, tail);
    assert op[|before| + 1..] == small + tail;
  }

  lemma LineSkipped(middle: string, rest: string)
    requires LineBreakFree(middle) && (rest == "" || !LineBreakFree([rest[0]]))
    ensures (middle + rest)[LineLength(middle + rest)..] == rest
  {
    LineBreaksSay(middle);
    if rest == "" {
      assert middle + rest == middle;
    } else {
      LineBreaksSay([rest[0]]);
      assert rest[0] in [rest[0]];
      LineStops(middle, rest);
    }
  }

  /** Without a capital it stays whole. */
  lemma PrefixWhole(op: string)
    requires NoCapital(op)
    ensures PrefixOf(op) == op
  {
    assert op + "" == op;
    FirstUpperAt(op, "");
  }

  // ----- what a pattern becomes

  /** The operations kept for a service. */
  function Operations(kept: seq<string>, service: string): set<string> {
    set a | a in kept && ServiceOf(a) == service :: OpOf(a)
  }

  function Beginning(ops: set<string>, prefix: string): set<string> { set o | o in ops && prefix <= o }

  lemma {:induction false} OpsAre(kept: seq<string>, service: string)
    ensures (forall i, j :: 0 <= i < j < |OpsOf(kept, service)| ==> OpsOf(kept, service)[i] != OpsOf(kept, service)[j])
    ensures forall o :: o in OpsOf(kept, service) <==> o in Operations(kept, service)
    decreases |kept|
  {
    ServiceListed(kept);
    if kept != [] { OpsAre(kept[..|kept| - 1], service); }
  }

  lemma {:induction false} DistinctCount(ops: seq<string>, all: set<string>, prefix: string)
    requires forall i, j :: 0 <= i < j < |ops| ==> ops[i] != ops[j]
    requires forall o :: o in ops <==> o in all
    ensures |ops| == |all| && CountWithPrefix(ops, prefix) == |Beginning(all, prefix)|
    decreases |ops|
  {
    if ops == [] {
      assert all == {} && Beginning(all, prefix) == {};
    } else {
      var front, last := ops[..|ops| - 1], ops[|ops| - 1];
      var fewer := all - {last};
      assert forall o :: o in ops <==> o in front || o == last;
      assert last !in front;
      DistinctCount(front, fewer, prefix);
      OneMoreCount(fewer, all, last, prefix);
    }
  }

  lemma OneMoreCount(fewer: set<string>, all: set<string>, last: string, prefix: string)
    requires last in all && fewer == all - {last}
    ensures |all| == |fewer| + 1
    ensures |Beginning(all, prefix)| == |Beginning(fewer, prefix)| + if prefix <= last then 1 else 0
  {
    assert all == fewer + {last};
    var some := Beginning(fewer, prefix);
    assert last !in some;
    assert Beginning(all, prefix) == some + if prefix <= last then {last} else {};
  }

  /** With ten operations or more of its service a kept pattern becomes all of the service; with three or
      more, of which two begin with its prefix, that prefix; else it stays. */
  lemma BecomesExactly(service: string, op: string, kept: seq<string>)
    requires ':' !in service
    ensures var ops := Operations(kept, service);
            Target(service + ":" + op, kept)
            == if |ops| >= 10 then service + ":" + "*"
               else if |ops| >= 3 && |Beginning(ops, PrefixOf(op))| >= 2 then service + ":" + PrefixOf(op) + "*"
               else service + ":" + op
  {
    OfService(service, op);
    OpsAre(kept, service);
    DistinctCount(OpsOf(kept, service), Operations(kept, service), PrefixOf(op));
    assert service + ":" + op + "" == service + ":" + op;
  }
}
