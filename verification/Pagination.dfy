/** Listing a paginated service: bounded pages, and no token followed twice. */
module Pagination {
  import opened Basics

  /** One answer of the service. An empty token ends the listing as an absent one does. */
  datatype Response<T> = Page(items: seq<T>, next: Option<string>) | Throws

  datatype Collected<T> = Items(items: seq<T>, truncated: bool) | RepeatedToken | LoadFailed | BadLimit

  predicate HasNext<T>(r: Response<T>) {
    r.Page? && r.next.Some? && r.next.value != ""
  }

  function NextOf<T>(answers: nat -> Response<T>, k: nat): Option<string> {
    if answers(k).Page? then answers(k).next else None
  }

  /** The first `k` answers lead on, by tokens that never repeat. */
  predicate Walked<T>(answers: nat -> Response<T>, k: nat) {
    && (forall j | 0 <= j < k :: HasNext(answers(j)))
    && (forall i, j | 0 <= i < j < k :: NextOf(answers, i) != NextOf(answers, j))
  }

  predicate EndsAt<T>(answers: nat -> Response<T>, k: nat) {
    Walked(answers, k) && answers(k).Page? && !HasNext(answers(k))
  }

  predicate RepeatsAt<T>(answers: nat -> Response<T>, k: nat) {
    Walked(answers, k) && HasNext(answers(k)) && exists j | 0 <= j < k :: NextOf(answers, j) == NextOf(answers, k)
  }

  predicate ThrowsAt<T>(answers: nat -> Response<T>, k: nat) {
    Walked(answers, k) && answers(k).Throws?
  }

  /** The items of the first `k` pages, in page order. */
  function Joined<T>(answers: nat -> Response<T>, k: nat): seq<T> {
    if k == 0 then [] else Joined(answers, k - 1) + if answers(k - 1).Page? then answers(k - 1).items else []
  }

  /** Each page's items, between those of the pages before it and those after. */
  lemma {:induction false} JoinedExactly<T>(answers: nat -> Response<T>, k: nat, j: nat)
    requires j < k
    ensures var at, items := |Joined(answers, j)|, if answers(j).Page? then answers(j).items else [];
            at + |items| <= |Joined(answers, k)| && Joined(answers, k)[at..at + |items|] == items
            && Joined(answers, j) <= Joined(answers, k) && (j == 0 ==> at == 0) && (k == j + 1 ==> at + |items| == |Joined(answers, k)|)
    decreases k
  {
    if j + 1 < k { JoinedExactly(answers, k - 1, j); }
  }

  /** The page a listing ends at: every page before it has a token, none is empty or repeated, and it has none. */
  lemma EndsExactlyWhen<T>(answers: nat -> Response<T>, k: nat)
    ensures EndsAt(answers, k)
       <==> && answers(k).Page? && (answers(k).next == None || answers(k).next == Some(""))
            && (forall j :: 0 <= j < k ==> answers(j).Page? && answers(j).next != None && answers(j).next != Some(""))
            && (forall i, j :: 0 <= i < j < k ==> answers(i).next != answers(j).next)
  {
    if EndsAt(answers, k) {
      forall j | 0 <= j < k ensures answers(j).Page? && answers(j).next != None && answers(j).next != Some("") { assert HasNext(answers(j)); }
      forall i, j | 0 <= i < j < k ensures answers(i).next != answers(j).next {
        assert HasNext(answers(i)) && HasNext(answers(j)) && NextOf(answers, i) != NextOf(answers, j);
      }
    }
  }

  predicate StopsAt<T>(answers: nat -> Response<T>, k: nat) {
    EndsAt(answers, k) || RepeatsAt(answers, k) || ThrowsAt(answers, k)
  }

  /** A listing never goes past the page it stops at. */
  lemma NotPast<T>(answers: nat -> Response<T>, i: nat, j: nat)
    requires StopsAt(answers, i) && i < j
    ensures !Walked(answers, j)
  {
    if HasNext(answers(i)) {
      var k :| 0 <= k < i && NextOf(answers, k) == NextOf(answers, i);
    }
  }

  ghost predicate StoppedBy<T>(answers: nat -> Response<T>, r: Collected<T>, k: nat) {
    match r
    case Items(items, truncated) => !truncated && EndsAt(answers, k) && items == Joined(answers, k + 1)
    case RepeatedToken => RepeatsAt(answers, k)
    case LoadFailed => ThrowsAt(answers, k)
    case BadLimit => false
  }

  /** What a listing of at most `maxPages` pages comes to. */
  ghost predicate Verdict<T>(answers: nat -> Response<T>, maxPages: nat, r: Collected<T>) {
    if r.Items? && r.truncated then Walked(answers, maxPages) && r.items == Joined(answers, maxPages)
    else exists k: nat :: k < maxPages && StoppedBy(answers, r, k)
  }

  /** The verdict is determined: a listing stops in one way, at one page, or not within the bound. */
  lemma VerdictIsUnique<T>(answers: nat -> Response<T>, maxPages: nat, r: Collected<T>, q: Collected<T>)
    requires Verdict(answers, maxPages, r) && Verdict(answers, maxPages, q)
    ensures r == q
  {
    if Walked(answers, maxPages) {
      Unstopped(answers, maxPages, r);
      Unstopped(answers, maxPages, q);
    } else {
      var k: nat :| k < maxPages && StoppedBy(answers, r, k);
      var j: nat :| j < maxPages && StoppedBy(answers, q, j);
      if j < k { NotPast(answers, j, k); }
      if k < j { NotPast(answers, k, j); }
    }
  }

  lemma Unstopped<T>(answers: nat -> Response<T>, maxPages: nat, r: Collected<T>)
    requires Walked(answers, maxPages)
    ensures forall k: nat :: k < maxPages ==> !StoppedBy(answers, r, k)
  {
    forall k: nat | k < maxPages ensures !StoppedBy(answers, r, k) {
      if StopsAt(answers, k) { NotPast(answers, k, maxPages); }
    }
  }

  /** The tokens of the first `k` answers. */
  ghost predicate Seen<T>(answers: nat -> Response<T>, k: nat, seen: set<string>) {
    forall t :: t in seen <==> exists j :: 0 <= j < k && NextOf(answers, j) == Some(t)
  }

  /** The tokens sent: none at first, then each answer's token, no token twice. */
  ghost predicate SentOnce<T>(answers: nat -> Response<T>, requested: seq<Option<string>>) {
    && (forall k :: 0 <= k < |requested| ==> requested[k] == Sent(answers, k))
    && (forall i, j :: 0 <= i < j < |requested| ==> requested[i] != requested[j])
  }

  function Sent<T>(answers: nat -> Response<T>, k: nat): Option<string> {
    if k == 0 then None else NextOf(answers, k - 1)
  }

  lemma TokenSeen<T>(answers: nat -> Response<T>, k: nat, seen: set<string>)
    requires Seen(answers, k, seen) && Walked(answers, k) && HasNext(answers(k))
    ensures NextOf(answers, k) == Some(answers(k).next.value)
    ensures answers(k).next.value in seen <==> RepeatsAt(answers, k)
    ensures answers(k).next.value !in seen ==> Walked(answers, k + 1)
  {
    var token := answers(k).next.value;
    if token in seen {
      var j :| 0 <= j < k && NextOf(answers, j) == Some(token);
    }
  }

  lemma SeenMore<T>(answers: nat -> Response<T>, k: nat, seen: set<string>)
    requires Seen(answers, k, seen) && Walked(answers, k) && HasNext(answers(k))
    ensures var token := answers(k).next.value;
            && Seen(answers, k + 1, seen + {token})
            && (token in seen <==> RepeatsAt(answers, k))
            && (token !in seen ==> Walked(answers, k + 1))
  {
    var token := answers(k).next.value;
    TokenSeen(answers, k, seen);
    forall t ensures t in seen + {token} <==> exists j :: 0 <= j < k + 1 && NextOf(answers, j) == Some(t) {
      if t in seen { var j :| 0 <= j < k && NextOf(answers, j) == Some(t); }
    }
  }

  lemma SentOneMore<T>(answers: nat -> Response<T>, requested: seq<Option<string>>)
    requires SentOnce(answers, requested) && Walked(answers, |requested|)
    ensures SentOnce(answers, requested + [Sent(answers, |requested|)])
  {
    var k := |requested|;
    forall i | 0 <= i < k ensures requested[i] != Sent(answers, k) {
      assert HasNext(answers(k - 1));
    }
  }

  /** `answers(k)` is what the k-th request brings. `requested` are the tokens sent: no token is sent
      twice. */
  method CollectPaginatedBounded<T>(answers: nat -> Response<T>, maxPages: int)
    returns (r: Collected<T>, ghost requested: seq<Option<string>>)
    ensures if maxPages < 1 then r == BadLimit else Verdict(answers, maxPages, r)
    ensures maxPages >= 1 ==> |requested| <= maxPages
    ensures SentOnce(answers, requested)
  {
    requested := [];
    if maxPages < 1 { return BadLimit, requested; }
    var result: seq<T>, seen: set<string>, token: Option<string> := [], {}, None;
    for page := 0 to maxPages
      invariant Walked(answers, page)
      invariant result == Joined(answers, page)
      invariant Seen(answers, page, seen)
      invariant token == Sent(answers, page)
      invariant SentOnce(answers, requested) && |requested| == page
    {
      SentOneMore(answers, requested);
      requested := requested + [token];
      var answer := answers(page);
      if answer.Throws? {
        assert StoppedBy(answers, LoadFailed, page);
        return LoadFailed, requested;
      }
      result := result + answer.items;
      token := answer.next;
      if token.None? || token.value == "" {
        assert StoppedBy(answers, Items(result, false), page);
        return Items(result, false), requested;
      }
      SeenMore(answers, page, seen);
      if token.value in seen {
        assert StoppedBy(answers, RepeatedToken, page);
        return RepeatedToken, requested;
      }
      seen := seen + {token.value};
    }
    return Items(result, true), requested;
  }

  /** What a listing bounded by `maxPages` holds, if it ends within the bound. */
  ghost function Listing<T>(answers: nat -> Response<T>, maxPages: int): Option<seq<T>> {
    if exists k :: 0 <= k < maxPages && EndsAt(answers, k) then
      var k :| 0 <= k < maxPages && EndsAt(answers, k);
      Some(Joined(answers, k + 1))
    else None
  }

  lemma ListingIs<T>(answers: nat -> Response<T>, maxPages: nat, r: Collected<T>)
    requires Verdict(answers, maxPages, r) && r.Items? && !r.truncated
    ensures Listing(answers, maxPages) == Some(r.items)
  {
    var k: nat :| k < maxPages && StoppedBy(answers, r, k);
    var j :| 0 <= j < maxPages && EndsAt(answers, j) && Listing(answers, maxPages) == Some(Joined(answers, j + 1));
    assert StoppedBy(answers, Items(Joined(answers, j + 1), false), j);
    VerdictIsUnique(answers, maxPages, r, Items(Joined(answers, j + 1), false));
  }

  /** Truncation is an error here, as is every other way not to reach the end. */
  method CollectPaginated<T>(answers: nat -> Response<T>, maxPages: int) returns (r: Option<seq<T>>)
    ensures r == Listing(answers, maxPages)
  {
    var page;
    ghost var requested;
    page, requested := CollectPaginatedBounded(answers, maxPages);
    if page.Items? && !page.truncated {
      ghost var k :| 0 <= k < maxPages && EndsAt(answers, k) && page.items == Joined(answers, k + 1);
      ListingIs(answers, maxPages, page);
      return Some(page.items);
    }
    if exists k :: 0 <= k < maxPages && EndsAt(answers, k) {
      ghost var k :| 0 <= k < maxPages && EndsAt(answers, k);
      assert StoppedBy(answers, Items(Joined(answers, k + 1), false), k);
      VerdictIsUnique(answers, maxPages, page, Items(Joined(answers, k + 1), false));
      assert false;
    }
    return None;
  }

  /** The service answers a token the same way every time. */
  ghost predicate SameAnswerPerToken<T>(answers: nat -> Response<T>) {
    forall i: nat, j: nat :: NextOf(answers, i) == NextOf(answers, j) != None ==> answers(i + 1) == answers(j + 1)
  }

  /** Refusing a repeated token loses nothing: where a token's answer does not change, a listing that
      repeats one would go round for ever. */
  lemma {:induction false} RepeatNeverEnds<T>(answers: nat -> Response<T>, j: nat, k: nat, n: nat)
    requires SameAnswerPerToken(answers) && j < k && Walked(answers, k)
    requires HasNext(answers(k)) && NextOf(answers, j) == NextOf(answers, k)
    ensures HasNext(answers(n))
    ensures n > k ==> answers(n) == answers(n - (k - j))
    decreases n
  {
    if n > k {
      RepeatNeverEnds(answers, j, k, n - 1);
      RepeatNeverEnds(answers, j, k, n - (k - j));
      assert NextOf(answers, n - 1) == NextOf(answers, n - 1 - (k - j));
    }
  }
}
