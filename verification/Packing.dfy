/** Greedy packing: mutation batches bounded by their serialised size, and traversal chunks
    bounded by count and size. Both cut a list in order, as late as the limit allows. */
module Packing {

  datatype Outcome<T> = Packed(batches: seq<seq<T>>) | TooLarge

  function Flatten<T>(batches: seq<seq<T>>): seq<T> {
    if batches == [] then [] else batches[0] + Flatten(batches[1..])
  }

  /** The greedy cut with `current` already open. */
  function Pack<T>(fits: seq<T> -> bool, current: seq<T>, rest: seq<T>): seq<seq<T>>
    decreases |rest|
  {
    if rest == [] then (if current == [] then [] else [current])
    else if current != [] && !fits(current + [rest[0]]) then [current] + Pack(fits, [rest[0]], rest[1..])
    else Pack(fits, current + [rest[0]], rest[1..])
  }

  /** A lone item is always accepted, whatever its size. */
  predicate Accepts<T>(fits: seq<T> -> bool, batch: seq<T>) {
    |batch| <= 1 || fits(batch)
  }

  /** What fits still fits after items are taken off either end. */
  ghost predicate Hereditary<T(!new)>(fits: seq<T> -> bool) {
    forall a: seq<T>, b: seq<T>, c: seq<T> {:trigger fits(a + b + c)} :: fits(a + b + c) ==> fits(b)
  }

  ghost predicate Splits<T>(fits: seq<T> -> bool, batches: seq<seq<T>>, items: seq<T>) {
    Flatten(batches) == items && forall i :: 0 <= i < |batches| ==> Accepts(fits, batches[i])
  }

  lemma {:induction false} FlattenConcat<T>(a: seq<seq<T>>, b: seq<seq<T>>)
    ensures Flatten(a + b) == Flatten(a) + Flatten(b)
    decreases |a|
  {
    if a == [] {
      assert a + b == b;
    } else {
      assert (a + b)[1..] == a[1..] + b;
      FlattenConcat(a[1..], b);
    }
  }

  lemma FlattenOne<T>(batch: seq<T>)
    ensures Flatten([batch]) == batch
  {
    assert [batch][1..] == [];
    assert Flatten([batch]) == batch + [];
  }

  /** Nothing is lost, reordered or left over the limit, and no batch is empty. */
  lemma {:induction false} PackSplits<T>(fits: seq<T> -> bool, current: seq<T>, rest: seq<T>)
    requires Accepts(fits, current)
    ensures Splits(fits, Pack(fits, current, rest), current + rest)
    ensures [] !in Pack(fits, current, rest)
    decreases |rest|
  {
    if rest == [] {
      assert current + rest == current;
      if current != [] { FlattenOne(current); }
    } else if current != [] && !fits(current + [rest[0]]) {
      var tail := Pack(fits, [rest[0]], rest[1..]);
      PackSplits(fits, [rest[0]], rest[1..]);
      assert ([current] + tail)[1..] == tail;
      assert current + rest == current + ([rest[0]] + rest[1..]);
    } else {
      PackSplits(fits, current + [rest[0]], rest[1..]);
      assert current + rest == current + [rest[0]] + rest[1..];
    }
  }

  lemma ShiftOne<T>(current: seq<T>, rest: seq<T>, k: nat)
    requires k < |rest|
    ensures current + [rest[0]] + rest[1..][..k] == current + rest[..k + 1]
    ensures rest[1..][k..] == rest[k + 1..]
  {
    assert rest[..k + 1] == [rest[0]] + rest[1..][..k];
  }

  /** The first batch is as long as the limit allows. */
  lemma {:induction false} FirstBatch<T>(fits: seq<T> -> bool, current: seq<T>, rest: seq<T>) returns (j: nat)
    requires current != [] && Accepts(fits, current)
    ensures j <= |rest| && Accepts(fits, current + rest[..j])
    ensures j < |rest| ==> !fits(current + rest[..j + 1])
    ensures Pack(fits, current, rest) == [current + rest[..j]] + Pack(fits, [], rest[j..])
    decreases |rest|
  {
    if rest == [] {
      j := 0;
      assert current + rest[..0] == current;
    } else if !fits(current + [rest[0]]) {
      j := 0;
      assert current + rest[..0] == current && rest[..1] == [rest[0]] && rest[0..] == rest;
      assert [] + [rest[0]] == [rest[0]];
    } else {
      var more, tail := current + [rest[0]], rest[1..];
      var k := FirstBatch(fits, more, tail);
      ShiftOne(current, rest, k);
      if k < |tail| { ShiftOne(current, rest, k + 1); }
      j := k + 1;
    }
  }

  /** Taking items off the front of a split list never needs more batches. */
  lemma {:induction false} TrimSplit<T(!new)>(fits: seq<T> -> bool, batches: seq<seq<T>>, items: seq<T>, k: nat)
    returns (trimmed: seq<seq<T>>)
    requires Hereditary(fits) && Splits(fits, batches, items) && k <= |items|
    ensures Splits(fits, trimmed, items[k..]) && |trimmed| <= |batches|
    decreases |batches|
  {
    if batches == [] {
      trimmed := [];
    } else {
      var first, others := batches[0], batches[1..];
      assert items == first + Flatten(others);
      if k <= |first| {
        assert first == first[..k] + first[k..] + [];
        trimmed := [first[k..]] + others;
        assert trimmed[1..] == others;
        assert items[k..] == first[k..] + Flatten(others);
        forall i | 0 <= i < |trimmed| ensures Accepts(fits, trimmed[i]) {
          if i > 0 { assert trimmed[i] == batches[i]; }
        }
      } else {
        forall i | 0 <= i < |others| ensures Accepts(fits, others[i]) { assert others[i] == batches[i + 1]; }
        trimmed := TrimSplit(fits, others, Flatten(others), k - |first|);
        assert items[k..] == Flatten(others)[k - |first|..];
      }
    }
  }

  lemma LongerWouldFit<T(!new)>(fits: seq<T> -> bool, items: seq<T>, first: seq<T>, n: nat)
    requires Hereditary(fits) && Accepts(fits, first) && first <= items && n >= 2
    ensures n <= |first| ==> fits(items[..n])
  {
    if n <= |first| { assert first == [] + items[..n] + first[n..]; }
  }

  /** No order-preserving split within the limit uses fewer batches than the greedy one. */
  lemma {:induction false} GreedyIsOptimal<T(!new)>(fits: seq<T> -> bool, items: seq<T>, batches: seq<seq<T>>)
    requires Hereditary(fits) && Splits(fits, batches, items)
    ensures |Pack(fits, [], items)| <= |batches|
    decreases |batches|, |items|
  {
    if items != [] {
      var first, others := batches[0], batches[1..];
      assert items == first + Flatten(others);
      var j := FirstBatch(fits, [items[0]], items[1..]);
      assert [] + [items[0]] == [items[0]];
      assert [items[0]] + items[1..][..j] == items[..j + 1];
      if j < |items| - 1 { assert [items[0]] + items[1..][..j + 1] == items[..j + 2]; }
      assert items[1..][j..] == items[j + 1..];
      LongerWouldFit(fits, items, first, j + 2);
      assert |first| <= j + 1;
      forall i | 0 <= i < |others| ensures Accepts(fits, others[i]) { assert others[i] == batches[i + 1]; }
      var trimmed := TrimSplit(fits, others, Flatten(others), j + 1 - |first|);
      assert items[j + 1..] == Flatten(others)[j + 1 - |first|..];
      GreedyIsOptimal(fits, items[j + 1..], trimmed);
    }
  }

  /** When every item fits alone, every batch fits. */
  lemma PackWithin<T>(fits: seq<T> -> bool, items: seq<T>)
    requires forall x :: x in items ==> fits([x])
    ensures forall i :: 0 <= i < |Pack(fits, [], items)| ==> fits(Pack(fits, [], items)[i])
  {
    var p := Pack(fits, [], items);
    PackSplits(fits, [], items);
    assert [] + items == items;
    forall i | 0 <= i < |p| ensures fits(p[i]) {
      assert p[i] in p && p[i] != [];
      if |p[i]| == 1 {
        FlattenMember(p, i, p[i][0]);
        assert p[i] == [p[i][0]];
      }
    }
  }

  lemma {:induction false} FlattenMember<T>(batches: seq<seq<T>>, i: nat, x: T)
    requires i < |batches| && x in batches[i]
    ensures x in Flatten(batches)
    decreases i
  {
    if i > 0 {
      assert batches[1..][i - 1] == batches[i];
      FlattenMember(batches[1..], i - 1, x);
    }
  }

  // ----- mutation batches, limited by the size of their JSON

  function Join(items: seq<string>): string {
    if items == [] then ""
    else if |items| == 1 then items[0]
    else Join(items[..|items| - 1]) + "," + items[|items| - 1]
  }

  datatype Kind = Nodes | Edges

  /** The serialised batch; `observedAt` is the JSON string of the time stamp. */
  function Payload(kind: Kind, items: seq<string>, observedAt: string): string {
    "{\"nodes\":[" + (if kind.Nodes? then Join(items) else "")
    + "],\"edges\":[" + (if kind.Edges? then Join(items) else "")
    + "],\"observedAt\":" + observedAt + "}"
  }

  function JsonOf<T>(json: T -> string, batch: seq<T>): seq<string> {
    seq(|batch|, i requires 0 <= i < |batch| => json(batch[i]))
  }

  function PayloadBytes<T>(kind: Kind, json: T -> string, observedAt: string, batch: seq<T>): nat {
    |Payload(kind, JsonOf(json, batch), observedAt)|
  }

  function WithinBytes<T>(kind: Kind, json: T -> string, observedAt: string, maxBytes: nat): seq<T> -> bool {
    batch => PayloadBytes(kind, json, observedAt, batch) <= maxBytes
  }

  /** The running count is the serialised size: one comma for every item but the first. */
  lemma PayloadGrows<T>(kind: Kind, json: T -> string, observedAt: string, batch: seq<T>, item: T)
    ensures PayloadBytes(kind, json, observedAt, batch + [item])
         == PayloadBytes(kind, json, observedAt, batch) + |json(item)| + if batch == [] then 0 else 1
  {
    var items := JsonOf(json, batch);
    assert JsonOf(json, batch + [item]) == items + [json(item)];
    assert (items + [json(item)])[..|items|] == items;
  }

  lemma {:induction false} JoinLonger(a: seq<string>, b: seq<string>)
    ensures |Join(a)| <= |Join(a + b)|
    decreases |b|
  {
    if b == [] {
      assert a + b == a;
    } else {
      var front := b[..|b| - 1];
      JoinLonger(a, front);
      assert (a + b)[..|a + b| - 1] == a + front;
    }
  }

  lemma {:induction false} JoinLongerFront(a: seq<string>, b: seq<string>)
    ensures |Join(b)| <= |Join(a + b)|
    decreases |b|
  {
    if b == [] {
    } else {
      var front := b[..|b| - 1];
      JoinLongerFront(a, front);
      assert (a + b)[..|a + b| - 1] == a + front;
      if |b| == 1 { assert front == [] && Join(front) == ""; }
    }
  }

  lemma BytesHereditary<T(!new)>(kind: Kind, json: T -> string, observedAt: string, maxBytes: nat)
    ensures Hereditary(WithinBytes(kind, json, observedAt, maxBytes))
  {
    forall a: seq<T>, b: seq<T>, c: seq<T> | WithinBytes(kind, json, observedAt, maxBytes)(a + b + c)
      ensures WithinBytes(kind, json, observedAt, maxBytes)(b)
    {
      var x, y, z := JsonOf(json, a), JsonOf(json, b), JsonOf(json, c);
      assert JsonOf(json, a + b + c) == x + y + z;
      JoinLonger(x + y, z);
      JoinLongerFront(x, y);
    }
  }

  /** One turn of the packing loop. */
  lemma PackTurn<T>(fits: seq<T> -> bool, done: seq<seq<T>>, batch: seq<T>, items: seq<T>, i: nat)
    requires i < |items|
    ensures var x := items[i];
            done + Pack(fits, batch, items[i..])
            == if batch != [] && !fits(batch + [x]) then (done + [batch]) + Pack(fits, [x], items[i + 1..])
               else done + Pack(fits, batch + [x], items[i + 1..])
  {
    assert items[i..][1..] == items[i + 1..];
  }

  /** Cuts items into batches of at most maxBytes. An item too large is refused only when it is
      the very first one; later it gets a batch of its own that is over the limit. */
  method AppendBatches<T>(items: seq<T>, kind: Kind, json: T -> string, observedAt: string, maxBytes: nat)
    returns (r: Outcome<T>)
    ensures r.TooLarge? <==> items != [] && PayloadBytes(kind, json, observedAt, [items[0]]) > maxBytes
    ensures r.Packed? ==> r.batches == Pack(WithinBytes(kind, json, observedAt, maxBytes), [], items)
  {
    ghost var fits := WithinBytes(kind, json, observedAt, maxBytes);
    var batches: seq<seq<T>>, batch: seq<T> := [], [];
    var base := PayloadBytes(kind, json, observedAt, []);
    var bytes := base;
    for i := 0 to |items|
      invariant bytes == PayloadBytes(kind, json, observedAt, batch)
      invariant i > 0 ==> batch != [] && fits([items[0]])
      invariant i == 0 ==> batch == []
      invariant batches + Pack(fits, batch, items[i..]) == Pack(fits, [], items)
    {
      var itemBytes := |json(items[i])|;
      PayloadGrows(kind, json, observedAt, batch, items[i]);
      PayloadGrows(kind, json, observedAt, [], items[i]);
      PackTurn(fits, batches, batch, items, i);
      assert [] + [items[i]] == [items[i]];
      if bytes + itemBytes + (if |batch| > 0 then 1 else 0) > maxBytes {
        if |batch| == 0 {
          assert i == 0 && batch + [items[i]] == [items[0]];
          return TooLarge;
        }
        batches := batches + [batch];
        batch := [];
        bytes := base;
      }
      batch := batch + [items[i]];
      bytes := bytes + itemBytes + if |batch| > 1 then 1 else 0;
    }
    assert items[|items|..] == [];
    if |batch| > 0 { batches := batches + [batch]; }
    assert batches == Pack(fits, [], items);
    r := Packed(batches);
  }

  /** Exactly when batching keeps its promise: it succeeds with every batch within the limit if
      and only if each item fits alone. */
  lemma BatchesWithinExactlyWhen<T>(items: seq<T>, kind: Kind, json: T -> string, observedAt: string, maxBytes: nat)
    ensures var batches := Pack(WithinBytes(kind, json, observedAt, maxBytes), [], items);
            (forall x :: x in items ==> PayloadBytes(kind, json, observedAt, [x]) <= maxBytes)
            <==> (items != [] ==> PayloadBytes(kind, json, observedAt, [items[0]]) <= maxBytes)
                 && (forall i :: 0 <= i < |batches| ==> PayloadBytes(kind, json, observedAt, batches[i]) <= maxBytes)
  {
    var fits := WithinBytes(kind, json, observedAt, maxBytes);
    if forall x :: x in items ==> fits([x]) {
      PackWithin(fits, items);
    } else {
      var x :| x in items && !fits([x]);
      var i := OversizeBatch(items, x, kind, json, observedAt, maxBytes);
    }
  }

  lemma OversizeBatch<T>(items: seq<T>, x: T, kind: Kind, json: T -> string, observedAt: string, maxBytes: nat)
    returns (i: nat)
    requires x in items && PayloadBytes(kind, json, observedAt, [x]) > maxBytes
    ensures var p := Pack(WithinBytes(kind, json, observedAt, maxBytes), [], items);
            i < |p| && PayloadBytes(kind, json, observedAt, p[i]) > maxBytes
  {
    var fits := WithinBytes(kind, json, observedAt, maxBytes);
    PackSplits(fits, [], items);
    assert [] + items == items;
    i := BatchWith(Pack(fits, [], items), x);
    LoneItemIsSmaller(kind, json, observedAt, Pack(fits, [], items)[i], x);
  }

  lemma LoneItemIsSmaller<T>(kind: Kind, json: T -> string, observedAt: string, batch: seq<T>, x: T)
    requires x in batch
    ensures PayloadBytes(kind, json, observedAt, [x]) <= PayloadBytes(kind, json, observedAt, batch)
  {
    var at :| 0 <= at < |batch| && batch[at] == x;
    SmallerPayload(kind, json, observedAt, batch[..at], [x], batch[at + 1..]);
    assert batch == batch[..at] + [x] + batch[at + 1..];
  }

  lemma SmallerPayload<T>(kind: Kind, json: T -> string, observedAt: string, a: seq<T>, b: seq<T>, c: seq<T>)
    ensures PayloadBytes(kind, json, observedAt, b) <= PayloadBytes(kind, json, observedAt, a + b + c)
  {
    var x, y, z := JsonOf(json, a), JsonOf(json, b), JsonOf(json, c);
    assert JsonOf(json, a + b + c) == x + y + z;
    JoinLonger(x + y, z);
    JoinLongerFront(x, y);
  }

  lemma {:induction false} BatchWith<T>(batches: seq<seq<T>>, x: T) returns (i: nat)
    requires x in Flatten(batches)
    ensures i < |batches| && x in batches[i]
    decreases |batches|
  {
    if x in batches[0] {
      i := 0;
    } else {
      i := BatchWith(batches[1..], x);
      i := i + 1;
    }
  }

  // ----- traversal chunks, limited by count and by size

  function TotalBytes<T>(size: T -> nat, batch: seq<T>): nat {
    if batch == [] then 0 else TotalBytes(size, batch[..|batch| - 1]) + size(batch[|batch| - 1])
  }

  function WithinChunk<T>(size: T -> nat, chunkSize: nat, maxBytes: nat): seq<T> -> bool {
    batch => |batch| <= chunkSize && TotalBytes(size, batch) <= maxBytes
  }

  lemma {:induction false} TotalConcat<T>(size: T -> nat, a: seq<T>, b: seq<T>)
    ensures TotalBytes(size, a + b) == TotalBytes(size, a) + TotalBytes(size, b)
    decreases |b|
  {
    if b == [] {
      assert a + b == a;
    } else {
      assert (a + b)[..|a + b| - 1] == a + b[..|b| - 1];
      TotalConcat(size, a, b[..|b| - 1]);
    }
  }

  lemma ChunkHereditary<T(!new)>(size: T -> nat, chunkSize: nat, maxBytes: nat)
    ensures Hereditary(WithinChunk(size, chunkSize, maxBytes))
  {
    forall a: seq<T>, b: seq<T>, c: seq<T> | WithinChunk(size, chunkSize, maxBytes)(a + b + c)
      ensures WithinChunk(size, chunkSize, maxBytes)(b)
    {
      TotalConcat(size, a + b, c);
      TotalConcat(size, a, b);
    }
  }

  lemma TotalOneMore<T>(size: T -> nat, current: seq<T>, x: T)
    ensures TotalBytes(size, current + [x]) == TotalBytes(size, current) + size(x)
  {
    assert (current + [x])[..|current|] == current;
  }

  method ChunkElements<T>(elements: seq<T>, size: T -> nat, chunkSize: nat, maxBytes: nat)
    returns (chunks: seq<seq<T>>)
    ensures chunks == Pack(WithinChunk(size, chunkSize, maxBytes), [], elements)
  {
    ghost var fits := WithinChunk(size, chunkSize, maxBytes);
    chunks := [];
    var current: seq<T>, bytes: nat := [], 0;
    for i := 0 to |elements|
      invariant bytes == TotalBytes(size, current)
      invariant chunks + Pack(fits, current, elements[i..]) == Pack(fits, [], elements)
    {
      var elementBytes := size(elements[i]);
      TotalOneMore(size, current, elements[i]);
      TotalOneMore(size, [], elements[i]);
      PackTurn(fits, chunks, current, elements, i);
      assert [] + [elements[i]] == [elements[i]];
      if |current| > 0 && (|current| >= chunkSize || bytes + elementBytes > maxBytes) {
        assert !fits(current + [elements[i]]);
        chunks := chunks + [current];
        current := [];
        bytes := 0;
      }
      current := current + [elements[i]];
      bytes := bytes + elementBytes;
    }
    assert elements[|elements|..] == [];
    if |current| > 0 { chunks := chunks + [current]; }
  }

  /** A chunk within both limits, or a lone element whatever its size. */
  predicate LegalChunk<T>(size: T -> nat, chunkSize: nat, maxBytes: nat, chunk: seq<T>) {
    |chunk| <= 1 || (|chunk| <= chunkSize && TotalBytes(size, chunk) <= maxBytes)
  }

  /** The chunks are the elements in order, each within both limits or a lone oversize element,
      and as few as any such cut. */
  lemma ChunksAreOptimal<T(!new)>(elements: seq<T>, size: T -> nat, chunkSize: nat, maxBytes: nat, other: seq<seq<T>>)
    requires Flatten(other) == elements && forall i :: 0 <= i < |other| ==> LegalChunk(size, chunkSize, maxBytes, other[i])
    ensures var chunks := Pack(WithinChunk(size, chunkSize, maxBytes), [], elements);
            && Flatten(chunks) == elements && |chunks| <= |other|
            && forall i :: 0 <= i < |chunks| ==> chunks[i] != [] && LegalChunk(size, chunkSize, maxBytes, chunks[i])
  {
    var fits := WithinChunk(size, chunkSize, maxBytes);
    ChunkHereditary(size, chunkSize, maxBytes);
    PackSplits(fits, [], elements);
    assert [] + elements == elements;
    GreedyIsOptimal(fits, elements, other);
  }

  /** The same for batches of items that each fit alone: exact contents, within the limit, fewest. */
  lemma BatchesAreOptimal<T(!new)>(items: seq<T>, kind: Kind, json: T -> string, observedAt: string,
                                   maxBytes: nat, other: seq<seq<T>>)
    requires forall x :: x in items ==> PayloadBytes(kind, json, observedAt, [x]) <= maxBytes
    requires Flatten(other) == items
    requires forall i :: 0 <= i < |other| ==> PayloadBytes(kind, json, observedAt, other[i]) <= maxBytes
    ensures var batches := Pack(WithinBytes(kind, json, observedAt, maxBytes), [], items);
            && Flatten(batches) == items
            && (forall i :: 0 <= i < |batches| ==> PayloadBytes(kind, json, observedAt, batches[i]) <= maxBytes)
            && |batches| <= |other|
  {
    var fits := WithinBytes(kind, json, observedAt, maxBytes);
    BytesHereditary(kind, json, observedAt, maxBytes);
    PackSplits(fits, [], items);
    assert [] + items == items;
    PackWithin(fits, items);
    GreedyIsOptimal(fits, items, other);
  }
}
