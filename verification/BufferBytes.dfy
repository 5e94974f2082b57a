/**
  `batch_buffer_bytes`: the memory behind a decoded batch, where a buffer shared
  by several arrays, or sliced, counts once.
*/
module BufferBytes {
  import opened Prelude
  import opened Sums

  /** One Arrow buffer: the address of its allocation and what is known of its extent. */
  datatype Buffer = Buffer(address: nat, capacity: nat, offset: nat, length: nat)

  datatype ArrayData = ArrayData(buffers: seq<Buffer>, nulls: Option<Buffer>, children: seq<ArrayData>)

  function Extent(b: Buffer): nat {
    Max(b.capacity, SaturatingAdd(b.offset, b.length))
  }

  /** Every (address, extent) pair found in an array, its null mask and its children, in visit order. */
  function Seen(data: ArrayData): seq<(nat, nat)>
    decreases data, 1
  {
    Pairs(Own(data)) + SeenIn(data.children)
  }

  function Own(data: ArrayData): seq<Buffer> {
    data.buffers + (if data.nulls.Some? then [data.nulls.value] else [])
  }

  function Pairs(buffers: seq<Buffer>): (pairs: seq<(nat, nat)>)
    ensures |pairs| == |buffers|
    ensures forall i | 0 <= i < |buffers| :: pairs[i] == (buffers[i].address, Extent(buffers[i]))
  {
    seq(|buffers|, i requires 0 <= i < |buffers| => (buffers[i].address, Extent(buffers[i])))
  }

  function SeenIn(arrays: seq<ArrayData>): seq<(nat, nat)>
    decreases arrays, 0
  {
    if arrays == [] then []
    else SeenIn(arrays[..|arrays| - 1]) + Seen(arrays[|arrays| - 1])
  }

  /** The table keeps the largest extent per address. */
  ghost predicate Tabulates(sizes: map<nat, nat>, pairs: seq<(nat, nat)>) {
    && (forall i | 0 <= i < |pairs| :: pairs[i].0 in sizes && pairs[i].1 <= sizes[pairs[i].0])
    && (forall a | a in sizes :: (a, sizes[a]) in pairs)
  }

  /** One table only: the set of pairs decides it. */
  lemma TableIsUnique(s: map<nat, nat>, t: map<nat, nat>, p: seq<(nat, nat)>, q: seq<(nat, nat)>)
    requires Tabulates(s, p) && Tabulates(t, q)
    requires forall pair :: pair in p <==> pair in q
    ensures s == t
  {
    TableBelow(s, t, p, q);
    TableBelow(t, s, q, p);
    assert s.Keys == t.Keys;
  }

  /** The table of a list of pairs. */
  function TableOf(pairs: seq<(nat, nat)>): map<nat, nat> {
    if pairs == [] then map[]
    else
      var sizes := TableOf(pairs[..|pairs| - 1]);
      var (address, size) := pairs[|pairs| - 1];
      sizes[address := if address in sizes then Max(sizes[address], size) else size]
  }

  lemma {:induction false} TableOfTabulates(pairs: seq<(nat, nat)>)
    ensures Tabulates(TableOf(pairs), pairs)
  {
    if pairs != [] {
      var n := |pairs| - 1;
      TableOfTabulates(pairs[..n]);
      Recorded(TableOf(pairs[..n]), pairs[..n], pairs[n].0, pairs[n].1);
      assert pairs[..n] + [(pairs[n].0, pairs[n].1)] == pairs;
    }
  }

  /** The saturated sum, over distinct addresses, of the largest extent seen there. */
  ghost function SizeOf(columns: seq<ArrayData>): nat {
    Min(Sum(TableOf(SeenIn(columns))), USIZE_MAX)
  }

  lemma TableBelow(s: map<nat, nat>, t: map<nat, nat>, p: seq<(nat, nat)>, q: seq<(nat, nat)>)
    requires Tabulates(s, p) && Tabulates(t, q)
    requires forall pair :: pair in p ==> pair in q
    ensures forall a | a in s :: a in t && s[a] <= t[a]
  {
    forall a | a in s
      ensures a in t && s[a] <= t[a]
    {
      assert (a, s[a]) in p;
      var i :| 0 <= i < |q| && q[i] == (a, s[a]);
    }
  }

  /** `visit`: one array into the table. */
  method Visit(data: ArrayData, before: map<nat, nat>, ghost pairs: seq<(nat, nat)>) returns (sizes: map<nat, nat>)
    requires Tabulates(before, pairs)
    ensures Tabulates(sizes, pairs + Seen(data))
    decreases data, 1
  {
    sizes := before;
    var own := Own(data);
    for i := 0 to |own|
      invariant Tabulates(sizes, pairs + Pairs(own)[..i])
    {
      var size := Extent(own[i]);
      var address := own[i].address;
      ghost var seen := pairs + Pairs(own)[..i];
      Recorded(sizes, seen, address, size);
      if address in sizes {
        sizes := sizes[address := Max(sizes[address], size)];
      } else {
        sizes := sizes[address := size];
      }
      assert pairs + Pairs(own)[..i + 1] == seen + [(address, size)];
    }
    assert Pairs(own)[..|own|] == Pairs(own);
    ghost var here, below := Pairs(own), SeenIn(data.children);
    sizes := VisitAll(data.children, sizes, pairs + here);
    assert pairs + here + below == pairs + (here + below);
  }

  lemma Recorded(sizes: map<nat, nat>, pairs: seq<(nat, nat)>, address: nat, size: nat)
    requires Tabulates(sizes, pairs)
    ensures Tabulates(sizes[address := if address in sizes then Max(sizes[address], size) else size],
                      pairs + [(address, size)])
  {
    var after := sizes[address := if address in sizes then Max(sizes[address], size) else size];
    var longer := pairs + [(address, size)];
    forall a | a in after
      ensures (a, after[a]) in longer
    {
      if a == address && after[a] == size {
        assert longer[|pairs|] == (address, size);
      } else {
        assert (a, after[a]) in pairs;
      }
    }
  }

  lemma SeenInNext(pairs: seq<(nat, nat)>, arrays: seq<ArrayData>, i: nat)
    requires i < |arrays|
    ensures pairs + SeenIn(arrays[..i + 1]) == pairs + SeenIn(arrays[..i]) + Seen(arrays[i])
  {
    assert arrays[..i + 1][..i] == arrays[..i];
  }

  method VisitAll(arrays: seq<ArrayData>, before: map<nat, nat>, ghost pairs: seq<(nat, nat)>) returns (sizes: map<nat, nat>)
    requires Tabulates(before, pairs)
    ensures Tabulates(sizes, pairs + SeenIn(arrays))
    decreases arrays, 0
  {
    sizes := before;
    ghost var seen := pairs;
    for i := 0 to |arrays|
      invariant seen == pairs + SeenIn(arrays[..i])
      invariant Tabulates(sizes, seen)
    {
      sizes := Visit(arrays[i], sizes, seen);
      SeenInNext(pairs, arrays, i);
      seen := seen + Seen(arrays[i]);
    }
    assert arrays[..|arrays|] == arrays;
  }

  /** The final fold, in whatever order the table is walked. */
  method Total(sizes: map<nat, nat>) returns (total: nat)
    ensures total == Min(Sum(sizes), USIZE_MAX)
  {
    total := 0;
    var rest := sizes;
    while rest != map[]
      invariant total <= USIZE_MAX
      invariant Min(total + Sum(rest), USIZE_MAX) == Min(Sum(sizes), USIZE_MAX)
      decreases |rest|
    {
      var address :| address in rest;
      SumWithout(rest, address);
      total := SaturatingAdd(total, rest[address]);
      rest := rest - {address};
    }
  }

  /** `batch_buffer_bytes`: the saturated sum, over distinct addresses, of the largest extent seen there. */
  method BatchBufferBytes(columns: seq<ArrayData>) returns (total: nat, sizes: map<nat, nat>)
    ensures Tabulates(sizes, SeenIn(columns))
    ensures total == SizeOf(columns) == Min(Sum(sizes), USIZE_MAX)
  {
    sizes := VisitAll(columns, map[], []);
    assert [] + SeenIn(columns) == SeenIn(columns);
    total := Total(sizes);
    TableOfTabulates(SeenIn(columns));
    TableIsUnique(sizes, TableOf(SeenIn(columns)), SeenIn(columns), SeenIn(columns));
  }

  /** Sharing and nesting do not matter: equal sets of pairs give equal sizes. */
  lemma OnlyAllocationsMatter(a: seq<ArrayData>, b: seq<ArrayData>)
    requires forall pair :: pair in SeenIn(a) <==> pair in SeenIn(b)
    ensures SizeOf(a) == SizeOf(b)
  {
    TableOfTabulates(SeenIn(a));
    TableOfTabulates(SeenIn(b));
    TableIsUnique(TableOf(SeenIn(a)), TableOf(SeenIn(b)), SeenIn(a), SeenIn(b));
  }

  lemma {:induction false} SeenByColumn(columns: seq<ArrayData>, pair: (nat, nat))
    ensures pair in SeenIn(columns) <==> exists i | 0 <= i < |columns| :: pair in Seen(columns[i])
  {
    if columns != [] {
      var n := |columns| - 1;
      SeenByColumn(columns[..n], pair);
      assert forall i | 0 <= i < n :: columns[..n][i] == columns[i];
    }
  }

  /** In particular any reordering or repetition of the columns has the same size. */
  lemma ColumnOrderIrrelevant(a: seq<ArrayData>, b: seq<ArrayData>)
    requires forall column :: column in a <==> column in b
    ensures SizeOf(a) == SizeOf(b)
  {
    forall pair: (nat, nat)
      ensures pair in SeenIn(a) <==> pair in SeenIn(b)
    {
      SeenByColumn(a, pair);
      SeenByColumn(b, pair);
      if i :| 0 <= i < |a| && pair in Seen(a[i]) {
        assert a[i] in b;
        var j :| 0 <= j < |b| && b[j] == a[i];
      }
      if i :| 0 <= i < |b| && pair in Seen(b[i]) {
        assert b[i] in a;
        var j :| 0 <= j < |a| && a[j] == b[i];
      }
    }
    OnlyAllocationsMatter(a, b);
  }

  // ---- The buffers of the tree ----

  /** `b` is a buffer or the null mask of `data` or of something below it. */
  ghost predicate Within(data: ArrayData, b: Buffer)
    decreases data
  {
    b in data.buffers || data.nulls == Some(b) || exists i | 0 <= i < |data.children| :: Within(data.children[i], b)
  }

  ghost predicate InTree(columns: seq<ArrayData>, b: Buffer) {
    exists i | 0 <= i < |columns| :: Within(columns[i], b)
  }

  function PairOf(b: Buffer): (nat, nat) {
    (b.address, Extent(b))
  }

  lemma OwnPairs(data: ArrayData, pair: (nat, nat))
    ensures pair in Pairs(Own(data)) <==> exists b :: b in Own(data) && PairOf(b) == pair
  {
    var own := Own(data);
    if pair in Pairs(own) {
      var i :| 0 <= i < |own| && Pairs(own)[i] == pair;
      assert own[i] in own && PairOf(own[i]) == pair;
    }
    if b :| b in own && PairOf(b) == pair {
      var i :| 0 <= i < |own| && own[i] == b;
      assert Pairs(own)[i] == pair;
    }
  }

  ghost predicate PairWithin(data: ArrayData, pair: (nat, nat)) {
    exists b :: Within(data, b) && PairOf(b) == pair
  }

  lemma OwnWithin(data: ArrayData, b: Buffer)
    ensures b in Own(data) <==> b in data.buffers || data.nulls == Some(b)
  {
  }

  lemma {:induction false} SeenIsWithin(data: ArrayData, pair: (nat, nat))
    ensures pair in Seen(data) <==> PairWithin(data, pair)
    decreases data
  {
    OwnPairs(data, pair);
    SeenByColumn(data.children, pair);
    forall i | 0 <= i < |data.children|
      ensures pair in Seen(data.children[i]) <==> PairWithin(data.children[i], pair)
    {
      SeenIsWithin(data.children[i], pair);
    }
    forall b ensures b in Own(data) <==> b in data.buffers || data.nulls == Some(b) { OwnWithin(data, b); }
    if pair in Pairs(Own(data)) {
      var b :| b in Own(data) && PairOf(b) == pair;
      assert Within(data, b);
    }
    if i :| 0 <= i < |data.children| && pair in Seen(data.children[i]) {
      var b :| Within(data.children[i], b) && PairOf(b) == pair;
      assert Within(data, b);
    }
  }

  lemma SeenInIsInTree(columns: seq<ArrayData>, pair: (nat, nat))
    ensures pair in SeenIn(columns) <==> exists b :: InTree(columns, b) && PairOf(b) == pair
  {
    SeenByColumn(columns, pair);
    forall i | 0 <= i < |columns|
      ensures pair in Seen(columns[i]) <==> PairWithin(columns[i], pair)
    {
      SeenIsWithin(columns[i], pair);
    }
    if i :| 0 <= i < |columns| && pair in Seen(columns[i]) {
      var b :| Within(columns[i], b) && PairOf(b) == pair;
      assert InTree(columns, b);
    }
  }

  /** The table in terms of the tree: every buffer and null mask counts with its capacity and its saturated
      end, and every entry is one of these. */
  lemma TableCoversTree(columns: seq<ArrayData>, sizes: map<nat, nat>, b: Buffer)
    requires Tabulates(sizes, SeenIn(columns)) && InTree(columns, b)
    ensures b.address in sizes
    ensures b.capacity <= sizes[b.address] && Min(b.offset + b.length, USIZE_MAX) <= sizes[b.address]
  {
    SeenInIsInTree(columns, PairOf(b));
    var i :| 0 <= i < |SeenIn(columns)| && SeenIn(columns)[i] == PairOf(b);
  }

  lemma TableComesFromTree(columns: seq<ArrayData>, sizes: map<nat, nat>, a: nat) returns (b: Buffer)
    requires Tabulates(sizes, SeenIn(columns)) && a in sizes
    ensures InTree(columns, b) && b.address == a
    ensures sizes[a] == if b.capacity <= b.offset + b.length && b.capacity <= USIZE_MAX
                        then Min(b.offset + b.length, USIZE_MAX) else b.capacity
  {
    assert (a, sizes[a]) in SeenIn(columns);
    SeenInIsInTree(columns, (a, sizes[a]));
    b :| InTree(columns, b) && PairOf(b) == (a, sizes[a]);
  }
}
