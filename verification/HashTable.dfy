// The chained hash table of alfred: an array of singly linked buckets, with an
// iterator that stays usable when the element it stands on is removed.
module HashTables {

  import opened Basics

  class Element<D> {
    var data: D
    var next: Element?<D>
    ghost var home: int  // the chain it is linked into
    ghost var pos: int   // and its position there

    constructor (d: D)
      ensures data == d && next == null
    {
      data := d;
      next := null;
    }
  }

  /** The element of a chain at position `j`, or null past its end: what the link before it holds. */
  ghost function At<D>(chain: seq<Element<D>>, j: nat): (e: Element?<D>)
    ensures e == null <==> |chain| <= j
  {
    if j < |chain| then chain[j] else null
  }

  ghost function Before<D>(chain: seq<Element<D>>, j: nat): Element?<D>
    requires j <= |chain|
  {
    if j == 0 then null else chain[j - 1]
  }

  ghost function DropAt<T>(s: seq<T>, p: int): (r: seq<T>)
    requires 0 <= p < |s|
    ensures |r| == |s| - 1 && forall j :: 0 <= j < |r| ==> r[j] == s[if j < p then j else j + 1]
  {
    s[..p] + s[p + 1..]
  }

  ghost function Flatten<T>(ss: seq<seq<T>>): (r: seq<T>)
    ensures ss == [] ==> r == []
  {
    if ss == [] then [] else ss[0] + Flatten(ss[1..])
  }

  /** The rows read from position `p` of row `i` to the end. */
  ghost function Rest<T>(rows: seq<seq<T>>, i: int, p: int): seq<T>
    requires 0 <= i < |rows| && 0 <= p <= |rows[i]|
  {
    rows[i][p..] + Flatten(rows[i + 1..])
  }

  lemma RestStep<T>(rows: seq<seq<T>>, i: int, p: int)
    requires 0 <= i < |rows| && 0 <= p <= |rows[i]|
    ensures p < |rows[i]| ==> Rest(rows, i, p) == [rows[i][p]] + Rest(rows, i, p + 1)
    ensures p == |rows[i]| ==> Rest(rows, i, p) == Flatten(rows[i + 1..])
    ensures p == 0 ==> Rest(rows, i, p) == Flatten(rows[i..])
  {
    assert p < |rows[i]| ==> rows[i][p..] == [rows[i][p]] + rows[i][p + 1..];
    assert rows[i..][1..] == rows[i + 1..];
  }

  lemma FlattenFrom<T>(rows: seq<seq<T>>, i: int)
    requires 0 <= i < |rows|
    ensures Flatten(rows[i..]) == rows[i] + Flatten(rows[i + 1..])
  {
    assert rows[i..][1..] == rows[i + 1..];
  }

  lemma RestAfterDrop<T>(rows: seq<seq<T>>, i: int, p: int)
    requires 0 <= i < |rows| && 0 <= p < |rows[i]|
    ensures Rest(rows[i := DropAt(rows[i], p)], i, p) == Rest(rows, i, p + 1)
  {
    assert rows[i := DropAt(rows[i], p)][i + 1..] == rows[i + 1..];
    assert DropAt(rows[i], p)[p..] == rows[i][p + 1..];
  }

  // ---- the value a table represents: its rows, and the map they stand for ----

  ghost predicate WellChosen<K(!new)>(choose: (K, int) -> int) {
    forall k, n :: 0 < n ==> 0 <= choose(k, n) < n
  }

  ghost predicate RowOk<K(!new), D>(row: seq<D>, i: int, size: int, keyOf: D -> K, choose: (K, int) -> int,
                                     m: map<K, D>) {
    && (forall j :: 0 <= j < |row| ==> choose(keyOf(row[j]), size) == i)
    && (forall j :: 0 <= j < |row| ==> keyOf(row[j]) in m && m[keyOf(row[j])] == row[j])
    && (forall j, k :: 0 <= j < k < |row| ==> keyOf(row[j]) != keyOf(row[k]))
  }

  ghost predicate Represents<K(!new), D>(rows: seq<seq<D>>, keyOf: D -> K, choose: (K, int) -> int, m: map<K, D>) {
    && (forall i :: 0 <= i < |rows| ==> RowOk(rows[i], i, |rows|, keyOf, choose, m))
    && (forall k :: k in m ==> 0 <= choose(k, |rows|) < |rows| && m[k] in rows[choose(k, |rows|)] && keyOf(m[k]) == k)
  }

  lemma AppendRepresents<K(!new), D>(rows: seq<seq<D>>, keyOf: D -> K, choose: (K, int) -> int, m: map<K, D>, d: D,
                                           i: int)
    requires Represents(rows, keyOf, choose, m) && keyOf(d) !in m
    requires i == choose(keyOf(d), |rows|) && 0 <= i < |rows|
    ensures Represents(rows[i := rows[i] + [d]], keyOf, choose, m[keyOf(d) := d])
  {
    var rows', m' := rows[i := rows[i] + [d]], m[keyOf(d) := d];
    forall r | 0 <= r < |rows|
      ensures RowOk(rows'[r], r, |rows|, keyOf, choose, m')
    {
      assert RowOk(rows[r], r, |rows|, keyOf, choose, m);
    }
    assert d == rows'[i][|rows[i]|];
  }

  lemma DropRepresents<K(!new), D>(rows: seq<seq<D>>, keyOf: D -> K, choose: (K, int) -> int, m: map<K, D>, i: int,
                                         p: int)
    requires Represents(rows, keyOf, choose, m)
    requires 0 <= i < |rows| && 0 <= p < |rows[i]|
    ensures keyOf(rows[i][p]) in m
    ensures Represents(rows[i := DropAt(rows[i], p)], keyOf, choose, m - {keyOf(rows[i][p])})
  {
    var k := keyOf(rows[i][p]);
    var rows', m' := rows[i := DropAt(rows[i], p)], m - {k};
    assert RowOk(rows[i], i, |rows|, keyOf, choose, m);
    forall r | 0 <= r < |rows|
      ensures RowOk(rows'[r], r, |rows|, keyOf, choose, m')
    {
      assert RowOk(rows[r], r, |rows|, keyOf, choose, m);
    }
    forall k' | k' in m'
      ensures m'[k'] in rows'[choose(k', |rows|)]
    {
      var c := choose(k', |rows|);
      var j :| 0 <= j < |rows[c]| && rows[c][j] == m[k'];
      assert c == i ==> m[k'] == rows'[c][if j < p then j else j - 1];
    }
  }

  /** `s` lists the values of `m`, each exactly once. */
  ghost predicate Enumerates<K, D>(s: seq<D>, keyOf: D -> K, m: map<K, D>) {
    && (forall n :: 0 <= n < |s| ==> keyOf(s[n]) in m && m[keyOf(s[n])] == s[n])
    && (forall n, l :: 0 <= n < l < |s| ==> keyOf(s[n]) != keyOf(s[l]))
    && (forall k :: k in m ==> m[k] in s && keyOf(m[k]) == k)
  }

  lemma EnumeratesBoth<K, D>(s: seq<D>, t: seq<D>, keyOf: D -> K, m: map<K, D>, m': map<K, D>, all: map<K, D>)
    requires Enumerates(s, keyOf, m) && Enumerates(t, keyOf, m') && SplitMap(m, m', all)
    ensures Enumerates(s + t, keyOf, all)
  {
    var u := s + t;
    assert forall n :: |s| <= n < |u| ==> u[n] == t[n - |s|];
    forall k | k in m + m'
      ensures (m + m')[k] in u && keyOf((m + m')[k]) == k
    {
      if k in m' {
        assert m'[k] in t;
      } else {
        assert m[k] in s;
      }
    }
  }

  /** The entries of `m` whose keys choose row `i`, and those that choose row `i` or a later one. */
  ghost function InRow<K, D>(m: map<K, D>, choose: (K, int) -> int, size: int, i: int): map<K, D> {
    map k | k in m && i == choose(k, size) :: m[k]
  }

  ghost function FromRow<K, D>(m: map<K, D>, choose: (K, int) -> int, size: int, i: int): map<K, D> {
    map k | k in m && i <= choose(k, size) :: m[k]
  }

  lemma FirstRow<K(!new), D>(rows: seq<seq<D>>, i: int, keyOf: D -> K, choose: (K, int) -> int, m: map<K, D>)
    requires Represents(rows, keyOf, choose, m) && 0 <= i < |rows|
    ensures Enumerates(rows[i], keyOf, InRow(m, choose, |rows|, i))
    ensures SplitMap(InRow(m, choose, |rows|, i), FromRow(m, choose, |rows|, i + 1), FromRow(m, choose, |rows|, i))
  {
    assert RowOk(rows[i], i, |rows|, keyOf, choose, m);
  }

  /** A traversal of all rows meets every entry of the map once. */
  lemma {:induction false} RowsEnumerate<K(!new), D>(rows: seq<seq<D>>, i: int, keyOf: D -> K, choose: (K, int) -> int,
                                                     m: map<K, D>)
    requires Represents(rows, keyOf, choose, m) && 0 <= i <= |rows|
    ensures Enumerates(Flatten(rows[i..]), keyOf, FromRow(m, choose, |rows|, i))
    decreases |rows| - i
  {
    if i == |rows| {
    } else {
      hide *;
      RowsEnumerate(rows, i + 1, keyOf, choose, m);
      FirstRow(rows, i, keyOf, choose, m);
      EnumeratesBoth(rows[i], Flatten(rows[i + 1..]), keyOf, InRow(m, choose, |rows|, i),
                     FromRow(m, choose, |rows|, i + 1), FromRow(m, choose, |rows|, i));
      FlattenFrom(rows, i);
    }
  }

  lemma CardinalityLess<K, D>(m: map<K, D>, k: K)
    requires k in m
    ensures |m - {k}| == |m| - 1
  {
    assert (m - {k}).Keys == m.Keys - {k};
  }

  ghost predicate SplitMap<K, D>(m: map<K, D>, m': map<K, D>, all: map<K, D>) {
    m.Keys !! m'.Keys && m + m' == all
  }

  lemma MoveEntry<K, D>(m: map<K, D>, m': map<K, D>, all: map<K, D>, k: K)
    requires SplitMap(m, m', all) && k in m
    ensures k !in m' && SplitMap(m - {k}, m'[k := m[k]], all)
  {
  }

  lemma AppendAssoc<T>(s: seq<T>, x: T, t: seq<T>)
    ensures s + ([x] + t) == s + [x] + t && (s + [x] + t)[|s|] == x
  {
  }

  /** After `n` steps of a loop over `all` exactly the elements `decide` picked so far are gone from `m`. */
  ghost predicate SweptTo<K, D>(all: seq<D>, n: nat, decide: (nat, D) -> bool, keyOf: D -> K, start: map<K, D>,
                                m: map<K, D>) {
    && m.Keys <= start.Keys && (forall k :: k in m ==> m[k] == start[k])
    && forall i :: 0 <= i < |all| ==> (keyOf(all[i]) in m <==> !(i < n && decide(i, all[i])))
  }

  lemma SweepStart<K(!new), D>(rows: seq<seq<D>>, decide: (nat, D) -> bool, keyOf: D -> K, choose: (K, int) -> int,
                               m: map<K, D>)
    requires Represents(rows, keyOf, choose, m)
    ensures Enumerates(Flatten(rows), keyOf, m)
    ensures SweptTo(Flatten(rows), 0, decide, keyOf, m, m)
  {
    RowsEnumerate(rows, 0, keyOf, choose, m);
    assert rows[0..] == rows;
    assert m == FromRow(m, choose, |rows|, 0);
  }

  lemma SweepStep<K, D>(all: seq<D>, n: nat, decide: (nat, D) -> bool, keyOf: D -> K, start: map<K, D>, m: map<K, D>)
    requires Enumerates(all, keyOf, start) && SweptTo(all, n, decide, keyOf, start, m) && n < |all|
    ensures SweptTo(all, n + 1, decide, keyOf, start, if decide(n, all[n]) then m - {keyOf(all[n])} else m)
  {
  }

  class HashIt<D> {
    var index: int
    var bucket: Element?<D>
    var prevBucket: Element?<D>
    var firstBucket: int  // the table slot the pointer refers to, -1 for a null pointer
    ghost var pos: int    // position in the chain, or of the gap its element left
    ghost var gone: bool  // the element it stood on has been removed

    constructor ()
      ensures index == -1 && bucket == null && prevBucket == null
    {
      index := -1;
      bucket, prevBucket := null, null;
    }
  }

  class HashTable<K(==, !new), D(==)> {
    const keyOf: D -> K
    const choose: (K, int) -> int
    const table: array<Element?<D>>
    var elements: int

    ghost var chains: seq<seq<Element<D>>>
    ghost var rows: seq<seq<D>>
    ghost var contents: map<K, D>
    ghost var repr: set<Element<D>>

    // ---- representation invariant ---------------------------------------

    ghost predicate LinkOk(e: Element<D>)
      reads this, e
    {
      && 0 <= e.home < |chains| == |rows|
      && 0 <= e.pos < |chains[e.home]| == |rows[e.home]|
      && chains[e.home][e.pos] == e
      && e.data == rows[e.home][e.pos]
      && e.next == At(chains[e.home], e.pos + 1)
    }

    ghost predicate Located(i: int, j: int)
      requires 0 <= i < |chains| && 0 <= j < |chains[i]|
      reads this, repr
    {
      var e := chains[i][j];
      e in repr && e.home == i && e.pos == j
    }

    ghost predicate SlotOk(i: int)
      requires 0 <= i < table.Length == |chains|
      reads this, table, repr
    {
      && table[i] == At(chains[i], 0)
      && forall j :: 0 <= j < |chains[i]| ==> Located(i, j)
    }

    ghost predicate Shape()
      reads this, table, repr
    {
      && 0 < table.Length == |chains| == |rows|
      && (forall e :: e in repr ==> LinkOk(e))
      && (forall i :: 0 <= i < |chains| ==> |chains[i]| == |rows[i]| && SlotOk(i))
    }

    /** Everything but the element counter, which the resize loop leaves stale in the old table. */
    ghost predicate Linked()
      reads this, table, repr
    {
      0 < table.Length && Shape() && WellChosen(choose) && Represents(rows, keyOf, choose, contents)
    }

    ghost predicate Valid()
      reads this, table, repr
    {
      Linked() && elements == |contents|
    }

    /** What a walk down chain `i` may rely on. */
    /** Place `p` of chain `i`, which may be its end. */
    lemma OnChain(i: int, p: int)
      requires Shape() && 0 <= i < |chains| && 0 <= p <= |chains[i]|
      ensures table.Length == |chains| == |rows| && |chains[i]| == |rows[i]| && table[i] == At(chains[i], 0)
      ensures p < |chains[i]| ==>
                var e := chains[i][p];
                e in repr && e.home == i && e.pos == p && e.data == rows[i][p] && e.next == At(chains[i], p + 1)
    {
      assert SlotOk(i);
      assert p < |chains[i]| ==> Located(i, p) && LinkOk(chains[i][p]);
    }

    lemma TableSize()
      requires Shape()
      ensures table.Length == |chains| == |rows|
    {
    }

    lemma Walk(i: int)
      requires Linked() && 0 <= i < table.Length
      ensures table.Length == |chains| == |rows| && |chains[i]| == |rows[i]| && table[i] == At(chains[i], 0)
      ensures forall j :: 0 <= j < |chains[i]| ==>
                var e := chains[i][j];
                e in repr && e.home == i && e.pos == j && e.data == rows[i][j] && e.next == At(chains[i], j + 1)
    {
      assert SlotOk(i);
      forall j | 0 <= j < |chains[i]|
        ensures Located(i, j) && LinkOk(chains[i][j])
      {
      }
    }

    /** A key met in its row is in the map; one that the row does not hold is not. */
    lemma RowDecides(k: K, i: int, n: int)
      requires Linked() && i == choose(k, table.Length) && 0 <= i < |rows| && 0 <= n <= |rows[i]|
      requires forall j :: 0 <= j < n ==> keyOf(rows[i][j]) != k
      ensures n == |rows[i]| ==> k !in contents
      ensures n < |rows[i]| && keyOf(rows[i][n]) == k ==> k in contents && contents[k] == rows[i][n]
    {
      assert RowOk(rows[i], i, |rows|, keyOf, choose, contents);
    }

    constructor (size: int, keyOf: D -> K, choose: (K, int) -> int)
      requires 0 < size && WellChosen(choose)
      ensures Valid() && fresh(table) && table.Length == size && repr == {}
      ensures this.keyOf == keyOf && this.choose == choose && contents == map[]
    {
      this.keyOf, this.choose := keyOf, choose;
      table := new Element?<D>[size](_ => null);
      elements := 0;
      chains, rows := seq(size, _ => []), seq(size, _ => []);
      contents, repr := map[], {};
    }

    method AddBucket(d: D, bucket: Element<D>, checkDuplicate: bool) returns (ok: bool)
      requires Valid() && bucket !in repr
      requires checkDuplicate || keyOf(d) !in contents
      modifies this, table, repr, bucket
      ensures Valid()
      ensures ok == (keyOf(d) !in old(contents))
      ensures !ok ==> unchanged(this) && unchanged(table) && unchanged(repr) && unchanged(bucket)
      ensures ok ==> contents == old(contents)[keyOf(d) := d] && repr == old(repr) + {bucket}
    {
      hide Shape, Represents;
      var index := choose(keyOf(d), table.Length);
      Walk(index);
      ghost var c := chains[index];
      var bucketIt, prev: Element?<D> := table[index], null;
      ghost var n := 0;
      while bucketIt != null
        invariant 0 <= n <= |c| && bucketIt == At(c, n)
        invariant prev == Before(c, n)
        invariant checkDuplicate ==> forall j :: 0 <= j < n ==> keyOf(rows[index][j]) != keyOf(d)
        decreases |c| - n
      {
        if checkDuplicate && keyOf(bucketIt.data) == keyOf(d) {
          RowDecides(keyOf(d), index, n);
          return false;
        }
        prev, bucketIt, n := bucketIt, bucketIt.next, n + 1;
      }
      assert keyOf(d) !in contents by {
        if checkDuplicate {
          RowDecides(keyOf(d), index, n);
        }
      }
      assert Represents(rows[index := rows[index] + [d]], keyOf, choose, contents[keyOf(d) := d]) by {
        AppendRepresents(rows, keyOf, choose, contents, d, index);
      }
      LinkBucket(index, prev, d, bucket);
      ok := true;
    }

    method Add(d: D) returns (ok: bool)
      requires Valid()
      modifies this, table, repr
      ensures Valid() && fresh(repr - old(repr))
      ensures ok == (keyOf(d) !in old(contents))
      ensures contents == if ok then old(contents)[keyOf(d) := d] else old(contents)
    {
      hide Valid, Linked;
      var bucket := new Element<D>(d);
      ok := AddBucket(d, bucket, true);
    }

    method Find(k: K) returns (r: Option<D>)
      requires Valid()
      ensures r == if k in contents then Some(contents[k]) else None
    {
      hide Shape, Represents;
      var index := choose(k, table.Length);
      Walk(index);
      var bucket := table[index];
      ghost var n := 0;
      while bucket != null
        invariant 0 <= n <= |chains[index]| && bucket == At(chains[index], n)
        invariant forall j :: 0 <= j < n ==> keyOf(rows[index][j]) != k
        decreases |chains[index]| - n
      {
        if keyOf(bucket.data) == k {
          RowDecides(k, index, n);
          return Some(bucket.data);
        }
        bucket, n := bucket.next, n + 1;
      }
      RowDecides(k, index, n);
      r := None;
    }

    /** Links `bucket` behind `prev`, the last bucket of chain `index` (or null). */
    method LinkBucket(index: int, prev: Element?<D>, d: D, bucket: Element<D>)
      requires Shape() && bucket !in repr && 0 <= index < table.Length
      requires prev == Before(chains[index], |chains[index]|)
      modifies this, table, repr, bucket
      ensures Shape()
      ensures contents == old(contents)[keyOf(d) := d] && elements == old(elements) + 1
      ensures repr == old(repr) + {bucket}
      ensures rows == old(rows)[index := old(rows)[index] + [d]]
    {
      hide Shape, At, Before;
      TableSize();
      ghost var c := chains[index];
      bucket.data := d;
      bucket.next := null;
      bucket.home, bucket.pos := index, |c|;
      HangOn(index, prev, bucket);
      elements := elements + 1;
      chains, rows := chains[index := c + [bucket]], rows[index := rows[index] + [d]];
      contents := contents[keyOf(d) := d];
      repr := repr + {bucket};
      assert Shape() by {
        AppendShape(index, bucket);
      }
    }

    method HangOn(index: int, prev: Element?<D>, bucket: Element<D>)
      requires Shape() && bucket !in repr && 0 <= index < table.Length == |chains|
      requires prev == Before(chains[index], |chains[index]|)
      modifies table, repr`next
      ensures forall e :: e in repr
                ==> e.next == if e.home == index && e.pos == |chains[index]| - 1 then bucket else old(e.next)
      ensures forall s :: 0 <= s < table.Length
                ==> table[s] == if s == index && chains[index] == [] then bucket else old(table[s])
    {
      hide Shape;
      LastOf(index);
      if prev == null {
        table[index] := bucket;
      } else {
        prev.next := bucket;
      }
    }

    lemma LastOf(i: int)
      requires Shape() && 0 <= i < |chains|
      ensures forall e :: e in repr && e.home == i && e.pos == |chains[i]| - 1 ==> e == Before(chains[i], |chains[i]|)
      ensures chains[i] != [] ==>
                var e := Before(chains[i], |chains[i]|);
                e in repr && e.home == i && e.pos == |chains[i]| - 1
    {
      if chains[i] != [] {
        OnChain(i, |chains[i]| - 1);
      }
      assert forall e :: e in repr ==> LinkOk(e);
    }

    /** What LinkBucket has done to the heap when it has written its last field. */
    twostate predicate Appended(index: int, new bucket: Element<D>)
      reads this, table, repr
    {
      && old(Shape()) && 0 <= index < table.Length == |old(chains)| && bucket !in old(repr)
      && repr == old(repr) + {bucket}
      && chains == old(chains)[index := old(chains)[index] + [bucket]]
      && rows == old(rows)[index := old(rows)[index] + [bucket.data]]
      && bucket.home == index && bucket.pos == |old(chains)[index]| && bucket.next == null
      && (forall e :: e in old(repr)
            ==> Kept(e) && e.next == if e.home == index && e.pos + 1 == bucket.pos then bucket else old(e.next))
      && (forall i :: 0 <= i < table.Length
            ==> table[i] == if i == index && bucket.pos == 0 then bucket else old(table[i]))
    }

    static twostate predicate Kept(e: Element<D>)
      reads e
    {
      e.home == old(e.home) && e.pos == old(e.pos) && e.data == old(e.data)
    }

    twostate lemma AppendShape(index: int, new bucket: Element<D>)
      requires Appended(index, bucket)
      ensures Shape()
    {
      AppendLinks(index, bucket);
      AppendSlots(index, bucket);
    }

    twostate lemma AppendLinks(index: int, new bucket: Element<D>)
      requires Appended(index, bucket)
      ensures forall e :: e in repr ==> LinkOk(e)
    {
      forall e | e in old(repr)
        ensures LinkOk(e)
      {
        assert old(LinkOk(e));
      }
    }

    twostate lemma AppendSlots(index: int, new bucket: Element<D>)
      requires Appended(index, bucket)
      ensures forall i :: 0 <= i < |chains| ==> |chains[i]| == |rows[i]| && SlotOk(i)
    {
      forall i | 0 <= i < |chains|
        ensures SlotOk(i)
      {
        assert old(SlotOk(i));
        forall j | 0 <= j < |chains[i]|
          ensures Located(i, j)
        {
          assert j < |old(chains)[i]| ==> old(Located(i, j)) && chains[i][j] == old(chains)[i][j];
        }
      }
    }

    // ---- iterating ----------------------------------------------------------

    /** The iterator stands on an element, or on the gap that element left. */
    ghost predicate Tracks(it: HashIt<D>)
      reads this, it
    {
      && 0 <= it.index < |chains| == |rows| && |chains[it.index]| == |rows[it.index]|
      && it.bucket != null
      && 0 <= it.pos <= |chains[it.index]|
      && (if it.gone then it.bucket !in repr else it.pos < |chains[it.index]| && it.bucket == chains[it.index][it.pos])
      && it.prevBucket == Before(chains[it.index], it.pos)
      && it.firstBucket == if it.pos == 0 then it.index else -1
    }

    /** What the iterator has still to visit, in order. */
    ghost function Todo(it: HashIt<D>): seq<D>
      requires Tracks(it)
      reads this, it
    {
      Rest(rows, it.index, if it.gone then it.pos else it.pos + 1)
    }

    method Iterate(iterIn: HashIt?<D>) returns (iter: HashIt?<D>)
      requires Valid()
      requires iterIn != null ==> Tracks(iterIn)
      modifies iterIn
      ensures Valid()
      ensures iter != null ==> (iter == iterIn || (iterIn == null && fresh(iter)))
      ensures iter != null ==> iter.bucket != null && Tracks(iter) && !iter.gone
      ensures var todo := if iterIn == null then Flatten(rows) else old(Todo(iterIn));
              todo == if iter == null then [] else [iter.bucket.data] + Todo(iter)
    {
      hide Shape, Represents, Rest, Flatten;
      if iterIn == null {
        iter := new HashIt<D>();
        assert rows[0..] == rows;
      } else {
        iter := iterIn;
        var found := Recover(iter);
        if found {
          return;
        }
        found := Advance(iter, old(Todo(iterIn)));
        if found {
          return;
        }
      }
      var found := NextSlot(iter);
      if !found {
        iter := null;
      }
    }

    /** `it` has just been moved onto the first element of `todo`. */
    ghost predicate Found(it: HashIt<D>, todo: seq<D>)
      reads this, it, it.bucket
    {
      it.bucket != null && Tracks(it) && !it.gone && todo == [it.bucket.data] + Todo(it)
    }

    /** The iterator stands on an element, or at the end of a chain, before what is to be visited. */
    ghost predicate Stands(it: HashIt<D>, todo: seq<D>)
      reads this, it
    {
      && 0 <= it.index < |chains| == |rows|
      && if it.bucket == null then todo == Flatten(rows[it.index + 1..])
         else && 0 <= it.pos < |chains[it.index]| == |rows[it.index]| && it.bucket == chains[it.index][it.pos]
              && todo == Rest(rows, it.index, it.pos + 1)
    }

    /** The sanity checks for an iterator whose element was removed: it takes the new head of
        its chain, leaves an emptied chain, or steps back onto the element before the gap. */
    method Recover(it: HashIt<D>) returns (found: bool)
      requires Shape() && Tracks(it)
      modifies it
      ensures found ==> Found(it, old(Todo(it)))
      ensures !found ==> Stands(it, old(Todo(it)))
    {
      hide Shape, Rest, Flatten;
      OnChain(it.index, it.pos);
      if it.firstBucket >= 0 {
        if table[it.firstBucket] != it.bucket {
          RestStep(rows, it.index, 0);
          if table[it.firstBucket] != null {
            it.prevBucket := null;
            it.bucket := table[it.firstBucket];
            it.firstBucket := it.index;
            it.gone := false;
            return true;
          }
          it.bucket := null;
        }
      } else if it.prevBucket != null {
        OnChain(it.index, it.pos - 1);
        if it.prevBucket.next != it.bucket {
          it.bucket := it.prevBucket;
          it.pos := it.pos - 1;
        }
      }
      found := false;
    }

    /** Selects the next element of the chain, if there is one. */
    method Advance(it: HashIt<D>, ghost todo: seq<D>) returns (found: bool)
      requires Shape() && Stands(it, todo)
      modifies it
      ensures found ==> Found(it, todo)
      ensures !found ==> 0 <= it.index < |chains| == |rows| && todo == Flatten(rows[it.index + 1..])
    {
      hide Shape, Rest, Flatten;
      if it.bucket != null {
        OnChain(it.index, it.pos);
        RestStep(rows, it.index, it.pos + 1);
        if it.bucket.next != null {
          OnChain(it.index, it.pos + 1);
          it.prevBucket := it.bucket;
          it.bucket := it.bucket.next;
          it.firstBucket := -1;
          it.pos, it.gone := it.pos + 1, false;
          return true;
        }
      }
      found := false;
    }

    /** Searches forward for the next slot that holds a chain. */
    method NextSlot(it: HashIt<D>) returns (found: bool)
      requires Shape() && -1 <= it.index < |chains|
      modifies it
      ensures found ==> Found(it, old(Flatten(rows[it.index + 1..])))
      ensures !found ==> old(Flatten(rows[it.index + 1..])) == []
    {
      hide Shape, Flatten, Rest;
      TableSize();
      ghost var todo := Flatten(rows[it.index + 1..]);
      it.index := it.index + 1;
      while it.index < table.Length
        invariant 0 <= it.index <= table.Length && todo == Flatten(rows[it.index..])
      {
        OnChain(it.index, 0);
        RestStep(rows, it.index, 0);
        if table[it.index] == null {
          it.index := it.index + 1;
          continue;
        }
        it.prevBucket := null;
        it.bucket := table[it.index];
        it.firstBucket := it.index;
        it.pos, it.gone := 0, false;
        return true;
      }
      found := false;
    }

    // ---- removing the element an iterator stands on ------------------------

    method RemoveBucket(it: HashIt<D>) returns (d: D)
      requires Valid() && it.bucket != null && Tracks(it) && !it.gone
      modifies this, table, repr, it`gone
      ensures Valid()
      ensures d == old(it.bucket.data) && keyOf(d) in old(contents)
      ensures contents == old(contents) - {keyOf(d)} && repr == old(repr) - {it.bucket}
      ensures Tracks(it) && it.gone && Todo(it) == old(Todo(it))
    {
      hide Linked, Rest, GapLeft;
      TrackedKey(it);
      CardinalityLess(contents, keyOf(it.bucket.data));
      d := TakeOut(it);
      it.gone := true;
      GapTracked(it, old(chains), old(rows));
    }

    /** The iterator stands on the gap. */
    lemma GapTracked(it: HashIt<D>, chains': seq<seq<Element<D>>>, rows': seq<seq<D>>)
      requires GapLeft(chains', rows', it.index, it.pos) && it.gone && it.bucket != null && it.bucket !in repr
      requires it.prevBucket == Before(chains'[it.index], it.pos)
               && it.firstBucket == if it.pos == 0 then it.index else -1
      ensures Tracks(it) && it.index < |rows'| && it.pos < |rows'[it.index]|
              && Todo(it) == Rest(rows', it.index, it.pos + 1)
    {
      hide Rest;
      RestAfterDrop(rows', it.index, it.pos);
    }

    /** The work of RemoveBucket: relinks around the element and keeps what the table represents in step. */
    method TakeOut(it: HashIt<D>) returns (d: D)
      requires Linked() && Tracks(it) && !it.gone
      modifies this, table, repr
      ensures Linked() && elements == old(elements) - 1
      ensures d == old(it.bucket.data)
      ensures contents == old(contents) - {keyOf(d)} && repr == old(repr) - {it.bucket}
      ensures GapLeft(old(chains), old(rows), it.index, it.pos)
    {
      assert SlotOk(it.index) && Located(it.index, it.pos) && LinkOk(it.bucket);
      d := it.bucket.data;
      ghost var i, p := it.index, it.pos;
      assert Represents(rows[i := DropAt(rows[i], p)], keyOf, choose, contents - {keyOf(d)}) by {
        DropRepresents(rows, keyOf, choose, contents, i, p);
      }
      Unlink(it, i, p, contents - {keyOf(d)});
    }

    lemma TrackedKey(it: HashIt<D>)
      requires Linked() && Tracks(it) && !it.gone
      ensures it.bucket in repr && keyOf(it.bucket.data) in contents
              && contents[keyOf(it.bucket.data)] == it.bucket.data
    {
      assert SlotOk(it.index) && Located(it.index, it.pos) && LinkOk(it.bucket);
      assert RowOk(rows[it.index], it.index, |rows|, keyOf, choose, contents);
    }

    ghost predicate GapLeft(chains': seq<seq<Element<D>>>, rows': seq<seq<D>>, i: int, p: int)
      reads this
    {
      && |chains'| == |rows'| == |chains| && 0 <= i < |rows'| && 0 <= p < |rows'[i]| == |chains'[i]|
      && chains == chains'[i := DropAt(chains'[i], p)] && rows == rows'[i := DropAt(rows'[i], p)]
    }

    method Unlink(it: HashIt<D>, ghost i: int, ghost p: int, ghost left: map<K, D>)
      requires Shape() && it.bucket != null && it.bucket in repr && i == it.bucket.home && p == it.bucket.pos
      requires it.prevBucket == Before(chains[i], p)
      requires it.prevBucket == null ==> it.firstBucket == i
      modifies this, table, repr
      ensures Shape() && repr == old(repr) - {it.bucket} && elements == old(elements) - 1 && contents == left
      ensures GapLeft(old(chains), old(rows), i, p)
    {
      hide Shape, DropAt;
      Around(it.bucket);
      Splice(it, i, p);
      chains, rows := chains[i := DropAt(chains[i], p)], rows[i := DropAt(rows[i], p)];
      repr := repr - {it.bucket};
      elements, contents := elements - 1, left;
      assert Shape() by {
        RemoveShape(i, p);
      }
    }

    /** The element's predecessor takes over its link, and its successors move up. */
    method Splice(it: HashIt<D>, ghost i: int, ghost p: int)
      requires Shape() && it.bucket != null && it.bucket in repr && i == it.bucket.home && p == it.bucket.pos
      requires it.prevBucket == Before(chains[i], p)
      requires it.prevBucket == null ==> it.firstBucket == i
      modifies table, repr`next, repr`pos
      ensures forall e :: e in repr && e != it.bucket ==>
                && e.pos == (if e.home == i && old(e.pos) > p then old(e.pos) - 1 else old(e.pos))
                && e.next == if e.home == i && old(e.pos) == p - 1 then old(it.bucket.next) else old(e.next)
      ensures 0 <= i < table.Length
      ensures forall s :: 0 <= s < table.Length
                ==> table[s] == if s == i && p == 0 then old(it.bucket.next) else old(table[s])
    {
      hide Shape;
      Relink(it, i, p);
      CloseGap(i, p, repr - {it.bucket});
    }

    /** The link into the element now leads past it. */
    method Relink(it: HashIt<D>, ghost i: int, ghost p: int)
      requires Shape() && it.bucket != null && it.bucket in repr && i == it.bucket.home && p == it.bucket.pos
      requires it.prevBucket == Before(chains[i], p)
      requires it.prevBucket == null ==> it.firstBucket == i
      modifies table, repr`next
      ensures 0 <= i < table.Length
      ensures forall e :: e in repr
                ==> e.next == if e.home == i && e.pos == p - 1 then old(it.bucket.next) else old(e.next)
      ensures forall s :: 0 <= s < table.Length
                ==> table[s] == if s == i && p == 0 then old(it.bucket.next) else old(table[s])
    {
      hide Shape;
      Around(it.bucket);
      if it.prevBucket != null {
        it.prevBucket.next := it.bucket.next;
      } else if it.firstBucket >= 0 {
        table[it.firstBucket] := it.bucket.next;
      }
    }

    lemma Around(e: Element<D>)
      requires Shape() && e in repr
      ensures 0 <= e.home < |chains| == |rows| == table.Length && 0 <= e.pos < |chains[e.home]| == |rows[e.home]|
      ensures var c, p := chains[e.home], e.pos;
              && c[p] == e && e.next == At(c, p + 1) && table[e.home] == At(c, 0)
              && (p > 0 ==> c[p - 1] in repr && c[p - 1].home == e.home && c[p - 1].pos == p - 1)
      ensures forall f :: f in repr && f.home == e.home && f.pos == e.pos - 1
                ==> 0 <= f.pos && f == chains[e.home][f.pos]
    {
      assert forall f :: f in repr ==> LinkOk(f);
      assert LinkOk(e) && SlotOk(e.home);
      assert e.pos > 0 ==> Located(e.home, e.pos - 1);
    }

    static ghost method CloseGap(i: int, p: int, es: set<Element<D>>)
      modifies es`pos
      ensures forall e :: e in es ==> e.pos == if e.home == i && old(e.pos) > p then old(e.pos) - 1 else old(e.pos)
    {
      forall e | e in es && e.home == i && e.pos > p {
        e.pos := e.pos - 1;
      }
    }

    /** What Unlink has done to the heap, for the element at position `p` of chain `i`. */
    twostate predicate Removed(new i: int, new p: int)
      reads this, table, repr
    {
      && old(Shape()) && 0 <= i < table.Length == |old(chains)| && 0 <= p < |old(chains)[i]|
      && repr == old(repr) - {old(chains)[i][p]}
      && chains == old(chains)[i := DropAt(old(chains)[i], p)]
      && rows == old(rows)[i := DropAt(old(rows)[i], p)]
      && (forall e :: e in repr ==>
            && e.home == old(e.home) && e.data == old(e.data)
            && e.pos == (if e.home == i && old(e.pos) > p then old(e.pos) - 1 else old(e.pos))
            && e.next == if e.home == i && old(e.pos) == p - 1 then At(old(chains)[i], p + 1) else old(e.next))
      && (forall s :: 0 <= s < table.Length ==>
            table[s] == if s == i && p == 0 then At(old(chains)[i], 1) else old(table[s]))
    }

    twostate lemma RemoveShape(new i: int, new p: int)
      requires Removed(i, p)
      ensures Shape()
    {
      forall e | e in repr
        ensures LinkOk(e)
      {
        assert old(LinkOk(e));
      }
      forall s | 0 <= s < |chains|
        ensures SlotOk(s)
      {
        assert old(SlotOk(s));
        forall j | 0 <= j < |chains[s]|
          ensures Located(s, j)
        {
          assert old(Located(s, if s == i && j >= p then j + 1 else j)) && old(Located(i, p));
        }
      }
    }

    method Remove(k: K) returns (r: Option<D>)
      requires Valid()
      modifies this, table, repr
      ensures Valid() && repr <= old(repr)
      ensures r == if k in old(contents) then Some(old(contents)[k]) else None
      ensures contents == old(contents) - {k}
    {
      hide Linked;
      var it := Seek(k);
      if it.bucket == null {
        assert contents - {k} == contents;
        return None;
      }
      var d := RemoveBucket(it);
      r := Some(d);
    }

    /** A fresh iterator on the element with key `k`, or off the end of its chain. */
    method Seek(k: K) returns (it: HashIt<D>)
      requires Linked()
      ensures fresh(it)
      ensures k in contents <==> it.bucket != null
      ensures it.bucket != null
              ==> Tracks(it) && !it.gone && it.bucket.data == contents[k] && keyOf(it.bucket.data) == k
    {
      hide Shape, Represents;
      var index, bucket, prev, n := WalkTo(k);
      it := new HashIt<D>();
      it.index, it.bucket, it.prevBucket := index, bucket, prev;
      it.firstBucket := if bucket == table[index] then index else -1;
      it.pos, it.gone := n, false;
    }

    method WalkTo(k: K) returns (index: int, bucket: Element?<D>, prev: Element?<D>, ghost n: int)
      requires Linked()
      ensures 0 <= index < |chains| == |rows| == table.Length && 0 <= n <= |chains[index]| == |rows[index]|
      ensures bucket == At(chains[index], n) && prev == Before(chains[index], n)
      ensures k in contents <==> bucket != null
      ensures bucket != null
              ==> bucket.data == contents[k] && keyOf(bucket.data) == k && (bucket == table[index] <==> n == 0)
    {
      hide Shape, Represents;
      index := choose(k, table.Length);
      Walk(index);
      bucket, prev, n := table[index], null, 0;
      while bucket != null
        invariant 0 <= n <= |chains[index]| && bucket == At(chains[index], n)
        invariant prev == Before(chains[index], n)
        invariant forall j :: 0 <= j < n ==> keyOf(rows[index][j]) != k
        decreases |chains[index]| - n
      {
        if keyOf(bucket.data) == k {
          break;
        }
        prev, bucket, n := bucket, bucket.next, n + 1;
      }
      RowDecides(k, index, n);
    }

    /** A hash_iterate loop that removes the current element at whatever steps `decide` picks. */
    method Sweep(decide: (nat, D) -> bool) returns (visited: seq<D>)
      requires Valid()
      modifies this, table, repr
      ensures Valid() && repr <= old(repr)
      ensures Enumerates(visited, keyOf, old(contents))
      ensures SweptTo(visited, |visited|, decide, keyOf, old(contents), contents)
    {
      hide *;
      ghost var all := Flatten(rows);
      assert Enumerates(all, keyOf, contents) && SweptTo(all, 0, decide, keyOf, contents, contents) by {
        SweepBegins(decide);
      }
      ghost var todo := all;
      visited := [];
      var it: HashIt?<D> := null;
      while true
        invariant Valid() && repr <= old(repr)
        invariant it != null ==> fresh(it) && Tracks(it)
        invariant todo == if it == null then Flatten(rows) else Todo(it)
        invariant all == visited + todo
        invariant SweptTo(all, |visited|, decide, keyOf, old(contents), contents)
        decreases |all| - |visited|
      {
        it := Iterate(it);
        if it == null {
          break;
        }
        var d := it.bucket.data;
        todo := Todo(it);
        assert all == visited + [d] + todo && |visited| < |all| && all[|visited|] == d by {
          AppendAssoc(visited, d, todo);
        }
        SweepAt(it, |visited|, decide, all, old(contents));
        visited := visited + [d];
      }
      assert all == visited;
    }

    lemma SweepBegins(decide: (nat, D) -> bool)
      requires Valid()
      ensures Enumerates(Flatten(rows), keyOf, contents)
      ensures SweptTo(Flatten(rows), 0, decide, keyOf, contents, contents)
    {
      SweepStart(rows, decide, keyOf, choose, contents);
    }

    /** The body of the loop: removes the current element if `decide` says so at step `n`. */
    method SweepAt(it: HashIt<D>, n: nat, decide: (nat, D) -> bool, ghost all: seq<D>, ghost start: map<K, D>)
      requires Valid() && it.bucket != null && Tracks(it) && !it.gone
      requires n < |all| && all[n] == it.bucket.data && Enumerates(all, keyOf, start)
      requires SweptTo(all, n, decide, keyOf, start, contents)
      modifies this, table, repr, it`gone
      ensures Valid() && repr <= old(repr)
      ensures it.bucket != null && Tracks(it) && Todo(it) == old(Todo(it))
      ensures SweptTo(all, n + 1, decide, keyOf, start, contents)
    {
      hide *;
      SweepStep(all, n, decide, keyOf, start, contents);
      if decide(n, it.bucket.data) {
        var _ := RemoveBucket(it);
      }
    }

    // ---- resizing -----------------------------------------------------------

    /** Moves every bucket into a new table of the given size; the old one is left without chains. */
    method Resize(size: int) returns (newHash: HashTable<K, D>)
      requires Valid() && 0 < size
      modifies this, table, repr
      ensures newHash.Valid() && fresh(newHash) && fresh(newHash.table) && newHash.table.Length == size
      ensures newHash.contents == old(contents) && newHash.repr == old(repr)
      ensures newHash.keyOf == keyOf && newHash.choose == choose
    {
      hide *;
      assert WellChosen(choose) by {
        ChooseOk();
      }
      newHash := new HashTable<K, D>(size, keyOf, choose);
      assert Moving(newHash, contents, repr) && |rows| == table.Length by {
        NoneMoved(newHash);
      }
      var i := 0;
      while i < table.Length
        invariant 0 <= i <= table.Length == |rows|
        invariant fresh(newHash) && fresh(newHash.table) && newHash.table.Length == size
        invariant newHash.repr <= old(repr) && repr <= old(repr)
        invariant Moving(newHash, old(contents), old(repr))
        invariant forall j :: 0 <= j < i ==> rows[j] == []
      {
        while table[i] != null
          invariant 0 <= i < table.Length == |rows|
          invariant fresh(newHash) && fresh(newHash.table) && newHash.table.Length == size
          invariant newHash.repr <= old(repr) && repr <= old(repr)
          invariant Moving(newHash, old(contents), old(repr))
          invariant forall j :: 0 <= j < i ==> rows[j] == []
          decreases |rows[i]|
        {
          MoveFirst(newHash, i, old(contents), old(repr));
        }
        SlotEmpty(newHash, i, old(contents), old(repr));
        i := i + 1;
      }
      AllMoved(newHash, old(contents), old(repr));
    }

    lemma ChooseOk()
      requires Valid()
      ensures WellChosen(choose)
    {
    }

    lemma NoneMoved(newHash: HashTable<K, D>)
      requires Valid() && newHash.Valid() && newHash.contents == map[] && newHash.repr == {}
      requires newHash != this && newHash.table != table && newHash.keyOf == keyOf && newHash.choose == choose
      ensures Moving(newHash, contents, repr) && |rows| == table.Length
    {
      hide Represents, LinkOk, SlotOk;
      assert contents + map[] == contents;
    }

    lemma SlotEmpty(newHash: HashTable<K, D>, i: int, all: map<K, D>, elems: set<Element<D>>)
      requires Moving(newHash, all, elems) && 0 <= i < table.Length && table[i] == null
      ensures 0 <= i < |rows| && rows[i] == []
    {
      assert SlotOk(i);
    }

    lemma NothingLeft()
      requires Linked() && forall j :: 0 <= j < |rows| ==> rows[j] == []
      ensures repr == {} && contents == map[]
    {
      assert repr == {} by {
        hide Represents;
        assert forall e :: e in repr ==> LinkOk(e);
      }
      assert contents == map[] by {
        hide Shape;
        assert forall k :: k !in contents;
      }
    }

    lemma AllMoved(newHash: HashTable<K, D>, all: map<K, D>, elems: set<Element<D>>)
      requires Moving(newHash, all, elems) && forall j :: 0 <= j < |rows| ==> rows[j] == []
      ensures newHash.Valid() && newHash.contents == all && newHash.repr == elems
      ensures newHash.keyOf == keyOf && newHash.choose == choose
    {
      hide Linked, Valid;
      assert repr == {} && contents == map[] by {
        NothingLeft();
      }
      assert map[] + newHash.contents == newHash.contents;
    }

    /** Part of the elements still hangs in this table, the rest is already in `newHash`. */
    ghost predicate Moving(newHash: HashTable<K, D>, all: map<K, D>, elems: set<Element<D>>)
      reads this, table, repr, newHash, newHash.table, newHash.repr
    {
      && newHash != this && newHash.table != table && newHash.keyOf == keyOf && newHash.choose == choose
      && Linked() && newHash.Valid()
      && repr !! newHash.repr && repr + newHash.repr == elems
      && SplitMap(contents, newHash.contents, all)
    }

    method MoveFirst(newHash: HashTable<K, D>, i: int, ghost all: map<K, D>, ghost elems: set<Element<D>>)
      requires Moving(newHash, all, elems) && 0 <= i < table.Length && table[i] != null
      modifies this, table, repr, newHash, newHash.table, newHash.repr
      ensures Moving(newHash, all, elems) && repr <= old(repr) && newHash.repr <= elems && |rows| == table.Length
      ensures |old(rows)| == |rows| && old(rows)[i] != [] && rows == old(rows)[i := old(rows)[i][1..]]
    {
      hide Linked, Valid, SplitMap;
      ghost var m, m' := contents, newHash.contents;
      var bucket := PopFirst(i);
      assert keyOf(bucket.data) !in m' && SplitMap(contents, m'[keyOf(bucket.data) := bucket.data], all) by {
        MoveEntry(m, m', all, keyOf(bucket.data));
      }
      var _ := newHash.AddBucket(bucket.data, bucket, false);
    }

    method PopFirst(i: int) returns (bucket: Element<D>)
      requires Linked() && 0 <= i < table.Length && table[i] != null
      modifies this, table, repr`pos
      ensures bucket == old(table[i]) && bucket in old(repr) && repr == old(repr) - {bucket}
      ensures keyOf(bucket.data) in old(contents) && old(contents)[keyOf(bucket.data)] == bucket.data
      ensures Linked() && contents == old(contents) - {keyOf(bucket.data)}
      ensures |rows| == table.Length
      ensures |old(rows)| == |rows| && old(rows)[i] != [] && rows == old(rows)[i := old(rows)[i][1..]]
    {
      hide Shape, Represents, DropAt;
      bucket := table[i];
      AtSlot(i);
      CutFirst(i, contents - {keyOf(bucket.data)});
    }

    lemma AtSlot(i: int)
      requires Linked() && 0 <= i < table.Length && table[i] != null
      ensures var e := table[i];
              && e in repr && e.home == i && e.pos == 0 && |rows| == table.Length && rows[i] != []
              && keyOf(e.data) in contents && contents[keyOf(e.data)] == e.data
              && DropAt(rows[i], 0) == rows[i][1..]
              && Represents(rows[i := DropAt(rows[i], 0)], keyOf, choose, contents - {keyOf(e.data)})
    {
      assert SlotOk(i) && Located(i, 0) && LinkOk(table[i]);
      assert RowOk(rows[i], i, |rows|, keyOf, choose, contents);
      DropRepresents(rows, keyOf, choose, contents, i, 0);
    }

    method CutFirst(i: int, ghost left: map<K, D>)
      requires Shape() && 0 <= i < table.Length && table[i] != null && table[i] in repr
      requires table[i].home == i && table[i].pos == 0
      modifies this, table, repr`pos
      ensures Shape() && contents == left && repr == old(repr) - {old(table[i])}
      ensures |old(rows)| == |rows| == table.Length && old(rows)[i] != []
      ensures rows == old(rows)[i := DropAt(old(rows)[i], 0)]
    {
      hide Shape;
      Around(table[i]);
      repr, contents := repr - {table[i]}, left;
      table[i] := table[i].next;
      chains, rows := chains[i := DropAt(chains[i], 0)], rows[i := DropAt(rows[i], 0)];
      CloseGap(i, 0, repr);
      RemoveShape(i, 0);
    }
  }
}
