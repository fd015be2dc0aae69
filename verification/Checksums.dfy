// A 16-bit checksum cannot tell all addresses apart: a counting argument over 131072 addresses,
// whose heads are made by doubling a list bit by bit.
module Checksums {
  import opened Basics
  import opened BatmanCommon

  const STEPS := 17

  /** For each n: bit n, the bits from n on, and the number of words without the latter. */
  function Powers(): seq<(bv32, bv32, nat)> {
    [
      (0x1, 0xffffffff, 1), (0x2, 0xfffffffe, 2), (0x4, 0xfffffffc, 4), (0x8, 0xfffffff8, 8),
      (0x10, 0xfffffff0, 16), (0x20, 0xffffffe0, 32), (0x40, 0xffffffc0, 64), (0x80, 0xffffff80, 128),
      (0x100, 0xffffff00, 256), (0x200, 0xfffffe00, 512), (0x400, 0xfffffc00, 1024), (0x800, 0xfffff800, 2048),
      (0x1000, 0xfffff000, 4096), (0x2000, 0xffffe000, 8192), (0x4000, 0xffffc000, 16384), (0x8000, 0xffff8000, 32768),
      (0x10000, 0xffff0000, 65536), (0x20000, 0xfffe0000, 131072)
    ]
  }

  function Bit(n: nat): bv32
    requires n <= STEPS
  {
    Powers()[n].0
  }

  function From(n: nat): bv32
    requires n <= STEPS
  {
    Powers()[n].1
  }

  function Size(n: nat): nat
    requires n <= STEPS
  {
    Powers()[n].2
  }

  predicate BitOf(p: bv32, m: bv32) {
    p != 0 && p & m == p
  }

  function Less(m: bv32, p: bv32): bv32 {
    m & !p
  }

  predicate Doubles(n: nat)
    requires n < STEPS
  {
    BitOf(Bit(n), From(n)) && From(n + 1) == Less(From(n), Bit(n)) && Size(n + 1) == 2 * Size(n)
  }

  lemma PowersDouble(n: nat)
    requires n < STEPS
    ensures Doubles(n)
  {
    hide Doubles, Powers;
    if n < 6 {
      PowersDoubleUpTo6(n);
    } else if n < 12 {
      PowersDoubleUpTo12(n);
    } else {
      PowersDoubleUpTo17(n);
    }
  }

  lemma PowersDoubleUpTo6(n: nat)
    requires n < 6
    ensures Doubles(n)
  {
  }

  lemma PowersDoubleUpTo12(n: nat)
    requires 6 <= n < 12
    ensures Doubles(n)
  {
  }

  lemma PowersDoubleUpTo17(n: nat)
    requires 12 <= n < STEPS
    ensures Doubles(n)
  {
  }

  function WithBit(x: bv32, p: bv32): bv32 {
    x | p
  }

  predicate Lacks(x: bv32, m: bv32) {
    x & m == 0
  }

  lemma StillLacks(x: bv32, p: bv32, m: bv32)
    requires Lacks(x, m)
    ensures Lacks(x, Less(m, p))
  {
    hide Powers;
  }

  lemma WithLacks(x: bv32, p: bv32, m: bv32)
    requires Lacks(x, m)
    ensures Lacks(WithBit(x, p), Less(m, p))
  {
    hide Powers;
  }

  lemma LacksBit(x: bv32, p: bv32, m: bv32)
    requires BitOf(p, m) && Lacks(x, m)
    ensures Lacks(x, p)
  {
    hide Powers;
  }

  lemma BitTells(x: bv32, y: bv32, p: bv32)
    requires p != 0 && Lacks(x, p) && Lacks(y, p)
    ensures x != WithBit(y, p) && (WithBit(x, p) == WithBit(y, p) ==> x == y)
  {
    hide Powers;
  }

  ghost function Doubled(q: seq<bv32>, p: bv32): (d: seq<bv32>)
    ensures |d| == 2 * |q| && forall i :: 0 <= i < |q| ==> d[i] == q[i] && d[|q| + i] == WithBit(q[i], p)
  {
    q + seq(|q|, i requires 0 <= i < |q| => WithBit(q[i], p))
  }

  ghost predicate AllLack(q: seq<bv32>, m: bv32) {
    forall i :: 0 <= i < |q| ==> Lacks(q[i], m)
  }

  lemma DoubledDistinct(q: seq<bv32>, p: bv32, m: bv32)
    requires Distinct(q) && AllLack(q, m) && BitOf(p, m) && p != 0
    ensures Distinct(Doubled(q, p)) && AllLack(Doubled(q, p), Less(m, p))
  {
    hide WithBit, Lacks, Doubled, BitOf, Less, Powers;
    var d, k := Doubled(q, p), |q|;
    forall i | 0 <= i < |d|
      ensures Lacks(d[i], Less(m, p))
    {
      var a := if i < k then i else i - k;
      assert i >= k ==> d[k + a] == WithBit(q[a], p);
      StillLacks(q[a], p, m);
      WithLacks(q[a], p, m);
    }
    forall i, j | 0 <= i < j < |d|
      ensures d[i] != d[j]
    {
      var a, b := if i < k then i else i - k, if j < k then j else j - k;
      assert d[k + a] == WithBit(q[a], p) && d[k + b] == WithBit(q[b], p);
      LacksBit(q[a], p, m);
      LacksBit(q[b], p, m);
      BitTells(q[a], q[b], p);
    }
  }

  ghost function Heads(n: nat): seq<bv32>
    requires n <= STEPS
  {
    if n == 0 then [0] else Doubled(Heads(n - 1), Bit(n - 1))
  }

  /** The addresses differ and leave room for one bit more. */
  ghost predicate HeadsOk(n: nat)
    requires n <= STEPS
  {
    Distinct(Heads(n)) && AllLack(Heads(n), From(n)) && |Heads(n)| == Size(n)
  }

  lemma {:induction false} HeadsDistinct(n: nat)
    requires n <= STEPS
    ensures HeadsOk(n)
  {
    hide HeadsOk;
    if n == 0 {
      FirstHead();
    } else {
      HeadsDistinct(n - 1);
      NextHeads(n);
    }
  }

  lemma NextHeads(n: nat)
    requires 0 < n <= STEPS && HeadsOk(n - 1)
    ensures HeadsOk(n)
  {
    hide Bit, From, Size, Powers, BitOf, Less, AllLack, Doubled, Distinct;
    PowersDouble(n - 1);
    BitSet(n - 1);
    DoubledDistinct(Heads(n - 1), Bit(n - 1), From(n - 1));
  }

  lemma FirstHead()
    ensures HeadsOk(0)
  {
  }

  lemma BitSet(n: nat)
    requires n <= STEPS
    ensures Bit(n) != 0 && Size(STEPS) > 0x1_0000
  {
  }

  /** The checksum of an address as a number. */
  ghost function Code(crc16: Mac -> bv16, head: bv32): (v: int)
    ensures 0 <= v < 0x1_0000
  {
    crc16(Mac(head, 0)) as int
  }

  lemma CodeDetermines(crc16: Mac -> bv16, h: bv32, h': bv32)
    requires Code(crc16, h) == Code(crc16, h')
    ensures crc16(Mac(h, 0)) == crc16(Mac(h', 0))
  {
    var x, y := crc16(Mac(h, 0)), crc16(Mac(h', 0));
    assert (x as int) as bv16 == x && (y as int) as bv16 == y;
  }

  ghost function Codes(crc16: Mac -> bv16, h: seq<bv32>): (q: seq<int>)
    ensures |q| == |h| && forall i :: 0 <= i < |h| ==> q[i] == Code(crc16, h[i])
  {
    if h == [] then [] else Codes(crc16, h[..|h| - 1]) + [Code(crc16, h[|h| - 1])]
  }

  lemma Pigeonhole(q: seq<int>, n: nat)
    requires |q| > n && forall i :: 0 <= i < |q| ==> 0 <= q[i] < n
    ensures exists i, j :: 0 <= i < j < |q| && q[i] == q[j]
  {
    if Distinct(q) {
      DistinctMembers(q);
      assert Members(q) <= Below(n);
      SubsetSize(Members(q), Below(n));
    }
  }

  /** Among more than 65536 addresses two share a checksum. */
  lemma AddressesCollide(crc16: Mac -> bv16) returns (m: Mac, m': Mac)
    ensures m != m' && crc16(m) == crc16(m')
  {
    hide Heads, Code, Codes, Powers, Bit, From, Size;
    HeadsDistinct(STEPS);
    BitSet(0);
    var h := Heads(STEPS);
    var q := Codes(crc16, h);
    Pigeonhole(q, 0x1_0000);
    var i, j :| 0 <= i < j < |q| && q[i] == q[j];
    CodeDetermines(crc16, h[i], h[j]);
    m, m' := Mac(h[i], 0), Mac(h[j], 0);
  }
}
