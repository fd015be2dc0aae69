// Transmission quality: what a node makes of the quality in a message it receives, with
// the machine arithmetic of the code, and what that means along a path.
module Tq {
  import opened Basics
  import opened BatmanCommon

  const SEND_MINIMUM := 1
  const RECV_MINIMUM := 1
  const BIDIRECT_LIMIT := 1

  type Count = x: int | 0 <= x <= WINDOW

  function ToU32(x: int): U32 {
    x % 0x1_0000_0000
  }

  /** `q` is `x` divided by `m` and rounded down. */
  predicate IsQuotient(q: int, x: int, m: int) {
    q * m <= x < (q + 1) * m
  }

  // ---- the exact values -------------------------------------------------------------

  /** batadv_hop_penalty */
  function HopPenalty(tq: Byte, penalty: Byte): (r: Byte)
    ensures r <= tq
    ensures r == tq <==> tq == 0 || penalty == 0
    ensures IsQuotient(r, tq * (TQ_MAX - penalty), TQ_MAX)
  {
    ScaleDown(tq, TQ_MAX - penalty, TQ_MAX);
    tq * (TQ_MAX - penalty) / TQ_MAX
  }

  /** The share of our messages that came back, of those we could hear; 0 when there are too few. */
  function TqOwn(echoes: Count, received: Count): (r: Byte)
    ensures r == TQ_MAX <==> received <= echoes && received >= RECV_MINIMUM
    ensures r > 0 <==> echoes >= SEND_MINIMUM && received >= RECV_MINIMUM
    ensures r > 0 ==> IsQuotient(r, TQ_MAX * Min(echoes, received), received)
  {
    var total := Min(echoes, received);
    if total < SEND_MINIMUM || received < RECV_MINIMUM then 0
    else
      ShareOf(total, received);
      TQ_MAX * total / received
  }

  /** 1 - (1 - x)^3 of the share x of messages received. */
  function AsymPenalty(received: Count): (r: Byte)
    ensures r == TQ_MAX <==> received >= 54
    ensures received >= RECV_MINIMUM ==> r > 0
    ensures var missed := WINDOW - received; IsQuotient(TQ_MAX - r, TQ_MAX * (missed * missed * missed), 262_144)
  {
    var missed := WINDOW - received;
    CubeBounds(missed);
    TQ_MAX - TQ_MAX * (missed * missed * missed) / (WINDOW * WINDOW * WINDOW)
  }

  /** What is left of `tq` over a link; `iface` is TQ_MAX or what a half-duplex interface leaves of it. */
  function LinkTq(tq: Byte, echoes: Count, received: Count, iface: Byte): (r: Byte)
    ensures r <= tq
    ensures r == tq <==> tq == 0 || (54 <= received <= echoes && iface == TQ_MAX)
    ensures IsQuotient(r, tq * (TqOwn(echoes, received) * AsymPenalty(received) * iface), 16_581_375)
  {
    var k := TqOwn(echoes, received) * AsymPenalty(received) * iface;
    Product(TqOwn(echoes, received), AsymPenalty(received), iface);
    ScaleDown(tq, k, TQ_MAX * TQ_MAX * TQ_MAX);
    tq * k / (TQ_MAX * TQ_MAX * TQ_MAX)
  }

  lemma MulMono(a: int, b: int, c: int)
    requires a <= b && c >= 0
    ensures a * c <= b * c
  {
    assert (b - a) * c >= 0;
  }

  lemma DivIs(x: int, m: int)
    requires m > 0
    ensures x / m * m <= x < x / m * m + m
    ensures IsQuotient(x / m, x, m)
  {
  }

  /** A division never gives more than the bound it is scaled to. */
  lemma DivBelow(x: int, q: int, m: int)
    requires m > 0 && 0 <= x < q * m
    ensures 0 <= x / m < q
  {
    DivIs(x, m);
  }

  lemma ScaleDown(tq: int, k: int, m: int)
    requires tq >= 0 && 0 <= k <= m && m > 0
    ensures 0 <= tq * k / m <= tq
    ensures tq * k / m == tq <==> tq == 0 || k == m
    ensures IsQuotient(tq * k / m, tq * k, m)
  {
    MulMono(k, m, tq);
    assert 0 <= k * tq == tq * k && m * tq == tq * m;
    assert tq * m < (tq + 1) * m;
    DivBelow(tq * k, tq + 1, m);
    DivIs(tq * k, m);
    if tq > 0 && k < m {
      MulMono(k, m - 1, tq);
      assert (m - 1) * tq == tq * m - tq;
      DivBelow(tq * k, tq, m);
    } else if tq > 0 {
      DivIs(tq * m, m);
      DivExact(tq, m);
    }
  }

  lemma DivExact(q: int, m: int)
    requires m > 0
    ensures q * m / m == q
  {
    var d := q * m / m;
    DivIs(q * m, m);
    if d < q {
      MulMono(d + 1, q, m);
    } else if q < d {
      MulMono(q + 1, d, m);
    }
  }

  lemma ShareOf(total: int, received: int)
    requires 1 <= total <= received <= WINDOW
    ensures 0 < TQ_MAX * total / received <= TQ_MAX
    ensures TQ_MAX * total / received == TQ_MAX <==> total == received
    ensures IsQuotient(TQ_MAX * total / received, TQ_MAX * total, received)
  {
    ScaleDown(TQ_MAX, total, received);
    DivIs(TQ_MAX * total, received);
    assert TQ_MAX * total >= received;
    if TQ_MAX * total / received <= 0 {
      MulMono(TQ_MAX * total / received, 0, received);
    }
  }

  lemma CubeMono(a: int, b: int)
    requires 0 <= a <= b
    ensures 0 <= a * a * a <= b * b * b
  {
    if b > 0 {
      ProductOfTwo(a, a, b, b);
      ProductOfTwo(a * a, a, b * b, b);
    }
  }

  lemma CubeBounds(missed: int)
    requires 0 <= missed <= WINDOW
    ensures 0 <= TQ_MAX * (missed * missed * missed) / (WINDOW * WINDOW * WINDOW) <= TQ_MAX
    ensures TQ_MAX * (missed * missed * missed) / (WINDOW * WINDOW * WINDOW) == 0 <==> missed <= 10
    ensures missed < WINDOW ==> TQ_MAX * (missed * missed * missed) / (WINDOW * WINDOW * WINDOW) < TQ_MAX
    ensures IsQuotient(TQ_MAX * (missed * missed * missed) / (WINDOW * WINDOW * WINDOW),
                       TQ_MAX * (missed * missed * missed), 262_144)
  {
    CubeMono(missed, WINDOW);
    if missed <= 10 {
      CubeMono(missed, 10);
    } else {
      CubeMono(11, missed);
    }
    if missed < WINDOW {
      CubeMono(missed, WINDOW - 1);
    }
  }

  lemma ProductOfTwo(a: int, b: int, m: int, n: int)
    requires 0 <= a <= m && 0 <= b <= n && m > 0 && n > 0
    ensures 0 <= a * b <= m * n
    ensures a * b == m * n <==> a == m && b == n
  {
    MulMono(0, a, b);
    if a < m {
      MulMono(b, n, a);
      MulMono(a, m - 1, n);
      assert (m - 1) * n == m * n - n;
    } else if b < n {
      MulMono(b, n - 1, m);
      assert (n - 1) * m == m * n - m;
    }
  }

  lemma Product(a: int, b: int, c: int)
    requires 0 <= a <= TQ_MAX && 0 <= b <= TQ_MAX && 0 <= c <= TQ_MAX
    ensures 0 <= a * b * c <= TQ_MAX * TQ_MAX * TQ_MAX
    ensures a * b * c == TQ_MAX * TQ_MAX * TQ_MAX <==> a == b == c == TQ_MAX
  {
    ProductOfTwo(a, b, TQ_MAX, TQ_MAX);
    ProductOfTwo(a * b, c, TQ_MAX * TQ_MAX, TQ_MAX);
  }

  // ---- as the code computes them ---------------------------------------------------------

  lemma NoWrap(tq: Byte, own: Byte, asym: Byte, iface: Byte)
    ensures 0 <= tq * own <= TQ_MAX * TQ_MAX
    ensures ToU32(tq * own * asym) == tq * own * asym
    ensures ToU32(tq * own * asym * iface) == tq * own * asym * iface == tq * (own * asym * iface)
  {
    Product(tq, own, asym);
    ProductOfTwo(tq, own, TQ_MAX, TQ_MAX);
    ProductOfTwo(tq * own * asym, iface, TQ_MAX * TQ_MAX * TQ_MAX, TQ_MAX);
    assert tq * own * asym * iface == tq * (own * asym * iface);
  }

  /** batadv_iv_ogm_calc_tq, on the counts it reads. Its 32-bit product and the 8-bit result never wrap, and it divides
      by nothing that can be zero. */
  method CalcTq(tq: Byte, echoes: Count, received: Count, halfDuplex: bool, penalty: Byte)
    returns (combined: Byte, bidirect: bool)
    ensures combined == LinkTq(tq, echoes, received, if halfDuplex then HopPenalty(TQ_MAX, penalty) else TQ_MAX)
    ensures var iface := if halfDuplex then HopPenalty(TQ_MAX, penalty) else TQ_MAX;
            IsQuotient(combined, tq * (TqOwn(echoes, received) * AsymPenalty(received) * iface), 16_581_375)
    ensures bidirect <==> combined >= BIDIRECT_LIMIT
  {
    hide IsQuotient, LinkTq, TqOwn, AsymPenalty, HopPenalty, ToU32;
    var total := if echoes > received then received else echoes;
    var tqOwn: Byte := 0;
    OwnIs(echoes, received);
    if !(total < SEND_MINIMUM || received < RECV_MINIMUM) {
      tqOwn := TQ_MAX * total / received;
    }
    var neighRqInv := WINDOW - received;
    AsymIs(received);
    var invAsymPenalty: U32 := ToU32(TQ_MAX * (neighRqInv * neighRqInv * neighRqInv));
    invAsymPenalty := invAsymPenalty / (WINDOW * WINDOW * WINDOW);
    var tqAsymPenalty: Byte := TQ_MAX - invAsymPenalty;
    var tqIfacePenalty: Byte := TQ_MAX;
    if halfDuplex {
      tqIfacePenalty := HopPenalty(TQ_MAX, penalty);
    }
    LinkIs(tq, echoes, received, tqIfacePenalty);
    var product: U32 := ToU32(ToU32(tq * tqOwn * tqAsymPenalty) * tqIfacePenalty);
    combined := product / (TQ_MAX * TQ_MAX * TQ_MAX);
    bidirect := combined >= BIDIRECT_LIMIT;
  }

  lemma OwnIs(echoes: Count, received: Count)
    ensures var total := if echoes > received then received else echoes;
            if total < SEND_MINIMUM || received < RECV_MINIMUM then TqOwn(echoes, received) == 0
            else TQ_MAX * total / received == TqOwn(echoes, received)
  {
  }

  lemma AsymIs(received: Count)
    ensures var missed := WINDOW - received;
            var cube := ToU32(TQ_MAX * (missed * missed * missed));
            TQ_MAX - cube / (WINDOW * WINDOW * WINDOW) == AsymPenalty(received)
  {
    var missed := WINDOW - received;
    CubeMono(missed, WINDOW);
  }

  lemma LinkIs(tq: Byte, echoes: Count, received: Count, iface: Byte)
    ensures var own, asym := TqOwn(echoes, received), AsymPenalty(received);
            ToU32(ToU32(tq * own * asym) * iface) / (TQ_MAX * TQ_MAX * TQ_MAX) == LinkTq(tq, echoes, received, iface)
  {
    hide TqOwn, AsymPenalty, ToU32;
    NoWrap(tq, TqOwn(echoes, received), AsymPenalty(received), iface);
  }

  // ---- along a path ---------------------------------------------------------------------

  /** One node on a path: the counts of the link the message comes in on, and the node's own hop penalty. */
  datatype Hop = Hop(echoes: Count, received: Count, halfDuplex: bool, penalty: Byte)

  /** The quality the message carries when the node sends it on; 0 when it is dropped. */
  function Across(tq: Byte, h: Hop): Byte {
    if tq == 0 then 0
    else
      var iface := if h.halfDuplex then HopPenalty(TQ_MAX, h.penalty) else TQ_MAX;
      HopPenalty(LinkTq(tq, h.echoes, h.received, iface), h.penalty)
  }

  function Along(tq: Byte, hops: seq<Hop>): Byte {
    if hops == [] then tq else Across(Along(tq, hops[..|hops| - 1]), hops[|hops| - 1])
  }

  /** A node that takes a hop penalty never passes on what it got. */
  lemma FallsAtEachHop(tq: Byte, h: Hop)
    requires h.penalty > 0
    ensures Across(tq, h) < tq || tq == 0
  {
  }

  /** With hop penalties a message is dropped after as many hops as the quality it starts with, whatever the
      links are like and even without a time to live. */
  lemma {:induction false} DiesOut(tq: Byte, hops: seq<Hop>)
    requires forall h :: h in hops ==> h.penalty > 0
    ensures Along(tq, hops) <= if |hops| <= tq then tq - |hops| else 0
  {
    if hops == [] {
    } else {
      DiesOut(tq, hops[..|hops| - 1]);
      FallsAtEachHop(Along(tq, hops[..|hops| - 1]), hops[|hops| - 1]);
    }
  }

  /** Without a penalty a path of good links keeps the quality, and only such a path does. */
  lemma {:induction false} KeptIff(tq: Byte, hops: seq<Hop>)
    ensures Along(tq, hops) <= tq
    ensures Along(tq, hops) == tq
            <==> tq == 0 || forall h :: h in hops ==> h.penalty == 0 && 54 <= h.received <= h.echoes
  {
    if hops == [] {
    } else {
      var n := |hops| - 1;
      KeptIff(tq, hops[..n]);
      assert hops == hops[..n] + [hops[n]];
    }
  }
}
