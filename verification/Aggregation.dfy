// Aggregation of originator messages: packing them into one packet, marking the direct
// links on the way out, and taking the packet apart again.
module Aggregation {
  import opened Basics

  type Bytes = seq<Byte>

  const OGM_HLEN := 24
  const MAX_AGGREGATION_BYTES := 512
  const MAX_AGGREGATION_MS := 100
  const TTL_AT := 2
  const FLAGS_AT := 3
  const TVLV_LEN_AT := 22
  const DIRECTLINK := 4

  // ---- messages ------------------------------------------------------------------

  function Be16(hi: Byte, lo: Byte): nat {
    var (h: int, l: int) := (hi, lo);
    h * 256 + l
  }

  /** An originator message: the header, and as many bytes after it as the header says. */
  predicate IsOgm(b: Bytes) {
    |b| >= OGM_HLEN && |b| == OGM_HLEN + Be16(b[TVLV_LEN_AT], b[TVLV_LEN_AT + 1])
  }

  type Ogm = b: Bytes | IsOgm(b) witness seq(OGM_HLEN, _ => 0)

  predicate HasLink(flags: Byte) {
    flags / DIRECTLINK % 2 == 1
  }

  /** The flags with the third bit set or cleared and the others as they are. */
  function SetLink(flags: Byte, on: bool): (r: Byte)
    ensures r % 4 == flags % 4 && r / 8 == flags / 8 && r / 4 % 2 == if on then 1 else 0
  {
    if HasLink(flags) == on then flags else if on then flags + DIRECTLINK else flags - DIRECTLINK
  }

  function Mark(o: Ogm, on: bool): Ogm {
    o[FLAGS_AT := SetLink(o[FLAGS_AT], on)]
  }

  function Concat(os: seq<Ogm>): Bytes {
    if os == [] then [] else os[0] + Concat(os[1..])
  }

  // ---- taking a packet apart --------------------------------------------------------

  /** Where the message at `pos` ends. */
  function End(data: Bytes, pos: nat): nat
    requires pos + OGM_HLEN <= |data|
  {
    pos + OGM_HLEN + Be16(data[pos + TVLV_LEN_AT], data[pos + TVLV_LEN_AT + 1])
  }

  /** batadv_iv_ogm_aggr_packet; the length field counts for nothing when even the header does not fit. */
  predicate AggrPacket(data: Bytes, pos: nat) {
    pos + OGM_HLEN <= |data| && End(data, pos) <= |data| && End(data, pos) <= MAX_AGGREGATION_BYTES
  }

  function SplitFrom(data: Bytes, pos: nat): seq<Bytes>
    decreases |data| - pos
  {
    if AggrPacket(data, pos) then [data[pos..End(data, pos)]] + SplitFrom(data, End(data, pos)) else []
  }

  lemma EndIs(pre: Bytes, o: Ogm, tail: Bytes)
    ensures var data := pre + o + tail;
            |o| >= OGM_HLEN && End(data, |pre|) == |pre| + |o| && data[|pre|..|pre| + |o|] == o
  {
  }

  lemma SplitStep(pre: Bytes, o: Ogm, tail: Bytes)
    requires |pre| + |o| <= MAX_AGGREGATION_BYTES
    ensures SplitFrom(pre + o + tail, |pre|) == [o] + SplitFrom(pre + o + tail, |pre| + |o|)
  {
    hide IsOgm, End;
    EndIs(pre, o, tail);
  }

  lemma {:induction false} SplitConcat(pre: Bytes, os: seq<Ogm>, tail: Bytes)
    requires |pre| + |Concat(os)| <= MAX_AGGREGATION_BYTES
    ensures SplitFrom(pre + Concat(os) + tail, |pre|) == os + SplitFrom(pre + Concat(os) + tail, |pre| + |Concat(os)|)
    decreases |os|
  {
    hide SplitFrom, IsOgm;
    if os != [] {
      var rest := Concat(os[1..]);
      assert pre + Concat(os) + tail == pre + os[0] + (rest + tail) == (pre + os[0]) + rest + tail;
      SplitStep(pre, os[0], rest + tail);
      SplitConcat(pre + os[0], os[1..], tail);
      assert os == [os[0]] + os[1..];
    } else {
      NothingFirst(pre, tail);
    }
  }

  lemma NothingFirst(pre: Bytes, tail: Bytes)
    ensures SplitFrom(pre + Concat([]) + tail, |pre|) == [] + SplitFrom(pre + Concat([]) + tail, |pre| + |Concat([])|)
  {
  }

  lemma {:induction false} TooLong(pre: Bytes, os: seq<Ogm>)
    requires |pre| <= MAX_AGGREGATION_BYTES < |pre| + |Concat(os)|
    ensures |SplitFrom(pre + Concat(os), |pre|)| < |os|
    decreases |os|
  {
    var data, rest := pre + Concat(os), Concat(os[1..]);
    assert data == pre + os[0] + rest == (pre + os[0]) + rest;
    EndIs(pre, os[0], rest);
    if |pre| + |os[0]| > MAX_AGGREGATION_BYTES {
    } else {
      TooLong(pre + os[0], os[1..]);
    }
  }

  /** A packet comes apart into the messages it was made of exactly when it is no longer than the aggregation limit:
      a single longer message, which is sent alone, is never taken out again. */
  lemma RoundTripIff(os: seq<Ogm>)
    ensures SplitFrom(Concat(os), 0) == os <==> |Concat(os)| <= 512
  {
    assert [] + Concat(os) == Concat(os);
    if |Concat(os)| <= MAX_AGGREGATION_BYTES {
      assert [] + Concat(os) + [] == Concat(os);
      SplitConcat([], os, []);
    } else {
      TooLong([], os);
    }
  }

  /** A message one byte longer than the limit is lost. */
  lemma LongIsLost()
    ensures var o: Ogm := seq(513, i => if i == TVLV_LEN_AT then 1 else if i == TVLV_LEN_AT + 1 then 233 else 0);
            SplitFrom(Concat([o]), 0) == []
  {
    var o: Ogm := seq(513, i => if i == TVLV_LEN_AT then 1 else if i == TVLV_LEN_AT + 1 then 233 else 0);
    TooLong([], [o]);
    assert Concat([o]) == o + Concat([]) == [] + Concat([o]);
  }

  /** Padding behind a packet does not harm the messages before it. */
  lemma Padded(os: seq<Ogm>, padding: Bytes)
    requires |Concat(os)| <= MAX_AGGREGATION_BYTES
    ensures os <= SplitFrom(Concat(os) + padding, 0)
  {
    assert [] + Concat(os) + padding == Concat(os) + padding;
    SplitConcat([], os, padding);
  }

  lemma {:induction false} ConcatSplit(a: seq<Ogm>, b: seq<Ogm>)
    ensures Concat(a + b) == Concat(a) + Concat(b)
  {
    if a == [] {
      assert a + b == b;
    } else {
      assert (a + b)[1..] == a[1..] + b;
      ConcatSplit(a[1..], b);
    }
  }

  lemma {:induction false} ConcatLong(os: seq<Ogm>)
    ensures |Concat(os)| >= OGM_HLEN * |os|
  {
    if os == [] {
    } else {
      ConcatLong(os[1..]);
    }
  }

  /** batadv_iv_ogm_receive: the messages handed on, in turn. */
  method Receive(skb: Bytes) returns (ogms: seq<Bytes>)
    ensures ogms == SplitFrom(skb, 0)
  {
    ogms := [];
    var offset := 0;
    while AggrPacket(skb, offset)
      invariant SplitFrom(skb, 0) == ogms + SplitFrom(skb, offset)
      decreases |skb| - offset
    {
      var next := End(skb, offset);
      ogms := ogms + [skb[offset..next]];
      offset := next;
    }
  }

  // ---- marking ------------------------------------------------------------------------

  /** The messages as they leave: marked just where they were queued as direct link, on the interface they came in
      on. */
  function MarkAll(os: seq<Ogm>, links: seq<bool>, here: bool): (r: seq<Ogm>)
    requires |os| == |links|
    ensures |r| == |os| && forall k :: 0 <= k < |os| ==> r[k] == Mark(os[k], links[k] && here)
  {
    if os == [] then [] else [Mark(os[0], links[0] && here)] + MarkAll(os[1..], links[1..], here)
  }

  lemma {:induction false} MarkedLength(os: seq<Ogm>, links: seq<bool>, here: bool)
    requires |os| == |links|
    ensures |Concat(MarkAll(os, links, here))| == |Concat(os)|
  {
    if os == [] {
    } else {
      MarkedLength(os[1..], links[1..], here);
      assert MarkAll(os, links, here)[1..] == MarkAll(os[1..], links[1..], here);
    }
  }

  /** What the receiver of a marked packet gets: the messages in order, each with DIRECTLINK set just when it was queued
      as direct link and leaves on its incoming interface, and the same as before elsewhere. */
  lemma MarkedSplits(os: seq<Ogm>, links: seq<bool>, here: bool, k: nat)
    requires |os| == |links| && |Concat(os)| <= MAX_AGGREGATION_BYTES && k < |os|
    ensures var got := SplitFrom(Concat(MarkAll(os, links, here)), 0);
            && |got| == |os| && |got[k]| == |os[k]|
            && (HasLink(got[k][FLAGS_AT]) <==> links[k] && here)
            && forall i :: 0 <= i < |os[k]| && (i != FLAGS_AT || HasLink(os[k][FLAGS_AT]) == (links[k] && here))
                 ==> got[k][i] == os[k][i]
  {
    hide Concat, SplitFrom, HasLink, SetLink;
    MarkedLength(os, links, here);
    RoundTripIff(MarkAll(os, links, here));
    MarkIs(os[k], links[k] && here);
  }

  lemma MarkIs(o: Ogm, on: bool)
    ensures |o| >= OGM_HLEN && |Mark(o, on)| == |o| && (HasLink(Mark(o, on)[FLAGS_AT]) <==> on)
    ensures forall i :: 0 <= i < |o| && (i != FLAGS_AT || HasLink(o[FLAGS_AT]) == on) ==> Mark(o, on)[i] == o[i]
  {
  }

  /** The loop of send_to_if when `n` messages are marked, up to `pos`. */
  ghost predicate Marking(os: seq<Ogm>, links: seq<bool>, here: bool, n: nat, sent: Bytes, pos: nat)
    requires |os| == |links|
  {
    && n <= |os| && pos <= |sent| == |Concat(os)| && pos <= MAX_AGGREGATION_BYTES
    && sent[pos..] == Concat(os[n..]) && (n == 0 ==> pos == 0)
    && Concat(MarkAll(os, links, here)) == sent[..pos] + Concat(MarkAll(os[n..], links[n..], here))
  }

  lemma MarkingStarts(os: seq<Ogm>, links: seq<bool>, here: bool)
    requires |os| == |links|
    ensures Marking(os, links, here, 0, Concat(os), 0)
  {
    assert os[0..] == os && links[0..] == links;
  }

  lemma MarkFirst(os: seq<Ogm>, links: seq<bool>, here: bool)
    requires |os| == |links| > 0
    ensures Concat(MarkAll(os, links, here))
            == Mark(os[0], links[0] && here) + Concat(MarkAll(os[1..], links[1..], here))
  {
    assert MarkAll(os, links, here)[1..] == MarkAll(os[1..], links[1..], here);
  }

  lemma MarkingStep(os: seq<Ogm>, links: seq<bool>, here: bool, n: nat, sent: Bytes, pos: nat)
    requires |os| == |links| && Marking(os, links, here, n, sent, pos) && AggrPacket(sent, pos)
    ensures n < |os|
    ensures var sent' := sent[pos + FLAGS_AT := SetLink(sent[pos + FLAGS_AT], links[n] && here)];
            && pos < End(sent', pos) <= |sent| && Marking(os, links, here, n + 1, sent', End(sent', pos))
  {
    hide Concat, MarkAll, Mark, End, AggrPacket, SetLink, IsOgm;
    AggregatedMore(sent, pos, os[n..]);
    var o' := Mark(os[n], links[n] && here);
    var sent' := sent[pos + FLAGS_AT := SetLink(sent[pos + FLAGS_AT], links[n] && here)];
    MarkedBytes(sent, pos, os[n..], links[n] && here);
    MarkFirst(os[n..], links[n..], here);
    assert os[n..][1..] == os[n + 1..] && links[n..][1..] == links[n + 1..];
    assert sent'[..pos + |o'|] == sent[..pos] + o';
  }

  lemma AggregatedMore(sent: Bytes, pos: nat, os: seq<Ogm>)
    requires pos <= |sent| && sent[pos..] == Concat(os) && AggrPacket(sent, pos)
    ensures os != [] && pos + OGM_HLEN <= |sent| && End(sent, pos) <= MAX_AGGREGATION_BYTES
  {
  }

  lemma MarkedBytes(sent: Bytes, pos: nat, os: seq<Ogm>, on: bool)
    requires pos <= |sent| && sent[pos..] == Concat(os) && os != []
    ensures pos + OGM_HLEN <= |sent| && sent[pos + FLAGS_AT] == os[0][FLAGS_AT]
    ensures End(sent, pos) == pos + |os[0]| <= |sent|
    ensures var sent', o' := sent[pos + FLAGS_AT := SetLink(sent[pos + FLAGS_AT], on)], Mark(os[0], on);
            && |o'| == |os[0]| >= OGM_HLEN && End(sent', pos) == pos + |o'|
            && sent'[..pos] == sent[..pos] && sent'[pos..pos + |o'|] == o' && sent'[pos + |o'|..] == Concat(os[1..])
  {
    var pre, o, rest := sent[..pos], os[0], Concat(os[1..]);
    assert sent == pre + o + rest;
    EndIs(pre, o, rest);
    Replaced(pre, o, rest, FLAGS_AT, SetLink(o[FLAGS_AT], on));
    EndIs(pre, Mark(o, on), rest);
  }

  lemma Replaced(pre: Bytes, o: Bytes, rest: Bytes, i: nat, x: Byte)
    requires i < |o|
    ensures (pre + o + rest)[|pre| + i := x] == pre + o[i := x] + rest
  {
  }

  lemma MarkingEnds(os: seq<Ogm>, links: seq<bool>, here: bool, n: nat, sent: Bytes, pos: nat)
    requires |os| == |links| > 0 && Marking(os, links, here, n, sent, pos) && !AggrPacket(sent, pos)
    requires |os| > 1 ==> |Concat(os)| <= MAX_AGGREGATION_BYTES
    ensures sent == if |Concat(os)| <= MAX_AGGREGATION_BYTES then Concat(MarkAll(os, links, here)) else Concat(os)
  {
    if n < |os| {
      var rest := Concat(os[n..][1..]);
      assert sent == sent[..pos] + os[n] + rest;
      EndIs(sent[..pos], os[n], rest);
      assert os[0..] == os;
    }
  }

  // ---- forward packets -----------------------------------------------------------------

  class ForwPacket {
    var skb: Bytes
    var packetLen: nat
    var numPackets: nat
    var directLinkFlags: set<nat>
    const own: bool
    const ifIncoming: int
    const ifOutgoing: int
    const sendTime: int
    ghost var ogms: seq<Ogm>
    ghost var links: seq<bool>

    /** The buffer holds the queued messages one after the other, and flag k is that of message k. */
    ghost predicate Valid()
      reads this
    {
      && |ogms| == |links| == numPackets + 1 && skb == Concat(ogms) && packetLen == |skb|
      && (forall k :: k in directLinkFlags <==> 0 <= k < |links| && links[k])
      && (numPackets > 0 ==> packetLen <= MAX_AGGREGATION_BYTES)
    }

    /** batadv_iv_ogm_aggregate_new */
    constructor (ogm: Ogm, sendTime: int, directLink: bool, ifIncoming: int, ifOutgoing: int, own: bool)
      ensures Valid() && ogms == [ogm] && links == [directLink]
      ensures this.sendTime == sendTime && this.ifIncoming == ifIncoming && this.ifOutgoing == ifOutgoing
              && this.own == own
    {
      this.sendTime, this.ifIncoming, this.ifOutgoing, this.own := sendTime, ifIncoming, ifOutgoing, own;
      skb, packetLen, numPackets := ogm, |ogm|, 0;
      directLinkFlags := if directLink then {0} else {};
      ogms, links := [ogm], [directLink];
      assert Concat([ogm]) == ogm + Concat([]);
    }

    /** batadv_iv_ogm_aggregate */
    method Aggregate(ogm: Ogm, directLink: bool)
      requires Valid() && packetLen + |ogm| <= MAX_AGGREGATION_BYTES
      modifies this
      ensures Valid() && ogms == old(ogms) + [ogm] && links == old(links) + [directLink]
    {
      assert Concat([ogm]) == ogm + Concat([]);
      ConcatSplit(ogms, [ogm]);
      skb := skb + ogm;
      packetLen := packetLen + |ogm|;
      numPackets := numPackets + 1;
      if directLink {
        directLinkFlags := directLinkFlags + {numPackets};
      }
      ogms, links := ogms + [ogm], links + [directLink];
    }

    /** A packet of one message, with the fields as it was made. */
    ghost predicate Holds(ogm: Ogm, ifIn: int, ifOut: int, own: bool, send: int)
      reads this
    {
      && ogms == [ogm] && links == [HasLink(ogm[FLAGS_AT])]
      && ifIncoming == ifIn && ifOutgoing == ifOut && this.own == own && sendTime == send
    }

    /** The packet starts with its first message. */
    lemma Long()
      requires Valid()
      ensures |skb| >= OGM_HLEN && skb[FLAGS_AT] == ogms[0][FLAGS_AT] && skb[TTL_AT] == ogms[0][TTL_AT]
    {
      ConcatLong(ogms);
      assert skb == ogms[0] + Concat(ogms[1..]);
    }

    /** The 32 flags suffice. */
    lemma FlagsFit()
      requires Valid()
      ensures forall k :: k in directLinkFlags ==> k < 32
    {
      ConcatLong(ogms);
    }

    /** What goes out on an interface. */
    ghost function OnAir(hardIface: int): Bytes
      requires Valid()
      reads this
    {
      if packetLen <= MAX_AGGREGATION_BYTES then Concat(MarkAll(ogms, links, hardIface == ifIncoming)) else skb
    }

    /** batadv_iv_ogm_send_to_if, up to the packet it hands to the interface. */
    method SendToIf(hardIface: int) returns (sent: Bytes)
      requires Valid()
      ensures sent == OnAir(hardIface)
    {
      hide Concat, MarkAll, Mark, IsOgm, AggrPacket, Marking;
      var here := hardIface == ifIncoming;
      MarkingStarts(ogms, links, here);
      sent := skb;
      var packetNum: nat, pos: nat := 0, 0;
      while AggrPacket(sent, pos)
        invariant Marking(ogms, links, here, packetNum, sent, pos)
        decreases |sent| - pos
      {
        MarkingStep(ogms, links, here, packetNum, sent, pos);
        sent := sent[pos + FLAGS_AT := SetLink(sent[pos + FLAGS_AT], packetNum in directLinkFlags && here)];
        pos := End(sent, pos);
        packetNum := packetNum + 1;
      }
      MarkingEnds(ogms, links, here, packetNum, sent, pos);
    }

    // ---- queueing ------------------------------------------------------------------

    /** batadv_iv_ogm_can_aggregate */
    predicate CanAggregate(ogm: Ogm, send: int, directLink: bool, ifIn: int, ifOut: int, primary: int)
      requires |skb| >= OGM_HLEN
      reads this
    {
      && send < sendTime <= send + MAX_AGGREGATION_MS
      && packetLen + |ogm| <= MAX_AGGREGATION_BYTES
      && ifOutgoing == ifOut
      && (|| (!directLink && !HasLink(skb[FLAGS_AT]) && skb[TTL_AT] != 1 && (!own || ifIncoming == primary))
          || (directLink && ogm[TTL_AT] == 1 && ifIncoming == ifIn
               && (HasLink(skb[FLAGS_AT]) || (own && ifIncoming != primary))))
    }
  }

  /** A message as it was handed to the queue. */
  datatype Queued = Queued(ogm: Ogm, ifIn: int, ifOut: int, own: bool, sendTime: int)

  /** The queue of forward packets; `aggregated` tells whether messages of others are aggregated. */
  class ForwQueue {
    var list: seq<ForwPacket>
    var queueLeft: nat
    const aggregated: bool
    const primary: int
    ghost var log: map<ForwPacket, seq<Queued>>

    constructor (aggregated: bool, primary: int, queueLeft: nat)
      ensures Valid() && list == [] && this.aggregated == aggregated && this.primary == primary
              && this.queueLeft == queueLeft
    {
      this.aggregated, this.primary, this.queueLeft, list := aggregated, primary, queueLeft, [];
      log := map[];
    }

    ghost predicate Valid()
      reads this, list
    {
      && Distinct(list)
      && (forall p :: p in list ==> p in log && p.Valid() && Alike(p) && Records(p, log[p]))
    }

    /** What is aggregated to a packet is of the kind of that packet: direct link messages never travel in a packet that
        is flooded. */
    ghost predicate Alike(p: ForwPacket)
      requires p.Valid()
      reads p
    {
      forall k :: 0 < k < |p.links| ==> p.links[k] == (p.links[0] || (p.own && p.ifIncoming != primary))
    }

    /** The packet holds the messages `qs`, all for its outgoing interface and none past its time or held back for
        longer than the aggregation time, and those that are direct links came in on its incoming interface. */
    ghost predicate Records(p: ForwPacket, qs: seq<Queued>)
      requires p.Valid()
      reads p
    {
      && |qs| == |p.ogms|
      && forall k :: 0 <= k < |qs|
           ==> p.ogms[k] == qs[k].ogm && p.links[k] == HasLink(qs[k].ogm[FLAGS_AT]) && Suits(p, qs[k])
                                       && (k == 0 ==> IsFirst(p, qs[k]))
    }

    /** The message that the packet was made for, with its interfaces and its time. */
    ghost predicate IsFirst(p: ForwPacket, q: Queued) {
      q.own == p.own && q.ifIn == p.ifIncoming && p.sendTime == q.sendTime + HoldBack(q.own)
    }

    ghost predicate Suits(p: ForwPacket, q: Queued) {
      && q.ifOut == p.ifOutgoing && (HasLink(q.ogm[FLAGS_AT]) ==> q.ifIn == p.ifIncoming)
      && q.sendTime <= p.sendTime <= q.sendTime + HoldBack(q.own)
    }

    /** How long a message may wait for others. */
    function HoldBack(own: bool): int {
      if !own && aggregated then MAX_AGGREGATION_MS else 0
    }

    /** From the queue to the receiver: it gets the messages in the order they were queued, each as it was queued but
        for DIRECTLINK, which stays only on the interface the message came in on. */
    lemma Heard(p: ForwPacket, hardIface: int, k: nat)
      requires Valid() && p in list && p.packetLen <= MAX_AGGREGATION_BYTES && k < |log[p]|
      ensures var got, q := SplitFrom(p.OnAir(hardIface), 0), log[p][k];
              && |got| == |log[p]| && got[k] == Mark(q.ogm, HasLink(q.ogm[FLAGS_AT]) && q.ifIn == hardIface)
              && (HasLink(got[k][FLAGS_AT]) <==> HasLink(q.ogm[FLAGS_AT]) && q.ifIn == hardIface)
              && (forall i :: 0 <= i < |q.ogm| && i != FLAGS_AT ==> got[k][i] == q.ogm[i])
    {
      hide Concat, SplitFrom, HasLink, SetLink, Mark;
      var os, here, q := p.ogms, hardIface == p.ifIncoming, log[p][k];
      assert q.ogm == os[k] && p.links[k] == HasLink(q.ogm[FLAGS_AT]) && Suits(p, q);
      MarkedLength(os, p.links, here);
      RoundTripIff(MarkAll(os, p.links, here));
      MarkIs(os[k], p.links[k] && here);
    }

    /** A message that is too long for aggregation goes out alone and is not heard. */
    lemma NotHeard(p: ForwPacket, hardIface: int)
      requires Valid() && p in list && p.packetLen > MAX_AGGREGATION_BYTES
      ensures |log[p]| == 1 && p.OnAir(hardIface) == log[p][0].ogm && SplitFrom(p.OnAir(hardIface), 0) == []
    {
      hide SplitFrom;
      assert p.ogms == [p.ogms[0]];
      assert Concat(p.ogms) == p.ogms[0] + Concat([]) == p.ogms[0];
      TooLong([], p.ogms);
      assert [] + Concat(p.ogms) == Concat(p.ogms);
    }

    ghost predicate Takes(p: ForwPacket, ogm: Ogm, ifIn: int, ifOut: int, own: bool, send: int)
      requires p.Valid()
      reads p
    {
      ConcatLong(p.ogms);
      aggregated && !own && p.CanAggregate(ogm, send, HasLink(ogm[FLAGS_AT]), ifIn, ifOut, primary)
    }

    /** Which messages a packet takes, in terms of the message it was made for: only with aggregation, no own ones, for
        the same outgoing interface, as long as both fit the limit, and within the time the first is held back. A
        message to be flooded joins a flooded one, and a direct link on its last hop one that stays on the same
        interface. */
    lemma TakesIff(p: ForwPacket, q: Queued)
      requires Valid() && p in list
      ensures |log[p]| > 0
      ensures var first := log[p][0];
              var link, flood := q.ogm[3] / 4 % 2 == 1, first.ogm[3] / 4 % 2 == 0;
              var near := first.own && first.ifIn != primary;
              Takes(p, q.ogm, q.ifIn, q.ifOut, q.own, q.sendTime)
              <==> && aggregated && !q.own && q.ifOut == first.ifOut && p.packetLen + |q.ogm| <= 512
                   && (if first.own then q.sendTime < first.sendTime <= q.sendTime + 100
                       else first.sendTime <= q.sendTime < first.sendTime + 100)
                   && if link then q.ogm[2] == 1 && q.ifIn == first.ifIn && (!flood || near)
                      else flood && first.ogm[2] != 1 && !near
    {
      hide Concat;
      p.Long();
      assert Records(p, log[p]) && Suits(p, log[p][0]);
    }

    /** The first packet on the list that takes the message, if any. */
    method FindPacket(ogm: Ogm, ifIn: int, ifOut: int, own: bool, sendTime: int) returns (at: int)
      requires Valid()
      ensures -1 <= at < |list|
      ensures at >= 0 ==> Takes(list[at], ogm, ifIn, ifOut, own, sendTime)
      ensures forall i :: 0 <= i < (if at < 0 then |list| else at) ==> !Takes(list[i], ogm, ifIn, ifOut, own, sendTime)
    {
      if aggregated && !own {
        for i := 0 to |list|
          invariant forall j :: 0 <= j < i ==> !Takes(list[j], ogm, ifIn, ifOut, own, sendTime)
        {
          list[i].Long();
          if list[i].CanAggregate(ogm, sendTime, HasLink(ogm[FLAGS_AT]), ifIn, ifOut, primary) {
            return i;
          }
        }
      }
      return -1;
    }

    /** batadv_iv_ogm_queue_add: the message goes to the end of the first packet on the list that takes it, else, unless
        the queue is full, alone into a new packet, which is held back; no other packet changes. */
    method QueueAdd(ogm: Ogm, ifIn: int, ifOut: int, own: bool, sendTime: int) returns (at: int)
      requires Valid()
      modifies this, list
      ensures Valid() && -1 <= at < |old(list)|
      ensures at >= 0 ==> list == old(list) && old(Takes(list[at], ogm, ifIn, ifOut, own, sendTime))
      ensures at >= 0 ==> list[at].ogms == old(list[at].ogms) + [ogm]
                          && list[at].links == old(list[at].links) + [HasLink(ogm[FLAGS_AT])]
                          && log == old(log)[list[at] := old(log[list[at]]) + [Queued(ogm, ifIn, ifOut, own, sendTime)]]
                          && queueLeft == old(queueLeft)
      ensures forall i :: 0 <= i < (if at < 0 then |old(list)| else at)
                          ==> !old(Takes(list[i], ogm, ifIn, ifOut, own, sendTime))
      ensures forall p :: p in old(list) && (at < 0 || p != list[at])
                ==> p.ogms == old(p.ogms) && p.links == old(p.links)
      ensures at < 0 ==> if !own && old(queueLeft) == 0 then list == old(list) && log == old(log) && queueLeft == 0
                         else && |list| == 1 + |old(list)| && list[1..] == old(list)
                              && fresh(list[0]) && list[0].Holds(ogm, ifIn, ifOut, own, sendTime + HoldBack(own))
                              && log == old(log)[list[0] := [Queued(ogm, ifIn, ifOut, own, sendTime)]]
                              && queueLeft == old(queueLeft) - if own then 0 else 1
    {
      hide ForwPacket.Valid, Alike, Records, Suits, ForwPacket.CanAggregate;
      at := FindPacket(ogm, ifIn, ifOut, own, sendTime);
      if at >= 0 {
        AppendTo(list[at], ogm, ifIn, ifOut, own, sendTime);
        return;
      }
      if !own {
        if queueLeft == 0 {
          return;
        }
        queueLeft := queueLeft - 1;
      }
      AddNew(ogm, ifIn, ifOut, own, sendTime, if !own && aggregated then sendTime + MAX_AGGREGATION_MS else sendTime);
    }

    method AppendTo(p: ForwPacket, ogm: Ogm, ifIn: int, ifOut: int, own: bool, sendTime: int)
      requires Valid() && p in list && Takes(p, ogm, ifIn, ifOut, own, sendTime)
      modifies this`log, p
      ensures Valid() && p.ogms == old(p.ogms) + [ogm] && p.links == old(p.links) + [HasLink(ogm[FLAGS_AT])]
      ensures log == old(log)[p := old(log[p]) + [Queued(ogm, ifIn, ifOut, own, sendTime)]]
    {
      hide Concat;
      p.Long();
      assert forall q :: q in list ==> old(q.Valid()) && old(Alike(q)) && old(Records(q, log[q]));
      p.Aggregate(ogm, HasLink(ogm[FLAGS_AT]));
      log := log[p := log[p] + [Queued(ogm, ifIn, ifOut, own, sendTime)]];
      assert p.Valid() && Alike(p) && Records(p, log[p]);
      forall q | q in list && q != p
        ensures q.Valid() && Alike(q) && Records(q, log[q])
      {
        assert old(q.Valid()) && old(Alike(q)) && old(Records(q, log[q]));
      }
    }

    method AddNew(ogm: Ogm, ifIn: int, ifOut: int, own: bool, sendTime: int, send: int)
      requires Valid() && send == sendTime + HoldBack(own)
      modifies this`list, this`log
      ensures Valid() && |list| == 1 + |old(list)| && list[1..] == old(list)
      ensures fresh(list[0]) && list[0].Holds(ogm, ifIn, ifOut, own, send)
      ensures log == old(log)[list[0] := [Queued(ogm, ifIn, ifOut, own, sendTime)]]
    {
      hide Concat;
      var p := new ForwPacket(ogm, send, HasLink(ogm[FLAGS_AT]), ifIn, ifOut, own);
      list := [p] + list;
      log := log[p := [Queued(ogm, ifIn, ifOut, own, sendTime)]];
      assert Alike(p) && Records(p, log[p]);
      forall q | q in old(list)
        ensures q.Valid() && Alike(q) && Records(q, log[q])
      {
        assert old(q.Valid()) && old(Alike(q)) && old(Records(q, log[q]));
      }
    }
  }
}
