// Fragments cut from the tail of a packet, and the chain that collects them again.
module Fragmentation {
  import opened Basics

  const HEADER_SIZE := 20
  const MAX_FRAG_SIZE := 1400
  const MAX_FRAGMENTS := 16
  const BUFFER_COUNT := 8
  const SIZE_LIMIT := (MAX_FRAG_SIZE - HEADER_SIZE) * MAX_FRAGMENTS

  type Data = seq<bv8>
  type Seqno = U16

  /** A fragment: the number, seqno and total size of its header, and its payload. */
  datatype Fragment = Fragment(no: nat, seqno: Seqno, totalSize: U16, payload: Data)

  datatype Chain = Chain(head: seq<Fragment>, seqno: Seqno, size: U16, totalSize: U16)

  datatype Outcome = Rejected | Buffered | Merged(packet: Data)
  datatype Rx = Rx(chain: Chain, out: Outcome)

  // ---- receiving, as a function ---------------------------------------------------

  function Inserted(head: seq<Fragment>, f: Fragment): seq<Fragment> {
    if head == [] || head[0].no < f.no then [f] + head else [head[0]] + Inserted(head[1..], f)
  }

  predicate Has(head: seq<Fragment>, no: nat) {
    exists f :: f in head && f.no == no
  }

  /** The payloads put together, from the highest fragment number to the lowest. */
  function Joined(head: seq<Fragment>): Data {
    if head == [] then [] else head[0].payload + Joined(head[1..])
  }

  /** What follows an insertion: give up an oversized or inconsistent chain, hand over a full one. */
  function Settled(c: Chain, total: U16): Rx {
    if c.size > SIZE_LIMIT || c.totalSize != total || c.totalSize > SIZE_LIMIT
    then Rx(c.(head := [], size := 0), Buffered)
    else if total == c.size then Rx(c.(head := [], size := 0), Merged(Joined(c.head)))
    else Rx(c, Buffered)
  }

  /** batadv_frag_skb_buffer on the slot of the fragment's seqno. */
  function Receive(c: Chain, f: Fragment): Rx {
    if c.seqno != f.seqno then
      Settled(Chain([f], f.seqno, |f.payload| % 0x1_0000, f.totalSize), f.totalSize)
    else if c.head == [] || Has(c.head, f.no) then Rx(c, Rejected)
    else Settled(c.(head := Inserted(c.head, f), size := (c.size + |f.payload|) % 0x1_0000), f.totalSize)
  }

  // ---- what every chain satisfies ---------------------------------------------------

  predicate Descending(head: seq<Fragment>) {
    forall i, j :: 0 <= i < j < |head| ==> head[j].no < head[i].no
  }

  predicate ChainOk(c: Chain) {
    && Descending(c.head) && c.size == |Joined(c.head)| % 0x1_0000 && c.size <= SIZE_LIMIT
    && (c.head != [] ==> c.totalSize <= SIZE_LIMIT && c.size != c.totalSize)
    && (forall f :: f in c.head ==> f.seqno == c.seqno && f.totalSize == c.totalSize)
  }

  /** A chain that keeps its own size, a hand-over as long as announced; both in 16 bits. */
  predicate Fits(r: Rx, total: U16) {
    ChainOk(r.chain) && (r.out.Merged? ==> |r.out.packet| % 0x1_0000 == total)
  }

  lemma {:induction false} InsertedMembers(head: seq<Fragment>, f: Fragment)
    ensures forall g :: g in Inserted(head, f) <==> g == f || g in head
    ensures |Joined(Inserted(head, f))| == |Joined(head)| + |f.payload|
  {
    if head == [] || head[0].no < f.no {
      assert ([f] + head)[1..] == head;
    } else {
      InsertedMembers(head[1..], f);
      assert head == [head[0]] + head[1..];
      assert ([head[0]] + Inserted(head[1..], f))[1..] == Inserted(head[1..], f);
    }
  }

  lemma {:induction false} InsertedDescends(head: seq<Fragment>, f: Fragment)
    requires Descending(head) && !Has(head, f.no)
    ensures Descending(Inserted(head, f))
  {
    if head == [] || head[0].no < f.no {
    } else {
      assert head[0] in head && f.no < head[0].no;
      InsertedDescends(head[1..], f);
      InsertedMembers(head[1..], f);
      assert forall g :: g in Inserted(head[1..], f) ==> g.no < head[0].no;
    }
  }

  lemma SettledOk(c: Chain, total: U16)
    requires Descending(c.head) && c.size == |Joined(c.head)| % 0x1_0000
             && forall f :: f in c.head ==> f.seqno == c.seqno
    requires c.totalSize == total ==> forall f :: f in c.head ==> f.totalSize == total
    ensures Fits(Settled(c, total), total)
  {
  }

  lemma KeepsIt(c: Chain, f: Fragment)
    requires ChainOk(c)
    ensures Fits(Rx(c, Rejected), f.totalSize)
  {
  }

  lemma OneIsDescending(f: Fragment)
    ensures Descending([f])
  {
  }

  /** Whatever fragments arrive, the chain stays strictly descending and its size is that of its payloads, as far
      as 16 bits count it; what is handed over is as long as announced, in 16 bits. */
  lemma ReceiveKeepsOk(c: Chain, f: Fragment)
    requires ChainOk(c)
    ensures Fits(Receive(c, f), f.totalSize)
  {
    hide Descending, Has, Settled, Inserted, Fits;
    if c.seqno != f.seqno {
      OneIsDescending(f);
      assert Joined([f]) == f.payload + Joined([]);
      SettledOk(Chain([f], f.seqno, |f.payload| % 0x1_0000, f.totalSize), f.totalSize);
    } else if c.head != [] && !Has(c.head, f.no) {
      InsertedMembers(c.head, f);
      InsertedDescends(c.head, f);
      SettledOk(c.(head := Inserted(c.head, f), size := (c.size + |f.payload|) % 0x1_0000), f.totalSize);
    } else {
      KeepsIt(c, f);
    }
  }

  // ---- sending ------------------------------------------------------------------------

  /** The fragments of `data`, numbered from `no` on: each takes the last `m` bytes of what is left. */
  function Cut(data: Data, m: nat, no: nat, total: U16, seqno: Seqno): seq<Fragment>
    requires m > 0 || data == []
  {
    if |data| <= m then [Fragment(no, seqno, total, data)]
    else
      var rest := |data| - m;
      [Fragment(no, seqno, total, data[rest..])] + Cut(data[..rest], m, no + 1, total, seqno)
  }

  function Fragments(data: Data, m: nat, seqno: Seqno): seq<Fragment>
    requires (m > 0 || data == []) && |data| < 0x1_0000
  {
    Cut(data, m, 0, |data|, seqno)
  }

  /** In 32 bits: an MTU that does not hold the header wraps around to nearly 2^32. */
  function MaxPayload(mtu: nat): U32 {
    (Min(mtu, MAX_FRAG_SIZE) - HEADER_SIZE) % 0x1_0000_0000
  }

  function MaxPacket(mtu: nat): U32 {
    MaxPayload(mtu) * MAX_FRAGMENTS % 0x1_0000_0000
  }

  lemma Payloads(mtu: nat)
    ensures mtu >= HEADER_SIZE ==> MaxPayload(mtu) == Min(mtu, MAX_FRAG_SIZE) - HEADER_SIZE
                                   && MaxPacket(mtu) == MAX_FRAGMENTS * MaxPayload(mtu)
    ensures mtu < HEADER_SIZE ==> MaxPacket(mtu) < MaxPayload(mtu)
  {
    if mtu < HEADER_SIZE {
      assert MaxPayload(mtu) == 0x1_0000_0000 - (HEADER_SIZE - mtu);
      assert MaxPacket(mtu) == 0x1_0000_0000 - MAX_FRAGMENTS * (HEADER_SIZE - mtu);
    }
  }

  lemma {:induction false} CutCount(data: Data, m: nat, no: nat, total: U16, seqno: Seqno, k: nat)
    requires (m > 0 || data == []) && k > 0
    ensures |Cut(data, m, no, total, seqno)| <= k <==> |data| <= k * m
  {
    if |data| > m {
      if k > 1 {
        CutCount(data[..|data| - m], m, no + 1, total, seqno, k - 1);
        assert (k - 1) * m == k * m - m;
      }
    } else {
      assert k * m >= m;
    }
  }

  /** batadv_frag_send_packet. The guard admits 16 full payloads, but the loop gives up when the fragment number reaches
      15: the packet is sent completely just when 15 payloads hold it. With an MTU that does not even hold the header
      the packet goes out as one fragment, longer than the MTU. */
  method SendPacket(data: Data, mtu: nat, seqno: Seqno) returns (ok: bool, sent: seq<Fragment>)
    ensures |data| > MaxPacket(mtu) ==> !ok && sent == []
    ensures |data| <= MaxPacket(mtu) && mtu < HEADER_SIZE
            ==> ok && sent == [Fragment(0, seqno, |data| % 0x1_0000, data)]
    ensures mtu >= HEADER_SIZE ==> (ok <==> |data| <= 15 * (Min(mtu, 1400) - 20))
    ensures mtu >= HEADER_SIZE && |data| <= 16 * (Min(mtu, 1400) - 20) ==>
              var fs := Fragments(data, MaxPayload(mtu), seqno);
              if ok then sent == fs else sent <= fs && |sent| == 15
  {
    hide Fragments, Cut, Sending, MaxPayload, MaxPacket;
    var m := MaxPayload(mtu);
    Payloads(mtu);
    sent := [];
    if |data| > MaxPacket(mtu) {
      MorePayloads(m);
      return false, sent;
    }
    if mtu >= HEADER_SIZE {
      SendingStarts(data, m, seqno);
    }
    var skb, no := data, 0;
    while |skb| > m
      invariant no == |sent| < MAX_FRAGMENTS - 1
      invariant mtu >= HEADER_SIZE ==> Sending(data, m, seqno, sent, skb, no)
      invariant mtu < HEADER_SIZE ==> skb == data && sent == []
    {
      SendingOne(data, m, seqno, sent, skb, no);
      var rest := |skb| - m;
      sent := sent + [Fragment(no, seqno, |data| % 0x1_0000, skb[rest..])];
      skb := skb[..rest];
      no := no + 1;
      if no == MAX_FRAGMENTS - 1 {
        SendingFails(data, m, seqno, sent, skb);
        return false, sent;
      }
    }
    if mtu >= HEADER_SIZE {
      SendingEnds(data, m, seqno, sent, skb, no);
    }
    sent := sent + [Fragment(no, seqno, |data| % 0x1_0000, skb)];
    ok := true;
  }

  lemma MorePayloads(m: nat)
    ensures (MAX_FRAGMENTS - 1) * m <= MAX_FRAGMENTS * m
  {
  }

  /** The fragments sent so far, and those that the rest `skb` of the packet is still to be cut into. */
  ghost predicate Sending(data: Data, m: nat, seqno: Seqno, sent: seq<Fragment>, skb: Data, no: nat) {
    && (m > 0 || (data == [] && skb == [])) && |data| < 0x1_0000
    && Fragments(data, m, seqno) == sent + Cut(skb, m, no, |data|, seqno)
  }

  lemma SendingStarts(data: Data, m: nat, seqno: Seqno)
    requires |data| <= MAX_FRAGMENTS * m && m <= MAX_FRAG_SIZE - HEADER_SIZE
    ensures Sending(data, m, seqno, [], data, 0)
  {
  }

  lemma SendingOne(data: Data, m: nat, seqno: Seqno, sent: seq<Fragment>, skb: Data, no: nat)
    requires Sending(data, m, seqno, sent, skb, no) && |skb| > m
    ensures var rest := |skb| - m;
            Sending(data, m, seqno, sent + [Fragment(no, seqno, |data| % 0x1_0000, skb[rest..])], skb[..rest], no + 1)
  {
    hide Fragments, Cut;
    CutFirst(skb, m, no, |data|, seqno);
    var fs := Cut(skb, m, no, |data|, seqno);
    assert fs == [fs[0]] + fs[1..];
    assert sent + ([fs[0]] + fs[1..]) == sent + [fs[0]] + fs[1..];
  }

  lemma SendingFails(data: Data, m: nat, seqno: Seqno, sent: seq<Fragment>, skb: Data)
    requires Sending(data, m, seqno, sent, skb, MAX_FRAGMENTS - 1) && |sent| == MAX_FRAGMENTS - 1
    ensures |data| > (MAX_FRAGMENTS - 1) * m && (m > 0 || data == []) && |data| < 0x1_0000
            && sent <= Fragments(data, m, seqno)
  {
    CutCount(data, m, 0, |data|, seqno, MAX_FRAGMENTS - 1);
  }

  lemma SendingEnds(data: Data, m: nat, seqno: Seqno, sent: seq<Fragment>, skb: Data, no: nat)
    requires Sending(data, m, seqno, sent, skb, no) && |skb| <= m && |sent| < MAX_FRAGMENTS - 1
    ensures |data| <= (MAX_FRAGMENTS - 1) * m && (m > 0 || data == []) && |data| < 0x1_0000
    ensures sent + [Fragment(no, seqno, |data| % 0x1_0000, skb)] == Fragments(data, m, seqno)
  {
    CutCount(data, m, 0, |data|, seqno, MAX_FRAGMENTS - 1);
  }

  // ---- the round trip -------------------------------------------------------------------

  /** The fragments of `fs` that are in `got`, from the last to the first. */
  ghost function Select(fs: seq<Fragment>, got: set<Fragment>): seq<Fragment> {
    if fs == [] then [] else Select(fs[1..], got) + if fs[0] in got then [fs[0]] else []
  }

  lemma {:induction false} JoinedConcat(a: seq<Fragment>, b: seq<Fragment>)
    ensures Joined(a + b) == Joined(a) + Joined(b)
  {
    if a == [] {
      assert a + b == b;
    } else {
      assert (a + b)[1..] == a[1..] + b;
      JoinedConcat(a[1..], b);
    }
  }

  ghost predicate Ascending(fs: seq<Fragment>) {
    forall i, j :: 0 <= i < j < |fs| ==> fs[i].no < fs[j].no
  }

  lemma {:induction false} SelectMembers(fs: seq<Fragment>, got: set<Fragment>)
    ensures forall f :: f in Select(fs, got) <==> f in fs && f in got
  {
    if fs == [] {
    } else {
      assert fs == [fs[0]] + fs[1..];
      SelectMembers(fs[1..], got);
    }
  }

  lemma {:induction false} InsertedBefore(a: seq<Fragment>, b: seq<Fragment>, f: Fragment)
    requires b != [] && forall g :: g in b ==> g.no < f.no
    ensures Inserted(a + b, f) == Inserted(a, f) + b
  {
    if a == [] {
      assert a + b == b;
    } else {
      assert (a + b)[1..] == a[1..] + b;
      InsertedBefore(a[1..], b, f);
    }
  }

  lemma {:induction false} InsertedAfter(a: seq<Fragment>, b: seq<Fragment>, f: Fragment)
    requires forall g :: g in a ==> f.no < g.no
    ensures Inserted(a + b, f) == a + Inserted(b, f)
  {
    if a == [] {
      assert a + b == b;
    } else {
      assert a[0] in a && (a + b)[1..] == a[1..] + b;
      InsertedAfter(a[1..], b, f);
      assert Inserted(a + b, f) == [a[0]] + (a[1..] + Inserted(b, f)) == a + Inserted(b, f);
    }
  }

  /** Inserting a fragment that is not there yet. */
  lemma {:induction false} SelectInserted(fs: seq<Fragment>, got: set<Fragment>, f: Fragment)
    requires Ascending(fs) && f in fs && f !in got
    ensures Inserted(Select(fs, got), f) == Select(fs, got + {f})
  {
    var rest := Select(fs[1..], got);
    SelectMembers(fs[1..], got);
    if f == fs[0] {
      SelectSame(fs[1..], got, got + {f});
      InsertedAfter(rest, [], f);
      assert rest + [] == rest;
    } else {
      SelectInserted(fs[1..], got, f);
      if fs[0] in got {
        InsertedBefore(rest, [fs[0]], f);
      } else {
        assert Select(fs, got) == rest && Select(fs, got + {f}) == Select(fs[1..], got + {f});
      }
    }
  }

  lemma {:induction false} SelectSame(fs: seq<Fragment>, got: set<Fragment>, got': set<Fragment>)
    requires forall f :: f in fs ==> (f in got <==> f in got')
    ensures Select(fs, got) == Select(fs, got')
  {
    if fs == [] {
    } else {
      SelectSame(fs[1..], got, got');
    }
  }

  ghost predicate All(fs: seq<Fragment>, got: set<Fragment>) {
    forall f :: f in fs ==> f in got
  }

  lemma {:induction false} CutAt(data: Data, m: nat, no: nat, total: U16, seqno: Seqno)
    requires m > 0 || data == []
    ensures var fs := Cut(data, m, no, total, seqno);
            && Ascending(fs) && forall f :: f in fs ==> f.seqno == seqno && f.totalSize == total && f.no >= no
  {
    if |data| <= m {
    } else {
      var fs, rest := Cut(data, m, no, total, seqno), Cut(data[..|data| - m], m, no + 1, total, seqno);
      CutAt(data[..|data| - m], m, no + 1, total, seqno);
      assert forall f :: f in fs ==> f == fs[0] || f in rest;
      assert forall j :: 0 < j < |fs| ==> fs[j] == rest[j - 1] && rest[j - 1] in rest;
    }
  }

  lemma SelectJoined(fs: seq<Fragment>, got: set<Fragment>)
    requires fs != []
    ensures Joined(Select(fs, got)) == Joined(Select(fs[1..], got)) + if fs[0] in got then fs[0].payload else []
    ensures All(fs, got) <==> fs[0] in got && All(fs[1..], got)
  {
    assert Joined([fs[0]]) == fs[0].payload + Joined([]) == fs[0].payload;
    assert fs == [fs[0]] + fs[1..];
    JoinedConcat(Select(fs[1..], got), if fs[0] in got then [fs[0]] else []);
  }

  /** What the chosen fragments amount to: the data when all are there, and less otherwise. */
  lemma {:induction false} CutSelect(data: Data, m: nat, no: nat, total: U16, seqno: Seqno, got: set<Fragment>)
    requires m > 0 || data == []
    ensures var fs := Cut(data, m, no, total, seqno);
            var d := Joined(Select(fs, got));
            if All(fs, got) then d == data else |d| < |data| || (data == [] && Select(fs, got) == [])
  {
    hide Joined, Select, All, Cut;
    var fs := Cut(data, m, no, total, seqno);
    CutFirst(data, m, no, total, seqno);
    SelectJoined(fs, got);
    if |data| > m {
      var rest := |data| - m;
      CutSelect(data[..rest], m, no + 1, total, seqno, got);
      assert data[..rest] + data[rest..] == data;
    } else {
      SelectEmpty(fs, got);
    }
  }

  lemma CutFirst(data: Data, m: nat, no: nat, total: U16, seqno: Seqno)
    requires m > 0 || data == []
    ensures var fs := Cut(data, m, no, total, seqno);
            && fs != []
            && if |data| <= m then fs == [Fragment(no, seqno, total, data)]
               else fs[0] == Fragment(no, seqno, total, data[|data| - m..])
                    && fs[1..] == Cut(data[..|data| - m], m, no + 1, total, seqno)
  {
  }

  lemma SelectEmpty(fs: seq<Fragment>, got: set<Fragment>)
    requires |fs| == 1
    ensures Select(fs, got) == (if fs[0] in got then fs else []) && Joined(Select(fs[1..], got)) == []
            && All(fs[1..], got)
  {
  }

  ghost function Seen(ds: seq<Fragment>): set<Fragment> {
    set f | f in ds
  }

  /** What the receiver makes of `f` when `before` was delivered before: only the fragment that
      completes the packet hands it over, and a fragment that came before is turned down. */
  ghost function Expected(fs: seq<Fragment>, data: Data, before: seq<Fragment>, f: Fragment): Outcome {
    if f in before then Rejected else if All(fs, Seen(before + [f])) then Merged(data) else Buffered
  }

  /** The slot of the packet, which held `c0` at first, after the deliveries `ds`. */
  ghost predicate Collects(c0: Chain, fs: seq<Fragment>, seqno: Seqno, total: U16, ds: seq<Fragment>, c: Chain) {
    if forall f :: f in fs ==> f !in ds then c == c0
    else if All(fs, Seen(ds)) then c.seqno == seqno && c.head == []
    else
      var head := Select(fs, Seen(ds));
      head != [] && |Joined(head)| < total && c == Chain(head, seqno, |Joined(head)|, total)
  }

  /** A new fragment in its place. */
  lemma NewSelected(fs: seq<Fragment>, got: set<Fragment>, f: Fragment)
    requires Ascending(fs) && f in fs && f !in got
    ensures var head := Select(fs, got);
            && Inserted(head, f) == Select(fs, got + {f}) && !Has(head, f.no) && f in Select(fs, got + {f})
            && |Joined(Select(fs, got + {f}))| == |Joined(head)| + |f.payload|
  {
    SelectInserted(fs, got, f);
    SelectMembers(fs, got);
    InsertedMembers(Select(fs, got), f);
  }

  /** What remains after the fragments `got`, of which the last was just put in. */
  lemma SettledSelect(c0: Chain, data: Data, m: nat, seqno: Seqno, ds: seq<Fragment>)
    requires (m > 0 || data == []) && |data| <= SIZE_LIMIT
    requires var fs := Fragments(data, m, seqno); ds != [] && ds[|ds| - 1] in fs && Select(fs, Seen(ds)) != []
    ensures var fs := Fragments(data, m, seqno);
            var head := Select(fs, Seen(ds));
            && |Joined(head)| <= |data|
            && var r := Settled(Chain(head, seqno, |Joined(head)|, |data|), |data|);
               && r.out == (if All(fs, Seen(ds)) then Merged(data) else Buffered)
               && Collects(c0, fs, seqno, |data|, ds, r.chain)
  {
    hide Fragments, Select, Joined;
    CutSelect(data, m, 0, |data|, seqno, Seen(ds));
    assert Fragments(data, m, seqno) == Cut(data, m, 0, |data|, seqno) by {
      FragmentsAre(data, m, seqno);
    }
  }

  lemma FragmentsAre(data: Data, m: nat, seqno: Seqno)
    requires (m > 0 || data == []) && |data| < 0x1_0000
    ensures Fragments(data, m, seqno) == Cut(data, m, 0, |data|, seqno) != []
    ensures var fs := Fragments(data, m, seqno);
            Ascending(fs) && forall f :: f in fs ==> f.seqno == seqno && f.totalSize == |data|
  {
    CutAt(data, m, 0, |data|, seqno);
  }

  /** One more fragment of the packet. */
  lemma CollectsOne(c0: Chain, data: Data, m: nat, seqno: Seqno, ds: seq<Fragment>, c: Chain, f: Fragment)
    requires (m > 0 || data == []) && |data| <= SIZE_LIMIT && c0.seqno != seqno
    requires var fs := Fragments(data, m, seqno); f in fs && Collects(c0, fs, seqno, |data|, ds, c)
    ensures var fs, r := Fragments(data, m, seqno), Receive(c, f);
            r.out == Expected(fs, data, ds, f) && Collects(c0, fs, seqno, |data|, ds + [f], r.chain)
  {
    var fs := Fragments(data, m, seqno);
    FragmentsAre(data, m, seqno);
    hide Fragments, Ascending, Settled, Inserted, Joined, Select, Has, Collects;
    if f in ds {
      RepeatRejected(c0, fs, seqno, |data|, ds, c, f);
    } else {
      NewReceived(c0, fs, seqno, |data|, ds, c, f);
      SettledSelect(c0, data, m, seqno, ds + [f]);
    }
  }

  lemma RepeatRejected(c0: Chain, fs: seq<Fragment>, seqno: Seqno, total: U16, ds: seq<Fragment>, c: Chain, f: Fragment)
    requires f in fs && f in ds && f.seqno == seqno && Collects(c0, fs, seqno, total, ds, c)
    ensures Receive(c, f) == Rx(c, Rejected) && Collects(c0, fs, seqno, total, ds + [f], c)
  {
    assert Seen(ds + [f]) == Seen(ds);
    assert forall g :: g in ds + [f] <==> g in ds;
    SelectMembers(fs, Seen(ds));
  }

  lemma NewReceived(c0: Chain, fs: seq<Fragment>, seqno: Seqno, total: U16, ds: seq<Fragment>, c: Chain, f: Fragment)
    requires Ascending(fs) && f in fs && f !in ds && f.seqno == seqno && f.totalSize == total
    requires Collects(c0, fs, seqno, total, ds, c) && c0.seqno != seqno
    ensures var head := Select(fs, Seen(ds + [f]));
            head != [] && (|Joined(head)| <= total
                ==> Receive(c, f) == Settled(Chain(head, seqno, |Joined(head)|, total), total))
  {
    hide Settled, Ascending, Select, Inserted, Has;
    assert Seen(ds + [f]) == Seen(ds) + {f};
    NewSelected(fs, Seen(ds), f);
    if forall g :: g in fs ==> g !in ds {
      SelectSame(fs, Seen(ds), {});
      SelectNone(fs);
      InsertedFirst(f);
    }
  }

  lemma InsertedFirst(f: Fragment)
    ensures Inserted([], f) == [f] && |Joined([f])| == |f.payload|
  {
    assert Joined([f]) == f.payload + Joined([]);
  }

  lemma {:induction false} SelectNone(fs: seq<Fragment>)
    ensures Select(fs, {}) == []
  {
    if fs == [] {
    } else {
      SelectNone(fs[1..]);
    }
  }

  // ---- runs over all slots of an originator --------------------------------------------

  type Slots = s: seq<Chain> | |s| == BUFFER_COUNT witness seq(BUFFER_COUNT, _ => Chain([], 0, 0, 0))

  function Bucket(seqno: Seqno): nat {
    seqno % BUFFER_COUNT
  }

  ghost function RunSlots(slots: Slots, ds: seq<Fragment>): Slots {
    if ds == [] then slots
    else
      var before, f := RunSlots(slots, ds[..|ds| - 1]), ds[|ds| - 1];
      before[Bucket(f.seqno) := Receive(before[Bucket(f.seqno)], f).chain]
  }

  ghost function OutcomeAt(slots: Slots, ds: seq<Fragment>, i: nat): Outcome
    requires i < |ds|
  {
    Receive(RunSlots(slots, ds[..i])[Bucket(ds[i].seqno)], ds[i]).out
  }

  /** Does send_packet send all of `data`? */
  ghost predicate Sendable(data: Data, mtu: nat) {
    mtu >= HEADER_SIZE && |data| <= (MAX_FRAGMENTS - 1) * MaxPayload(mtu)
  }

  lemma SendableFits(data: Data, mtu: nat)
    requires Sendable(data, mtu)
    ensures (MaxPayload(mtu) > 0 || data == []) && |data| <= SIZE_LIMIT
  {
  }

  ghost function Sent(data: Data, mtu: nat, seqno: Seqno): seq<Fragment>
    requires Sendable(data, mtu)
  {
    Fragments(data, MaxPayload(mtu), seqno)
  }

  /** Any deliveries, in any order and with repeats, of these fragments and of those for other slots. */
  ghost predicate Deliveries(fs: seq<Fragment>, seqno: Seqno, ds: seq<Fragment>) {
    forall d :: d in ds ==> d in fs || Bucket(d.seqno) != Bucket(seqno)
  }

  lemma OtherIgnored(c0: Chain, fs: seq<Fragment>, seqno: Seqno, total: U16, ds: seq<Fragment>, c: Chain, f: Fragment)
    requires f !in fs && Collects(c0, fs, seqno, total, ds, c)
    ensures Collects(c0, fs, seqno, total, ds + [f], c)
  {
    assert forall g :: g in ds + [f] <==> g in ds || g == f;
    SelectSame(fs, Seen(ds), Seen(ds + [f]));
  }

  lemma {:induction false} RunCollects(slots: Slots, data: Data, mtu: nat, seqno: Seqno, ds: seq<Fragment>)
    requires Sendable(data, mtu) && Deliveries(Sent(data, mtu, seqno), seqno, ds) && slots[Bucket(seqno)].seqno != seqno
    ensures Collects(slots[Bucket(seqno)], Sent(data, mtu, seqno), seqno, |data|, ds,
                     RunSlots(slots, ds)[Bucket(seqno)])
  {
    if ds != [] {
      hide Collects, Fragments, Receive, MaxPayload;
      SendableFits(data, mtu);
      var c0, fs, f := slots[Bucket(seqno)], Sent(data, mtu, seqno), ds[|ds| - 1];
      var before := ds[..|ds| - 1];
      assert ds == before + [f];
      var c := RunSlots(slots, before)[Bucket(seqno)];
      RunCollects(slots, data, mtu, seqno, before);
      FragmentsAre(data, MaxPayload(mtu), seqno);
      if f in fs {
        CollectsOne(c0, data, MaxPayload(mtu), seqno, before, c, f);
      } else {
        OtherIgnored(c0, fs, seqno, |data|, before, c, f);
      }
    } else {
      assert Sent(data, mtu, seqno)[0] in Sent(data, mtu, seqno);
    }
  }

  /** The round trip. Whatever else arrives for other slots in between, a fragment is turned down when it came before,
      the packet is handed over, equal to what was sent, by the fragment that completes it, and only buffered before. */
  lemma RoundTrip(slots: Slots, data: Data, mtu: nat, seqno: Seqno, ds: seq<Fragment>, i: nat)
    requires Sendable(data, mtu) && Deliveries(Sent(data, mtu, seqno), seqno, ds) && slots[Bucket(seqno)].seqno != seqno
    requires i < |ds| && ds[i] in Sent(data, mtu, seqno)
    ensures OutcomeAt(slots, ds, i) == Expected(Sent(data, mtu, seqno), data, ds[..i], ds[i])
  {
    hide Collects, Fragments, Receive, MaxPayload;
    SendableFits(data, mtu);
    FragmentsAre(data, MaxPayload(mtu), seqno);
    RunCollects(slots, data, mtu, seqno, ds[..i]);
    CollectsOne(slots[Bucket(seqno)], data, MaxPayload(mtu), seqno, ds[..i], RunSlots(slots, ds[..i])[Bucket(seqno)],
        ds[i]);
  }

  lemma {:induction false} CompletedAt(fs: seq<Fragment>, ds: seq<Fragment>) returns (i: nat)
    requires fs != [] && All(fs, Seen(ds))
    ensures i < |ds| && ds[i] in fs && ds[i] !in ds[..i] && All(fs, Seen(ds[..i] + [ds[i]])) && !All(fs, Seen(ds[..i]))
  {
    assert fs[0] in fs && fs[0] in Seen(ds);
    var n := |ds| - 1;
    if All(fs, Seen(ds[..n])) {
      i := CompletedAt(fs, ds[..n]);
      assert ds[..n][..i] == ds[..i];
    } else {
      i := n;
      assert ds == ds[..n] + [ds[n]];
    }
  }

  /** Once all fragments have arrived, the packet was handed over, and exactly once. */
  lemma MergedOnce(slots: Slots, data: Data, mtu: nat, seqno: Seqno, ds: seq<Fragment>) returns (i: nat)
    requires Sendable(data, mtu) && Deliveries(Sent(data, mtu, seqno), seqno, ds) && slots[Bucket(seqno)].seqno != seqno
    requires All(Sent(data, mtu, seqno), Seen(ds))
    ensures i < |ds| && ds[i] in Sent(data, mtu, seqno) && OutcomeAt(slots, ds, i) == Merged(data)
    ensures forall j :: 0 <= j < |ds| && j != i && ds[j] in Sent(data, mtu, seqno) ==> !OutcomeAt(slots, ds, j).Merged?
  {
    hide Fragments, OutcomeAt, Deliveries, MaxPayload, All;
    var fs := Sent(data, mtu, seqno);
    SendableFits(data, mtu);
    FragmentsAre(data, MaxPayload(mtu), seqno);
    i := CompletedAt(fs, ds);
    RoundTrip(slots, data, mtu, seqno, ds, i);
    forall j | 0 <= j < |ds| && j != i && ds[j] in fs
      ensures !OutcomeAt(slots, ds, j).Merged?
    {
      RoundTrip(slots, data, mtu, seqno, ds, j);
      OtherCompletesNot(fs, ds, i, j);
    }
  }

  lemma OtherCompletesNot(fs: seq<Fragment>, ds: seq<Fragment>, i: nat, j: nat)
    requires i < |ds| && j < |ds| && i != j && ds[i] in fs && ds[j] in fs
    requires All(fs, Seen(ds[..i] + [ds[i]])) && !All(fs, Seen(ds[..i]))
    ensures ds[j] in ds[..j] || !All(fs, Seen(ds[..j] + [ds[j]]))
  {
    if j > i {
      assert ds[..i] + [ds[i]] == ds[..i + 1] <= ds[..j];
    } else {
      assert ds[..j] + [ds[j]] == ds[..j + 1] <= ds[..i];
    }
  }

  lemma {:induction false} ClosedSlot(slots: Slots, data: Data, mtu: nat, seqno: Seqno, ds: seq<Fragment>)
    requires Sendable(data, mtu) && Deliveries(Sent(data, mtu, seqno), seqno, ds)
    requires slots[Bucket(seqno)].seqno == seqno && slots[Bucket(seqno)].head == []
    ensures RunSlots(slots, ds)[Bucket(seqno)] == slots[Bucket(seqno)]
  {
    if ds == [] {
    } else {
      ClosedSlot(slots, data, mtu, seqno, ds[..|ds| - 1]);
      FragmentsAre(data, MaxPayload(mtu), seqno);
    }
  }

  /** With nothing buffered under its seqno, a packet whose fragments all arrive is handed over if and only if its slot
      does not carry that seqno already. A slot does so from the start for seqno 0, and otherwise when the packet that
      last used it had the same seqno. */
  lemma RoundTripIff(slots: Slots, data: Data, mtu: nat, seqno: Seqno, ds: seq<Fragment>)
    requires Sendable(data, mtu) && Deliveries(Sent(data, mtu, seqno), seqno, ds)
             && All(Sent(data, mtu, seqno), Seen(ds))
    requires slots[Bucket(seqno)].seqno == seqno ==> slots[Bucket(seqno)].head == []
    ensures slots[Bucket(seqno)].seqno != seqno
            <==> exists i :: 0 <= i < |ds| && ds[i] in Sent(data, mtu, seqno) && OutcomeAt(slots, ds, i) == Merged(data)
  {
    if slots[Bucket(seqno)].seqno != seqno {
      var i := MergedOnce(slots, data, mtu, seqno, ds);
    } else {
      forall i | 0 <= i < |ds| && ds[i] in Sent(data, mtu, seqno)
        ensures OutcomeAt(slots, ds, i) == Rejected
      {
        ClosedSlot(slots, data, mtu, seqno, ds[..i]);
        FragmentsAre(data, MaxPayload(mtu), seqno);
      }
    }
  }

  function NewSlots(): Slots {
    seq(BUFFER_COUNT, _ => Chain([], 0, 0, 0))
  }

  /** The first packet an originator sends under seqno 0 is lost, however short it is. */
  lemma ZeroIsLost(byte: bv8)
    ensures Sendable([byte], MAX_FRAG_SIZE) && Sent([byte], MAX_FRAG_SIZE, 0) == [Fragment(0, 0, 1, [byte])]
    ensures OutcomeAt(NewSlots(), Sent([byte], MAX_FRAG_SIZE, 0), 0) == Rejected
  {
  }

  // ---- receiving, as the code does it -----------------------------------------------------

  lemma PlaceFound(head: seq<Fragment>, at: nat, f: Fragment)
    requires Descending(head) && at <= |head| && (at < |head| ==> head[at].no < f.no)
    requires forall j :: 0 <= j < at ==> head[j].no > f.no
    ensures !Has(head, f.no) && head[..at] + [f] + head[at..] == Inserted(head, f)
  {
    assert head == head[..at] + head[at..];
    InsertedAfter(head[..at], head[at..], f);
    assert Inserted(head[at..], f) == [f] + head[at..];
  }

  class FragTableEntry {
    var head: seq<Fragment>
    var seqno: Seqno
    var size: U16
    var totalSize: U16

    constructor ()
      ensures View() == Chain([], 0, 0, 0)
    {
      head, seqno, size, totalSize := [], 0, 0, 0;
    }

    function View(): Chain
      reads this
    {
      Chain(head, seqno, size, totalSize)
    }

    /** batadv_frag_init_chain */
    method InitChain(no: Seqno) returns (empty: bool)
      modifies this
      ensures empty <==> old(seqno) != no
      ensures View() == if empty then Chain([], no, 0, old(totalSize)) else old(View())
    {
      if seqno == no {
        return false;
      }
      head, size, seqno := [], 0, no;
      return true;
    }

    /** The walk to the place of a fragment: where it belongs, and whether it may go there. */
    method FindPlace(f: Fragment) returns (found: bool, at: nat)
      requires Descending(head)
      ensures found <==> !Has(head, f.no)
      ensures found ==> at <= |head| && head[..at] + [f] + head[at..] == Inserted(head, f)
    {
      at := 0;
      while at < |head|
        invariant at <= |head| && forall j :: 0 <= j < at ==> head[j].no > f.no
      {
        if head[at].no == f.no {
          return false, at;
        }
        if head[at].no < f.no {
          break;
        }
        at := at + 1;
      }
      PlaceFound(head, at, f);
      return true, at;
    }

    /** batadv_frag_insert_packet, on the slot it picked. */
    method InsertPacket(f: Fragment) returns (ret: bool, chainOut: seq<Fragment>)
      requires ChainOk(View())
      modifies this
      ensures var r := Receive(old(View()), f);
              && View() == r.chain && ret == !r.out.Rejected?
              && if r.out.Merged? then chainOut != [] && Joined(chainOut) == r.out.packet else chainOut == []
    {
      hide Inserted, Descending, Has;
      chainOut := [];
      var empty := InitChain(f.seqno);
      ret := false;
      if empty {
        head, size, totalSize := [f], |f.payload| % 0x1_0000, f.totalSize;
        ret := true;
      } else {
        var found, at := FindPlace(f);
        if !found {
          return;
        }
        if head != [] {
          head := head[..at] + [f] + head[at..];
          size := (size + |f.payload|) % 0x1_0000;
          ret := true;
        }
      }
      if size > SIZE_LIMIT || totalSize != f.totalSize || totalSize > SIZE_LIMIT {
        head, size := [], 0;
      } else if f.totalSize == size {
        chainOut, head, size := head, [], 0;
      }
    }
  }

  /** batadv_frag_merge_packets */
  method MergePackets(chain: seq<Fragment>) returns (packet: Data)
    requires chain != []
    ensures packet == Joined(chain)
  {
    packet := chain[0].payload;
    var rest := chain[1..];
    while rest != []
      invariant packet + Joined(rest) == Joined(chain)
      decreases |rest|
    {
      packet := packet + rest[0].payload;
      rest := rest[1..];
    }
  }

  /** The fragment table of an originator. */
  class FragTable {
    const entries: seq<FragTableEntry>

    /** The table of a new originator: empty slots that all carry seqno 0. */
    constructor ()
      ensures Valid() && fresh(entries) && View() == NewSlots()
    {
      var list: seq<FragTableEntry> := [];
      for i := 0 to BUFFER_COUNT
        invariant |list| == i && fresh(list) && forall j :: 0 <= j < i ==> list[j].View() == Chain([], 0, 0, 0)
        invariant forall j, k :: 0 <= j < k < i ==> list[j] != list[k]
      {
        var entry := new FragTableEntry();
        list := list + [entry];
      }
      entries := list;
    }

    ghost predicate Valid()
      reads entries
    {
      && |entries| == BUFFER_COUNT && (forall i, j :: 0 <= i < j < BUFFER_COUNT ==> entries[i] != entries[j])
      && forall i :: 0 <= i < BUFFER_COUNT ==> ChainOk(entries[i].View())
    }

    ghost function View(): Slots
      requires |entries| == BUFFER_COUNT
      reads entries
    {
      seq(BUFFER_COUNT, i requires 0 <= i < BUFFER_COUNT reads entries => entries[i].View())
    }

    /** batadv_frag_skb_buffer */
    method SkbBuffer(f: Fragment) returns (out: Outcome)
      requires Valid()
      modifies entries
      ensures Valid() && View() == RunSlots(old(View()), [f])
      ensures out == OutcomeAt(old(View()), [f], 0)
    {
      var entry := entries[Bucket(f.seqno)];
      ReceiveKeepsOk(entry.View(), f);
      var ret, head := entry.InsertPacket(f);
      if !ret {
        out := Rejected;
      } else if head == [] {
        out := Buffered;
      } else {
        var packet := MergePackets(head);
        out := Merged(packet);
      }
    }
  }
}
