// Alfred's wire format for datasets, and the sender that packs a table into push packets.
module AlfredPackets {
  import opened Basics

  type Mac = s: seq<Byte> | |s| == 6 witness [0, 0, 0, 0, 0, 0]
  type Buf = s: seq<Byte> | |s| < 0x1_0000 witness []

  const DATA_HLEN := 10        // struct alfred_data: source, type, version, length
  const PUSH_HLEN := 8         // struct alfred_push_data_v0: header, tx
  const TLV_HLEN := 4          // struct alfred_tlv
  const MAX_PAYLOAD := 0xffff - 8
  const ROOM := MAX_PAYLOAD - PUSH_HLEN
  const NO_FILTER := -1

  datatype Dataset = Dataset(source: Mac, kind: Byte, version: Byte, buf: Buf)

  /** Ordered as the source numbers them: 0, 1, 2. */
  datatype DataSource = LOCAL | FIRST_HAND | SYNCED {
    function Level(): int {
      match this
      case LOCAL => 0
      case FIRST_HAND => 1
      case SYNCED => 2
    }
  }

  datatype Entry = Entry(data: Dataset, origin: DataSource, lastSeen: int)

  /** `length` is the TLV length field: the four bytes of `tx` and the payload. */
  datatype Push = Push(id: int, seqno: int, length: int, payload: seq<Byte>)

  // ---- encoding and decoding ---------------------------------------------

  function Htons(n: int): seq<Byte>
    requires 0 <= n < 0x1_0000
  {
    [n / 256, n % 256]
  }

  function Ntohs(hi: Byte, lo: Byte): int {
    hi * 256 + lo
  }

  function Encode(d: Dataset): (r: seq<Byte>)
    ensures |r| == DATA_HLEN + |d.buf|
  {
    d.source + [d.kind, d.version] + Htons(|d.buf|) + d.buf
  }

  ghost function EncodeAll(ds: seq<Dataset>): seq<Byte> {
    if ds == [] then [] else EncodeAll(ds[..|ds| - 1]) + Encode(ds[|ds| - 1])
  }

  /** The dataset at the head of `bytes`, if it is complete. */
  function FirstDataset(bytes: seq<Byte>): (r: Option<Dataset>)
    ensures r.Some? ==> DATA_HLEN + |r.value.buf| <= |bytes|
  {
    if |bytes| < DATA_HLEN then None
    else
      var len := Ntohs(bytes[8], bytes[9]);
      if len + DATA_HLEN > |bytes| then None
      else Some(Dataset(bytes[..6], bytes[6], bytes[7], bytes[DATA_HLEN..DATA_HLEN + len]))
  }

  ghost function Parse(bytes: seq<Byte>): seq<Dataset> {
    match FirstDataset(bytes)
    case None => []
    case Some(d) => [d] + Parse(bytes[DATA_HLEN + |d.buf|..])
  }

  lemma FirstOfEncode(d: Dataset, rest: seq<Byte>)
    ensures FirstDataset(Encode(d) + rest) == Some(d)
    ensures (Encode(d) + rest)[DATA_HLEN + |d.buf|..] == rest
  {
    var b := Encode(d) + rest;
    assert b[..6] == d.source;
    assert b[6] == d.kind && b[7] == d.version && b[8] == |d.buf| / 256 && b[9] == |d.buf| % 256;
    assert b[DATA_HLEN..DATA_HLEN + |d.buf|] == d.buf;
  }

  /** Parsing what was packed gives back the datasets, whatever was packed behind them. */
  lemma {:induction false} ParseOfEncodeAll(ds: seq<Dataset>, rest: seq<Byte>)
    ensures Parse(EncodeAll(ds) + rest) == ds + Parse(rest)
    decreases |ds|
  {
    hide Encode, FirstDataset;
    if ds == [] {
      assert EncodeAll(ds) + rest == rest;
    } else {
      var init, last := ds[..|ds| - 1], ds[|ds| - 1];
      assert EncodeAll(ds) + rest == EncodeAll(init) + (Encode(last) + rest);
      ParseOfEncodeAll(init, Encode(last) + rest);
      FirstOfEncode(last, rest);
      assert init + ([last] + Parse(rest)) == ds + Parse(rest);
    }
  }

  // ---- the sender ----------------------------------------------------------

  predicate Eligible(e: Entry, maxLevel: DataSource, typeFilter: int) {
    e.origin.Level() <= maxLevel.Level() && (typeFilter < 0 || e.data.kind == typeFilter)
  }

  predicate Fits(d: Dataset) {
    |d.buf| + DATA_HLEN <= ROOM
  }

  /** The datasets a push is to carry: the eligible ones that fit a packet of their own. */
  ghost function Selected(table: seq<Entry>, maxLevel: DataSource, typeFilter: int): seq<Dataset> {
    if table == [] then []
    else
      var e := table[|table| - 1];
      Selected(table[..|table| - 1], maxLevel, typeFilter)
      + if Eligible(e, maxLevel, typeFilter) && Fits(e.data) then [e.data] else []
  }

  ghost function ParseAll(packets: seq<Push>): seq<Dataset> {
    if packets == [] then [] else ParseAll(packets[..|packets| - 1]) + Parse(packets[|packets| - 1].payload)
  }

  ghost predicate PacketOk(p: Push, txId: int, n: int) {
    && p.id == txId && p.seqno == n % 0x1_0000
    && 0 < |p.payload| && PUSH_HLEN + |p.payload| <= MAX_PAYLOAD
    && p.length == |p.payload| + (PUSH_HLEN - TLV_HLEN) < 0x1_0000
  }

  /** A whole run of push_data, as its receiver sees it. */
  ghost predicate RunOk(packets: seq<Push>, txId: int) {
    forall n :: 0 <= n < |packets| ==> PacketOk(packets[n], txId, n)
  }

  /** The packet count that closes a run of push_data, if it is closed at all: after a full table an empty count is not
      sent. */
  function TxEnd(count: nat, typeFilter: int): Option<int> {
    if count % 0x1_0000 > 0 || typeFilter != NO_FILTER then Some(count % 0x1_0000) else None
  }

  /** A push of local data carries LOCAL entries, one to another master also FIRST_HAND ones, an answer all. */
  predicate MayGo(origin: DataSource, maxLevel: DataSource) {
    match maxLevel
    case LOCAL => origin == LOCAL
    case FIRST_HAND => origin == LOCAL || origin == FIRST_HAND
    case SYNCED => true
  }

  /** An entry goes with a push when its origin may, its type is asked for and it fits a packet of its own. */
  ghost predicate Goes(e: Entry, maxLevel: DataSource, typeFilter: int) {
    MayGo(e.origin, maxLevel) && (typeFilter >= 0 ==> e.data.kind == typeFilter) && |e.data.buf| <= 65509
  }

  /** Exactly the datasets of the entries that go. */
  ghost predicate AllThatGo(ds: seq<Dataset>, table: seq<Entry>, maxLevel: DataSource, typeFilter: int) {
    forall d :: d in ds <==> exists e :: e in table && Goes(e, maxLevel, typeFilter) && e.data == d
  }

  lemma {:induction false} SelectedGo(table: seq<Entry>, maxLevel: DataSource, typeFilter: int)
    ensures AllThatGo(Selected(table, maxLevel, typeFilter), table, maxLevel, typeFilter)
  {
    if table == [] {
    } else {
      var init, last := table[..|table| - 1], table[|table| - 1];
      assert table == init + [last];
      SelectedGo(init, maxLevel, typeFilter);
    }
  }

  lemma SelectedStep(table: seq<Entry>, i: int, maxLevel: DataSource, typeFilter: int)
    requires 0 <= i < |table|
    ensures var e := table[i];
            Selected(table[..i + 1], maxLevel, typeFilter) == Selected(table[..i], maxLevel, typeFilter)
            + if Eligible(e, maxLevel, typeFilter) && Fits(e.data) then [e.data] else []
  {
    assert table[..i + 1][..i] == table[..i];
  }

  /** No packet had room for the dataset that the next one begins with. */
  ghost predicate Tight(packets: seq<Push>) {
    forall n :: 0 < n < |packets| ==> NoRoom(packets[n - 1], FirstDataset(packets[n].payload))
  }

  ghost predicate NoRoom(p: Push, d: Option<Dataset>) {
    d.Some? && |p.payload| + DATA_HLEN + |d.value.buf| > ROOM
  }

  /** Every entry that is asked for fits a packet. */
  ghost predicate AllFit(table: seq<Entry>, maxLevel: DataSource, typeFilter: int) {
    forall e :: e in table && MayGo(e.origin, maxLevel) && (typeFilter >= 0 ==> e.data.kind == typeFilter)
        ==> Fits(e.data)
  }

  lemma FirstOfAll(ds: seq<Dataset>)
    requires ds != []
    ensures FirstDataset(EncodeAll(ds)) == Some(ds[0])
  {
    hide FirstDataset, Encode;
    if |ds| > 1 {
      FirstOfAll(ds[..|ds| - 1]);
      StillFirst(EncodeAll(ds[..|ds| - 1]), Encode(ds[|ds| - 1]));
    } else {
      FirstOfEncode(ds[0], []);
      assert EncodeAll(ds[..0]) == [] && ds[|ds| - 1] == ds[0];
      assert [] + Encode(ds[0]) == Encode(ds[0]) == Encode(ds[0]) + [];
    }
  }

  lemma StillFirst(bytes: seq<Byte>, more: seq<Byte>)
    requires FirstDataset(bytes).Some?
    ensures FirstDataset(bytes + more) == FirstDataset(bytes)
  {
    var len := Ntohs(bytes[8], bytes[9]);
    assert (bytes + more)[..6] == bytes[..6]
           && (bytes + more)[DATA_HLEN..DATA_HLEN + len] == bytes[DATA_HLEN..DATA_HLEN + len];
  }

  /** The buffer holds the datasets `cur` behind the header of the packet. */
  ghost predicate Filled(buf: seq<Byte>, totalLength: int, cur: seq<Dataset>) {
    && |buf| == MAX_PAYLOAD && 0 <= totalLength <= ROOM && buf[PUSH_HLEN..PUSH_HLEN + totalLength] == EncodeAll(cur)
    && (totalLength == 0 ==> cur == [])
  }

  /** memcpy of one dataset, header and contents, behind the ones packed so far. */
  method AppendData(buf: array<Byte>, totalLength: int, d: Dataset, ghost cur: seq<Dataset>)
    requires Filled(buf[..], totalLength, cur) && totalLength + |d.buf| + DATA_HLEN <= ROOM
    modifies buf
    ensures Filled(buf[..], totalLength + |d.buf| + DATA_HLEN, cur + [d])
  {
    var bytes := Encode(d);
    forall j | 0 <= j < |bytes| {
      buf[PUSH_HLEN + totalLength + j] := bytes[j];
    }
    assert (cur + [d])[..|cur|] == cur;
    assert buf[PUSH_HLEN..PUSH_HLEN + totalLength + |bytes|] == old(buf[PUSH_HLEN..PUSH_HLEN + totalLength]) + bytes;
  }

  /** Closes the packet under construction and sends it with the next sequence number. */
  method SendPacket(packets: seq<Push>, buf: array<Byte>, totalLength: int, txId: int, seqno: int,
                    ghost cur: seq<Dataset>)
    returns (sent: seq<Push>)
    requires Filled(buf[..], totalLength, cur) && 0 < totalLength
    requires RunOk(packets, txId) && seqno == |packets| % 0x1_0000
    ensures |sent| == |packets| + 1 && RunOk(sent, txId) && ParseAll(sent) == ParseAll(packets) + cur
    ensures cur != [] && sent == packets + [sent[|packets|]]
    ensures |sent[|packets|].payload| == totalLength && FirstDataset(sent[|packets|].payload) == Some(cur[0])
  {
    hide FirstDataset, Encode;
    NotEmpty(cur);
    FirstOfAll(cur);
    var p := Push(txId, seqno, totalLength + (PUSH_HLEN - TLV_HLEN), buf[PUSH_HLEN..PUSH_HLEN + totalLength]);
    sent := packets + [p];
    assert sent[..|packets|] == packets;
    ParseOfEncodeAll(cur, []);
    assert EncodeAll(cur) + [] == EncodeAll(cur) && cur + Parse([]) == cur;
  }

  method PushData(table: seq<Entry>, maxLevel: DataSource, typeFilter: int, txId: int)
    returns (packets: seq<Push>, txend: Option<int>)
    ensures ParseAll(packets) == Selected(table, maxLevel, typeFilter)
    ensures AllThatGo(ParseAll(packets), table, maxLevel, typeFilter)
    ensures AllFit(table, maxLevel, typeFilter) ==> Tight(packets)
    ensures RunOk(packets, txId)
    ensures txend == TxEnd(|packets|, typeFilter)
    ensures 0 < |packets| < 0x1_0000 ==> txend == Some(|packets|)
    ensures packets == [] ==> txend == if typeFilter == -1 then None else Some(0)
  {
    hide Selected, ParseAll, RunOk, Filled, EncodeAll, Encode, DataSource.Level, AllThatGo, AllFit, Tight, TightSoFar,
         Packed;
    packets := [];
    var buf := new Byte[MAX_PAYLOAD];
    var totalLength, seqno := 0, 0;
    ghost var cur: seq<Dataset> := [];
    ghost var all := AllFit(table, maxLevel, typeFilter);
    StartPush(table, maxLevel, typeFilter, txId);
    NothingFilled(buf[..]);
    for i := 0 to |table|
      invariant fresh(buf) && Filled(buf[..], totalLength, cur) && totalLength >= 0 && (totalLength == 0 ==> cur == [])
      invariant seqno == |packets| % 0x1_0000 && RunOk(packets, txId)
      invariant Packed(packets, cur, table, i, maxLevel, typeFilter)
      invariant all ==> TightSoFar(packets, cur)
    {
      PackedOne(packets, cur, table, i, maxLevel, typeFilter);
      var e := table[i];
      if e.origin.Level() > maxLevel.Level() {
        continue;
      }
      if typeFilter >= 0 && e.data.kind != typeFilter {
        continue;
      }
      if totalLength + |e.data.buf| + DATA_HLEN > ROOM {
        if totalLength == 0 {
          continue;
        }
        ghost var before := packets;
        packets := SendPacket(packets, buf, totalLength, txId, seqno, cur);
        PackedSent(before, cur, packets, table, i, maxLevel, typeFilter);
        TightMore(all, before, cur, packets);
        FitsAll(table, i, maxLevel, typeFilter);
        TightNow(all, packets, e.data);
        seqno := (seqno + 1) % 0x1_0000;
        totalLength, cur := 0, [];
        NothingFilled(buf[..]);
      } else {
        TightStill(packets, cur, e.data);
      }
      if totalLength + |e.data.buf| + DATA_HLEN > ROOM {
        continue;
      }
      AppendData(buf, totalLength, e.data, cur);
      totalLength := totalLength + |e.data.buf| + DATA_HLEN;
      cur := cur + [e.data];
    }
    TightDone(packets, cur);
    ghost var before := packets;
    if totalLength > 0 {
      packets := SendPacket(packets, buf, totalLength, txId, seqno, cur);
      TightMore(all, before, cur, packets);
      seqno := (seqno + 1) % 0x1_0000;
    }
    PackedAll(before, cur, packets, table, maxLevel, typeFilter);
    txend := if seqno > 0 || typeFilter != NO_FILTER then Some(seqno) else None;
  }

  /** The packets and the packet under construction hold what is to go of the first `i` entries. */
  ghost predicate Packed(packets: seq<Push>, cur: seq<Dataset>, table: seq<Entry>, i: int, maxLevel: DataSource,
                         typeFilter: int) {
    0 <= i <= |table| && ParseAll(packets) + cur == Selected(table[..i], maxLevel, typeFilter)
  }

  /** The next entry goes behind, or is left out. */
  lemma PackedOne(packets: seq<Push>, cur: seq<Dataset>, table: seq<Entry>, i: int, maxLevel: DataSource,
                  typeFilter: int)
    requires Packed(packets, cur, table, i, maxLevel, typeFilter) && i < |table|
    ensures var goes := Eligible(table[i], maxLevel, typeFilter) && Fits(table[i].data);
            Packed(packets, if goes then cur + [table[i].data] else cur, table, i + 1, maxLevel, typeFilter)
  {
    SelectedStep(table, i, maxLevel, typeFilter);
  }

  /** The packet under construction was sent. */
  lemma PackedSent(packets: seq<Push>, cur: seq<Dataset>, sent: seq<Push>, table: seq<Entry>, i: int,
                   maxLevel: DataSource, typeFilter: int)
    requires Packed(packets, cur, table, i, maxLevel, typeFilter) && i < |table|
    requires ParseAll(sent) == ParseAll(packets) + cur
    ensures var goes := Eligible(table[i], maxLevel, typeFilter) && Fits(table[i].data);
            Packed(sent, if goes then [] + [table[i].data] else [], table, i + 1, maxLevel, typeFilter)
  {
    SelectedStep(table, i, maxLevel, typeFilter);
  }

  lemma PackedAll(packets: seq<Push>, cur: seq<Dataset>, sent: seq<Push>, table: seq<Entry>, maxLevel: DataSource,
                  typeFilter: int)
    requires Packed(packets, cur, table, |table|, maxLevel, typeFilter)
    requires if sent == packets then cur == [] else ParseAll(sent) == ParseAll(packets) + cur
    ensures ParseAll(sent) == Selected(table, maxLevel, typeFilter)
    ensures AllThatGo(ParseAll(sent), table, maxLevel, typeFilter)
  {
    assert table[..|table|] == table;
    SelectedGo(table, maxLevel, typeFilter);
  }

  lemma NotEmpty(cur: seq<Dataset>)
    ensures |EncodeAll(cur)| > 0 ==> cur != []
  {
  }

  /** The packets are tight, and the last one has no room for what has been packed since. */
  ghost predicate TightSoFar(packets: seq<Push>, cur: seq<Dataset>) {
    Tight(packets) && (packets != [] ==> cur != [] && NoRoom(packets[|packets| - 1], Some(cur[0])))
  }

  lemma TightNow(all: bool, packets: seq<Push>, d: Dataset)
    requires (all ==> Tight(packets)) && packets != [] && NoRoom(packets[|packets| - 1], Some(d))
    ensures all ==> TightSoFar(packets, [] + [d])
  {
  }

  lemma TightStill(packets: seq<Push>, cur: seq<Dataset>, d: Dataset)
    ensures TightSoFar(packets, cur) ==> TightSoFar(packets, cur + [d])
  {
  }

  lemma TightDone(packets: seq<Push>, cur: seq<Dataset>)
    ensures TightSoFar(packets, cur) ==> Tight(packets)
  {
  }

  lemma FitsAll(table: seq<Entry>, i: int, maxLevel: DataSource, typeFilter: int)
    requires 0 <= i < |table|
    requires table[i].origin.Level() <= maxLevel.Level() && (typeFilter >= 0 ==> table[i].data.kind == typeFilter)
    ensures AllFit(table, maxLevel, typeFilter) ==> Fits(table[i].data)
  {
  }

  lemma TightMore(all: bool, packets: seq<Push>, cur: seq<Dataset>, sent: seq<Push>)
    requires (all ==> TightSoFar(packets, cur)) && cur != []
    requires |sent| == |packets| + 1 && sent == packets + [sent[|packets|]]
    requires FirstDataset(sent[|packets|].payload) == Some(cur[0])
    ensures all ==> Tight(sent)
  {
    hide FirstDataset, NoRoom;
  }

  lemma NothingFilled(buf: seq<Byte>)
    requires |buf| == MAX_PAYLOAD
    ensures Filled(buf, 0, [])
  {
  }

  lemma StartPush(table: seq<Entry>, maxLevel: DataSource, typeFilter: int, txId: int)
    ensures RunOk([], txId) && Packed([], [], table, 0, maxLevel, typeFilter) && TightSoFar([], [])
  {
  }
}
