// The receiving side of an alfred transfer: packets are buffered per transaction and
// the dataset table changes only when the transaction ends with every packet there.
module AlfredReceiver {
  import opened Basics
  import opened AlfredPackets

  datatype Key = Key(source: Mac, kind: Byte)
  datatype TxKey = TxKey(server: Mac, id: int)

  function KeyOf(d: Dataset): Key {
    Key(d.source, d.kind)
  }

  type Table = map<Key, Entry>

  /** `finished` is 0 while the transaction is open, 1 when complete, -1 when packets are missing. */
  datatype Head = Head(packetList: seq<Push>, numPacket: int, finished: int, requestedType: int, clientSocket: int)

  // ---- storing datasets ------------------------------------------------------

  /** One dataset received from `mac`: our own data is not overwritten. */
  function Store(t: Table, mac: Mac, d: Dataset, now: int): Table {
    var k := KeyOf(d);
    if k in t && t[k].origin == LOCAL then t
    else t[k := Entry(d, if mac == d.source then FIRST_HAND else SYNCED, now)]
  }

  ghost function StoreAll(t: Table, mac: Mac, ds: seq<Dataset>, now: int): Table {
    if ds == [] then t else Store(StoreAll(t, mac, ds[..|ds| - 1], now), mac, ds[|ds| - 1], now)
  }

  lemma {:induction false} StoreAllConcat(t: Table, mac: Mac, ds: seq<Dataset>, ds': seq<Dataset>, now: int)
    ensures StoreAll(t, mac, ds + ds', now) == StoreAll(StoreAll(t, mac, ds, now), mac, ds', now)
    decreases |ds'|
  {
    hide Store;
    if ds' == [] {
      assert ds + ds' == ds;
    } else {
      var n := |ds'| - 1;
      StoreAllConcat(t, mac, ds, ds'[..n], now);
      assert (ds + ds')[..|ds| + n] == ds + ds'[..n];
    }
  }

  /** No two datasets of the collection compete for one key. */
  ghost predicate Functional(ds: seq<Dataset>) {
    forall d, e :: d in ds && e in ds && KeyOf(d) == KeyOf(e) ==> d == e
  }

  /** What a key holds once dataset `d` of the run has been stored: the local entry if there is one. */
  function Stored(t: Table, mac: Mac, d: Dataset, now: int): Entry {
    var k := KeyOf(d);
    if k in t && t[k].origin == LOCAL then t[k]
    else Entry(d, if mac == d.source then FIRST_HAND else SYNCED, now)
  }

  /** The table after a whole run, said without an order. */
  ghost predicate IsOverwrite(t: Table, mac: Mac, ds: seq<Dataset>, now: int, t': Table) {
    && (forall d :: d in ds ==> KeyOf(d) in t' && t'[KeyOf(d)] == Stored(t, mac, d, now))
    && (forall k :: (forall d :: d in ds ==> KeyOf(d) != k) ==> (k in t' <==> k in t) && (k in t ==> t'[k] == t[k]))
  }

  lemma {:induction false} KeyUntouched(t: Table, mac: Mac, ds: seq<Dataset>, now: int, k: Key)
    requires (k in t && t[k].origin == LOCAL) || forall d :: d in ds ==> KeyOf(d) != k
    ensures var t' := StoreAll(t, mac, ds, now); (k in t' <==> k in t) && (k in t ==> t'[k] == t[k])
    decreases |ds|
  {
    if ds == [] {
    } else {
      KeyUntouched(t, mac, ds[..|ds| - 1], now, k);
    }
  }

  lemma {:induction false} KeyStored(t: Table, mac: Mac, ds: seq<Dataset>, now: int, d: Dataset)
    requires Functional(ds) && d in ds
    ensures var t' := StoreAll(t, mac, ds, now); KeyOf(d) in t' && t'[KeyOf(d)] == Stored(t, mac, d, now)
    decreases |ds|
  {
    var k := KeyOf(d);
    if k in t && t[k].origin == LOCAL {
      KeyUntouched(t, mac, ds, now, k);
    } else {
      var init, last := ds[..|ds| - 1], ds[|ds| - 1];
      assert ds == init + [last];
      if d in init {
        KeyStored(t, mac, init, now, d);
      } else {
        NotLocalAfter(t, mac, init, now, k);
      }
    }
  }

  /** Entries that come from the network are never LOCAL. */
  lemma {:induction false} NotLocalAfter(t: Table, mac: Mac, ds: seq<Dataset>, now: int, k: Key)
    requires k in t ==> t[k].origin != LOCAL
    ensures var t' := StoreAll(t, mac, ds, now); k in t' ==> t'[k].origin != LOCAL
    decreases |ds|
  {
    if ds == [] {
    } else {
      NotLocalAfter(t, mac, ds[..|ds| - 1], now, k);
    }
  }

  lemma {:induction false} StoreAllOverwrites(t: Table, mac: Mac, ds: seq<Dataset>, now: int)
    requires Functional(ds)
    ensures IsOverwrite(t, mac, ds, now, StoreAll(t, mac, ds, now))
  {
    forall d | d in ds
      ensures var t' := StoreAll(t, mac, ds, now); KeyOf(d) in t' && t'[KeyOf(d)] == Stored(t, mac, d, now)
    {
      KeyStored(t, mac, ds, now, d);
    }
    forall k | forall d :: d in ds ==> KeyOf(d) != k
      ensures var t' := StoreAll(t, mac, ds, now); (k in t' <==> k in t) && (k in t ==> t'[k] == t[k])
    {
      KeyUntouched(t, mac, ds, now, k);
    }
  }

  /** The order of arrival and repetitions leave no trace in the table. */
  lemma OrderIrrelevant(t: Table, mac: Mac, ds: seq<Dataset>, ds': seq<Dataset>, now: int)
    requires Functional(ds) && forall d :: d in ds <==> d in ds'
    ensures StoreAll(t, mac, ds, now) == StoreAll(t, mac, ds', now)
  {
    hide StoreAll, Stored;
    assert Functional(ds');
    StoreAllOverwrites(t, mac, ds, now);
    StoreAllOverwrites(t, mac, ds', now);
    OverwriteUnique(t, mac, ds, ds', now, StoreAll(t, mac, ds, now), StoreAll(t, mac, ds', now));
  }

  lemma OverwriteUnique(t: Table, mac: Mac, ds: seq<Dataset>, ds': seq<Dataset>, now: int, a: Table, b: Table)
    requires IsOverwrite(t, mac, ds, now, a) && IsOverwrite(t, mac, ds', now, b)
    requires forall d :: d in ds <==> d in ds'
    ensures a == b
  {
    hide Stored;
    forall k
      ensures (k in a <==> k in b) && (k in a ==> a[k] == b[k])
    {
      if d :| d in ds && KeyOf(d) == k {
        assert d in ds';
      } else {
        assert forall d :: d in ds' ==> d in ds;
      }
    }
  }

  lemma StoreAgain(t: Table, mac: Mac, ds: seq<Dataset>, now: int, now': int)
    requires Functional(ds)
    ensures StoreAll(StoreAll(t, mac, ds, now), mac, ds, now') == StoreAll(t, mac, ds, now')
  {
    hide StoreAll;
    var t' := StoreAll(t, mac, ds, now);
    StoreAllOverwrites(t, mac, ds, now);
    StoreAllOverwrites(t', mac, ds, now');
    StoreAllOverwrites(t, mac, ds, now');
    OverwriteTwice(t, mac, ds, now, now', t', StoreAll(t', mac, ds, now'));
    OverwriteUnique(t, mac, ds, ds, now', StoreAll(t', mac, ds, now'), StoreAll(t, mac, ds, now'));
  }

  lemma OverwriteTwice(t: Table, mac: Mac, ds: seq<Dataset>, now: int, now': int, t': Table, t'': Table)
    requires IsOverwrite(t, mac, ds, now, t') && IsOverwrite(t', mac, ds, now', t'')
    ensures IsOverwrite(t, mac, ds, now', t'')
  {
    hide Stored;
    forall d | d in ds
      ensures Stored(t', mac, d, now') == Stored(t, mac, d, now')
    {
      StoredTwice(t, mac, d, now, now', t');
    }
  }

  lemma StoredTwice(t: Table, mac: Mac, d: Dataset, now: int, now': int, t': Table)
    requires KeyOf(d) in t' && t'[KeyOf(d)] == Stored(t, mac, d, now)
    ensures Stored(t', mac, d, now') == Stored(t, mac, d, now')
  {
  }

  // ---- the receiver as a state machine -----------------------------------------

  datatype Rx = Rx(master: bool, data: Table, txs: map<TxKey, Head>)

  datatype Event =
    | PushMsg(mac: Mac, push: Push)
    | TxEndMsg(mac: Mac, length: int, id: int, seqno: int, now: int)
    | Expire(key: TxKey)                                         // purge_data, no packet for too long
    | ClientRequest(key: TxKey, requestedType: int, socket: int) // a slave asks its best server
    | TableChange(data: Table)                                   // local writes and ageing of datasets

  const NEW_HEAD := Head([], 0, 0, 0, -1)

  /** What transaction_add and the duplicate check make of one push packet. */
  function StepPush(rx: Rx, mac: Mac, push: Push): Rx {
    var key, len := TxKey(mac, push.id), push.length - (PUSH_HLEN - TLV_HLEN);
    if len < 0 || |push.payload| < len || (key !in rx.txs && !rx.master) then rx
    else
      var head := if key in rx.txs then rx.txs[key] else NEW_HEAD;
      if head.finished != 0 then rx
      else if exists p :: p in head.packetList && p.seqno == push.seqno then rx
      else
        var stored := push.(payload := push.payload[..len]);
        rx.(txs := rx.txs[key := head.(packetList := head.packetList + [stored], numPacket := head.numPacket + 1)])
  }

  /** The transaction a TXEND closes, and whether it closes it as complete. */
  predicate Closes(rx: Rx, mac: Mac, length: int, id: int) {
    length == PUSH_HLEN - TLV_HLEN && TxKey(mac, id) in rx.txs && rx.txs[TxKey(mac, id)].finished == 0
  }

  predicate Finishes(rx: Rx, mac: Mac, length: int, id: int, seqno: int) {
    Closes(rx, mac, length, id) && rx.txs[TxKey(mac, id)].numPacket == seqno
  }

  /** A push counts when its length field holds the transaction and no more than the payload, a transaction is open or
      may be opened, and none of its number was buffered before. Only what the length field covers is buffered. */
  lemma PushIff(rx: Rx, mac: Mac, push: Push)
    ensures var rx', key := StepPush(rx, mac, push), TxKey(mac, push.id);
            var head := if key in rx.txs then rx.txs[key] else NEW_HEAD;
            && (rx' != rx <==> && 4 <= push.length <= |push.payload| + 4 && (rx.master || key in rx.txs)
                               && head.finished == 0 && forall p :: p in head.packetList ==> p.seqno != push.seqno)
            && (rx' != rx ==>
                  && key in rx'.txs
                  && rx'.txs[key].packetList == head.packetList + [push.(payload := push.payload[..push.length - 4])]
                  && rx'.txs[key].numPacket == head.numPacket + 1 && rx'.txs[key].finished == 0
                  && rx'.txs - {key} == rx.txs - {key} && rx'.data == rx.data)
  {
  }

  ghost function StepTxEnd(rx: Rx, mac: Mac, length: int, id: int, seqno: int, now: int): Rx {
    var key := TxKey(mac, id);
    if !Closes(rx, mac, length, id) then rx
    else
      var data := if Finishes(rx, mac, length, id, seqno)
                  then StoreAll(rx.data, mac, ParseAll(rx.txs[key].packetList), now) else rx.data;
      rx.(data := data, txs := rx.txs - {key})
  }

  ghost function Step(rx: Rx, e: Event): Rx {
    match e
    case PushMsg(mac, push) => StepPush(rx, mac, push)
    case TxEndMsg(mac, length, id, seqno, now) => StepTxEnd(rx, mac, length, id, seqno, now)
    case Expire(key) => rx.(txs := rx.txs - {key})
    case ClientRequest(key, kind, socket) =>
      if key in rx.txs then rx
      else rx.(txs := rx.txs[key := NEW_HEAD.(requestedType := kind, clientSocket := socket)])
    case TableChange(data) => rx.(data := data)
  }

  ghost function Run(rx: Rx, es: seq<Event>): Rx {
    if es == [] then rx else Step(Run(rx, es[..|es| - 1]), es[|es| - 1])
  }

  // ---- all or nothing ------------------------------------------------------------

  ghost predicate Concerns(e: Event, key: TxKey) {
    (e.PushMsg? && TxKey(e.mac, e.push.id) == key) || (e.TxEndMsg? && TxKey(e.mac, e.id) == key)
  }

  /** The network lost, repeated and reordered messages of the one run sent under `key`, and made up none. */
  ghost predicate FromRun(e: Event, key: TxKey, run: seq<Push>) {
    Concerns(e, key) ==>
      (e.PushMsg? ==> e.push in run) && (e.TxEndMsg? ==> e.seqno == |run| % 0x1_0000)
  }

  ghost predicate AllFromRun(es: seq<Event>, key: TxKey, run: seq<Push>) {
    forall e :: e in es ==> FromRun(e, key, run)
  }

  ghost predicate Buffered(rx: Rx, key: TxKey, run: seq<Push>) {
    key in rx.txs ==>
      var h := rx.txs[key];
      && h.finished == 0 && h.numPacket == |h.packetList|
      && (forall p :: p in h.packetList ==> p in run)
      && (forall i, j :: 0 <= i < j < |h.packetList| ==> h.packetList[i].seqno != h.packetList[j].seqno)
  }

  lemma StepBuffers(rx: Rx, e: Event, key: TxKey, run: seq<Push>)
    requires Buffered(rx, key, run) && FromRun(e, key, run) && RunOk(run, key.id)
    ensures Buffered(Step(rx, e), key, run)
  {
    if e.PushMsg? && Concerns(e, key) {
      var n :| 0 <= n < |run| && run[n] == e.push;
      assert PacketOk(run[n], key.id, n);
      assert e.push.(payload := e.push.payload[..|e.push.payload|]) == e.push;
    }
  }

  lemma {:induction false} RunBuffers(rx: Rx, es: seq<Event>, key: TxKey, run: seq<Push>)
    requires key !in rx.txs && AllFromRun(es, key, run) && RunOk(run, key.id)
    ensures Buffered(Run(rx, es), key, run)
  {
    if es == [] {
    } else {
      var init := es[..|es| - 1];
      assert forall e :: e in init ==> e in es;
      RunBuffers(rx, init, key, run);
      StepBuffers(Run(rx, init), es[|es| - 1], key, run);
    }
  }

  /** n distinct numbers below n are all of them. */
  lemma Pigeonhole(q: seq<int>, n: nat)
    requires |q| == n && (forall i :: 0 <= i < n ==> 0 <= q[i] < n)
    requires forall i, j :: 0 <= i < j < n ==> q[i] != q[j]
    ensures forall v :: 0 <= v < n ==> v in q
  {
    DistinctMembers(q);
    assert Members(q) <= Below(n) by {
      assert forall i :: 0 <= i < n ==> q[i] in Below(n);
    }
    SubsetSize(Members(q), Below(n));
    forall v | 0 <= v < n
      ensures v in q
    {
      assert v in Below(n) && v in Members(q);
    }
  }

  ghost predicate Whole(h: Head, run: seq<Push>) {
    |h.packetList| == |run| && (forall p :: p in run <==> p in h.packetList)
  }

  /** With at most 65535 packets, a matching count means that exactly the run is buffered. */
  lemma CountMeansWhole(rx: Rx, key: TxKey, run: seq<Push>)
    requires Buffered(rx, key, run) && key in rx.txs && RunOk(run, key.id)
    requires |run| < 0x1_0000 && rx.txs[key].numPacket == |run| % 0x1_0000
    ensures Whole(rx.txs[key], run)
  {
    var l := rx.txs[key].packetList;
    var q := seq(|l|, i requires 0 <= i < |l| => l[i].seqno);
    forall i | 0 <= i < |l|
      ensures 0 <= q[i] < |run| && run[q[i]] == l[i]
    {
      assert l[i] in run;
      var n :| 0 <= n < |run| && run[n] == l[i];
      assert PacketOk(run[n], key.id, n);
    }
    Pigeonhole(q, |run|);
    forall p | p in run
      ensures p in l
    {
      var n :| 0 <= n < |run| && run[n] == p;
      assert n in q;
    }
  }

  lemma {:induction false} ParseAllMembers(ps: seq<Push>, d: Dataset)
    ensures d in ParseAll(ps) <==> exists p :: p in ps && d in Parse(p.payload)
    decreases |ps|
  {
    if ps == [] {
    } else {
      var init, last := ps[..|ps| - 1], ps[|ps| - 1];
      assert ps == init + [last];
      ParseAllMembers(init, d);
    }
  }

  lemma WholeStoresRun(t: Table, mac: Mac, h: Head, run: seq<Push>, now: int)
    requires Whole(h, run) && Functional(ParseAll(run))
    ensures StoreAll(t, mac, ParseAll(h.packetList), now) == StoreAll(t, mac, ParseAll(run), now)
  {
    forall d
      ensures d in ParseAll(run) <==> d in ParseAll(h.packetList)
    {
      ParseAllMembers(run, d);
      ParseAllMembers(h.packetList, d);
    }
    OrderIrrelevant(t, mac, ParseAll(run), ParseAll(h.packetList), now);
  }

  // ---- when a transaction is complete -----------------------------------------------

  /** The event ends the transaction under `key`, whatever it is then worth. */
  ghost predicate Ends(e: Event, key: TxKey) {
    e == Expire(key) || (e.TxEndMsg? && Concerns(e, key) && e.length == PUSH_HLEN - TLV_HLEN)
  }

  ghost function Gather(master: bool, got: Option<set<Push>>, e: Event, key: TxKey): Option<set<Push>> {
    if Ends(e, key) then None
    else if e.PushMsg? && Concerns(e, key) then
      if got.Some? then Some(got.value + {e.push}) else if master then Some({e.push}) else None
    else if got.None? && e.ClientRequest? && e.key == key then Some({})
    else got
  }

  /** The packets that arrived under `key` since its transaction was opened, by a push to a master or by the node's own
      request; None while it is not open. */
  ghost function Since(master: bool, es: seq<Event>, key: TxKey): Option<set<Push>> {
    if es == [] then None else Gather(master, Since(master, es[..|es| - 1], key), es[|es| - 1], key)
  }

  /** `e` closes a transaction under which the whole run has arrived since it was opened. */
  ghost predicate Completes(master: bool, es: seq<Event>, e: Event, key: TxKey, run: seq<Push>) {
    e.TxEndMsg? && Concerns(e, key) && Ends(e, key) && Since(master, es, key) == Some(Members(run))
  }

  ghost predicate Holds(rx: Rx, key: TxKey, got: Option<set<Push>>) {
    && (key in rx.txs <==> got.Some?)
    && (got.Some? ==> forall p :: p in rx.txs[key].packetList <==> p in got.value)
  }

  lemma SameSeqno(run: seq<Push>, id: int, p: Push, q: Push)
    requires RunOk(run, id) && |run| < 0x1_0000 && p in run && q in run && p.seqno == q.seqno
    ensures p == q
  {
    var m, n :| 0 <= m < |run| && run[m] == p && 0 <= n < |run| && run[n] == q;
    assert PacketOk(run[m], id, m) && PacketOk(run[n], id, n);
  }

  lemma StepHolds(rx: Rx, e: Event, key: TxKey, run: seq<Push>, got: Option<set<Push>>)
    requires Buffered(rx, key, run) && Holds(rx, key, got) && RunOk(run, key.id) && |run| < 0x1_0000
             && FromRun(e, key, run)
    ensures Holds(Step(rx, e), key, Gather(rx.master, got, e, key)) && Step(rx, e).master == rx.master
  {
    hide RunOk, StoreAll, ParseAll;
    if e.PushMsg? && Concerns(e, key) {
      PushHeld(rx, e.push, key, run, got);
    }
  }

  /** A packet of the run that arrives in an open transaction is in it afterwards. */
  lemma PushHeld(rx: Rx, push: Push, key: TxKey, run: seq<Push>, got: Option<set<Push>>)
    requires Buffered(rx, key, run) && Holds(rx, key, got) && RunOk(run, key.id) && |run| < 0x1_0000 && push in run
             && push.id == key.id
    ensures var got' := if got.Some? then Some(got.value + {push}) else if rx.master then Some({push}) else None;
            Holds(StepPush(rx, key.server, push), key, got')
  {
    var n :| 0 <= n < |run| && run[n] == push;
    assert PacketOk(run[n], key.id, n);
    assert push.payload[..|push.payload|] == push.payload;
    if key in rx.txs {
      forall p | p in rx.txs[key].packetList && p.seqno == push.seqno
        ensures p == push
      {
        SameSeqno(run, key.id, p, push);
      }
    }
  }

  lemma {:induction false} RunHolds(rx: Rx, es: seq<Event>, key: TxKey, run: seq<Push>)
    requires key !in rx.txs && AllFromRun(es, key, run) && RunOk(run, key.id) && |run| < 0x1_0000
    ensures Holds(Run(rx, es), key, Since(rx.master, es, key)) && Run(rx, es).master == rx.master
  {
    hide Step, Gather, RunOk, Buffered, FromRun;
    if es == [] {
    } else {
      var init, e := es[..|es| - 1], es[|es| - 1];
      assert forall x :: x in init ==> x in es;
      RunHolds(rx, init, key, run);
      RunBuffers(rx, init, key, run);
      assert FromRun(e, key, run);
      StepHolds(Run(rx, init), e, key, run, Since(rx.master, init, key));
    }
  }

  lemma RunDistinct(run: seq<Push>, id: int)
    requires RunOk(run, id) && |run| < 0x1_0000
    ensures Distinct(run)
  {
    forall i, j | 0 <= i < j < |run|
      ensures run[i] != run[j]
    {
      assert PacketOk(run[i], id, i) && PacketOk(run[j], id, j);
    }
  }

  /** The count in a TXEND matches if and only if the whole run has arrived since the transaction was opened. */
  lemma FinishesIff(rx: Rx, es: seq<Event>, e: Event, key: TxKey, run: seq<Push>)
    requires key !in rx.txs && AllFromRun(es, key, run) && FromRun(e, key, run) && Concerns(e, key) && e.TxEndMsg?
    requires RunOk(run, key.id) && |run| < 0x1_0000
    ensures Finishes(Run(rx, es), e.mac, e.length, e.id, e.seqno) <==> Completes(rx.master, es, e, key, run)
    ensures Finishes(Run(rx, es), e.mac, e.length, e.id, e.seqno) ==> Whole(Run(rx, es).txs[key], run)
  {
    var s := Run(rx, es);
    hide Run, StepPush, RunOk, Since;
    RunBuffers(rx, es, key, run);
    RunHolds(rx, es, key, run);
    if Finishes(s, e.mac, e.length, e.id, e.seqno) {
      CountMeansWhole(s, key, run);
      assert Since(rx.master, es, key).value == Members(run);
    }
    if Completes(rx.master, es, e, key, run) {
      var l := s.txs[key].packetList;
      assert Distinct(l) && Members(l) == Members(run);
      DistinctMembers(l);
      RunDistinct(run, key.id);
      DistinctMembers(run);
    }
  }

  /** After any history: the TXEND of a run that has arrived whole stores all of it, and no other message of the
      transfer changes the table. */
  lemma AllOrNothing(rx: Rx, es: seq<Event>, e: Event, key: TxKey, run: seq<Push>)
    requires key !in rx.txs && AllFromRun(es, key, run) && FromRun(e, key, run) && Concerns(e, key)
    requires RunOk(run, key.id) && |run| < 0x1_0000 && Functional(ParseAll(run))
    ensures Step(Run(rx, es), e).data == if Completes(rx.master, es, e, key, run)
                                         then StoreAll(Run(rx, es).data, key.server, ParseAll(run), e.now)
                                         else Run(rx, es).data
  {
    var s := Run(rx, es);
    hide Run, StepPush, RunOk, Since, ParseAll, StoreAll, Functional, AllFromRun;
    if e.TxEndMsg? {
      FinishesIff(rx, es, e, key, run);
      if Finishes(s, e.mac, e.length, e.id, e.seqno) {
        WholeStoresRun(s.data, key.server, s.txs[key], run, e.now);
      }
    } else {
      PushKeepsData(s, e);
    }
  }

  lemma PushKeepsData(rx: Rx, e: Event)
    requires e.PushMsg?
    ensures Step(rx, e).data == rx.data
  {
  }

  ghost predicate CompletesAt(master: bool, es: seq<Event>, i: nat, key: TxKey, run: seq<Push>) {
    i < |es| && es[i].TxEndMsg? && Completes(master, es[..i], es[i], key, run)
  }

  lemma OneMoreCompletes(master: bool, es: seq<Event>, e: Event, i: nat, key: TxKey, run: seq<Push>)
    ensures CompletesAt(master, es + [e], i, key, run)
            <==> CompletesAt(master, es, i, key, run)
                 || (i == |es| && e.TxEndMsg? && Completes(master, es, e, key, run))
    ensures CompletesAt(master, es, i, key, run) ==> i < |es| && es[i].TxEndMsg?
    ensures CompletesAt(master, es + [e], i, key, run) ==> (es + [e])[i].TxEndMsg?
  {
    hide Completes;
    if i <= |es| {
      assert (es + [e])[..i] == es[..i];
      assert es[..|es|] == es;
    }
  }

  /** A receiver that sees only this transfer holds its old table until the run has arrived whole and is closed, and the
      run stored into it from then on. */
  lemma {:induction false} TransferResult(rx: Rx, es: seq<Event>, key: TxKey, run: seq<Push>)
    requires key !in rx.txs && AllFromRun(es, key, run) && (forall e :: e in es ==> !e.TableChange?)
    requires forall e :: e in es && (e.PushMsg? || e.TxEndMsg?) ==> Concerns(e, key)
    requires RunOk(run, key.id) && |run| < 0x1_0000 && Functional(ParseAll(run))
    ensures if exists i: nat :: CompletesAt(rx.master, es, i, key, run)
            then exists i: nat :: CompletesAt(rx.master, es, i, key, run)
                             && Run(rx, es).data == StoreAll(rx.data, key.server, ParseAll(run), es[i].now)
            else Run(rx, es).data == rx.data
  {
    hide StoreAll, ParseAll, RunOk, Functional, Completes, CompletesAt, Step;
    if es == [] {
      NoneComplete(rx.master, key, run);
    } else {
      var init, e := es[..|es| - 1], es[|es| - 1];
      assert es == init + [e] && forall x :: x in init ==> x in es;
      TransferResult(rx, init, key, run);
      StepResult(rx, init, e, key, run);
      forall i: nat
        ensures CompletesAt(rx.master, es, i, key, run)
                <==> CompletesAt(rx.master, init, i, key, run)
                     || (i == |init| && e.TxEndMsg? && Completes(rx.master, init, e, key, run))
        ensures CompletesAt(rx.master, init, i, key, run) ==> i < |init| && init[i].TxEndMsg?
      {
        OneMoreCompletes(rx.master, init, e, i, key, run);
      }
      if e.TxEndMsg? && Completes(rx.master, init, e, key, run) {
        assert CompletesAt(rx.master, es, |init|, key, run);
      } else if i: nat :| CompletesAt(rx.master, init, i, key, run)
                          && Run(rx, init).data == StoreAll(rx.data, key.server, ParseAll(run), init[i].now) {
        assert CompletesAt(rx.master, es, i, key, run) && es[i] == init[i];
      }
    }
  }

  lemma NoneComplete(master: bool, key: TxKey, run: seq<Push>)
    ensures forall i :: !CompletesAt(master, [], i, key, run)
  {
  }

  /** One more event: the table changes only when it completes the transfer, and then holds the run as of now. */
  lemma StepResult(rx: Rx, es: seq<Event>, e: Event, key: TxKey, run: seq<Push>)
    requires key !in rx.txs && AllFromRun(es, key, run) && FromRun(e, key, run) && !e.TableChange?
    requires e.PushMsg? || e.TxEndMsg? ==> Concerns(e, key)
    requires RunOk(run, key.id) && |run| < 0x1_0000 && Functional(ParseAll(run))
    requires Run(rx, es).data == rx.data
             || exists now :: Run(rx, es).data == StoreAll(rx.data, key.server, ParseAll(run), now)
    ensures Step(Run(rx, es), e).data == if e.TxEndMsg? && Completes(rx.master, es, e, key, run)
                                         then StoreAll(rx.data, key.server, ParseAll(run), e.now) else Run(rx, es).data
  {
    var s := Run(rx, es);
    hide Run, StepPush, RunOk, Since, ParseAll, StoreAll, Functional, AllFromRun, StepTxEnd;
    if e.PushMsg? || e.TxEndMsg? {
      AllOrNothing(rx, es, e, key, run);
      if s.data != rx.data && Completes(rx.master, es, e, key, run) {
        var now :| s.data == StoreAll(rx.data, key.server, ParseAll(run), now);
        StoreAgain(rx.data, key.server, ParseAll(run), now, e.now);
      }
    }
  }

  /** A master opens the transaction with the first push it gets; another node must have asked, with the first of the
      events. */
  ghost predicate Opened(master: bool, es: seq<Event>, key: TxKey) {
    master || (es != [] && es[0].ClientRequest? && es[0].key == key)
  }

  ghost predicate Joins(e: Event, key: TxKey) {
    (e.PushMsg? && Concerns(e, key)) || (e.ClientRequest? && e.key == key)
  }

  /** `got` is what `es` have delivered. */
  ghost predicate Gathered(es: seq<Event>, key: TxKey, got: Option<set<Push>>) {
    && (got.Some? <==> exists e :: e in es && Joins(e, key))
    && (got.Some? ==> forall p :: p in got.value <==> PushMsg(key.server, p) in es && p.id == key.id)
  }

  lemma GatheredMore(master: bool, es: seq<Event>, e: Event, key: TxKey, got: Option<set<Push>>)
    requires Gathered(es, key, got) && !Ends(e, key) && (master || got.Some? || (e.ClientRequest? && e.key == key))
    ensures Gathered(es + [e], key, Gather(master, got, e, key))
  {
    assert forall x :: x in es + [e] <==> x in es || x == e;
    if e.PushMsg? && Concerns(e, key) {
      assert e == PushMsg(key.server, e.push);
    }
    assert e in es + [e] && (Gathered(es, key, got) && Joins(e, key) ==> Gather(master, got, e, key).Some?);
  }

  lemma {:induction false} SinceIs(master: bool, es: seq<Event>, key: TxKey)
    requires Opened(master, es, key) && forall e :: e in es ==> !Ends(e, key)
    ensures Gathered(es, key, Since(master, es, key))
  {
    hide Ends, Gather;
    if es == [] {
    } else {
      var init, e := es[..|es| - 1], es[|es| - 1];
      assert es == init + [e];
      if init != [] {
        assert init[0] == es[0] && init[0] in init;
        SinceIs(master, init, key);
        assert !master ==> Joins(init[0], key);
      }
      GatheredMore(master, init, e, key, Since(master, init, key));
    }
  }

  /** What the protocol is for: when every packet of the run has been delivered at least once, in any order and with any
      repeats, to a transaction that was open all the time, the TXEND completes it. */
  lemma DeliveredCompletes(master: bool, es: seq<Event>, e: Event, key: TxKey, run: seq<Push>)
    requires AllFromRun(es, key, run) && RunOk(run, key.id) && Opened(master, es, key)
             && (forall x :: x in es ==> !Ends(x, key))
    requires run == [] ==> exists x :: x in es && x.ClientRequest? && x.key == key
    requires forall p :: p in run ==> PushMsg(key.server, p) in es
    requires e.TxEndMsg? && Concerns(e, key) && Ends(e, key)
    ensures Completes(master, es, e, key, run)
  {
    SinceIs(master, es, key);
    forall p | p in run
      ensures PushMsg(key.server, p) in es && Concerns(PushMsg(key.server, p), key)
    {
      var n :| 0 <= n < |run| && run[n] == p;
      assert PacketOk(run[n], key.id, n);
    }
    forall p | PushMsg(key.server, p) in es && p.id == key.id
      ensures p in run
    {
      assert FromRun(PushMsg(key.server, p), key, run);
    }
    if run != [] {
      assert run[0] in run;
    }
    assert Since(master, es, key).value == Members(run);
  }

  // ---- where the packet counter wraps ------------------------------------------

  /** No delivery of what the sender sends ever ends a transaction as complete without the whole run in it. */
  ghost predicate OnlyWholeRuns(key: TxKey, run: seq<Push>, typeFilter: int) {
    forall rx: Rx, es: seq<Event>, e: Event ::
      key !in rx.txs && AllFromRun(es, key, run) && FromRun(e, key, run) && Concerns(e, key)
      && e.TxEndMsg? && TxEnd(|run|, typeFilter) == Some(e.seqno)
           && Finishes(Run(rx, es), e.mac, e.length, e.id, e.seqno)
      ==> Whole(Run(rx, es).txs[key], run)
  }

  /** The requested transaction followed by the first `m` packets. */
  ghost function FirstPackets(key: TxKey, run: seq<Push>, m: nat): seq<Event>
    requires m <= |run|
  {
    if m == 0 then [ClientRequest(key, 0, 0)] else FirstPackets(key, run, m - 1) + [PushMsg(key.server, run[m - 1])]
  }

  lemma NextPacketStored(rx: Rx, key: TxKey, run: seq<Push>, m: nat)
    requires RunOk(run, key.id) && m < |run| && m < 0x1_0000 && key in rx.txs
    requires var h := rx.txs[key]; h.finished == 0 && h.packetList == run[..m] && h.numPacket == m
    ensures var rx' := StepPush(rx, key.server, run[m]);
            && key in rx'.txs && var h := rx'.txs[key];
               h.finished == 0 && h.packetList == run[..m + 1] && h.numPacket == m + 1
  {
    var p := run[m];
    assert forall n :: 0 <= n <= m ==> PacketOk(run[n], key.id, n);
    assert p.payload[..|p.payload|] == p.payload;
    assert run[..m + 1] == run[..m] + [p];
  }

  lemma {:induction false} FirstPacketsBuffered(key: TxKey, run: seq<Push>, m: nat, rx: Rx)
    requires RunOk(run, key.id) && m <= |run| && m < 0x1_0000 && key !in rx.txs
    ensures var es := FirstPackets(key, run, m);
            && AllFromRun(es, key, run) && key in Run(rx, es).txs
            && var h := Run(rx, es).txs[key]; h.finished == 0 && h.packetList == run[..m] && h.numPacket == m
  {
    hide RunOk, StepPush, StepTxEnd;
    var es := FirstPackets(key, run, m);
    if m == 0 {
      assert es[..0] == [] && Run(rx, []) == rx && Run(rx, es) == Step(rx, es[0]);
    } else {
      FirstPacketsBuffered(key, run, m - 1, rx);
      assert es[..|es| - 1] == FirstPackets(key, run, m - 1);
      NextPacketStored(Run(rx, es[..|es| - 1]), key, run, m - 1);
    }
  }

  /** The transfer is safe exactly for runs whose packet count fits the 16-bit counter, and for those that are never
      closed because the counter has come round to zero. */
  lemma OnlyWholeRunsIff(key: TxKey, run: seq<Push>, typeFilter: int)
    requires RunOk(run, key.id)
    ensures OnlyWholeRuns(key, run, typeFilter) <==> |run| < 0x1_0000 || TxEnd(|run|, typeFilter) == None
  {
    if |run| < 0x1_0000 {
      forall rx: Rx, es: seq<Event>, e: Event
        | key !in rx.txs && AllFromRun(es, key, run) && FromRun(e, key, run) && Concerns(e, key)
                         && e.TxEndMsg? && Finishes(Run(rx, es), e.mac, e.length, e.id, e.seqno)
        ensures Whole(Run(rx, es).txs[key], run)
      {
        RunBuffers(rx, es, key, run);
        CountMeansWhole(Run(rx, es), key, run);
      }
    } else if TxEnd(|run|, typeFilter) != None {
      var m := |run| % 0x1_0000;
      var rx, es := Rx(false, map[], map[]), FirstPackets(key, run, m);
      FirstPacketsBuffered(key, run, m, rx);
      var e := TxEndMsg(key.server, PUSH_HLEN - TLV_HLEN, key.id, m, 0);
      assert Finishes(Run(rx, es), e.mac, e.length, e.id, e.seqno) && !Whole(Run(rx, es).txs[key], run);
    }
  }

  // ---- from the sender's table to the receiver's -----------------------------------

  ghost predicate DistinctKeys(table: seq<Entry>) {
    forall i, j :: 0 <= i < j < |table| ==> KeyOf(table[i].data) != KeyOf(table[j].data)
  }

  lemma SelectedFunctional(table: seq<Entry>, maxLevel: DataSource, typeFilter: int)
    requires DistinctKeys(table)
    ensures Functional(Selected(table, maxLevel, typeFilter))
  {
    var ds := Selected(table, maxLevel, typeFilter);
    forall d, e | d in ds && e in ds && KeyOf(d) == KeyOf(e)
      ensures d == e
    {
      SelectedGo(table, maxLevel, typeFilter);
    }
  }

  ghost predicate Sent(e: Entry, table: seq<Entry>, maxLevel: DataSource, typeFilter: int) {
    e in table && Goes(e, maxLevel, typeFilter)
  }

  ghost predicate NotSent(k: Key, table: seq<Entry>, maxLevel: DataSource, typeFilter: int) {
    forall e :: Sent(e, table, maxLevel, typeFilter) ==> KeyOf(e.data) != k
  }

  /** Every entry sent has reached the table, unless it is held locally there, and nothing else has changed. */
  ghost predicate Arrived(table: seq<Entry>, maxLevel: DataSource, typeFilter: int, mac: Mac, t: Table, now: int,
                          t': Table) {
    && (forall e :: Sent(e, table, maxLevel, typeFilter)
          ==> KeyOf(e.data) in t' && t'[KeyOf(e.data)] == Stored(t, mac, e.data, now))
    && (forall k :: NotSent(k, table, maxLevel, typeFilter) ==> (k in t' <==> k in t) && (k in t ==> t'[k] == t[k]))
  }

  lemma OverwriteArrives(table: seq<Entry>, maxLevel: DataSource, typeFilter: int, mac: Mac, t: Table, now: int)
    requires DistinctKeys(table)
    ensures Arrived(table, maxLevel, typeFilter, mac, t, now,
                    StoreAll(t, mac, Selected(table, maxLevel, typeFilter), now))
  {
    var ds := Selected(table, maxLevel, typeFilter);
    var t' := StoreAll(t, mac, ds, now);
    hide Selected, StoreAll, DistinctKeys, Stored, Functional, Goes, Sent, NotSent;
    SelectedFunctional(table, maxLevel, typeFilter);
    StoreAllOverwrites(t, mac, ds, now);
    SentSelected(table, maxLevel, typeFilter);
    forall k | NotSent(k, table, maxLevel, typeFilter)
      ensures forall d :: d in ds ==> KeyOf(d) != k
    {
      OtherKey(table, maxLevel, typeFilter, k);
    }
  }

  lemma SentSelected(table: seq<Entry>, maxLevel: DataSource, typeFilter: int)
    ensures forall e :: Sent(e, table, maxLevel, typeFilter) ==> e.data in Selected(table, maxLevel, typeFilter)
  {
    hide Selected, Goes;
    SelectedGo(table, maxLevel, typeFilter);
  }

  lemma OtherKey(table: seq<Entry>, maxLevel: DataSource, typeFilter: int, k: Key)
    requires NotSent(k, table, maxLevel, typeFilter)
    ensures forall d :: d in Selected(table, maxLevel, typeFilter) ==> KeyOf(d) != k
  {
    hide Selected, Goes;
    SelectedGo(table, maxLevel, typeFilter);
    forall d | d in Selected(table, maxLevel, typeFilter)
      ensures KeyOf(d) != k
    {
      var e :| e in table && Goes(e, maxLevel, typeFilter) && e.data == d;
      assert Sent(e, table, maxLevel, typeFilter);
    }
  }

  /** A push of a table whose keys are unique, over a network that may lose, repeat and reorder: the receiver's table is
      as before until the run has arrived whole and is closed, and from then on everything sent has arrived in it. */
  lemma EndToEnd(table: seq<Entry>, maxLevel: DataSource, typeFilter: int, run: seq<Push>, rx: Rx, es: seq<Event>,
                 key: TxKey)
    requires DistinctKeys(table) && ParseAll(run) == Selected(table, maxLevel, typeFilter) && RunOk(run, key.id)
    requires |run| < 0x1_0000
    requires key !in rx.txs && AllFromRun(es, key, run) && (forall e :: e in es ==> !e.TableChange?)
    requires forall e :: e in es && (e.PushMsg? || e.TxEndMsg?) ==> Concerns(e, key)
    ensures if exists i: nat :: CompletesAt(rx.master, es, i, key, run)
            then exists i: nat :: CompletesAt(rx.master, es, i, key, run)
                             && Arrived(table, maxLevel, typeFilter, key.server, rx.data, es[i].now, Run(rx, es).data)
            else Run(rx, es).data == rx.data
  {
    hide Run, Arrived, RunOk, AllFromRun, Selected, ParseAll, StoreAll, DistinctKeys, Functional, Completes, Concerns;
    SelectedFunctional(table, maxLevel, typeFilter);
    TransferResult(rx, es, key, run);
    if exists i: nat :: CompletesAt(rx.master, es, i, key, run) {
      var i: nat :| CompletesAt(rx.master, es, i, key, run)
               && Run(rx, es).data == StoreAll(rx.data, key.server, ParseAll(run), es[i].now);
      OverwriteArrives(table, maxLevel, typeFilter, key.server, rx.data, es[i].now);
    }
  }

  // ---- the code ------------------------------------------------------------------------

  /** What the parse loop meets at `pos`. */
  lemma DatasetAt(payload: seq<Byte>, pos: nat, done: seq<Dataset>)
    requires pos + DATA_HLEN <= |payload|
    ensures var n := Ntohs(payload[pos + 8], payload[pos + 9]);
            if pos + DATA_HLEN + n > |payload| then Parse(payload[pos..]) == []
            else var d := Dataset(payload[pos..pos + 6], payload[pos + 6], payload[pos + 7],
                                  payload[pos + DATA_HLEN..pos + DATA_HLEN + n]);
                 done + Parse(payload[pos..]) == done + [d] + Parse(payload[pos + DATA_HLEN + n..])
  {
    hide FirstDataset;
    FirstAt(payload, pos);
    var n := Ntohs(payload[pos + 8], payload[pos + 9]);
    if pos + DATA_HLEN + n <= |payload| {
      var d, rest := FirstDataset(payload[pos..]).value, Parse(payload[pos + DATA_HLEN + n..]);
      assert Parse(payload[pos..]) == [d] + rest;
      assert done + ([d] + rest) == done + [d] + rest;
    }
  }

  lemma FirstAt(payload: seq<Byte>, pos: nat)
    requires pos + DATA_HLEN <= |payload|
    ensures var n := Ntohs(payload[pos + 8], payload[pos + 9]);
            && payload[pos..][DATA_HLEN..] == payload[pos + DATA_HLEN..]
            && if pos + DATA_HLEN + n > |payload| then FirstDataset(payload[pos..]) == None
               else && FirstDataset(payload[pos..])
                       == Some(Dataset(payload[pos..pos + 6], payload[pos + 6], payload[pos + 7],
                                       payload[pos + DATA_HLEN..pos + DATA_HLEN + n]))
                    && payload[pos..][DATA_HLEN + n..] == payload[pos + DATA_HLEN + n..]
  {
    var rest, n := payload[pos..], Ntohs(payload[pos + 8], payload[pos + 9]);
    if pos + DATA_HLEN + n <= |payload| {
      assert rest[..6] == payload[pos..pos + 6];
      assert rest[DATA_HLEN..DATA_HLEN + n] == payload[pos + DATA_HLEN..pos + DATA_HLEN + n];
    }
  }

  lemma NoDatasetAt(payload: seq<Byte>, pos: nat)
    requires |payload| - DATA_HLEN < pos <= |payload|
    ensures Parse(payload[pos..]) == []
  {
  }

  lemma NothingParsed(t: Table, mac: Mac, now: int)
    ensures StoreAll(t, mac, ParseAll([]), now) == t
  {
  }

  lemma ParsedMore(packets: seq<Push>, i: nat)
    requires i < |packets|
    ensures ParseAll(packets[..i + 1]) == ParseAll(packets[..i]) + Parse(packets[i].payload)
  {
    assert packets[..i + 1][..i] == packets[..i];
  }

  class Receiver {
    const master: bool
    var data: Table
    var txs: map<TxKey, Head>

    ghost function State(): Rx
      reads this
    {
      Rx(master, data, txs)
    }

    constructor (master: bool)
      ensures State() == Rx(master, map[], map[])
    {
      this.master := master;
      data, txs := map[], map[];
    }

    /** finish_alfred_push_data: stores the datasets of one packet, stopping at the first incomplete one. */
    method FinishPushData(mac: Mac, payload: seq<Byte>, now: int)
      modifies this`data
      ensures data == StoreAll(old(data), mac, Parse(payload), now)
    {
      hide Parse;
      var pos, len := 0, |payload|;
      ghost var done: seq<Dataset> := [];
      assert payload[0..] == payload;
      while len >= DATA_HLEN
        invariant 0 <= pos && 0 <= len && pos + len == |payload|
        invariant data == StoreAll(old(data), mac, done, now)
        invariant done + Parse(payload[pos..]) == Parse(payload)
      {
        var dataLen := Ntohs(payload[pos + 8], payload[pos + 9]);
        if dataLen + DATA_HLEN > len {
          DatasetAt(payload, pos, done);
          break;
        }
        var d := Dataset(payload[pos..pos + 6], payload[pos + 6], payload[pos + 7],
                         payload[pos + DATA_HLEN..pos + DATA_HLEN + dataLen]);
        DatasetAt(payload, pos, done);
        var k := KeyOf(d);
        if k !in data || data[k].origin != LOCAL {
          data := data[k := Entry(d, if mac == d.source then FIRST_HAND else SYNCED, now)];
        }
        assert (done + [d])[..|done|] == done;
        done := done + [d];
        pos, len := pos + DATA_HLEN + dataLen, len - (DATA_HLEN + dataLen);
      }
      if len < DATA_HLEN {
        NoDatasetAt(payload, pos);
      }
      assert done + [] == done;
    }

    method ProcessPushData(mac: Mac, push: Push)
      modifies this`txs
      ensures State() == StepPush(old(State()), mac, push)
    {
      var len := push.length - (PUSH_HLEN - TLV_HLEN);
      if len < 0 || |push.payload| < len {
        return;
      }
      var key := TxKey(mac, push.id);
      var head := NEW_HEAD;
      if key in txs {
        head := txs[key];
      } else if !master {
        return;
      }
      if head.finished != 0 {
        return;
      }
      var found, i := false, 0;
      while i < |head.packetList| && !found
        invariant 0 <= i <= |head.packetList|
        invariant found <==> exists p :: p in head.packetList[..i] && p.seqno == push.seqno
      {
        assert head.packetList[..i + 1] == head.packetList[..i] + [head.packetList[i]];
        found := head.packetList[i].seqno == push.seqno;
        i := i + 1;
      }
      assert head.packetList[..|head.packetList|] == head.packetList;
      assert found ==> exists p :: p in head.packetList && p.seqno == push.seqno;
      if found {
        return;
      }
      var packet := push.(payload := push.payload[..len]);
      txs := txs[key := head.(packetList := head.packetList + [packet], numPacket := head.numPacket + 1)];
    }

    method ProcessTxEnd(mac: Mac, length: int, id: int, seqno: int, now: int) returns (finished: int)
      modifies this
      ensures State() == StepTxEnd(old(State()), mac, length, id, seqno, now)
      ensures finished == if !Closes(old(State()), mac, length, id) then 0
                          else if Finishes(old(State()), mac, length, id, seqno) then 1 else -1
    {
      hide StoreAll, ParseAll, Parse;
      var key := TxKey(mac, id);
      if length != PUSH_HLEN - TLV_HLEN || key !in txs {
        return 0;
      }
      var head := txs[key];
      if head.finished != 0 {
        return 0;
      }
      finished := if head.numPacket != seqno then -1 else 1;
      var i := 0;
      NothingParsed(data, mac, now);
      while i < |head.packetList|
        invariant 0 <= i <= |head.packetList| && txs == old(txs)
        invariant data == if finished == 1 then StoreAll(old(data), mac, ParseAll(head.packetList[..i]), now)
                  else old(data)
      {
        var p := head.packetList[i];
        ParsedMore(head.packetList, i);
        if finished == 1 {
          StoreAllConcat(old(data), mac, ParseAll(head.packetList[..i]), Parse(p.payload), now);
          FinishPushData(mac, p.payload, now);
        }
        i := i + 1;
      }
      assert head.packetList[..|head.packetList|] == head.packetList;
      txs := txs - {key};
    }

    method Request(key: TxKey, requestedType: int, socket: int) returns (ok: bool)
      modifies this`txs
      ensures State() == Step(old(State()), ClientRequest(key, requestedType, socket))
      ensures ok == (key !in old(txs))
    {
      if key in txs {
        return false;
      }
      txs := txs[key := NEW_HEAD.(requestedType := requestedType, clientSocket := socket)];
      ok := true;
    }
  }
}
