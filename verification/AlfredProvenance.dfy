// Many alfred servers with fixed modes: how far a dataset travels from the server it was
// handed to, and what the labels LOCAL, FIRST_HAND and SYNCED say about that path.
module AlfredProvenance {
  import opened Basics
  import opened AlfredPackets
  import opened AlfredReceiver

  type NodeId = int

  /** `first` is the address of the first interface; a node drops packets from any of its own addresses. */
  datatype Node = Node(master: bool, macs: set<Mac>, first: Mac)

  type Mesh = map<NodeId, Node>

  /** An entry of a server's table with its history: who delivered it last, over how many deliveries. */
  datatype Copy = Copy(entry: Entry, lastFrom: Mac, hops: nat)

  /** A dataset in flight; the network may deliver it any number of times, or never. */
  datatype Msg = Msg(from: NodeId, mac: Mac, to: NodeId, data: Dataset, sentAs: DataSource, hops: nat)

  datatype State = State(
    tables: map<NodeId, map<Key, Copy>>,
    net: set<Msg>,
    requests: set<(NodeId, NodeId)>,       // (slave, master) for every request ever sent
    handedIn: set<(NodeId, Dataset)>)      // what clients have given to which server

  datatype Action =
    | ClientPut(n: NodeId, data: Dataset, now: int)
    | SyncData(n: NodeId, mac: Mac, to: NodeId)
    | PushLocalData(n: NodeId, mac: Mac, to: NodeId)
    | SendRequest(n: NodeId, to: NodeId)
    | AnswerRequest(n: NodeId, mac: Mac, to: NodeId, kind: Byte)
    | Deliver(m: Msg, now: int)
    | Purge(n: NodeId, k: Key)

  ghost predicate MeshOk(mesh: Mesh) {
    && (forall n :: n in mesh ==> mesh[n].first in mesh[n].macs)
    && (forall n, n' :: n in mesh && n' in mesh && n != n' ==> mesh[n].macs !! mesh[n'].macs)
  }

  predicate ValidEther(a: Mac) {
    a[0] % 2 == 0 && !(forall i :: 0 <= i < 6 ==> a[i] == 0)
  }

  /** The dataset a client may store at node `n`, with the source address filled in (unix_sock_add_data). */
  function Accepted(node: Node, d: Dataset): Option<Dataset> {
    if ValidEther(d.source) then
      if d.source != node.first && !node.master then None else Some(d)
    else Some(d.(source := node.first))
  }

  /** push_data: every entry up to `maxLevel`, optionally of one type, addressed to `to`. */
  ghost function Pushed(n: NodeId, t: map<Key, Copy>, mac: Mac, to: NodeId, maxLevel: DataSource,
                        typeFilter: int): set<Msg> {
    set k | k in t && Eligible(t[k].entry, maxLevel, typeFilter) ::
      Msg(n, mac, to, t[k].entry.data, t[k].entry.origin, t[k].hops)
  }

  ghost function Receive(t: map<Key, Copy>, m: Msg, now: int): map<Key, Copy> {
    var k := KeyOf(m.data);
    if k in t && t[k].entry.origin == LOCAL then t
    else t[k := Copy(Entry(m.data, if m.mac == m.data.source then FIRST_HAND else SYNCED, now), m.mac, m.hops + 1)]
  }

  ghost function Entries(t: map<Key, Copy>): Table {
    map k | k in t :: t[k].entry
  }

  /** Apart from the history it keeps, Receive is the receiver's Store. */
  lemma ReceiveIsStore(t: map<Key, Copy>, m: Msg, now: int)
    ensures Entries(Receive(t, m, now)) == Store(Entries(t), m.mac, m.data, now)
  {
    var a, b := Entries(Receive(t, m, now)), Store(Entries(t), m.mac, m.data, now);
    assert a.Keys == b.Keys;
  }

  ghost predicate Enabled(mesh: Mesh, s: State, a: Action) {
    match a
    case ClientPut(n, d, now) => n in mesh && n in s.tables && Accepted(mesh[n], d).Some?
    case SyncData(n, mac, to) => From(mesh, s, n, mac, to) && mesh[n].master && mesh[to].master
    case PushLocalData(n, mac, to) => From(mesh, s, n, mac, to) && !mesh[n].master && mesh[to].master
    case SendRequest(n, to) => n in mesh && to in mesh && !mesh[n].master && mesh[to].master
    case AnswerRequest(n, mac, to, kind) => From(mesh, s, n, mac, to) && (to, n) in s.requests
    case Deliver(m, now) => m in s.net && m.to in mesh && m.to in s.tables && m.mac !in mesh[m.to].macs
                            && (mesh[m.to].master || (m.to, m.from) in s.requests)
    case Purge(n, k) => n in s.tables
  }

  ghost predicate From(mesh: Mesh, s: State, n: NodeId, mac: Mac, to: NodeId) {
    n in mesh && n in s.tables && to in mesh && mac in mesh[n].macs
  }

  ghost function Next(mesh: Mesh, s: State, a: Action): State
    requires Enabled(mesh, s, a)
  {
    match a
    case ClientPut(n, d0, now) =>
      var d := Accepted(mesh[n], d0).value;
      s.(tables := s.tables[n := s.tables[n][KeyOf(d) := Copy(Entry(d, LOCAL, now), mesh[n].first, 0)]],
         handedIn := s.handedIn + {(n, d)})
    case SyncData(n, mac, to) => s.(net := s.net + Pushed(n, s.tables[n], mac, to, FIRST_HAND, NO_FILTER))
    case PushLocalData(n, mac, to) => s.(net := s.net + Pushed(n, s.tables[n], mac, to, LOCAL, NO_FILTER))
    case SendRequest(n, to) => s.(requests := s.requests + {(n, to)})
    case AnswerRequest(n, mac, to, kind) => s.(net := s.net + Pushed(n, s.tables[n], mac, to, SYNCED, kind))
    case Deliver(m, now) => s.(tables := s.tables[m.to := Receive(s.tables[m.to], m, now)])
    case Purge(n, k) => s.(tables := s.tables[n := s.tables[n] - {k}])
  }

  /** Actions that are not enabled do nothing. */
  ghost function Run(mesh: Mesh, s: State, acts: seq<Action>): State {
    if acts == [] then s
    else
      var s' := Run(mesh, s, acts[..|acts| - 1]);
      var a := acts[|acts| - 1];
      if Enabled(mesh, s', a) then Next(mesh, s', a) else s'
  }

  ghost function Start(mesh: Mesh): State {
    State(map n | n in mesh :: map[], {}, {}, {})
  }

  // ---- what holds in every run ---------------------------------------------------

  /** Somebody entitled to speak for the source handed the dataset in. */
  ghost predicate Authentic(mesh: Mesh, s: State, d: Dataset) {
    exists n :: n in mesh && (n, d) in s.handedIn && (mesh[n].master || d.source in mesh[n].macs)
  }

  ghost predicate CopyOk(mesh: Mesh, s: State, n: NodeId, k: Key, c: Copy)
    requires n in mesh
  {
    && KeyOf(c.entry.data) == k
    && Authentic(mesh, s, c.entry.data)
    && (match c.entry.origin
        case LOCAL => c.hops == 0 && (n, c.entry.data) in s.handedIn
        case FIRST_HAND =>
          c.lastFrom == c.entry.data.source && c.lastFrom !in mesh[n].macs && c.hops >= 1
              && (mesh[n].master ==> c.hops == 1)
        case SYNCED => c.hops >= 1 && (mesh[n].master ==> c.hops <= 2))
    && c.hops <= 3
  }

  ghost predicate MsgOk(mesh: Mesh, s: State, m: Msg) {
    && m.from in mesh && m.to in mesh && m.mac in mesh[m.from].macs
    && Authentic(mesh, s, m.data)
    && (m.sentAs == SYNCED ==> (m.to, m.from) in s.requests)
    && (mesh[m.to].master ==> m.hops <= 1 && (m.mac == m.data.source ==> m.hops == 0))
    && m.hops <= 2
  }

  ghost predicate Inv(mesh: Mesh, s: State) {
    && (forall n :: n in s.tables ==> n in mesh)
    && (forall n, k :: n in s.tables && k in s.tables[n] ==> CopyOk(mesh, s, n, k, s.tables[n][k]))
    && (forall m :: m in s.net ==> MsgOk(mesh, s, m))
    && (forall r :: r in s.requests ==> r.0 in mesh && r.1 in mesh && !mesh[r.0].master && mesh[r.1].master)
  }

  lemma PushKeepsInv(mesh: Mesh, s: State, n: NodeId, mac: Mac, to: NodeId, maxLevel: DataSource, typeFilter: int)
    requires MeshOk(mesh) && Inv(mesh, s) && From(mesh, s, n, mac, to)
    requires if maxLevel == SYNCED then (to, n) in s.requests else mesh[to].master
    requires maxLevel == FIRST_HAND ==> mesh[n].master
    ensures Inv(mesh, s.(net := s.net + Pushed(n, s.tables[n], mac, to, maxLevel, typeFilter)))
  {
    var s' := s.(net := s.net + Pushed(n, s.tables[n], mac, to, maxLevel, typeFilter));
    forall m | m in s'.net
      ensures MsgOk(mesh, s', m)
    {
      if m in s.net {
        assert MsgOk(mesh, s, m);
      } else {
        var k :| k in s.tables[n] && Eligible(s.tables[n][k].entry, maxLevel, typeFilter)
                 && m == Msg(n, mac, to, s.tables[n][k].entry.data, s.tables[n][k].entry.origin, s.tables[n][k].hops);
        assert CopyOk(mesh, s, n, k, s.tables[n][k]);
      }
    }
    SameHistory(mesh, s, s');
  }

  /** Tables and history unchanged or grown: the copies stay in order. */
  lemma SameHistory(mesh: Mesh, s: State, s': State)
    requires Inv(mesh, s) && s.tables == s'.tables && s.handedIn <= s'.handedIn
    ensures forall n, k :: n in s'.tables && k in s'.tables[n] ==> CopyOk(mesh, s', n, k, s'.tables[n][k])
  {
    forall n, k | n in s'.tables && k in s'.tables[n]
      ensures CopyOk(mesh, s', n, k, s'.tables[n][k])
    {
      assert CopyOk(mesh, s, n, k, s.tables[n][k]);
    }
  }

  lemma PutKeepsInv(mesh: Mesh, s: State, n: NodeId, d0: Dataset, now: int)
    requires MeshOk(mesh) && Inv(mesh, s) && Enabled(mesh, s, ClientPut(n, d0, now))
    ensures Inv(mesh, Next(mesh, s, ClientPut(n, d0, now)))
  {
    var s' := Next(mesh, s, ClientPut(n, d0, now));
    var d := Accepted(mesh[n], d0).value;
    assert Authentic(mesh, s', d) by {
      assert (n, d) in s'.handedIn;
    }
    forall n', k | n' in s'.tables && k in s'.tables[n']
      ensures CopyOk(mesh, s', n', k, s'.tables[n'][k])
    {
      if !(n' == n && k == KeyOf(d)) {
        assert CopyOk(mesh, s, n', k, s.tables[n'][k]);
      }
    }
    forall m | m in s'.net
      ensures MsgOk(mesh, s', m)
    {
      assert MsgOk(mesh, s, m);
    }
  }

  lemma DeliverKeepsInv(mesh: Mesh, s: State, m: Msg, now: int)
    requires MeshOk(mesh) && Inv(mesh, s) && Enabled(mesh, s, Deliver(m, now))
    ensures Inv(mesh, Next(mesh, s, Deliver(m, now)))
  {
    hide CopyOk;
    var s' := Next(mesh, s, Deliver(m, now));
    assert MsgOk(mesh, s, m);
    forall n, k | n in s'.tables && k in s'.tables[n]
      ensures CopyOk(mesh, s', n, k, s'.tables[n][k])
    {
      CopyDelivered(mesh, s, m, now, n, k);
    }
    forall m' | m' in s'.net
      ensures MsgOk(mesh, s', m')
    {
      assert MsgOk(mesh, s, m');
    }
  }

  lemma CopyDelivered(mesh: Mesh, s: State, m: Msg, now: int, n: NodeId, k: Key)
    requires Enabled(mesh, s, Deliver(m, now)) && MsgOk(mesh, s, m) && MeshOk(mesh) && n in s.tables && n in mesh
    requires k in s.tables[n] ==> CopyOk(mesh, s, n, k, s.tables[n][k])
    ensures var s' := Next(mesh, s, Deliver(m, now)); k in s'.tables[n] ==> CopyOk(mesh, s', n, k, s'.tables[n][k])
  {
  }

  lemma InvNext(mesh: Mesh, s: State, a: Action)
    requires MeshOk(mesh) && Inv(mesh, s) && Enabled(mesh, s, a)
    ensures Inv(mesh, Next(mesh, s, a))
  {
    hide Inv, MeshOk;
    match a
    case ClientPut(n, d, now) => PutKeepsInv(mesh, s, n, d, now);
    case SyncData(n, mac, to) => PushKeepsInv(mesh, s, n, mac, to, FIRST_HAND, NO_FILTER);
    case PushLocalData(n, mac, to) => PushKeepsInv(mesh, s, n, mac, to, LOCAL, NO_FILTER);
    case AnswerRequest(n, mac, to, kind) => PushKeepsInv(mesh, s, n, mac, to, SYNCED, kind);
    case Deliver(m, now) => DeliverKeepsInv(mesh, s, m, now);
    case SendRequest(n, to) => RequestKeepsInv(mesh, s, n, to);
    case Purge(n, k) => PurgeKeepsInv(mesh, s, n, k);
  }

  lemma RequestKeepsInv(mesh: Mesh, s: State, n: NodeId, to: NodeId)
    requires Inv(mesh, s) && Enabled(mesh, s, SendRequest(n, to))
    ensures Inv(mesh, Next(mesh, s, SendRequest(n, to)))
  {
    SameHistory(mesh, s, Next(mesh, s, SendRequest(n, to)));
    assert forall m :: m in s.net ==> MsgOk(mesh, s, m);
  }

  lemma PurgeKeepsInv(mesh: Mesh, s: State, n: NodeId, k: Key)
    requires Inv(mesh, s) && Enabled(mesh, s, Purge(n, k))
    ensures Inv(mesh, Next(mesh, s, Purge(n, k)))
  {
    var s' := Next(mesh, s, Purge(n, k));
    assert forall m :: m in s.net ==> MsgOk(mesh, s, m);
    forall n', k' | n' in s'.tables && k' in s'.tables[n']
      ensures CopyOk(mesh, s', n', k', s'.tables[n'][k'])
    {
      assert CopyOk(mesh, s, n', k', s.tables[n'][k']);
    }
  }

  /** In every run: LOCAL data is the node's own, FIRST_HAND data came straight from its source, a
      master's copy is at most two deliveries away from the hand-in and no copy more than three, and
      every copy was handed in at a server entitled to speak for its source. */
  lemma {:induction false} Provenance(mesh: Mesh, acts: seq<Action>)
    requires MeshOk(mesh)
    ensures Inv(mesh, Run(mesh, Start(mesh), acts))
  {
    if acts == [] {
    } else {
      var init := acts[..|acts| - 1];
      Provenance(mesh, init);
      var s, a := Run(mesh, Start(mesh), init), acts[|acts| - 1];
      if Enabled(mesh, s, a) {
        InvNext(mesh, s, a);
      }
    }
  }

  /** What the network does never touches a server's own data. */
  lemma LocalSurvives(mesh: Mesh, s: State, a: Action, n: NodeId, k: Key)
    requires Enabled(mesh, s, a) && !a.ClientPut? && a != Purge(n, k)
    requires n in s.tables && k in s.tables[n] && s.tables[n][k].entry.origin == LOCAL
    ensures var s' := Next(mesh, s, a); n in s'.tables && k in s'.tables[n] && s'.tables[n][k] == s.tables[n][k]
  {
  }

  /** SYNCED entries leave a node only towards a slave that has asked it. */
  lemma SyncedOnlyOnRequest(mesh: Mesh, acts: seq<Action>, m: Msg)
    requires MeshOk(mesh) && m in Run(mesh, Start(mesh), acts).net && m.sentAs == SYNCED
    ensures (m.to, m.from) in Run(mesh, Start(mesh), acts).requests
    ensures m.from in mesh && m.to in mesh && mesh[m.from].master && !mesh[m.to].master
  {
    Provenance(mesh, acts);
    assert MsgOk(mesh, Run(mesh, Start(mesh), acts), m);
    assert (m.to, m.from) in Run(mesh, Start(mesh), acts).requests;
  }

  // ---- what gets through ---------------------------------------------------------------

  /** What a client may store: at a slave only under the node's own address, which is filled in when it gives none. */
  lemma AcceptedIs(node: Node, d: Dataset)
    ensures ValidEther(d.source) && !node.master && d.source != node.first ==> Accepted(node, d) == None
    ensures ValidEther(d.source) && (node.master || d.source == node.first) ==> Accepted(node, d) == Some(d)
    ensures !ValidEther(d.source) ==> Accepted(node, d) == Some(d.(source := node.first))
  {
  }

  /** The messages of a push: one for each entry that may go. */
  lemma PushedIs(n: NodeId, t: map<Key, Copy>, mac: Mac, to: NodeId, maxLevel: DataSource, typeFilter: int, m: Msg)
    ensures m in Pushed(n, t, mac, to, maxLevel, typeFilter)
            <==> exists k :: k in t && m == Msg(n, mac, to, t[k].entry.data, t[k].entry.origin, t[k].hops)
                             && MayGo(t[k].entry.origin, maxLevel) && (typeFilter >= 0 ==> m.data.kind == typeFilter)
  {
  }

  ghost function Do(mesh: Mesh, s: State, a: Action): State {
    if Enabled(mesh, s, a) then Next(mesh, s, a) else s
  }

  lemma RunMore(mesh: Mesh, s: State, acts: seq<Action>, a: Action)
    ensures Run(mesh, s, acts + [a]) == Do(mesh, Run(mesh, s, acts), a)
  {
    assert (acts + [a])[..|acts|] == acts;
  }

  /** A LOCAL entry of a slave, once pushed and delivered, is in the master's table: as FIRST_HAND when the push came
      from the address of its source, else as SYNCED. */
  lemma LocalArrives(mesh: Mesh, s: State, n: NodeId, mac: Mac, to: NodeId, k: Key, now: int)
    requires Enabled(mesh, s, PushLocalData(n, mac, to)) && to in s.tables && mac !in mesh[to].macs
    requires k in s.tables[n] && s.tables[n][k].entry.origin == LOCAL && KeyOf(s.tables[n][k].entry.data) == k
    requires k in s.tables[to] ==> s.tables[to][k].entry.origin != LOCAL
    ensures var c := s.tables[n][k];
            var m := Msg(n, mac, to, c.entry.data, LOCAL, c.hops);
            var s' := Do(mesh, Do(mesh, s, PushLocalData(n, mac, to)), Deliver(m, now));
            && to in s'.tables && k in s'.tables[to]
            && s'.tables[to][k]
               == Copy(Entry(c.entry.data, if mac == c.entry.data.source then FIRST_HAND else SYNCED, now),
                       mac, c.hops + 1)
  {
  }

  /** A client hands `d` in at slave `a`, which pushes it to master `m`. */
  ghost function FirstLeg(mesh: Mesh, s: State, a: NodeId, m: NodeId, d: Dataset, mac: Mac, now: int): State {
    Do(mesh, Do(mesh, Do(mesh, s, ClientPut(a, d, now)), PushLocalData(a, mac, m)),
       Deliver(Msg(a, mac, m, d, LOCAL, 0), now))
  }

  /** Master `m` synchronises with master `m'`. */
  ghost function SecondLeg(mesh: Mesh, s: State, m: NodeId, m': NodeId, d: Dataset, mac: Mac, now: int): State {
    Do(mesh, Do(mesh, s, SyncData(m, mac, m')), Deliver(Msg(m, mac, m', d, FIRST_HAND, 1), now))
  }

  /** Slave `b` asks master `m`, which answers. */
  ghost function ThirdLeg(mesh: Mesh, s: State, m: NodeId, b: NodeId, d: Dataset, mac: Mac, now: int): State {
    Do(mesh, Do(mesh, Do(mesh, s, SendRequest(b, m)), AnswerRequest(m, mac, b, d.kind)),
       Deliver(Msg(m, mac, b, d, SYNCED, 2), now))
  }

  /** The whole way, from a client of slave `a` over the masters `m1` and `m2` to slave `b`, which asks for it. */
  ghost function Way(a: NodeId, m1: NodeId, m2: NodeId, b: NodeId, d: Dataset, mac: Mac, mac1: Mac, mac2: Mac, now: int)
    : seq<Action>
  {
    [ClientPut(a, d, now), PushLocalData(a, mac, m1), Deliver(Msg(a, mac, m1, d, LOCAL, 0), now)]
    + [SyncData(m1, mac1, m2), Deliver(Msg(m1, mac1, m2, d, FIRST_HAND, 1), now)]
    + [SendRequest(b, m2), AnswerRequest(m2, mac2, b, d.kind), Deliver(Msg(m2, mac2, b, d, SYNCED, 2), now)]
  }

  /** A dataset comes all the way if and only if its slave pushed it from the address that it names as the source: from
      another of its interfaces it is SYNCED at once, and the first master does not pass it on to others. */
  lemma SpreadsIff(mesh: Mesh, a: NodeId, m1: NodeId, m2: NodeId, b: NodeId, d: Dataset, mac: Mac, mac1: Mac, mac2: Mac,
                   now: int)
    requires MeshOk(mesh) && a in mesh && m1 in mesh && m2 in mesh && b in mesh && m1 != m2 && a != b
    requires !mesh[a].master && mesh[m1].master && mesh[m2].master && !mesh[b].master
    requires mac in mesh[a].macs && mac1 in mesh[m1].macs && mac2 in mesh[m2].macs && Accepted(mesh[a], d) == Some(d)
    ensures var s, k := Run(mesh, Start(mesh), Way(a, m1, m2, b, d, mac, mac1, mac2, now)), KeyOf(d);
            && s.tables.Keys == mesh.Keys && k in s.tables[m1] && (k in s.tables[m2] <==> mac == d.source)
            && (k in s.tables[b] <==> mac == d.source)
            && (k in s.tables[b] ==> s.tables[b][k].entry == Entry(d, SYNCED, now))
  {
    hide FirstLeg, SecondLeg, ThirdLeg, Run, Accepted, Way;
    var s1 := FirstLeg(mesh, Start(mesh), a, m1, d, mac, now);
    var s2 := SecondLeg(mesh, s1, m1, m2, d, mac1, now);
    WayIs(mesh, Start(mesh), a, m1, m2, b, d, mac, mac1, mac2, now);
    SourceIsFirst(mesh, a, d);
    FirstDone(mesh, a, m1, d, mac, now);
    SecondDone(mesh, s1, m1, m2, d, mac1, now);
    ThirdDone(mesh, s2, m2, b, d, mac2, now);
  }

  lemma WayIs(mesh: Mesh, s: State, a: NodeId, m1: NodeId, m2: NodeId, b: NodeId, d: Dataset, mac: Mac, mac1: Mac,
              mac2: Mac, now: int)
    ensures Run(mesh, s, Way(a, m1, m2, b, d, mac, mac1, mac2, now))
            == ThirdLeg(mesh, SecondLeg(mesh, FirstLeg(mesh, s, a, m1, d, mac, now), m1, m2, d, mac1, now),
                        m2, b, d, mac2, now)
  {
    hide Do;
    var x1, x2, x3 := Msg(a, mac, m1, d, LOCAL, 0), Msg(m1, mac1, m2, d, FIRST_HAND, 1), Msg(m2, mac2, b, d, SYNCED, 2);
    var first := [ClientPut(a, d, now), PushLocalData(a, mac, m1), Deliver(x1, now)];
    var second, third := [SyncData(m1, mac1, m2), Deliver(x2, now)],
                         [SendRequest(b, m2), AnswerRequest(m2, mac2, b, d.kind), Deliver(x3, now)];
    var s1 := Run(mesh, s, first);
    var s2 := Run(mesh, s1, second);
    RunConcat(mesh, s, first, second);
    RunConcat(mesh, s, first + second, third);
    RunThree(mesh, s, first);
    RunTwo(mesh, s1, second);
    RunThree(mesh, s2, third);
  }

  lemma {:induction false} RunConcat(mesh: Mesh, s: State, a: seq<Action>, b: seq<Action>)
    ensures Run(mesh, s, a + b) == Run(mesh, Run(mesh, s, a), b)
  {
    if b == [] {
      assert a + b == a;
    } else {
      var n := |b| - 1;
      assert a + b == a + b[..n] + [b[n]] && b == b[..n] + [b[n]];
      hide Do, Run;
      RunConcat(mesh, s, a, b[..n]);
      RunMore(mesh, s, a + b[..n], b[n]);
      RunMore(mesh, Run(mesh, s, a), b[..n], b[n]);
    }
  }

  lemma RunTwo(mesh: Mesh, s: State, w: seq<Action>)
    requires |w| == 2
    ensures Run(mesh, s, w) == Do(mesh, Do(mesh, s, w[0]), w[1])
  {
    hide Do;
    assert w[..0] == [] && w[..1] == w[..0] + [w[0]] && w == w[..1] + [w[1]];
    RunMore(mesh, s, w[..0], w[0]);
    RunMore(mesh, s, w[..1], w[1]);
  }

  lemma RunThree(mesh: Mesh, s: State, w: seq<Action>)
    requires |w| == 3
    ensures Run(mesh, s, w) == Do(mesh, Do(mesh, Do(mesh, s, w[0]), w[1]), w[2])
  {
    hide Do;
    RunTwo(mesh, s, w[..2]);
    assert w == w[..2] + [w[2]];
    RunMore(mesh, s, w[..2], w[2]);
  }

  lemma FirstDone(mesh: Mesh, a: NodeId, m1: NodeId, d: Dataset, mac: Mac, now: int)
    requires MeshOk(mesh) && a in mesh && m1 in mesh && !mesh[a].master && mesh[m1].master
    requires mac in mesh[a].macs && Accepted(mesh[a], d) == Some(d)
    ensures var s := FirstLeg(mesh, Start(mesh), a, m1, d, mac, now);
            && s.tables.Keys == mesh.Keys && s.requests == {}
            && (forall x :: x in mesh && x != a && x != m1 ==> s.tables[x] == map[]) && s.tables[m1].Keys == {KeyOf(d)}
            && s.tables[m1][KeyOf(d)] == Copy(Entry(d, if mac == d.source then FIRST_HAND else SYNCED, now), mac, 1)
            && (forall m :: m in s.net ==> m.from == a)
  {
    var s1 := Do(mesh, Start(mesh), ClientPut(a, d, now));
    assert s1.tables[a] == map[KeyOf(d) := Copy(Entry(d, LOCAL, now), mesh[a].first, 0)];
    var s2 := Do(mesh, s1, PushLocalData(a, mac, m1));
    PushedIs(a, s1.tables[a], mac, m1, LOCAL, NO_FILTER, Msg(a, mac, m1, d, LOCAL, 0));
    assert KeyOf(d) in s1.tables[a];
    assert Msg(a, mac, m1, d, LOCAL, 0) in s2.net;
  }

  lemma SecondDone(mesh: Mesh, s: State, m1: NodeId, m2: NodeId, d: Dataset, mac: Mac, now: int)
    requires MeshOk(mesh) && m1 in mesh && m2 in mesh && m1 != m2 && mesh[m1].master && mesh[m2].master
    requires mac in mesh[m1].macs && mac != d.source && s.tables.Keys == mesh.Keys
    requires forall m :: m in s.net ==> m.from != m1
    requires KeyOf(d) !in s.tables[m2] && s.tables[m1].Keys == {KeyOf(d)}
    requires var c := s.tables[m1][KeyOf(d)]; c.entry.data == d && c.entry.origin != LOCAL && c.hops == 1
    ensures var s' := SecondLeg(mesh, s, m1, m2, d, mac, now);
            && s'.requests == s.requests && (forall m :: m in s'.net ==> m.from == m1 || m in s.net)
            && s'.tables == if s.tables[m1][KeyOf(d)].entry.origin == FIRST_HAND
                            then s.tables[m2 := s.tables[m2][KeyOf(d) := Copy(Entry(d, SYNCED, now), mac, 2)]]
                            else s.tables
  {
    var x, s1 := Msg(m1, mac, m2, d, FIRST_HAND, 1), Do(mesh, s, SyncData(m1, mac, m2));
    PushedIs(m1, s.tables[m1], mac, m2, FIRST_HAND, NO_FILTER, x);
    assert mac !in mesh[m2].macs;
    if s.tables[m1][KeyOf(d)].entry.origin == FIRST_HAND {
      assert x in s1.net;
    }
  }

  lemma ThirdDone(mesh: Mesh, s: State, m2: NodeId, b: NodeId, d: Dataset, mac: Mac, now: int)
    requires MeshOk(mesh) && m2 in mesh && b in mesh && mesh[m2].master && !mesh[b].master
    requires mac in mesh[m2].macs && mac != d.source && s.tables.Keys == mesh.Keys
    requires forall m :: m in s.net ==> m.from != m2
    requires KeyOf(d) !in s.tables[b] && s.tables[m2].Keys <= {KeyOf(d)}
    requires KeyOf(d) in s.tables[m2] ==>
               var c := s.tables[m2][KeyOf(d)]; c.entry.data == d && c.entry.origin == SYNCED && c.hops == 2
    ensures ThirdLeg(mesh, s, m2, b, d, mac, now).tables
            == if KeyOf(d) in s.tables[m2]
                         then s.tables[b := s.tables[b][KeyOf(d) := Copy(Entry(d, SYNCED, now), mac, 3)]]
                         else s.tables
  {
    var x := Msg(m2, mac, b, d, SYNCED, 2);
    var s2 := Do(mesh, Do(mesh, s, SendRequest(b, m2)), AnswerRequest(m2, mac, b, d.kind));
    PushedIs(m2, s.tables[m2], mac, b, SYNCED, d.kind, x);
    assert mac !in mesh[b].macs;
    if KeyOf(d) in s.tables[m2] {
      assert x in s2.net;
    }
  }

  lemma SourceIsFirst(mesh: Mesh, a: NodeId, d: Dataset)
    requires a in mesh && !mesh[a].master && Accepted(mesh[a], d) == Some(d)
    ensures d.source == mesh[a].first
  {
  }
}
