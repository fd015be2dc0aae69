// The periodic purge of alfred's tables and the choice of the best server, as loops over
// hash tables from which the current element may be removed.
module AlfredServer {
  import opened Basics
  import opened AlfredPackets
  import opened AlfredReceiver
  import HashTables

  const NANO := 1_000_000_000
  const DATA_TIMEOUT := 600
  const SERVER_TIMEOUT := 60
  const REQUEST_TIMEOUT := 10

  datatype ServerEntry = ServerEntry(hwaddr: Mac, tq: Byte, lastSeen: int)

  /** Times are in nanoseconds; only whole seconds count. */
  predicate Expired(lastSeen: int, timeout: int, now: int): (r: bool)
    ensures r <==> now - lastSeen >= timeout * 1_000_000_000
  {
    (now - lastSeen) / NANO >= timeout
  }

  ghost function Live<K, D>(m: map<K, D>, expired: D -> bool): map<K, D> {
    map k | k in m && !expired(m[k]) :: m[k]
  }

  /** A complete sweep leaves exactly what it did not pick. */
  lemma LiveAfter<K, D>(all: seq<D>, decide: (nat, D) -> bool, expired: D -> bool, keyOf: D -> K, start: map<K, D>,
                        m: map<K, D>)
    requires HashTables.Enumerates(all, keyOf, start) && HashTables.SweptTo(all, |all|, decide, keyOf, start, m)
    requires forall n: nat, d :: d in all ==> decide(n, d) == expired(d)
    ensures m == Live(start, expired)
  {
    forall k | k in start
      ensures k in m <==> !expired(start[k])
    {
      var i :| 0 <= i < |all| && all[i] == start[k];
    }
  }

  /** A table after its expired entries were removed, whatever the order of its chains. */
  method PurgeTable<K(==, !new), D(==, !new)>(t: HashTables.HashTable<K, D>, expired: D -> bool)
    requires t.Valid()
    modifies t, t.table, t.repr
    ensures t.Valid() && t.repr <= old(t.repr) && t.contents == Live(old(t.contents), expired)
  {
    hide *;
    var decide := (n: nat, d: D) => expired(d);
    var visited := t.Sweep(decide);
    LiveAfter(visited, decide, expired, t.keyOf, old(t.contents), t.contents);
  }

  /** A transaction in the table, with the time its last packet came in. */
  datatype Transaction = Transaction(key: TxKey, head: Head, lastRx: int)

  /** purge_data, as far as datasets and transactions go: exactly the unexpired stay. */
  method PurgeData(data: HashTables.HashTable<Key, Entry>, txs: HashTables.HashTable<TxKey, Transaction>, now: int)
    requires data.Valid() && txs.Valid()
    modifies data, data.table, data.repr, txs, txs.table, txs.repr
    ensures data.Valid() && txs.Valid()
    ensures forall k :: k in data.contents <==>
              k in old(data.contents) && now - old(data.contents)[k].lastSeen < 600_000_000_000
    ensures forall k :: k in txs.contents <==>
              k in old(txs.contents) && now - old(txs.contents)[k].lastRx < 10_000_000_000
    ensures data.contents == Live(old(data.contents), (d: Entry) => Expired(d.lastSeen, DATA_TIMEOUT, now))
    ensures txs.contents == Live(old(txs.contents), (x: Transaction) => Expired(x.lastRx, REQUEST_TIMEOUT, now))
  {
    hide *;
    FreshStay(old(data.contents), old(txs.contents), now);
    PurgeTable(data, (d: Entry) => Expired(d.lastSeen, DATA_TIMEOUT, now));
    PurgeTable(txs, (x: Transaction) => Expired(x.lastRx, REQUEST_TIMEOUT, now));
  }

  lemma FreshStay(data: map<Key, Entry>, txs: map<TxKey, Transaction>, now: int)
    ensures forall k :: k in Live(data, (d: Entry) => Expired(d.lastSeen, DATA_TIMEOUT, now))
                        <==> k in data && now - data[k].lastSeen < 600_000_000_000
    ensures forall k :: k in Live(txs, (x: Transaction) => Expired(x.lastRx, REQUEST_TIMEOUT, now))
                        <==> k in txs && now - txs[k].lastRx < 10_000_000_000
  {
  }

  lemma NextInLine<T>(all: seq<T>, n: nat, x: T, rest: seq<T>)
    requires n <= |all| && all[n..] == [x] + rest
    ensures n < |all| && all[n] == x && all[n + 1..] == rest
  {
    assert all[n..][1..] == all[n + 1..];
  }

  type ServerHash = HashTables.HashTable<Mac, ServerEntry>

  ghost predicate ByAddress(t: ServerHash) {
    forall d :: t.keyOf(d) == d.hwaddr
  }

  lemma FreshServersStay(servers: map<Mac, ServerEntry>, now: int)
    ensures forall k :: k in Live(servers, (d: ServerEntry) => Expired(d.lastSeen, SERVER_TIMEOUT, now))
                        <==> k in servers && now - servers[k].lastSeen < 60_000_000_000
  {
  }

  /** The servers of one interface; `best` is the best server when it is one of them. */
  method PurgeServers(t: ServerHash, now: int, best: Option<Mac>) returns (left: Option<Mac>)
    requires t.Valid() && ByAddress(t) && (best.Some? ==> best.value in t.contents)
    modifies t, t.table, t.repr
    ensures t.Valid() && t.repr <= old(t.repr)
    ensures t.contents == Live(old(t.contents), (d: ServerEntry) => Expired(d.lastSeen, SERVER_TIMEOUT, now))
    ensures forall k :: k in t.contents <==> k in old(t.contents) && now - old(t.contents)[k].lastSeen < 60_000_000_000
    ensures left == if best.Some? && best.value in t.contents then best else None
  {
    hide *;
    FreshServersStay(old(t.contents), now);
    ghost var decide := (n: nat, d: ServerEntry) => Expired(d.lastSeen, SERVER_TIMEOUT, now);
    ghost var all := HashTables.Flatten(t.rows);
    assert HashTables.Enumerates(all, t.keyOf, t.contents)
           && HashTables.SweptTo(all, 0, decide, t.keyOf, t.contents, t.contents) by {
      t.SweepBegins(decide);
    }
    ghost var todo, n := all, 0;
    left := best;
    var it: HashTables.HashIt?<ServerEntry> := null;
    while true
      invariant t.Valid() && t.repr <= old(t.repr)
      invariant it != null ==> fresh(it) && t.Tracks(it)
      invariant todo == if it == null then HashTables.Flatten(t.rows) else t.Todo(it)
      invariant 0 <= n <= |all| && all[n..] == todo
      invariant HashTables.SweptTo(all, n, decide, t.keyOf, old(t.contents), t.contents)
      invariant left == if best.Some? && best.value in t.contents then best else None
      decreases |all| - n
    {
      it := t.Iterate(it);
      if it == null {
        break;
      }
      var server := it.bucket.data;
      NextInLine(all, n, server, t.Todo(it));
      HashTables.SweepStep(all, n, decide, t.keyOf, old(t.contents), t.contents);
      todo, n := t.Todo(it), n + 1;
      assert t.keyOf(server) == server.hwaddr by {
        KeyIs(t, server);
      }
      if Expired(server.lastSeen, SERVER_TIMEOUT, now) {
        if left == Some(server.hwaddr) {
          left := None;
        }
        var _ := t.RemoveBucket(it);
      }
    }
    LiveAfter(all, decide, (d: ServerEntry) => Expired(d.lastSeen, SERVER_TIMEOUT, now), t.keyOf, old(t.contents),
        t.contents);
  }

  lemma KeyIs(t: ServerHash, d: ServerEntry)
    requires ByAddress(t)
    ensures t.keyOf(d) == d.hwaddr
  {
  }

  /** The loop of set_best_server over one interface, with `bestTq` the best quality so far. */
  method BestOf(t: ServerHash, bestTq: int) returns (tq: int, best: Option<Mac>)
    requires t.Valid() && ByAddress(t)
    ensures IsBest(t.contents, bestTq, tq, best)
  {
    hide *;
    ghost var decide := (n: nat, d: ServerEntry) => false;
    ghost var all := HashTables.Flatten(t.rows);
    assert HashTables.Enumerates(all, t.keyOf, t.contents) by {
      t.SweepBegins(decide);
    }
    ghost var todo, n := all, 0;
    tq, best := bestTq, None;
    assert Leads(all, 0, bestTq, tq, best) by {
      LeadsNone(all, bestTq);
    }
    var it: HashTables.HashIt?<ServerEntry> := null;
    while true
      invariant t.Valid() && (it != null ==> fresh(it) && t.Tracks(it))
      invariant todo == if it == null then HashTables.Flatten(t.rows) else t.Todo(it)
      invariant 0 <= n <= |all| && all[n..] == todo && Leads(all, n, bestTq, tq, best)
      decreases |all| - n
    {
      it := t.Iterate(it);
      if it == null {
        break;
      }
      var server := it.bucket.data;
      NextInLine(all, n, server, t.Todo(it));
      LeadsStep(all, n, bestTq, tq, best);
      todo, n := t.Todo(it), n + 1;
      if server.tq > tq {
        tq, best := server.tq, Some(server.hwaddr);
      }
    }
    LeadsAll(all, t, bestTq, tq, best);
  }

  /** `best` is the leader of `m` if any entry beats `bestTq`; `tq` is the best quality then. */
  ghost predicate IsBest(m: map<Mac, ServerEntry>, bestTq: int, tq: int, best: Option<Mac>) {
    && tq >= bestTq && (forall k :: k in m ==> m[k].tq <= tq)
    && (best.Some? ==> best.value in m && m[best.value].tq == tq > bestTq)
    && (best.None? ==> tq == bestTq)
  }

  ghost predicate Leads(all: seq<ServerEntry>, n: nat, bestTq: int, tq: int, best: Option<Mac>)
    requires n <= |all|
  {
    && tq >= bestTq && (forall i :: 0 <= i < n ==> all[i].tq <= tq)
    && (best.Some? ==> tq > bestTq && exists i :: 0 <= i < n && all[i].hwaddr == best.value && all[i].tq == tq)
    && (best.None? ==> tq == bestTq)
  }

  lemma LeadsNone(all: seq<ServerEntry>, bestTq: int)
    ensures Leads(all, 0, bestTq, bestTq, None)
  {
  }

  lemma LeadsStep(all: seq<ServerEntry>, n: nat, bestTq: int, tq: int, best: Option<Mac>)
    requires n < |all| && Leads(all, n, bestTq, tq, best)
    ensures if all[n].tq > tq then Leads(all, n + 1, bestTq, all[n].tq, Some(all[n].hwaddr))
            else Leads(all, n + 1, bestTq, tq, best)
  {
  }

  lemma LeadsAll(all: seq<ServerEntry>, t: ServerHash, bestTq: int, tq: int, best: Option<Mac>)
    requires HashTables.Enumerates(all, t.keyOf, t.contents) && Leads(all, |all|, bestTq, tq, best) && ByAddress(t)
    ensures IsBest(t.contents, bestTq, tq, best)
  {
    forall k | k in t.contents
      ensures t.contents[k].tq <= tq
    {
      var i :| 0 <= i < |all| && all[i] == t.contents[k];
    }
  }

  /** The servers heard on each interface and the best of them: the number of its interface and its address. */
  class Servers {
    const interfaces: seq<ServerHash>
    var best: Option<(nat, Mac)>
    ghost var repr: set<object>

    /** Given the tables of the interfaces, each with objects of its own; no best server is known yet. */
    constructor (interfaces: seq<ServerHash>)
      requires forall i :: 0 <= i < |interfaces| ==> interfaces[i].Valid() && ByAddress(interfaces[i])
      requires forall i, j :: 0 <= i < j < |interfaces| ==>
                 interfaces[i] != interfaces[j] && interfaces[i].table != interfaces[j].table
                     && interfaces[i].repr !! interfaces[j].repr
      ensures Valid() && this.interfaces == interfaces && best == None
    {
      hide HashTables.HashTable.Valid, ByAddress, Footprint;
      this.interfaces, best := interfaces, None;
      repr := Footprint(interfaces);
    }

    /** The tables, their arrays and their elements. */
    static ghost function Footprint(ts: seq<ServerHash>): (r: set<object>)
      reads ts
      ensures forall t :: t in ts ==> t in r && t.table in r && t.repr <= r
      ensures forall o :: o in r ==> exists t :: t in ts && (o == t || o == t.table || o in t.repr)
    {
      if ts == [] then {} else
        var t := ts[|ts| - 1];
        var own: set<object> := {t, t.table} + t.repr;
        Footprint(ts[..|ts| - 1]) + own
    }

    ghost predicate Holds(t: ServerHash)
      reads this, repr
    {
      t in repr && t.table in repr && t.repr <= repr && t.Valid() && ByAddress(t)
    }

    ghost predicate Apart(i: nat, j: nat)
      requires i < |interfaces| && j < |interfaces| && interfaces[i] in repr && interfaces[j] in repr
      reads this, repr
    {
      interfaces[i] != interfaces[j] && interfaces[i].table != interfaces[j].table
          && interfaces[i].repr !! interfaces[j].repr
    }

    /** The best server is one that is there. */
    ghost predicate Valid()
      reads this, repr
    {
      && this !in repr && (forall i :: 0 <= i < |interfaces| ==> Holds(interfaces[i]))
      && (forall i, j :: 0 <= i < j < |interfaces| ==> Apart(i, j))
      && (best.Some? ==> best.value.0 < |interfaces| && best.value.1 in interfaces[best.value.0].contents)
    }

    method PurgeInterface(i: nat, now: int)
      requires Valid() && i < |interfaces|
      modifies this`best, interfaces[i], interfaces[i].table, interfaces[i].repr
      ensures Valid()
      ensures interfaces[i].contents
              == Live(old(interfaces[i].contents), (d: ServerEntry) => Expired(d.lastSeen, SERVER_TIMEOUT, now))
      ensures forall j :: 0 <= j < |interfaces| && j != i ==> interfaces[j].contents == old(interfaces[j].contents)
      ensures best == if old(best).Some? && old(best).value.1 in interfaces[old(best).value.0].contents then old(best)
                      else None
    {
      hide HashTables.HashTable.Valid, Live, Expired, ByAddress;
      var mine := if best.Some? && best.value.0 == i then Some(best.value.1) else None;
      assert Holds(interfaces[i]);
      var left := PurgeServers(interfaces[i], now, mine);
      if mine.Some? && left.None? {
        best := None;
      }
      forall j | 0 <= j < |interfaces| && j != i
        ensures Holds(interfaces[j]) && interfaces[j].contents == old(interfaces[j].contents)
      {
        assert old(Holds(interfaces[j]));
        assert if i < j then old(Apart(i, j)) else old(Apart(j, i));
      }
      assert Holds(interfaces[i]);
      forall a, b | 0 <= a < b < |interfaces|
        ensures Apart(a, b)
      {
        assert old(Apart(a, b)) && Holds(interfaces[a]) && Holds(interfaces[b]);
        assert interfaces[a].repr <= old(interfaces[a].repr) && interfaces[b].repr <= old(interfaces[b].repr);
      }
    }

    /** set_best_server */
    method SetBestServer()
      requires Valid()
      modifies this`best
      ensures Valid()
      ensures best.None? <==> forall i :: 0 <= i < |interfaces| ==> interfaces[i].contents == map[]
      ensures best.Some? ==> forall i, k :: 0 <= i < |interfaces| && k in interfaces[i].contents ==>
                interfaces[i].contents[k].tq <= interfaces[best.value.0].contents[best.value.1].tq
    {
      hide Valid, Holds, Apart, HashTables.HashTable.Valid, ByAddress, IsBest, Chosen;
      var bestTq := -1;
      var bestServer: Option<(nat, Mac)> := None;
      ChosenNone();
      for i := 0 to |interfaces|
        invariant Valid() && Chosen(i, bestTq, bestServer)
      {
        Usable(i);
        var tq, best := BestOf(interfaces[i], bestTq);
        ChosenStep(i, bestTq, bestServer, tq, best);
        bestTq := tq;
        if best.Some? {
          bestServer := Some((i, best.value));
        }
      }
      ChosenAll(bestTq, bestServer);
      PutBest(bestServer);
    }

    method PutBest(b: Option<(nat, Mac)>)
      requires Valid() && (b.Some? ==> b.value.0 < |interfaces| && b.value.1 in interfaces[b.value.0].contents)
      modifies this`best
      ensures Valid() && best == b
    {
      hide HashTables.HashTable.Valid, ByAddress;
      best := b;
      forall i | 0 <= i < |interfaces|
        ensures Holds(interfaces[i])
      {
        assert old(Holds(interfaces[i]));
      }
      forall i, j | 0 <= i < j < |interfaces|
        ensures Apart(i, j)
      {
        assert old(Apart(i, j));
      }
    }

    lemma Usable(i: nat)
      requires Valid() && i < |interfaces|
      ensures interfaces[i].Valid() && ByAddress(interfaces[i])
    {
      assert Holds(interfaces[i]);
    }

    lemma ChosenNone()
      ensures Chosen(0, -1, None)
    {
    }

    lemma ChosenStep(n: nat, tq: int, b: Option<(nat, Mac)>, tq': int, mine: Option<Mac>)
      requires n < |interfaces| && Chosen(n, tq, b) && IsBest(interfaces[n].contents, tq, tq', mine)
      ensures Chosen(n + 1, tq', if mine.Some? then Some((n, mine.value)) else b)
    {
    }

    lemma ChosenAll(tq: int, b: Option<(nat, Mac)>)
      requires Chosen(|interfaces|, tq, b)
      ensures b.Some? ==> b.value.0 < |interfaces| && b.value.1 in interfaces[b.value.0].contents
      ensures b.None? <==> forall i :: 0 <= i < |interfaces| ==> interfaces[i].contents == map[]
      ensures b.Some? ==> forall i, k :: 0 <= i < |interfaces| && k in interfaces[i].contents ==>
                interfaces[i].contents[k].tq <= interfaces[b.value.0].contents[b.value.1].tq
    {
    }

    ghost predicate Chosen(n: nat, tq: int, b: Option<(nat, Mac)>)
      requires n <= |interfaces|
      reads interfaces
    {
      && tq >= -1 && (forall i, k :: 0 <= i < n && k in interfaces[i].contents ==> interfaces[i].contents[k].tq <= tq)
      && (b.None? ==> tq == -1)
      && (b.Some? ==>
            b.value.0 < n && b.value.1 in interfaces[b.value.0].contents
            && interfaces[b.value.0].contents[b.value.1].tq == tq)
    }

    /** purge_data, as far as servers go: only the unexpired stay; a best server that stays is kept, else the best of
        those that are left is chosen, if there are any. */
    method Purge(now: int)
      requires Valid()
      modifies this`best, repr
      ensures Valid()
      ensures forall i :: 0 <= i < |interfaces| ==>
                interfaces[i].contents
                    == Live(old(interfaces[i].contents), (d: ServerEntry) => Expired(d.lastSeen, SERVER_TIMEOUT, now))
      ensures old(best).Some? && old(best).value.1 in interfaces[old(best).value.0].contents ==> best == old(best)
      ensures best.None? <==> forall i :: 0 <= i < |interfaces| ==> interfaces[i].contents == map[]
      ensures best.Some? && best != old(best)
              ==> forall i, k :: 0 <= i < |interfaces| && k in interfaces[i].contents ==>
                interfaces[i].contents[k].tq <= interfaces[best.value.0].contents[best.value.1].tq
    {
      hide Valid, Holds, Apart, Live, Expired, HashTables.HashTable.Valid, ByAddress;
      ghost var b := best;
      BestHeld();
      for n := 0 to |interfaces|
        invariant Valid() && repr == old(repr)
        invariant forall i :: 0 <= i < n ==>
                    interfaces[i].contents
                        == Live(old(interfaces[i].contents),
                                (d: ServerEntry) => Expired(d.lastSeen, SERVER_TIMEOUT, now))
        invariant forall i :: n <= i < |interfaces| ==> interfaces[i].contents == old(interfaces[i].contents)
        invariant best == if b.Some? && (b.value.0 < n ==> b.value.1 in interfaces[b.value.0].contents) then b else None
      {
        InRepr(n);
        PurgeInterface(n, now);
      }
      BestHeld();
      if best.None? {
        SetBestServer();
      }
    }

    lemma BestHeld()
      requires Valid()
      ensures this !in repr
      ensures best.Some? ==> best.value.0 < |interfaces| && best.value.1 in interfaces[best.value.0].contents
    {
    }

    lemma InRepr(i: nat)
      requires Valid() && i < |interfaces|
      ensures interfaces[i] in repr && interfaces[i].table in repr && interfaces[i].repr <= repr
    {
      assert Holds(interfaces[i]);
    }
  }
}
