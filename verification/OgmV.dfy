// B.A.T.M.A.N. V: which messages of an originator are accepted and sent on over an
// interface, and that flooding them ends.
module OgmV {
  import opened Basics
  import opened BatmanCommon
  import opened OgmWindow

  const OGM_MAX_AGE := WINDOW

  /** What a node keeps of an originator for one outgoing interface. */
  datatype IfInfo = IfInfo(lastReal: U32, lastForwarded: U32, reset: int)

  /** batadv_orig_ifinfo_new */
  function Fresh(now: int): IfInfo {
    IfInfo(0, 0, now - 1 - RESET_PROTECTION_MS)
  }

  /** A message that arrives: whether neighbours of the originator are known, whether it comes from the neighbour
      that is the router once routes are updated (any route decision), and its time to live. */
  datatype Msg = Msg(seqno: U32, hasNeighs: bool, viaRouter: bool, ttl: int, now: int)

  /** `age` as metric_update returns it: negative for a message to drop, 1 for a new one. */
  datatype Metric = Metric(info: IfInfo, age: int, started: bool)

  /** batadv_v_ogm_metric_update */
  function MetricUpdate(s: IfInfo, m: Msg): Metric {
    var diff := ToS32(m.seqno - s.lastReal);
    var restart := m.hasNeighs && Restarted(diff);
    if restart && !HasTimedOut(s.reset, RESET_PROTECTION_MS, m.now) then Metric(s, -1, false)
    else if diff < 0 && !restart then Metric(s, -1, false)
    else
      var s' := s.(lastReal := m.seqno, reset := if restart then m.now else s.reset);
      Metric(s', if diff > 0 || restart then 1 else 0, restart)
  }

  datatype Forward = Forward(info: IfInfo, sent: bool)

  /** batadv_v_ogm_route_update for an interface that is not the default one; the mark is set before the time to live is
      looked at. */
  function RouteUpdate(s: IfInfo, m: Msg): Forward {
    if s.lastForwarded == m.seqno || !m.viaRouter then Forward(s, false)
    else Forward(s.(lastForwarded := m.seqno), m.ttl > 1)
  }

  /** batadv_v_ogm_process_per_outif */
  function Process(s: IfInfo, m: Msg): Forward {
    var u := MetricUpdate(s, m);
    if u.age < 0 then Forward(s, false) else RouteUpdate(u.info, m)
  }

  // ---- as the code does it -----------------------------------------------------------

  class OrigIfinfo {
    var lastRealSeqno: U32
    var lastSeqnoForwarded: U32
    var seqnoReset: int

    /** A new record: both numbers are 0, and the next message out of range may start a protection time. */
    constructor (now: int)
      ensures View() == Fresh(now)
    {
      lastRealSeqno, lastSeqnoForwarded, seqnoReset := 0, 0, now - 1 - RESET_PROTECTION_MS;
    }

    function View(): IfInfo
      reads this
    {
      IfInfo(lastRealSeqno, lastSeqnoForwarded, seqnoReset)
    }

    method UpdateMetric(m: Msg) returns (ret: int)
      modifies this
      ensures var u := MetricUpdate(old(View()), m); View() == u.info && ret == u.age
    {
      var diff := ToS32(m.seqno - lastRealSeqno);
      var started := false;
      if m.hasNeighs {
        var drop, reset;
        drop, started, reset := WindowProtected(diff, seqnoReset, m.now);
        if drop {
          return -1;
        }
        seqnoReset := reset;
      }
      if diff < 0 && !started {
        return -1;
      }
      lastRealSeqno := m.seqno;
      return if diff > 0 || started then 1 else 0;
    }

    method UpdateRoute(m: Msg) returns (sent: bool)
      modifies this
      ensures var f := RouteUpdate(old(View()), m); View() == f.info && sent == f.sent
    {
      if lastSeqnoForwarded == m.seqno {
        return false;
      }
      if !m.viaRouter {
        return false;
      }
      lastSeqnoForwarded := m.seqno;
      return m.ttl > 1;
    }

    method ProcessPerOutif(m: Msg) returns (sent: bool)
      modifies this
      ensures var f := Process(old(View()), m); View() == f.info && sent == f.sent
    {
      var age := UpdateMetric(m);
      if age < 0 {
        return false;
      }
      sent := UpdateRoute(m);
    }
  }

  // ---- runs --------------------------------------------------------------------------

  /** The interface's record with the unbounded number its last sequence number stands for. */
  datatype Track = Track(info: IfInfo, last: int)

  ghost predicate Tracks(t: Track) {
    t.info.lastReal == t.last % 0x1_0000_0000
  }

  /** The unbounded number of a message that arrives. */
  function Number(t: Track, m: Msg): int {
    Absolute(t.last, m.seqno)
  }

  function Step(t: Track, m: Msg): Track {
    Track(Process(t.info, m).info, if MetricUpdate(t.info, m).age < 0 then t.last else Number(t, m))
  }

  /** The records of all (node, outgoing interface) pairs for one originator. */
  type Port = int
  type Net = map<Port, Track>

  /** A message arrives at a node and is considered for one of its interfaces. */
  datatype Event = Event(port: Port, m: Msg)

  ghost predicate IsRun(net: Net, es: seq<Event>) {
    (forall p :: p in net ==> Tracks(net[p])) && forall e :: e in es ==> e.port in net
  }

  ghost function Run(net: Net, es: seq<Event>): (r: Net)
    requires IsRun(net, es)
    ensures r.Keys == net.Keys
  {
    if es == [] then net
    else
      var before, e := Run(net, es[..|es| - 1]), es[|es| - 1];
      before[e.port := Step(before[e.port], e.m)]
  }

  /** The record that event i meets. */
  ghost function At(net: Net, es: seq<Event>, i: nat): Track
    requires IsRun(net, es) && i < |es|
  {
    Run(net, es[..i])[es[i].port]
  }

  /** At event i the message is sent on. */
  ghost predicate SentAt(net: Net, es: seq<Event>, i: nat)
    requires IsRun(net, es) && i < |es|
  {
    Process(At(net, es, i).info, es[i].m).sent
  }

  ghost function NumberAt(net: Net, es: seq<Event>, i: nat): int
    requires IsRun(net, es) && i < |es|
  {
    Number(At(net, es, i), es[i].m)
  }

  /** At event i a protection time starts: the originator is taken to have restarted. */
  ghost predicate StartsAt(net: Net, es: seq<Event>, i: nat)
    requires IsRun(net, es) && i < |es|
  {
    MetricUpdate(At(net, es, i).info, es[i].m).started
  }

  /** A message is accepted when its number is in range and not behind the last one, or out of range when no protection
      time runs; as long as no neighbours are known any number that is not behind will do. */
  ghost predicate Acceptable(t: Track, m: Msg) {
    var ahead := Number(t, m) - t.last;
    if m.hasNeighs && (ahead <= -64 || ahead >= 65_536) then m.now - t.info.reset > 30_000 else ahead >= 0
  }

  /** What one message does to a record: it is sent on exactly when it is acceptable, comes from the router, has time to
      live left and is not the one that was sent on last. */
  lemma SentIff(t: Track, m: Msg)
    requires Tracks(t)
    ensures var f, ok := Process(t.info, m), Acceptable(t, m);
            && (f.sent <==> ok && m.viaRouter && m.ttl > 1 && m.seqno != t.info.lastForwarded)
            && f.info.lastReal == (if ok then m.seqno else t.info.lastReal)
            && f.info.lastForwarded == (if ok && m.viaRouter then m.seqno else t.info.lastForwarded)
            && f.info.reset == if ok && m.hasNeighs && !(-64 < Number(t, m) - t.last < 65_536) then m.now
                               else t.info.reset
  {
    DiffIs(t.last, m.seqno);
    hide ToS32;
  }

  /** A message counts as new when it is ahead of the last one or restarts the originator, and as known when it has the
      last number again. */
  lemma AgeIs(t: Track, m: Msg)
    requires Tracks(t)
    ensures var age, ahead := MetricUpdate(t.info, m).age, Number(t, m) - t.last;
            && (age < 0 <==> !Acceptable(t, m)) && (age == 0 <==> ahead == 0)
            && (age == 1 <==> Acceptable(t, m) && ahead != 0)
  {
    DiffIs(t.last, m.seqno);
    hide ToS32;
  }

  lemma StepTracks(t: Track, m: Msg)
    requires Tracks(t)
    ensures Tracks(Step(t, m)) && Number(t, m) % 0x1_0000_0000 == m.seqno
    ensures !MetricUpdate(t.info, m).started ==> Step(t, m).last >= t.last
    ensures MetricUpdate(t.info, m).age >= 0 ==> Step(t, m).last == Number(t, m)
  {
    DiffIs(t.last, m.seqno);
  }

  lemma {:induction false} RunTracks(net: Net, es: seq<Event>)
    requires IsRun(net, es)
    ensures forall p :: p in net ==> Tracks(Run(net, es)[p])
  {
    if es == [] {
    } else {
      var before, e := Run(net, es[..|es| - 1]), es[|es| - 1];
      RunTracks(net, es[..|es| - 1]);
      StepTracks(before[e.port], e.m);
    }
  }

  /** A number f no less than n was the last to be sent on, and none before it is accepted any more. */
  ghost predicate Passed(t: Track, n: int, f: int) {
    Tracks(t) && n <= f <= t.last && t.info.lastForwarded == f % 0x1_0000_0000
  }

  lemma PassedStep(t: Track, m: Msg, n: int, f: int) returns (f': int)
    requires Passed(t, n, f) && !MetricUpdate(t.info, m).started
    ensures Passed(Step(t, m), n, f') && (Process(t.info, m).sent ==> Number(t, m) > n)
  {
    StepTracks(t, m);
    var u := MetricUpdate(t.info, m);
    f' := if u.age >= 0 && m.seqno != u.info.lastForwarded && m.viaRouter then Number(t, m) else f;
  }

  lemma PassedFirst(t: Track, m: Msg)
    requires Tracks(t) && Process(t.info, m).sent
    ensures Passed(Step(t, m), Number(t, m), Number(t, m))
  {
    StepTracks(t, m);
  }

  lemma {:induction false} PassedRun(net: Net, es: seq<Event>, i: nat, j: nat) returns (f: int)
    requires IsRun(net, es) && i < j <= |es| && SentAt(net, es, i)
    requires forall k :: i < k < j && es[k].port == es[i].port ==> !StartsAt(net, es, k)
    ensures Passed(Run(net, es[..j])[es[i].port], NumberAt(net, es, i), f)
  {
    hide Process, MetricUpdate, Step, Passed, Number, Tracks;
    var k := j - 1;
    assert es[..j][..k] == es[..k] && es[..j][k] == es[k];
    if k == i {
      RunTracks(net, es[..k]);
      PassedFirst(At(net, es, k), es[k].m);
      f := NumberAt(net, es, i);
    } else {
      f := PassedRun(net, es, i, k);
      if es[k].port == es[i].port {
        assert !StartsAt(net, es, k);
        f := PassedStep(At(net, es, k), es[k].m, NumberAt(net, es, i), f);
      }
    }
  }

  /** Between two protection starts what a node sends on over an interface has ever larger numbers; so no message is
      sent on twice, whatever neighbours it comes from and however routes change. */
  lemma ForwardedOnce(net: Net, es: seq<Event>, i: nat, j: nat)
    requires IsRun(net, es) && i < j < |es| && es[i].port == es[j].port && SentAt(net, es, i) && SentAt(net, es, j)
    requires forall k :: i < k <= j && es[k].port == es[i].port ==> !StartsAt(net, es, k)
    ensures NumberAt(net, es, i) < NumberAt(net, es, j)
  {
    var f := PassedRun(net, es, i, j);
    assert !StartsAt(net, es, j);
    f := PassedStep(At(net, es, j), es[j].m, NumberAt(net, es, i), f);
  }

  /** All events of the run at which message number n is sent on. */
  ghost function Transmissions(net: Net, es: seq<Event>, n: int): set<nat>
    requires IsRun(net, es)
  {
    set i: nat | i < |es| && SentAt(net, es, i) && NumberAt(net, es, i) == n
  }

  /** The number that was sent on last came with an earlier message for the same port, or was there from the start. */
  lemma {:induction false} ForwardedBefore(net: Net, es: seq<Event>, p: Port)
    requires IsRun(net, es) && p in net
    ensures var x := Run(net, es)[p].info.lastForwarded;
            x == net[p].info.lastForwarded || exists j :: 0 <= j < |es| && es[j].port == p && es[j].m.seqno == x
  {
    hide Process, Step;
    if es == [] {
    } else {
      var init, e := es[..|es| - 1], es[|es| - 1];
      ForwardedBefore(net, init, p);
      if e.port == p {
        StepForwards(Run(net, init)[p], e.m);
        assert es[|es| - 1].m.seqno == e.m.seqno;
      }
      assert forall j :: 0 <= j < |init| ==> init[j] == es[j];
    }
  }

  lemma StepForwards(t: Track, m: Msg)
    ensures Step(t, m).info.lastForwarded in {t.info.lastForwarded, m.seqno}
  {
  }

  /** Flooding goes on: the first arrival of a number at a port is sent on if and only if it is acceptable, comes from
      the router and has time to live left. Only a number the record already carries at the start is not. */
  lemma FirstArrivalIff(net: Net, es: seq<Event>, i: nat)
    requires IsRun(net, es) && i < |es| && es[i].m.seqno != net[es[i].port].info.lastForwarded
    requires forall j :: 0 <= j < i && es[j].port == es[i].port ==> es[j].m.seqno != es[i].m.seqno
    ensures i in Transmissions(net, es, NumberAt(net, es, i))
            <==> Acceptable(At(net, es, i), es[i].m) && es[i].m.viaRouter && es[i].m.ttl > 1
  {
    hide Process, Acceptable;
    RunTracks(net, es[..i]);
    ForwardedBefore(net, es[..i], es[i].port);
    SentIff(At(net, es, i), es[i].m);
  }

  /** On a new record the first message out of range starts a protection time at once, if neighbours are known. */
  lemma FreshStartsIff(now: int, m: Msg)
    requires m.now >= now
    ensures MetricUpdate(Fresh(now), m).started
            <==> m.hasNeighs && (ToS32(m.seqno) <= -64 || ToS32(m.seqno) >= 65_536)
  {
    hide ToS32;
  }

  /** A new record takes number 0 for sent on, so a message with that number is not. */
  lemma ZeroNotSent(now: int, m: Msg)
    requires m.seqno == 0
    ensures !Process(Fresh(now), m).sent
  {
  }

  lemma {:induction false} OneEach(es: seq<Event>, s: set<nat>, ports: set<Port>)
    requires forall i :: i in s ==> i < |es| && es[i].port in ports
    requires forall i, j :: i in s && j in s && i != j ==> es[i].port != es[j].port
    ensures |s| <= |ports|
    decreases |s|
  {
    if s == {} {
    } else {
      var i :| i in s;
      OneEach(es, s - {i}, ports - {es[i].port});
    }
  }

  /** The protection starts on a record that has sent message n before. */
  ghost function LaterStarts(net: Net, es: seq<Event>, n: int): set<nat>
    requires IsRun(net, es)
  {
    set k: nat | k < |es| && StartsAt(net, es, k)
                 && exists i: nat :: i < k && i in Transmissions(net, es, n) && es[i].port == es[k].port
  }

  /** `k` is the last protection start up to event i on the record of event i. */
  ghost predicate LastStart(net: Net, es: seq<Event>, i: nat, k: nat)
    requires IsRun(net, es) && i < |es|
  {
    && k <= i && es[k].port == es[i].port && StartsAt(net, es, k)
    && forall l :: k < l <= i && es[l].port == es[i].port ==> !StartsAt(net, es, l)
  }

  lemma {:induction false} FindStart(net: Net, es: seq<Event>, p: Port, i: nat, m: nat) returns (k: nat)
    requires IsRun(net, es) && i < m < |es| && exists l :: i < l <= m && es[l].port == p && StartsAt(net, es, l)
    ensures i < k <= m && es[k].port == p && StartsAt(net, es, k)
    ensures forall l :: k < l <= m && es[l].port == p ==> !StartsAt(net, es, l)
  {
    hide StartsAt;
    if es[m].port == p && StartsAt(net, es, m) {
      k := m;
    } else {
      k := FindStart(net, es, p, i, m - 1);
    }
  }

  /** A repeated transmission was made possible by a protection start after the one before. */
  lemma RepeatHasStart(net: Net, es: seq<Event>, n: int, i: nat, j: nat) returns (k: nat)
    requires IsRun(net, es) && i in Transmissions(net, es, n) && j in Transmissions(net, es, n) && i < j
             && es[i].port == es[j].port
    ensures i < k && LastStart(net, es, j, k) && k in LaterStarts(net, es, n)
  {
    hide StartsAt, SentAt, NumberAt;
    if forall l :: i < l <= j && es[l].port == es[i].port ==> !StartsAt(net, es, l) {
      ForwardedOnce(net, es, i, j);
    }
    k := FindStart(net, es, es[j].port, i, j);
  }

  /** The transmissions of message n that are not the first ones of their port. */
  ghost function Repeats(net: Net, es: seq<Event>, n: int): set<nat>
    requires IsRun(net, es)
  {
    set j | j in Transmissions(net, es, n)
            && exists i :: i in Transmissions(net, es, n) && i < j && es[i].port == es[j].port
  }

  lemma RepeatStart(net: Net, es: seq<Event>, n: int, j: nat) returns (k: nat)
    requires IsRun(net, es) && j in Repeats(net, es, n)
    ensures j < |es| && LastStart(net, es, j, k) && k in LaterStarts(net, es, n)
  {
    hide StartsAt, SentAt, NumberAt, LastStart, LaterStarts;
    var i :| i in Transmissions(net, es, n) && i < j && es[i].port == es[j].port;
    k := RepeatHasStart(net, es, n, i, j);
  }

  /** Each repeat has a start of its own. */
  lemma {:induction false} RepeatsBound(net: Net, es: seq<Event>, n: int, s: set<nat>, starts: set<nat>)
    requires IsRun(net, es) && s <= Transmissions(net, es, n) && s <= Repeats(net, es, n)
    requires forall j, k :: j in s && j < |es| && LastStart(net, es, j, k) && k in LaterStarts(net, es, n)
               ==> k in starts
    ensures |s| <= |starts|
    decreases |s|
  {
    hide IsRun, LastStart, LaterStarts, Repeats, Transmissions;
    if s == {} {
    } else {
      var j :| j in s;
      var k := RepeatStart(net, es, n, j);
      forall j', k' | j' in s - {j} && j' < |es| && LastStart(net, es, j', k') && k' in LaterStarts(net, es, n)
        ensures k' in starts - {k}
      {
        StartsDiffer(net, es, n, j, j', k, k');
      }
      RepeatsBound(net, es, n, s - {j}, starts - {k});
    }
  }

  lemma StartsDiffer(net: Net, es: seq<Event>, n: int, j: nat, j': nat, k: nat, k': nat)
    requires IsRun(net, es) && j in Transmissions(net, es, n) && j' in Transmissions(net, es, n) && j != j'
    requires LastStart(net, es, j, k) && LastStart(net, es, j', k')
    ensures k != k'
  {
    hide StartsAt, SentAt, NumberAt;
    if es[j].port == es[j'].port {
      if j < j' {
        var _ := RepeatHasStart(net, es, n, j, j');
      } else {
        var _ := RepeatHasStart(net, es, n, j', j);
      }
    }
  }

  /** Flooding ends: over any network, with any loss, repetition and order, message n is sent on at most once by each
      node over each interface, and once more only for a protection time that starts there afterwards. */
  lemma FloodEnds(net: Net, es: seq<Event>, n: int)
    requires IsRun(net, es)
    ensures |Transmissions(net, es, n)| <= |net| + |LaterStarts(net, es, n)|
  {
    hide IsRun, LastStart, LaterStarts, Repeats, Transmissions, StartsAt, SentAt, NumberAt;
    var all, repeats := Transmissions(net, es, n), Repeats(net, es, n);
    FirstsBound(net, es, n);
    RepeatsBound(net, es, n, repeats, LaterStarts(net, es, n));
    PartSize(all, repeats);
  }

  lemma FirstsBound(net: Net, es: seq<Event>, n: int)
    requires IsRun(net, es)
    ensures Repeats(net, es, n) <= Transmissions(net, es, n)
            && |Transmissions(net, es, n) - Repeats(net, es, n)| <= |net|
  {
    hide SentAt, NumberAt;
    OneEach(es, Transmissions(net, es, n) - Repeats(net, es, n), net.Keys);
  }

  /** Two protection starts on one record lie further apart than the protection time. */
  lemma StartsApart(net: Net, es: seq<Event>, i: nat, k: nat)
    requires IsRun(net, es) && i < k < |es| && es[i].port == es[k].port && StartsAt(net, es, i) && StartsAt(net, es, k)
    ensures es[k].m.now > es[i].m.now + 30_000
  {
    ResetSince(net, es, i, k);
  }

  lemma {:induction false} ResetSince(net: Net, es: seq<Event>, i: nat, k: nat)
    requires IsRun(net, es) && i < k <= |es| && StartsAt(net, es, i)
    ensures Run(net, es[..k])[es[i].port].info.reset >= es[i].m.now
  {
    hide Step, MetricUpdate;
    var l := k - 1;
    var before, p := Run(net, es[..l]), es[i].port;
    assert es[..k][..l] == es[..l] && es[..k][l] == es[l];
    if l == i {
      StartResets(before[p], es[i].m);
    } else {
      ResetSince(net, es, i, l);
      ResetRises(before[p], es[l].m);
    }
  }

  lemma StartResets(t: Track, m: Msg)
    ensures MetricUpdate(t.info, m).started ==> Step(t, m).info.reset == m.now
  {
  }

  lemma ResetRises(t: Track, m: Msg)
    ensures Step(t, m).info.reset >= t.info.reset
  {
  }

  /** A flood that is over within the protection time, as floods are, costs at most two transmissions per node and
      interface. */
  lemma FloodEndsInTime(net: Net, es: seq<Event>, n: int, start: int)
    requires IsRun(net, es) && forall e :: e in es ==> start <= e.m.now <= start + 30_000
    ensures |Transmissions(net, es, n)| <= 2 * |net|
  {
    hide StartsAt, SentAt, NumberAt;
    FloodEnds(net, es, n);
    var starts := LaterStarts(net, es, n);
    forall i, k | i in starts && k in starts && i != k
      ensures es[i].port != es[k].port
    {
      if es[i].port == es[k].port {
        assert es[i] in es && es[k] in es;
        StartsApart(net, es, if i < k then i else k, if i < k then k else i);
      }
    }
    OneEach(es, starts, net.Keys);
  }

  // ---- the throughput sent on ------------------------------------------------------------

  /** batadv_v_forward_penalty for an interface that is not the default one, in 32 bits. */
  function ForwardPenalty(throughput: U32, sameHalfDuplex: bool, penalty: nat): (r: U32)
    requires penalty <= TQ_MAX
    ensures r <= throughput
    ensures throughput > 10 && sameHalfDuplex ==> 2 * r <= throughput < 2 * r + 2
  {
    if throughput > 10 && sameHalfDuplex then throughput / 2
    else
      PenaltyBound(throughput, penalty);
      (throughput * (TQ_MAX - penalty)) % 0x1_0000_0000 / TQ_MAX
  }

  lemma PenaltyBound(throughput: U32, penalty: nat)
    requires penalty <= TQ_MAX
    ensures throughput * (TQ_MAX - penalty) >= 0
    ensures 0 <= (throughput * (TQ_MAX - penalty)) % 0x1_0000_0000 / TQ_MAX <= throughput
  {
    var x := throughput * (TQ_MAX - penalty);
    assert 0 <= x <= throughput * TQ_MAX;
    assert x % 0x1_0000_0000 <= x;
  }

  /** The penalty is the announced share of the throughput exactly as long as the product fits 32 bits. */
  lemma PenaltyExactIff(throughput: U32, sameHalfDuplex: bool, penalty: nat)
    requires penalty <= TQ_MAX && (throughput <= 10 || !sameHalfDuplex)
    ensures ForwardPenalty(throughput, sameHalfDuplex, penalty) == throughput * (TQ_MAX - penalty) / TQ_MAX
            <==> throughput * (TQ_MAX - penalty) < 0x1_0000_0000
  {
    PenaltyBound(throughput, penalty);
    WrapDiv(throughput * (TQ_MAX - penalty));
  }

  /** A throughput of 2 Tbit/s falls to a tenth at a hop penalty of 15. */
  lemma PenaltyWraps()
    ensures 20_000_000 * (TQ_MAX - 15) / TQ_MAX == 18_823_529 && ForwardPenalty(20_000_000, false, 15) == 1_980_520
  {
  }

  lemma WrapDiv(x: int)
    requires x >= 0
    ensures x % 0x1_0000_0000 / TQ_MAX == x / TQ_MAX <==> x < 0x1_0000_0000
  {
    if x >= 0x1_0000_0000 {
      assert x % 0x1_0000_0000 <= x - 0x1_0000_0000;
    }
  }
}
