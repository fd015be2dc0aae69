// The sliding windows over the sequence numbers of originator messages: bit operations as
// the code does them on 32-bit numbers, and what the windows mean on unbounded ones.
module OgmWindow {
  import opened Basics
  import opened BatmanCommon

  type Bits = b: seq<bool> | |b| == WINDOW witness seq(WINDOW, _ => false)

  function Clear(): Bits {
    seq(WINDOW, _ => false)
  }

  /** A difference of two 32-bit numbers, taken as a signed one. */
  function ToS32(x: int): S32 {
    (x + 0x8000_0000) % 0x1_0000_0000 - 0x8000_0000
  }

  // ---- one window, as a value -------------------------------------------------------

  function SetBit(b: Bits, n: int): Bits {
    if 0 <= n < WINDOW then b[n := true] else b
  }

  function Marked(b: Bits, mark: bool, n: int): Bits {
    if mark then SetBit(b, n) else b
  }

  function Shifted(b: Bits, n: nat): Bits {
    seq(WINDOW, i requires 0 <= i < WINDOW => i >= n && b[i - n])
  }

  predicate TestBit(b: Bits, last: U32, curr: U32) {
    var diff := ToS32(last - curr);
    0 <= diff < WINDOW && b[diff]
  }

  predicate Restarted(diff: S32) {
    diff <= -WINDOW || diff >= EXPECTED_SEQNO_RANGE
  }

  /** batadv_window_protected: whether the message is refused, whether a protection time starts, and when the last one
      did. */
  method WindowProtected(diff: S32, lastReset: int, now: int) returns (drop: bool, started: bool, reset: int)
    ensures drop <==> Restarted(diff) && !HasTimedOut(lastReset, RESET_PROTECTION_MS, now)
    ensures started <==> Restarted(diff) && HasTimedOut(lastReset, RESET_PROTECTION_MS, now)
    ensures reset == if started then now else lastReset
    ensures drop || started <==> diff <= -64 || diff >= 65_536
    ensures started ==> now - lastReset > 30_000
    ensures drop ==> now - lastReset <= 30_000
  {
    if diff <= -WINDOW || diff >= EXPECTED_SEQNO_RANGE {
      if !HasTimedOut(lastReset, RESET_PROTECTION_MS, now) {
        return true, false, lastReset;
      }
      return false, true, now;
    }
    return false, false, lastReset;
  }

  predicate Moves(diff: S32) {
    diff > 0 || diff <= -WINDOW
  }

  /** The window after a packet `diff` ahead of the last one. */
  function GetPacket(b: Bits, diff: S32, mark: bool): Bits {
    if -WINDOW < diff <= 0 then Marked(b, mark, -diff)
    else if 0 < diff < WINDOW then Marked(Shifted(b, diff), mark, 0)
    else Marked(Clear(), mark, 0)
  }

  function Weight(b: seq<bool>): (n: nat)
    ensures n <= |b|
  {
    if b == [] then 0 else Weight(b[..|b| - 1]) + if b[|b| - 1] then 1 else 0
  }

  // ---- the windows of an originator, as values -----------------------------------------

  /** A neighbour, by its address and the interface it is heard on. */
  datatype Key = Key(addr: Mac, iface: int)

  datatype Orig = Orig(last: U32, reset: int, windows: map<Key, Bits>)

  datatype DupStatus = NO_DUP | ORIG_DUP | NEIGH_DUP | PROTECTED

  datatype Result<T> = Result(state: T, status: DupStatus)

  /** batadv_iv_ogm_update_seqnos */
  ghost function UpdateSeqnos(o: Orig, from: Key, seqno: U32, now: int): Result<Orig> {
    var diff := ToS32(seqno - o.last);
    if o.windows != map[] && Restarted(diff) && !HasTimedOut(o.reset, RESET_PROTECTION_MS, now)
    then Result(o, PROTECTED)
    else
      Result(Orig(if o.windows != map[] && Moves(diff) then seqno else o.last,
                  if o.windows != map[] && Restarted(diff) then now else o.reset,
                  map k | k in o.windows :: GetPacket(o.windows[k], diff, k == from)),
             if from in o.windows && TestBit(o.windows[from], o.last, seqno) then NEIGH_DUP
             else if exists k :: k in o.windows && k != from && TestBit(o.windows[k], o.last, seqno) then ORIG_DUP
             else NO_DUP)
  }

  // ---- what they mean ----------------------------------------------------------------

  /** The same on unbounded numbers: the newest number, and for each neighbour all that were received from it since it
      joined and since the last restart. */
  datatype Heard = Heard(last: int, reset: int, got: map<Key, set<int>>)

  /** The unbounded number a 32-bit one stands for, nearest to the last. */
  function Absolute(last: int, seqno: U32): int {
    last + ToS32(seqno - last)
  }

  function Recorded(got: set<int>, own: bool, n: int): set<int> {
    if own then got + {n} else got
  }

  ghost function Hear(h: Heard, from: Key, seqno: U32, now: int): Result<Heard> {
    var n := Absolute(h.last, seqno);
    if h.got == map[] then Result(h, NO_DUP)
    else if Restarted(n - h.last) then
      if !HasTimedOut(h.reset, RESET_PROTECTION_MS, now) then Result(h, PROTECTED)
      else Result(Heard(n, now, map k | k in h.got :: Recorded({}, k == from, n)), NO_DUP)
    else
      Result(Heard(if n > h.last then n else h.last, h.reset, map k | k in h.got :: Recorded(h.got[k], k == from, n)),
             if from in h.got && n in h.got[from] then NEIGH_DUP
             else if exists k :: k in h.got && k != from && n in h.got[k] then ORIG_DUP
             else NO_DUP)
  }

  /** A message is refused exactly when neighbours are known, its number is out of range, and the protection time since
      the last restart is not over. A refused message changes nothing. */
  lemma RefusedIff(o: Orig, from: Key, seqno: U32, now: int)
    ensures var r, d := UpdateSeqnos(o, from, seqno, now), Absolute(o.last, seqno) - o.last;
            && (r.status == PROTECTED <==> o.windows != map[] && (d <= -64 || d >= 65_536) && now - o.reset <= 30_000)
            && (r.status == PROTECTED ==> r.state == o)
  {
    hide TestBit, GetPacket, ToS32;
  }

  /** Bit i stands for number `last` - i. */
  ghost predicate Means(b: Bits, last: int, got: set<int>) {
    (forall n :: n in got ==> n <= last) && forall i :: 0 <= i < WINDOW ==> (b[i] <==> last - i in got)
  }

  ghost predicate Represents(o: Orig, h: Heard) {
    && o.last == h.last % 0x1_0000_0000 && o.reset == h.reset && o.windows.Keys == h.got.Keys
    && forall k :: k in o.windows ==> Means(o.windows[k], h.last, h.got[k])
  }

  lemma DiffIs(last: int, seqno: U32)
    ensures ToS32(seqno - last % 0x1_0000_0000) == Absolute(last, seqno) - last
    ensures Absolute(last, seqno) % 0x1_0000_0000 == seqno
  {
    assert last == last / 0x1_0000_0000 * 0x1_0000_0000 + last % 0x1_0000_0000;
  }

  lemma TestMeans(b: Bits, last: int, got: set<int>, seqno: U32)
    requires Means(b, last, got)
    ensures TestBit(b, last % 0x1_0000_0000, seqno)
            <==> !Restarted(Absolute(last, seqno) - last) && Absolute(last, seqno) in got
  {
    DiffIs(last, seqno);
    var d := Absolute(last, seqno) - last;
    var back := ToS32(last % 0x1_0000_0000 - seqno);
    assert back == if d == -0x8000_0000 then d else -d by {
      BackDiff(seqno - last % 0x1_0000_0000);
    }
    if 0 <= back < WINDOW {
      assert b[back] <==> last - back in got;
    }
  }

  lemma BackDiff(x: int)
    ensures ToS32(-x) == if ToS32(x) == -0x8000_0000 then ToS32(x) else -ToS32(x)
  {
  }

  lemma GetMeans(b: Bits, last: int, got: set<int>, diff: S32, mark: bool)
    requires Means(b, last, got)
    ensures var n := last + diff;
            Means(GetPacket(b, diff, mark), if Moves(diff) then n else last,
                  Recorded(if Restarted(diff) then {} else got, mark, n))
  {
  }

  /** What an update does to the window of neighbour `k`, when neighbours are known and it is not refused. */
  ghost predicate WindowRefines(o: Orig, h: Heard, from: Key, seqno: U32, k: Key)
    requires k in o.windows && k in h.got
  {
    var n := Absolute(h.last, seqno);
    var d := n - h.last;
    && (TestBit(o.windows[k], o.last, seqno) <==> !Restarted(d) && n in h.got[k])
    && Means(GetPacket(o.windows[k], ToS32(seqno - o.last), k == from), if Moves(d) then n else h.last,
             Recorded(if Restarted(d) then {} else h.got[k], k == from, n))
  }

  lemma WindowsRefine(o: Orig, h: Heard, from: Key, seqno: U32, k: Key)
    requires Represents(o, h) && k in o.windows
    ensures WindowRefines(o, h, from, seqno, k)
  {
    hide TestBit, GetPacket, Means, ToS32;
    DiffIs(h.last, seqno);
    TestMeans(o.windows[k], h.last, h.got[k], seqno);
    GetMeans(o.windows[k], h.last, h.got[k], ToS32(seqno - o.last), k == from);
  }

  /** The 32-bit windows do the same as the unbounded record: same answer, and the new windows mean the new record. */
  lemma UpdateRefines(o: Orig, h: Heard, from: Key, seqno: U32, now: int)
    requires Represents(o, h)
    ensures var r, s := UpdateSeqnos(o, from, seqno, now), Hear(h, from, seqno, now);
            Represents(r.state, s.state) && r.status == s.status
  {
    hide TestBit, GetPacket, Means, ToS32, Absolute, Recorded;
    DiffIs(h.last, seqno);
    forall k | k in o.windows
      ensures WindowRefines(o, h, from, seqno, k)
    {
      WindowsRefine(o, h, from, seqno, k);
    }
    assert o.windows == map[] <==> h.got == map[] by {
      assert o.windows.Keys == h.got.Keys;
    }
  }

  // ---- runs ---------------------------------------------------------------------------

  /** A message from a neighbour, or a neighbour that joins with an empty window or is purged. */
  datatype Event = Ogm(from: Key, seqno: U32, now: int) | Join(k: Key) | Leave(k: Key)

  ghost function Step(o: Orig, e: Event): Result<Orig> {
    match e
    case Ogm(from, seqno, now) => UpdateSeqnos(o, from, seqno, now)
    case Join(k) => Result(if k in o.windows then o else o.(windows := o.windows[k := Clear()]), NO_DUP)
    case Leave(k) => Result(o.(windows := o.windows - {k}), NO_DUP)
  }

  ghost function StepHeard(h: Heard, e: Event): Result<Heard> {
    match e
    case Ogm(from, seqno, now) => Hear(h, from, seqno, now)
    case Join(k) => Result(if k in h.got then h else h.(got := h.got[k := {}]), NO_DUP)
    case Leave(k) => Result(h.(got := h.got - {k}), NO_DUP)
  }

  ghost function Run(o: Orig, es: seq<Event>): Orig {
    if es == [] then o else Step(Run(o, es[..|es| - 1]), es[|es| - 1]).state
  }

  ghost function RunHeard(h: Heard, es: seq<Event>): Heard {
    if es == [] then h else StepHeard(RunHeard(h, es[..|es| - 1]), es[|es| - 1]).state
  }

  lemma StepRefines(o: Orig, h: Heard, e: Event)
    requires Represents(o, h)
    ensures Represents(Step(o, e).state, StepHeard(h, e).state) && Step(o, e).status == StepHeard(h, e).status
  {
    if e.Ogm? {
      UpdateRefines(o, h, e.from, e.seqno, e.now);
    }
  }

  lemma {:induction false} RunRefines(o: Orig, h: Heard, es: seq<Event>)
    requires Represents(o, h)
    ensures Represents(Run(o, es), RunHeard(h, es))
  {
    if es == [] {
    } else {
      RunRefines(o, h, es[..|es| - 1]);
      StepRefines(Run(o, es[..|es| - 1]), RunHeard(h, es[..|es| - 1]), es[|es| - 1]);
    }
  }

  /** In state `h`, event `e` is a message from neighbour `k`, accepted, with number `n`. */
  ghost predicate Delivers(h: Heard, e: Event, k: Key, n: int) {
    e.Ogm? && e.from == k && k in h.got && StepHeard(h, e).status != PROTECTED && Absolute(h.last, e.seqno) == n
  }

  /** Event `e` makes the node forget what it received from `k`: the neighbour leaves, or the originator restarts. */
  ghost predicate Forgets(h: Heard, e: Event, k: Key) {
    match e
    case Ogm(_, seqno, _) =>
      h.got != map[] && Restarted(Absolute(h.last, seqno) - h.last) && StepHeard(h, e).status != PROTECTED
    case Join(_) => false
    case Leave(x) => x == k
  }

  /** In the run `es`, number `n` was received from `k` at some point and not forgotten after. */
  ghost predicate ReceivedSince(h: Heard, es: seq<Event>, k: Key, n: int) {
    exists i :: 0 <= i < |es| && Delivers(RunHeard(h, es[..i]), es[i], k, n)
                && forall j :: i < j < |es| ==> !Forgets(RunHeard(h, es[..j]), es[j], k)
  }

  lemma ReceivedStep(h: Heard, es: seq<Event>, e: Event, k: Key, n: int)
    ensures ReceivedSince(h, es + [e], k, n)
            <==> Delivers(RunHeard(h, es), e, k, n) || (ReceivedSince(h, es, k, n) && !Forgets(RunHeard(h, es), e, k))
  {
    hide Delivers, Forgets, RunHeard;
    var es' := es + [e];
    assert es'[..|es|] == es;
    if Delivers(RunHeard(h, es), e, k, n) {
      assert Delivers(RunHeard(h, es'[..|es|]), es'[|es|], k, n);
    } else if ReceivedSince(h, es', k, n) {
      ReceivedBefore(h, es, e, k, n);
    }
    if ReceivedSince(h, es, k, n) && !Forgets(RunHeard(h, es), e, k) {
      StillReceived(h, es, e, k, n);
    }
  }

  lemma StillReceived(h: Heard, es: seq<Event>, e: Event, k: Key, n: int)
    requires ReceivedSince(h, es, k, n) && !Forgets(RunHeard(h, es), e, k)
    ensures ReceivedSince(h, es + [e], k, n)
  {
    hide Delivers, Forgets, RunHeard;
    var es' := es + [e];
    var i :| 0 <= i < |es| && Delivers(RunHeard(h, es[..i]), es[i], k, n)
             && forall j :: i < j < |es| ==> !Forgets(RunHeard(h, es[..j]), es[j], k);
    assert es'[..i] == es[..i] && es'[i] == es[i];
    forall j | i < j < |es'|
      ensures !Forgets(RunHeard(h, es'[..j]), es'[j], k)
    {
      assert es'[..j] == es[..j];
    }
  }

  lemma ReceivedBefore(h: Heard, es: seq<Event>, e: Event, k: Key, n: int)
    requires ReceivedSince(h, es + [e], k, n) && !Delivers(RunHeard(h, es), e, k, n)
    ensures ReceivedSince(h, es, k, n) && !Forgets(RunHeard(h, es), e, k)
  {
    hide Delivers, Forgets, RunHeard;
    var es' := es + [e];
    assert es'[..|es|] == es;
    var i :| 0 <= i < |es'| && Delivers(RunHeard(h, es'[..i]), es'[i], k, n)
             && forall j :: i < j < |es'| ==> !Forgets(RunHeard(h, es'[..j]), es'[j], k);
    assert i < |es|;
    assert !Forgets(RunHeard(h, es'[..|es|]), es'[|es|], k);
    forall j | i <= j < |es|
      ensures es'[..j] == es[..j] && es'[j] == es[j]
    {
    }
  }

  ghost predicate OnRecord(h: Heard, k: Key, n: int) {
    k in h.got && n in h.got[k]
  }

  lemma HearKeeps(h: Heard, e: Event, k: Key, n: int)
    ensures OnRecord(StepHeard(h, e).state, k, n) <==> Delivers(h, e, k, n) || (OnRecord(h, k, n) && !Forgets(h, e, k))
  {
  }

  /** The record is the history: a number is on it if and only if it was received since the neighbour joined and since
      the last restart. */
  lemma {:induction false} RecordIsHistory(h: Heard, es: seq<Event>, k: Key, n: int)
    requires h.got == map[]
    ensures OnRecord(RunHeard(h, es), k, n) <==> ReceivedSince(h, es, k, n)
  {
    hide StepHeard, Delivers, Forgets, ReceivedSince;
    if es == [] {
      NothingReceived(h, k, n);
    } else {
      var before, e := es[..|es| - 1], es[|es| - 1];
      assert es == before + [e];
      RecordIsHistory(h, before, k, n);
      ReceivedStep(h, before, e, k, n);
      HearKeeps(RunHeard(h, before), e, k, n);
    }
  }

  lemma NothingReceived(h: Heard, k: Key, n: int)
    ensures !ReceivedSince(h, [], k, n)
  {
  }

  /** Bit i of a neighbour's window tells exactly whether number `last` - i was received from it since it joined and
      since the last restart. */
  lemma WindowIsHistory(o: Orig, h: Heard, es: seq<Event>, k: Key, i: nat)
    requires o.windows == map[] && h.got == map[] && o.last == h.last % 0x1_0000_0000 && o.reset == h.reset
    requires i < WINDOW && k in Run(o, es).windows
    ensures Run(o, es).windows[k][i] <==> ReceivedSince(h, es, k, RunHeard(h, es).last - i)
    ensures Run(o, es).last == RunHeard(h, es).last % 0x1_0000_0000
  {
    hide Run, RunHeard, ReceivedSince, Means;
    RunRefines(o, h, es);
    MeansBit(Run(o, es).windows[k], RunHeard(h, es).last, RunHeard(h, es).got[k], i);
    RecordIsHistory(h, es, k, RunHeard(h, es).last - i);
  }

  lemma MeansBit(b: Bits, last: int, got: set<int>, i: nat)
    requires Means(b, last, got) && i < WINDOW
    ensures b[i] <==> last - i in got
  {
  }

  /** The answer for a message that is not refused, in terms of the history: a duplicate of the neighbour, of another
      one, or new. */
  lemma StatusIsHistory(o: Orig, h: Heard, es: seq<Event>, from: Key, seqno: U32, now: int)
    requires o.windows == map[] && h.got == map[] && o.last == h.last % 0x1_0000_0000 && o.reset == h.reset
    ensures var s := RunHeard(h, es);
            var n := Absolute(s.last, seqno);
            var status := UpdateSeqnos(Run(o, es), from, seqno, now).status;
            && (status == NEIGH_DUP <==> !Restarted(n - s.last) && ReceivedSince(h, es, from, n))
            && (status == ORIG_DUP <==> !Restarted(n - s.last) && !ReceivedSince(h, es, from, n)
                                        && exists k :: k in s.got && ReceivedSince(h, es, k, n))
  {
    hide Run, RunHeard, ReceivedSince, Represents, UpdateSeqnos, Hear, Absolute, Restarted;
    var s := RunHeard(h, es);
    var n := Absolute(s.last, seqno);
    assert Represents(o, h) by {
      NoneRepresents(o, h);
    }
    RunRefines(o, h, es);
    UpdateRefines(Run(o, es), s, from, seqno, now);
    HearStatus(s, from, seqno, now);
    forall k
      ensures ReceivedSince(h, es, k, n) <==> k in s.got && n in s.got[k]
    {
      RecordIsHistory(h, es, k, n);
    }
  }

  lemma NoneRepresents(o: Orig, h: Heard)
    requires o.windows == map[] && h.got == map[] && o.last == h.last % 0x1_0000_0000 && o.reset == h.reset
    ensures Represents(o, h)
  {
  }

  lemma HearStatus(h: Heard, from: Key, seqno: U32, now: int)
    ensures var n := Absolute(h.last, seqno);
            var status := Hear(h, from, seqno, now).status;
            && (status == NEIGH_DUP <==> !Restarted(n - h.last) && from in h.got && n in h.got[from])
            && (status == ORIG_DUP <==> !Restarted(n - h.last) && !(from in h.got && n in h.got[from])
                                        && exists k :: k in h.got && n in h.got[k])
  {
  }

  // ---- own broadcasts -----------------------------------------------------------------

  /** The next own sequence number of an interface, and the window a neighbour has there. */
  datatype Own = Own(seqno: U32, bits: Bits)

  /** An own message is scheduled, or one comes back from the neighbour over the direct link. */
  datatype OwnEvent = Schedule | Echo(seqno: U32)

  function OwnStep(o: Own, e: OwnEvent): Own {
    match e
    case Schedule => Own((o.seqno + 1) % 0x1_0000_0000, GetPacket(o.bits, 1, false))
    case Echo(seqno) => Own(o.seqno, SetBit(o.bits, ToS32(o.seqno - 2 - seqno)))
  }

  ghost function OwnRun(o: Own, es: seq<OwnEvent>): Own {
    if es == [] then o else OwnStep(OwnRun(o, es[..|es| - 1]), es[|es| - 1])
  }

  /** The next own number, unbounded, after `es`. */
  ghost function Next(next: int, es: seq<OwnEvent>): int {
    if es == [] then next else Next(next, es[..|es| - 1]) + if es[|es| - 1].Schedule? then 1 else 0
  }

  /** When `next` is the next own number, an echo that carries `seqno` is accepted, and it is that of number `n`. */
  ghost predicate EchoOf(next: int, seqno: U32, n: int) {
    var pos := ToS32(next - 2 - seqno);
    0 <= pos < WINDOW && n == next - 2 - pos
  }

  /** In the run `es` an echo of number `n` was accepted. */
  ghost predicate Echoed(next: int, es: seq<OwnEvent>, n: int) {
    exists i :: 0 <= i < |es| && es[i].Echo? && EchoOf(Next(next, es[..i]), es[i].seqno, n)
  }

  lemma EchoedStep(next: int, es: seq<OwnEvent>, e: OwnEvent, n: int)
    ensures Echoed(next, es + [e], n) <==> Echoed(next, es, n) || (e.Echo? && EchoOf(Next(next, es), e.seqno, n))
  {
    hide EchoOf, Next;
    var es' := es + [e];
    assert es'[..|es|] == es;
    if Echoed(next, es', n) {
      var i :| 0 <= i < |es'| && es'[i].Echo? && EchoOf(Next(next, es'[..i]), es'[i].seqno, n);
      if i < |es| {
        assert es'[..i] == es[..i] && es'[i] == es[i];
      }
    }
    if Echoed(next, es, n) {
      var i :| 0 <= i < |es| && es[i].Echo? && EchoOf(Next(next, es[..i]), es[i].seqno, n);
      assert es'[..i] == es[..i] && es'[i] == es[i];
    }
    if e.Echo? && EchoOf(Next(next, es), e.seqno, n) {
      assert es'[|es|] == e;
    }
  }

  lemma {:induction false} EchoesAreOld(next: int, es: seq<OwnEvent>, n: int)
    requires Echoed(next, es, n)
    ensures n <= Next(next, es) - 2
  {
    if es == [] {
    } else {
      var before, e := es[..|es| - 1], es[|es| - 1];
      assert es == before + [e];
      EchoedStep(next, before, e, n);
      if Echoed(next, before, n) {
        EchoesAreOld(next, before, n);
      }
    }
  }

  /** Bit i of the own-broadcast window tells exactly whether an echo of own number `next` - 2 - i was accepted since
      the neighbour became known, in any interleaving of schedules and echoes. */
  lemma {:induction false} OwnWindowIsHistory(next: int, es: seq<OwnEvent>, i: nat)
    requires i < WINDOW
    ensures var o := OwnRun(Own(next % 0x1_0000_0000, Clear()), es);
            && (o.bits[i] <==> Echoed(next, es, Next(next, es) - 2 - i))
            && o.seqno == Next(next, es) % 0x1_0000_0000
  {
    hide OwnStep, EchoOf, Echoed;
    if es == [] {
      NoEchoes(next, Next(next, es) - 2 - i);
    } else {
      var before, e := es[..|es| - 1], es[|es| - 1];
      var o := OwnRun(Own(next % 0x1_0000_0000, Clear()), before);
      var now := Next(next, before);
      assert es == before + [e];
      EchoedStep(next, before, e, Next(next, es) - 2 - i);
      OwnWindowIsHistory(next, before, i);
      OwnStepBit(now, o, e, i);
      if e.Schedule? {
        if i > 0 {
          OwnWindowIsHistory(next, before, i - 1);
        } else if Echoed(next, before, now - 1) {
          EchoesAreOld(next, before, now - 1);
        }
      }
    }
  }

  lemma NoEchoes(next: int, n: int)
    ensures !Echoed(next, [], n)
  {
  }

  lemma OwnStepBit(now: int, o: Own, e: OwnEvent, i: nat)
    requires i < WINDOW && o.seqno == now % 0x1_0000_0000
    ensures e.Schedule? ==> (OwnStep(o, e).bits[i] <==> i > 0 && o.bits[i - 1])
    ensures e.Schedule? ==> OwnStep(o, e).seqno == (now + 1) % 0x1_0000_0000
    ensures e.Echo? ==> (OwnStep(o, e).bits[i] <==> o.bits[i] || EchoOf(now, e.seqno, now - 2 - i))
    ensures e.Echo? ==> OwnStep(o, e).seqno == o.seqno
  {
    hide ToS32;
    if e.Echo? {
      SameInBits(now - 2 - e.seqno, o.seqno - 2 - e.seqno, now / 0x1_0000_0000);
    } else {
      NextInBits(now);
    }
  }

  lemma SameInBits(x: int, y: int, k: int)
    requires x == y + k * 0x1_0000_0000
    ensures ToS32(x) == ToS32(y)
  {
  }

  lemma NextInBits(x: int)
    ensures (x % 0x1_0000_0000 + 1) % 0x1_0000_0000 == (x + 1) % 0x1_0000_0000
  {
  }

  /** An echo of own number `n` counts only after one more message was scheduled, and up to the window's length. */
  lemma EchoAcceptedIff(next: int, n: int)
    requires next - 0x1_0000_0000 <= n < next
    ensures EchoOf(next, n % 0x1_0000_0000, n) <==> next - 65 <= n <= next - 2
    ensures (exists x :: EchoOf(next, n % 0x1_0000_0000, x)) <==> next - 65 <= n <= next - 2
  {
    var behind := next - 2 - n;
    assert ToS32(next - 2 - n % 0x1_0000_0000) == if behind < 0x8000_0000 then behind else behind - 0x1_0000_0000 by {
      assert n == n / 0x1_0000_0000 * 0x1_0000_0000 + n % 0x1_0000_0000;
    }
    assert EchoOf(next, n % 0x1_0000_0000, n) <==> 0 <= behind < WINDOW;
  }

  /** The echo of message 7 is lost when it comes back before message 8 is scheduled. */
  lemma NewestEchoLost()
    ensures OwnStep(Own(8, Clear()), Echo(7)) == Own(8, Clear())
  {
    assert ToS32(8 - 2 - 7) == -1;
  }
}
