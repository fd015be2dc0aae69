// The originator table's windows as the code keeps them: bit arrays shifted in place, one
// for each neighbour in a list.
module OgmTables {
  import opened Basics
  import opened BatmanCommon
  import opened OgmWindow

  /** batadv_bitmap_shift_left, in place; a shift by nothing, backwards or by the whole window is none. */
  method BitmapShiftLeft(a: array<bool>, n: S32)
    requires a.Length == WINDOW
    modifies a
    ensures a[..] == if 0 < n < WINDOW then Shifted(old(a[..]), n) else old(a[..])
  {
    if n <= 0 || n >= WINDOW {
      return;
    }
    ghost var was: Bits := a[..];
    var i := WINDOW;
    while i > n
      invariant n <= i <= WINDOW
      invariant forall j :: 0 <= j < i ==> a[j] == was[j]
      invariant forall j :: i <= j < WINDOW ==> a[j] == Shifted(was, n)[j]
    {
      i := i - 1;
      a[i] := a[i - n];
    }
    while i > 0
      invariant 0 <= i <= n
      invariant forall j :: i <= j < WINDOW ==> a[j] == Shifted(was, n)[j]
    {
      i := i - 1;
      a[i] := false;
    }
  }

  /** bitmap_zero */
  method BitmapZero(a: array<bool>)
    requires a.Length == WINDOW
    modifies a
    ensures a[..] == Clear()
  {
    for i := 0 to WINDOW
      invariant forall j :: 0 <= j < i ==> !a[j]
    {
      a[i] := false;
    }
  }

  /** bitmap_weight */
  method BitmapWeight(a: array<bool>) returns (n: nat)
    requires a.Length == WINDOW
    ensures n == Weight(a[..])
  {
    n := 0;
    for i := 0 to WINDOW
      invariant n == Weight(a[..i])
    {
      assert a[..i + 1][..i] == a[..i];
      if a[i] {
        n := n + 1;
      }
    }
    assert a[..WINDOW] == a[..];
  }

  /** batadv_set_bit */
  method WriteBit(a: array<bool>, n: int)
    requires a.Length == WINDOW
    modifies a
    ensures a[..] == SetBit(old(a[..]), n)
  {
    if n < 0 || n >= WINDOW {
      return;
    }
    a[n] := true;
  }

  /** batadv_bit_get_packet */
  method BitGetPacket(a: array<bool>, diff: S32, mark: bool) returns (moved: bool)
    requires a.Length == WINDOW
    modifies a
    ensures a[..] == GetPacket(old(a[..]), diff, mark) && moved == Moves(diff)
  {
    if -WINDOW < diff <= 0 {
      if mark {
        WriteBit(a, -diff);
      }
      return false;
    }
    if 0 < diff < WINDOW {
      BitmapShiftLeft(a, diff);
    } else {
      BitmapZero(a);
    }
    if mark {
      WriteBit(a, 0);
    }
    return true;
  }

  class NeighNode {
    const key: Key
    const realBits: array<bool>
    var realPacketCount: nat

    constructor (key: Key)
      ensures this.key == key && Valid() && realBits[..] == Clear() && fresh(realBits)
    {
      this.key := key;
      realBits := new bool[WINDOW](_ => false);
      realPacketCount := 0;
      new;
      ClearWeight(WINDOW);
      assert realBits[..] == seq(WINDOW, _ => false);
    }

    /** The count is the number of marks. */
    ghost predicate Valid()
      reads this, realBits
    {
      realBits.Length == WINDOW && realPacketCount == Weight(realBits[..])
    }
  }

  lemma {:induction false} ClearWeight(n: nat)
    ensures Weight(seq(n, _ => false)) == 0
  {
    if n == 0 {
    } else {
      ClearWeight(n - 1);
      assert seq(n, _ => false)[..n - 1] == seq(n - 1, _ => false);
    }
  }

  // ---- the loop over the neighbours ---------------------------------------------------

  /** The windows `w` when the first `i` of `keys` were updated, from `w0`. */
  ghost predicate Swept(keys: seq<Key>, i: nat, w0: map<Key, Bits>, from: Key, diff: S32, w: map<Key, Bits>)
    requires i <= |keys|
  {
    && w.Keys == w0.Keys && (forall k :: k in keys ==> k in w0)
    && (forall j :: 0 <= j < i ==> w[keys[j]] == GetPacket(w0[keys[j]], diff, keys[j] == from))
    && (forall j :: i <= j < |keys| ==> w[keys[j]] == w0[keys[j]])
  }

  lemma SweptOne(keys: seq<Key>, i: nat, w0: map<Key, Bits>, from: Key, diff: S32, w: map<Key, Bits>)
    requires Distinct(keys) && i < |keys| && Swept(keys, i, w0, from, diff, w)
    ensures keys[i] in w && keys[i] in w0 && w[keys[i]] == w0[keys[i]]
    ensures Swept(keys, i + 1, w0, from, diff, w[keys[i] := GetPacket(w[keys[i]], diff, keys[i] == from)])
  {
    hide GetPacket;
  }

  ghost predicate MarkedAt(w: map<Key, Bits>, k: Key, last: U32, seqno: U32) {
    k in w && TestBit(w[k], last, seqno)
  }

  /** The answer when the first `i` of `keys` were asked. */
  ghost predicate Answers(keys: seq<Key>, i: nat, w0: map<Key, Bits>, last: U32, from: Key, seqno: U32, ret: DupStatus)
    requires i <= |keys|
  {
    && (ret == NEIGH_DUP <==> exists j :: 0 <= j < i && keys[j] == from && MarkedAt(w0, keys[j], last, seqno))
    && (ret == ORIG_DUP
        <==> ret != NEIGH_DUP && exists j :: 0 <= j < i && keys[j] != from && MarkedAt(w0, keys[j], last, seqno))
    && ret != PROTECTED
  }

  function Answer(ret: DupStatus, own: bool, dup: bool): DupStatus {
    if !dup then ret else if own then NEIGH_DUP else if ret != NEIGH_DUP then ORIG_DUP else ret
  }

  lemma AnswersOne(keys: seq<Key>, i: nat, w0: map<Key, Bits>, last: U32, from: Key, seqno: U32, ret: DupStatus)
    requires i < |keys| && keys[i] in w0 && Answers(keys, i, w0, last, from, seqno, ret)
    ensures Answers(keys, i + 1, w0, last, from, seqno, Answer(ret, keys[i] == from, TestBit(w0[keys[i]], last, seqno)))
  {
    hide TestBit;
    assert MarkedAt(w0, keys[i], last, seqno) == TestBit(w0[keys[i]], last, seqno);
  }

  lemma LoopStarts(keys: seq<Key>, o: Orig, from: Key, seqno: U32, diff: S32)
    requires forall k :: k in keys ==> k in o.windows
    ensures Swept(keys, 0, o.windows, from, diff, o.windows) && Answers(keys, 0, o.windows, o.last, from, seqno, NO_DUP)
  {
  }

  lemma LoopDone(keys: seq<Key>, o: Orig, from: Key, seqno: U32, now: int, w: map<Key, Bits>, ret: DupStatus)
    requires (forall k :: k in o.windows ==> k in keys)
    requires var diff := ToS32(seqno - o.last);
             && Swept(keys, |keys|, o.windows, from, diff, w)
                  && Answers(keys, |keys|, o.windows, o.last, from, seqno, ret)
             && (keys != [] && Restarted(diff) ==> HasTimedOut(o.reset, RESET_PROTECTION_MS, now))
    ensures var diff := ToS32(seqno - o.last);
            OgmWindow.UpdateSeqnos(o, from, seqno, now)
            == Result(Orig(if keys != [] && Moves(diff) then seqno else o.last,
                           if keys != [] && Restarted(diff) then now else o.reset, w), ret)
  {
    var diff := ToS32(seqno - o.last);
    hide TestBit, GetPacket, ToS32;
    assert keys != [] ==> keys[0] in keys;
    assert keys != [] <==> o.windows != map[];
    forall k | k in o.windows
      ensures w[k] == GetPacket(o.windows[k], diff, k == from)
    {
      var j :| 0 <= j < |keys| && keys[j] == k;
    }
    assert w == map k | k in o.windows :: GetPacket(o.windows[k], diff, k == from);
    AnswersAll(keys, o, from, seqno, ret);
  }

  lemma AnswersAll(keys: seq<Key>, o: Orig, from: Key, seqno: U32, ret: DupStatus)
    requires (forall k :: k in o.windows <==> k in keys) && Answers(keys, |keys|, o.windows, o.last, from, seqno, ret)
    ensures ret == if from in o.windows && TestBit(o.windows[from], o.last, seqno) then NEIGH_DUP
                   else if exists k :: k in o.windows && k != from && TestBit(o.windows[k], o.last, seqno) then ORIG_DUP
                   else NO_DUP
  {
    hide TestBit;
    assert forall k :: k in o.windows ==> exists j :: 0 <= j < |keys| && keys[j] == k;
    assert forall k :: k in o.windows ==> MarkedAt(o.windows, k, o.last, seqno) == TestBit(o.windows[k], o.last, seqno);
  }

  lemma RefusedIs(o: Orig, keys: seq<Key>, from: Key, seqno: U32, now: int)
    requires forall k :: k in keys ==> k in o.windows
    ensures keys != [] && Restarted(ToS32(seqno - o.last)) && !HasTimedOut(o.reset, RESET_PROTECTION_MS, now)
            ==> OgmWindow.UpdateSeqnos(o, from, seqno, now) == Result(o, PROTECTED)
  {
    assert keys != [] ==> keys[0] in keys;
  }

  ghost function KeysOf(ns: seq<NeighNode>): (keys: seq<Key>)
    ensures |keys| == |ns| && forall i :: 0 <= i < |ns| ==> keys[i] == ns[i].key
  {
    if ns == [] then [] else KeysOf(ns[..|ns| - 1]) + [ns[|ns| - 1].key]
  }

  /** An originator, with its counters for one outgoing interface. */
  class OrigNode {
    var lastRealSeqno: U32
    var seqnoReset: int
    var neighList: seq<NeighNode>
    ghost var windows: map<Key, Bits>
    ghost var repr: set<object>

    ghost predicate Holds(n: NeighNode)
      reads this, repr
    {
      n in repr && n.realBits in repr && n.Valid() && n.key in windows && windows[n.key] == n.realBits[..]
    }

    ghost predicate NoSharing()
      reads this
    {
      && (forall i, j :: 0 <= i < j < |neighList| ==> neighList[i] != neighList[j])
      && (forall m, n :: m in neighList && n in neighList && m != n ==> m.key != n.key && m.realBits != n.realBits)
    }

    ghost predicate Valid()
      reads this, repr
    {
      && this in repr && NoSharing() && (forall n :: n in neighList ==> Holds(n))
      && (forall k :: k in windows ==> exists n :: n in neighList && n.key == k)
    }

    ghost function View(): Orig
      reads this
    {
      Orig(lastRealSeqno, seqnoReset, windows)
    }

    constructor (last: U32, reset: int)
      ensures Valid() && fresh(repr) && View() == Orig(last, reset, map[])
    {
      lastRealSeqno, seqnoReset, neighList, windows := last, reset, [], map[];
      repr := {this};
    }

    /** batadv_neigh_node_new: a neighbour that is not on the list joins with an empty window. */
    method NeighNodeNew(k: Key)
      requires Valid()
      modifies this
      ensures Valid() && fresh(repr - old(repr)) && View() == Step(old(View()), Join(k)).state
    {
      hide Weight, Valid;
      for i := 0 to |neighList|
        invariant forall j :: 0 <= j < i ==> neighList[j].key != k
      {
        if neighList[i].key == k {
          Held(neighList[i]);
          return;
        }
      }
      NotListed(k);
      var n := new NeighNode(k);
      neighList, windows := [n] + neighList, windows[k := Clear()];
      repr := repr + {n, n.realBits};
      NeighAdded(n);
    }

    lemma NotListed(k: Key)
      requires Valid() && forall n :: n in neighList ==> n.key != k
      ensures k !in windows
    {
    }

    twostate lemma NeighAdded(new n: NeighNode)
      requires old(Valid()) && (forall m :: m in old(neighList) ==> m.key != n.key) && n.Valid()
               && n.realBits[..] == Clear()
      requires n !in old(repr) && n.realBits !in old(repr) && neighList == [n] + old(neighList)
      requires windows == old(windows)[n.key := Clear()] && repr == old(repr) + {n, n.realBits}
               && unchanged(old(repr) - {this})
      ensures Valid()
    {
      hide Weight;
      assert forall m :: m in old(neighList) ==> old(Holds(m));
      forall m | m in neighList
        ensures Holds(m)
      {
        assert m != n ==> old(Holds(m));
      }
    }

    method SetReset(reset: int)
      requires Valid()
      modifies this`seqnoReset
      ensures Valid() && seqnoReset == reset
    {
      seqnoReset := reset;
    }

    /** One turn of the loop of update_seqnos. */
    method UpdateNeigh(n: NeighNode, from: Key, seqno: U32, diff: S32) returns (dup: bool, moved: bool)
      requires Valid() && n in neighList
      modifies n, n.realBits, this`windows
      ensures Valid() && dup == TestBit(old(windows)[n.key], lastRealSeqno, seqno) && moved == Moves(diff)
      ensures n.key in old(windows)
              && windows == old(windows)[n.key := GetPacket(old(windows)[n.key], diff, n.key == from)]
    {
      hide GetPacket, Weight, Valid, TestBit, ToS32;
      Held(n);
      dup := ReadBit(n, seqno);
      moved := BitGetPacket(n.realBits, diff, n.key == from);
      n.realPacketCount := BitmapWeight(n.realBits);
      windows := windows[n.key := n.realBits[..]];
      NeighUpdated(n);
    }

    lemma Held(n: NeighNode)
      requires Valid() && n in neighList
      ensures this in repr && n in repr && n.realBits in repr && n.realBits.Length == WINDOW
      ensures n.key in windows && windows[n.key] == n.realBits[..]
    {
      assert Holds(n);
    }

    /** batadv_test_bit */
    method ReadBit(n: NeighNode, seqno: U32) returns (dup: bool)
      requires n.realBits.Length == WINDOW
      ensures dup == TestBit(n.realBits[..], lastRealSeqno, seqno)
    {
      var back := ToS32(lastRealSeqno - seqno);
      dup := 0 <= back < WINDOW && n.realBits[back];
    }

    /** One neighbour's window was replaced, in its array and in the record of all. */
    twostate lemma NeighUpdated(new n: NeighNode)
      requires old(allocated(n)) && old(Valid()) && n in neighList && n.Valid() && n.realBits.Length == WINDOW
      requires repr == old(repr) && neighList == old(neighList) && windows == old(windows)[n.key := n.realBits[..]]
      requires old(n.realBits in repr && n in repr) && unchanged(old(repr) - {this, n, n.realBits})
      ensures Valid()
    {
      hide Weight;
      assert forall m :: m in neighList && m != n ==> old(Holds(m)) && m.realBits != n.realBits && m.key != n.key;
      forall m | m in neighList
        ensures Holds(m)
      {
        assert m != n ==> old(Holds(m));
      }
    }

    lemma KeysOk()
      requires Valid()
      ensures this in repr && Distinct(KeysOf(neighList)) && forall k :: k in windows <==> k in KeysOf(neighList)
    {
      forall k | k in windows
        ensures k in KeysOf(neighList)
      {
        var n :| n in neighList && n.key == k;
        var i :| 0 <= i < |neighList| && neighList[i] == n;
        assert KeysOf(neighList)[i] == k;
      }
      forall i, j | 0 <= i < j < |KeysOf(neighList)|
        ensures KeysOf(neighList)[i] != KeysOf(neighList)[j]
      {
        assert neighList[i] in neighList && neighList[j] in neighList && neighList[i] != neighList[j];
      }
      forall k | k in KeysOf(neighList)
        ensures k in windows
      {
        var i :| 0 <= i < |neighList| && KeysOf(neighList)[i] == k;
        assert Holds(neighList[i]);
      }
    }

    lemma InRepr(n: NeighNode)
      requires Valid() && n in neighList
      ensures n in repr && n.realBits in repr && this in repr
    {
      assert Holds(n);
    }

    method UpdateNeighs(from: Key, seqno: U32, seqDiff: S32) returns (ret: DupStatus, needUpdate: bool)
      requires Valid()
      modifies repr
      ensures Valid() && repr == old(repr) && neighList == old(neighList)
      ensures lastRealSeqno == old(lastRealSeqno) && seqnoReset == old(seqnoReset)
      ensures Swept(KeysOf(neighList), |KeysOf(neighList)|, old(windows), from, seqDiff, windows)
      ensures Answers(KeysOf(neighList), |KeysOf(neighList)|, old(windows), old(lastRealSeqno), from, seqno, ret)
      ensures needUpdate <==> neighList != [] && Moves(seqDiff)
    {
      hide Swept, Answers, Answer, TestBit, GetPacket, Valid, Distinct;
      ret, needUpdate := NO_DUP, false;
      ghost var o := View();
      ghost var keys := KeysOf(neighList);
      KeysOk();
      LoopStarts(keys, o, from, seqno, seqDiff);
      for i := 0 to |neighList|
        invariant Valid() && repr == old(repr) && neighList == old(neighList)
        invariant lastRealSeqno == old(lastRealSeqno) && seqnoReset == old(seqnoReset)
        invariant Swept(keys, i, o.windows, from, seqDiff, windows)
                  && Answers(keys, i, o.windows, o.last, from, seqno, ret)
        invariant needUpdate <==> i > 0 && Moves(seqDiff)
      {
        var n := neighList[i];
        assert n in repr && n.realBits in repr && this in repr by {
          InRepr(n);
        }
        ghost var w := windows;
        assert n.key in o.windows by {
          SweptOne(keys, i, o.windows, from, seqDiff, w);
        }
        ghost var b := o.windows[n.key];
        assert keys[i] == n.key && n.key in w && w[n.key] == b by {
          SweptOne(keys, i, o.windows, from, seqDiff, w);
        }
        assert Swept(keys, i + 1, o.windows, from, seqDiff, w[n.key := GetPacket(b, seqDiff, n.key == from)]) by {
          SweptOne(keys, i, o.windows, from, seqDiff, w);
        }
        assert Answers(keys, i + 1, o.windows, o.last, from, seqno,
                       Answer(ret, n.key == from, TestBit(b, o.last, seqno))) by {
          AnswersOne(keys, i, o.windows, o.last, from, seqno, ret);
        }
        var dup, moved := UpdateNeigh(n, from, seqno, seqDiff);
        ret := Answer(ret, n.key == from, dup);
        needUpdate := needUpdate || moved;
      }
    }

    method SetLast(seqno: U32)
      requires Valid()
      modifies this`lastRealSeqno
      ensures Valid() && lastRealSeqno == seqno
    {
      lastRealSeqno := seqno;
    }

    /** batadv_iv_ogm_update_seqnos; the answer does not depend on the order of the list. */
    method UpdateSeqnos(from: Key, seqno: U32, now: int) returns (ret: DupStatus)
      requires Valid()
      modifies repr
      ensures Valid() && repr == old(repr) && neighList == old(neighList)
      ensures var r := OgmWindow.UpdateSeqnos(old(View()), from, seqno, now); View() == r.state && ret == r.status
    {
      hide OgmWindow.UpdateSeqnos, TestBit, GetPacket, ToS32, Swept, Answers, Valid, Restarted, Moves, HasTimedOut;
      ghost var o, keys := View(), KeysOf(neighList);
      KeysOk();
      var seqDiff := ToS32(seqno - lastRealSeqno);
      RefusedIs(o, keys, from, seqno, now);
      if neighList != [] {
        var drop, _, reset := WindowProtected(seqDiff, seqnoReset, now);
        if drop {
          return PROTECTED;
        }
        SetReset(reset);
      }
      var needUpdate;
      ret, needUpdate := UpdateNeighs(from, seqno, seqDiff);
      LoopDone(keys, o, from, seqno, now, windows, ret);
      if needUpdate {
        SetLast(seqno);
      }
    }
  }

  // ---- own broadcasts ----------------------------------------------------------------

  /** The own-broadcast window of an originator on one interface, and its sum. */
  class BcastOwn {
    const word: array<bool>
    var sum: nat

    constructor ()
      ensures Valid() && Bits() == Clear() && fresh(word)
    {
      word := new bool[WINDOW](_ => false);
      sum := 0;
      new;
      ClearWeight(WINDOW);
      assert word[..] == seq(WINDOW, _ => false);
    }

    /** The sum is the number of marks, and so never more than the window's size. */
    ghost predicate Valid()
      reads this, word
      ensures Valid() ==> sum <= WINDOW
    {
      word.Length == WINDOW && sum == Weight(word[..])
    }

    ghost function Bits(): OgmWindow.Bits
      requires Valid()
      reads this, word
    {
      word[..]
    }

    method Slide()
      requires Valid()
      modifies this, word
      ensures Valid() && Bits() == GetPacket(old(Bits()), 1, false)
    {
      var moved := BitGetPacket(word, 1, false);
      sum := BitmapWeight(word);
    }
  }

  class HardIface {
    var ogmSeqno: U32
    const origs: seq<BcastOwn>

    /** An interface with the next number to take and `n` originators, of which no echo has come back yet. */
    constructor (seqno: U32, n: nat)
      ensures Valid() && fresh(origs) && ogmSeqno == seqno && |origs| == n
      ensures forall i :: 0 <= i < n ==> fresh(origs[i].word) && origs[i].Bits() == Clear()
    {
      var list: seq<BcastOwn> := [];
      for i := 0 to n
        invariant |list| == i && fresh(list)
        invariant forall j :: 0 <= j < i ==> fresh(list[j].word) && list[j].Valid() && list[j].Bits() == Clear()
        invariant forall j, k :: 0 <= j < k < i ==> list[j] != list[k] && list[j].word != list[k].word
      {
        var o := new BcastOwn();
        list := list + [o];
      }
      ogmSeqno, origs := seqno, list;
    }

    ghost predicate Valid()
      reads origs, set o | o in origs :: o.word
    {
      && (forall i, j :: 0 <= i < j < |origs| ==> origs[i] != origs[j] && origs[i].word != origs[j].word)
      && (forall o :: o in origs ==> o.Valid())
    }

    method SlideOne(i: nat)
      requires Valid() && i < |origs|
      modifies origs[i], origs[i].word
      ensures Valid() && origs[i].Bits() == GetPacket(old(origs[i].Bits()), 1, false)
      ensures forall j :: 0 <= j < |origs| && j != i ==> origs[j].Bits() == old(origs[j].Bits())
    {
      hide GetPacket;
      origs[i].Slide();
    }

    /** batadv_iv_ogm_schedule: takes the next number and slides the window of every originator. */
    method Schedule()
      requires Valid()
      modifies this, origs, set o | o in origs :: o.word
      ensures Valid()
      ensures forall i :: 0 <= i < |origs| ==>
                Own(ogmSeqno, origs[i].Bits()) == OwnStep(old(Own(ogmSeqno, origs[i].Bits())), OwnEvent.Schedule)
    {
      hide GetPacket, BcastOwn.Valid, BcastOwn.Bits;
      ogmSeqno := (ogmSeqno + 1) % 0x1_0000_0000;
      for i := 0 to |origs|
        invariant Valid()
        invariant forall j :: 0 <= j < i ==> origs[j].Bits() == GetPacket(old(origs[j].Bits()), 1, false)
        invariant forall j :: i <= j < |origs| ==> origs[j].Bits() == old(origs[j].Bits())
        invariant ogmSeqno == (old(ogmSeqno) + 1) % 0x1_0000_0000
      {
        SlideOne(i);
      }
    }

    /** The echo of an own message from the neighbour `o`, in batadv_iv_ogm_process. */
    method Echo(o: BcastOwn, seqno: U32)
      requires o in origs && Valid()
      modifies o, o.word
      ensures Valid() && Own(ogmSeqno, o.Bits()) == OwnStep(old(Own(ogmSeqno, o.Bits())), OwnEvent.Echo(seqno))
      ensures forall p :: p in origs && p != o ==> p.Bits() == old(p.Bits())
    {
      hide ToS32, Weight;
      WriteBit(o.word, ToS32(ogmSeqno - 2 - seqno));
      o.sum := BitmapWeight(o.word);
    }
  }
}
