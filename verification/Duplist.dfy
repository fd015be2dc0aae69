// The list of recent broadcasts: a ring that is searched from its newest entry on and
// left at the first entry that is too old.
module Duplist {
  import opened BatmanCommon

  const DUPLIST_SIZE := 16
  const DUPLIST_TIMEOUT := 500

  /** A broadcast: the checksum of its payload, its originator and the time it was accepted. */
  datatype Entry = Entry(crc: int, orig: Mac, time: int)

  predicate TooOld(e: Entry, now: int) {
    HasTimedOut(e.time, DUPLIST_TIMEOUT, now)
  }

  /** One of the last 16 accepted has the same payload from another host and is at most 500 milliseconds old.
      `log` holds the accepted broadcasts, newest first. */
  ghost predicate IsDuplicate(log: seq<Entry>, f: Entry) {
    exists i :: 0 <= i < 16 && i < |log| && f.time - log[i].time <= 500 && log[i].crc == f.crc
        && log[i].orig != f.orig
  }

  /** Newest first, and so never younger the further back. */
  ghost predicate Ordered(log: seq<Entry>) {
    forall i, j :: 0 <= i < j < |log| ==> log[j].time <= log[i].time
  }

  lemma OrderedCons(log: seq<Entry>, f: Entry)
    requires Ordered(log) && |log| > 0 && log[0].time <= f.time
    ensures Ordered([f] + log)
  {
    assert forall j :: 0 <= j < |log| ==> log[j].time <= log[0].time;
  }

  class BcastDuplist {
    const entries: array<Entry>
    var curr: nat
    ghost var log: seq<Entry>

    ghost predicate Valid()
      reads this, entries
    {
      && entries.Length == DUPLIST_SIZE && curr < DUPLIST_SIZE && |log| >= DUPLIST_SIZE && Ordered(log)
      && forall i :: 0 <= i < DUPLIST_SIZE ==> entries[(curr + i) % DUPLIST_SIZE] == log[i]
    }

    /** The unused entries carry a time that counts as too old from the next moment on. */
    constructor (blank: Mac, now: int)
      ensures Valid() && fresh(entries)
      ensures log == Blank(blank, now)
    {
      entries := new Entry[DUPLIST_SIZE](_ => Entry(0, blank, now - DUPLIST_TIMEOUT));
      curr := 0;
      log := Blank(blank, now);
    }

    /** One place further back in the ring. */
    lemma Turned(was: int, k: int)
      requires 0 <= was < DUPLIST_SIZE && 0 <= k < DUPLIST_SIZE
      ensures var now := (was + DUPLIST_SIZE - 1) % DUPLIST_SIZE;
              if k == 0 then (now + k) % DUPLIST_SIZE == now
              else now != (now + k) % DUPLIST_SIZE == (was + (k - 1)) % DUPLIST_SIZE
    {
    }

    /** Overwrites the oldest entry. */
    method Push(f: Entry)
      requires Valid() && log[0].time <= f.time
      modifies this`curr, this`log, entries
      ensures Valid() && log == [f] + old(log)
    {
      hide Ordered;
      assert Ordered([f] + log) by {
        OrderedCons(log, f);
      }
      ghost var was := curr;
      curr := (curr + DUPLIST_SIZE - 1) % DUPLIST_SIZE;
      entries[curr] := f;
      log := [f] + log;
      forall k | 0 <= k < DUPLIST_SIZE
        ensures entries[(curr + k) % DUPLIST_SIZE] == log[k]
      {
        Turned(was, k);
      }
    }

    /** batadv_bla_check_bcast_duplist. Leaving the search early loses nothing: the answer is
        that of a search of the whole ring, which holds the last accepted broadcasts. */
    method CheckBcastDuplist(crc: int, orig: Mac, now: int) returns (dup: bool)
      requires Valid() && log[0].time <= now
      modifies this`curr, this`log, entries
      ensures Valid()
      ensures dup <==> IsDuplicate(old(log), Entry(crc, orig, now))
      ensures log == Offer(old(log), Entry(crc, orig, now))
    {
      var f := Entry(crc, orig, now);
      var i := 0;
      while i < DUPLIST_SIZE
        invariant 0 <= i <= DUPLIST_SIZE
        invariant forall j :: 0 <= j < i ==> !TooOld(log[j], now) && (log[j].crc != crc || log[j].orig == orig)
      {
        var entry := entries[(curr + i) % DUPLIST_SIZE];
        assert entry == log[i];
        if TooOld(entry, now) {
          assert forall j :: i < j < |log| ==> log[j].time <= log[i].time;
          break;
        }
        if entry.crc == crc && entry.orig != orig {
          assert IsDuplicate(log, f);
          return true;
        }
        i := i + 1;
      }
      assert !IsDuplicate(log, f);
      hide Valid, IsDuplicate;
      Push(f);
      return false;
    }
  }

  ghost function Blank(blank: Mac, now: int): (log: seq<Entry>)
    ensures |log| == DUPLIST_SIZE && Ordered(log)
  {
    seq(DUPLIST_SIZE, _ => Entry(0, blank, now - DUPLIST_TIMEOUT))
  }

  /** From the next moment on the unused entries stop nothing; at the very moment they stop a payload with checksum
      0. */
  lemma BlankStopsIff(blank: Mac, now: int, f: Entry)
    ensures IsDuplicate(Blank(blank, now), f) <==> f.time <= now && f.crc == 0 && f.orig != blank
  {
    if f.time <= now && f.crc == 0 && f.orig != blank {
      assert Blank(blank, now)[0] == Entry(0, blank, now - DUPLIST_TIMEOUT);
    }
  }

  ghost function Offer(log: seq<Entry>, f: Entry): seq<Entry> {
    if IsDuplicate(log, f) then log else [f] + log
  }

  /** The accepted broadcasts after all of `fs` were offered in turn. */
  ghost function Accepted(log: seq<Entry>, fs: seq<Entry>): seq<Entry> {
    if fs == [] then log else Offer(Accepted(log, fs[..|fs| - 1]), fs[|fs| - 1])
  }

  /** Broadcast `log[i]` is let through beside the older `log[j]`, although both carry the same payload from
      different hosts within the timeout. */
  ghost predicate LetThrough(log: seq<Entry>, i: int, j: int)
    requires 0 <= i < j < |log|
  {
    log[i].crc == log[j].crc && log[i].orig != log[j].orig && log[i].time - log[j].time <= 500
  }

  /** In any run, a payload is let through from a second host within the timeout only when
      at least DUPLIST_SIZE other broadcasts were accepted in between. */
  lemma {:induction false} RunLetsNoneThrough(log: seq<Entry>, fs: seq<Entry>, i: int, j: int)
    requires forall i, j :: 0 <= i < j < |log| && LetThrough(log, i, j) ==> j - i > DUPLIST_SIZE
    requires 0 <= i < j < |Accepted(log, fs)| && LetThrough(Accepted(log, fs), i, j)
    ensures j - i > DUPLIST_SIZE
    decreases |fs|
  {
    if fs == [] {
    } else {
      var before, f := Accepted(log, fs[..|fs| - 1]), fs[|fs| - 1];
      if IsDuplicate(before, f) {
        RunLetsNoneThrough(log, fs[..|fs| - 1], i, j);
      } else if i > 0 {
        assert LetThrough(before, i - 1, j - 1);
        RunLetsNoneThrough(log, fs[..|fs| - 1], i - 1, j - 1);
      } else {
        assert before[j - 1] == Accepted(log, fs)[j];
      }
    }
  }
}
