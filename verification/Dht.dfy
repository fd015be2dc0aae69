// The choice of the nodes that keep an address mapping: the closest on a ring, found by
// repeated passes over the originator table.
module Dht {
  import opened Basics

  const DAT_ADDR_MAX := 0xffff
  const CANDIDATES_NUM := 3

  type Addr = x: int | 0 <= x <= DAT_ADDR_MAX

  /** An originator, known by its address; `datAddr` is its place on the ring. */
  datatype OrigNode = OrigNode(orig: int, datAddr: Addr, hasDat: bool)

  datatype Candidate = NotFound | Orig(node: OrigNode)

  /** How close a node is to the key: largest for a node at the key itself, in 16 bits. */
  function Closeness(n: OrigNode, key: Addr): Addr {
    (DAT_ADDR_MAX - n.datAddr + key) % (DAT_ADDR_MAX + 1)
  }

  /** The ring distance from the key up to the node, with wrap-around, turned round. */
  lemma ClosenessIs(n: OrigNode, key: Addr)
    ensures Closeness(n, key) == DAT_ADDR_MAX - (n.datAddr - key) % (DAT_ADDR_MAX + 1)
  {
  }

  // ---- what a choice is --------------------------------------------------------------

  /** Each originator is in the table once, whatever the order. */
  ghost predicate IsTable(table: seq<OrigNode>) {
    forall i, j :: 0 <= i < j < |table| ==> table[i].orig != table[j].orig
  }

  ghost predicate Capable(table: seq<OrigNode>, n: OrigNode) {
    n in table && n.hasDat
  }

  /** `sel` are the closest capable nodes, each once, the closest first. */
  ghost predicate Closest(table: seq<OrigNode>, key: Addr, sel: seq<OrigNode>) {
    && (forall n :: n in sel ==> Capable(table, n))
    && (forall i, j :: 0 <= i < j < |sel| ==> sel[i] != sel[j] && Closeness(sel[j], key) <= Closeness(sel[i], key))
    && (forall n, m :: Capable(table, n) && n !in sel && m in sel ==> Closeness(n, key) <= Closeness(m, key))
  }

  /** All are chosen. */
  ghost predicate Exhausted(table: seq<OrigNode>, sel: seq<OrigNode>) {
    forall n :: Capable(table, n) ==> n in sel
  }

  /** The candidates `res` when `n` rounds were played: the chosen nodes, and only when there are no more, nothing. */
  ghost predicate Played(table: seq<OrigNode>, key: Addr, sel: seq<OrigNode>, res: seq<Candidate>) {
    && Closest(table, key, sel) && |sel| <= |res|
    && (forall i :: 0 <= i < |res| ==> res[i] == if i < |sel| then Orig(sel[i]) else NotFound)
    && (|sel| < |res| ==> Exhausted(table, sel))
  }

  ghost predicate AtMost(table: seq<OrigNode>, key: Addr, sel: seq<OrigNode>, bound: Addr) {
    && (forall n :: Capable(table, n) && n !in sel ==> Closeness(n, key) <= bound)
    && (forall m :: m in sel ==> bound <= Closeness(m, key))
  }

  // ---- one round ---------------------------------------------------------------------

  /** batadv_is_orig_node_eligible. Its last test, meant to prefer the lower address on a tie, compares for equality. */
  method IsOrigNodeEligible(res: array<Candidate>, select: nat, tmpMax: Addr, max: Addr, lastMax: Addr,
                            candidate: OrigNode, maxOrigNode: Option<OrigNode>) returns (ret: bool)
    requires select <= res.Length
    ensures ret <==> candidate.hasDat && Orig(candidate) !in res[..select] && max <= tmpMax <= lastMax
                     && !(tmpMax == max && maxOrigNode.Some? && candidate.orig == maxOrigNode.value.orig)
  {
    if !candidate.hasDat {
      return false;
    }
    var j := 0;
    while j < select
      invariant 0 <= j <= select && Orig(candidate) !in res[..j]
    {
      if res[j] == Orig(candidate) {
        break;
      }
      j := j + 1;
    }
    if j < select || tmpMax > lastMax || tmpMax < max {
      return false;
    }
    if tmpMax == max && maxOrigNode.Some? && candidate.orig == maxOrigNode.value.orig {
      return false;
    }
    return true;
  }

  /** Node `n` stands in the table after all others that are as close. */
  ghost predicate LastOfTies(table: seq<OrigNode>, key: Addr, sel: seq<OrigNode>, n: OrigNode) {
    exists k :: 0 <= k < |table| && table[k] == n
                && forall j :: k < j < |table| && table[j].hasDat && table[j] !in sel
                     ==> Closeness(table[j], key) != Closeness(n, key)
  }

  // ---- ties ----------------------------------------------------------------------------

  /** Place i holds one of the closest nodes that are left. */
  ghost predicate Tied(table: seq<OrigNode>, key: Addr, sel: seq<OrigNode>, i: nat) {
    && i < |table| && Capable(table, table[i]) && table[i] !in sel
    && forall n :: Capable(table, n) && n !in sel ==> Closeness(n, key) <= Closeness(table[i], key)
  }

  /** Of the closest nodes that are left, the one that stands last in the table has a lower address than the others. */
  ghost predicate LastIsLowest(table: seq<OrigNode>, key: Addr, sel: seq<OrigNode>) {
    forall i: nat, j: nat :: Tied(table, key, sel, i) && Tied(table, key, sel, j) && i < j
                             && (forall k: nat :: j < k < |table| ==> !Tied(table, key, sel, k))
                             ==> table[j].orig < table[i].orig
  }

  /** A round takes the lowest address of the closest nodes exactly when that node stands last of them in the table. */
  lemma LowestIff(table: seq<OrigNode>, key: Addr, sel: seq<OrigNode>, n: OrigNode)
    requires IsTable(table) && Capable(table, n) && n !in sel && LastOfTies(table, key, sel, n)
    requires forall m :: Capable(table, m) && m !in sel ==> Closeness(m, key) <= Closeness(n, key)
    ensures (forall m :: Capable(table, m) && m !in sel && Closeness(m, key) == Closeness(n, key) ==> n.orig <= m.orig)
            <==> LastIsLowest(table, key, sel)
  {
    hide Closeness;
    var at :| 0 <= at < |table| && table[at] == n
              && forall j :: at < j < |table| && table[j].hasDat && table[j] !in sel
                   ==> Closeness(table[j], key) != Closeness(n, key);
    assert Tied(table, key, sel, at);
    assert forall k: nat :: at < k < |table| ==> !Tied(table, key, sel, k);
    if LastIsLowest(table, key, sel) {
      forall m | Capable(table, m) && m !in sel && Closeness(m, key) == Closeness(n, key)
        ensures n.orig <= m.orig
      {
        var i: nat :| i < |table| && table[i] == m;
        assert Tied(table, key, sel, i);
      }
    }
  }

  /** So of two nodes at one place on the ring the one that stands last is taken, and tables in different order lead to
      different choices. */
  lemma TieTakesLast(key: Addr, m: OrigNode, n: OrigNode, c: OrigNode)
    requires m.orig != n.orig && m.hasDat && n.hasDat && m.datAddr == n.datAddr
    ensures IsTable([m, n]) && (LastOfTies([m, n], key, [], c) && Capable([m, n], c) <==> c == n)
    ensures LastIsLowest([m, n], key, []) <==> n.orig < m.orig
  {
    hide Closeness;
    var table := [m, n];
    SamePlace(m, n, key);
    LastIsLast([m], key, [], n);
    assert [m] + [n] == table;
    assert Tied(table, key, [], 0) && Tied(table, key, [], 1);
    assert table[0] == m && table[1] == n;
  }

  /** The lower address loses when it stands first. */
  lemma HigherTaken(key: Addr, c: OrigNode)
    ensures var table := [OrigNode(1, 7, true), OrigNode(2, 7, true)];
            !LastIsLowest(table, key, [])
                && (LastOfTies(table, key, [], c) && Capable(table, c) <==> c == OrigNode(2, 7, true))
  {
    TieTakesLast(key, OrigNode(1, 7, true), OrigNode(2, 7, true), c);
  }

  lemma SamePlace(m: OrigNode, n: OrigNode, key: Addr)
    requires m.datAddr == n.datAddr
    ensures Closeness(m, key) == Closeness(n, key)
  {
  }

  // ---- the running maximum ---------------------------------------------------------------

  /** The running maximum over the first nodes of the table. */
  ghost predicate Running(table: seq<OrigNode>, i: nat, key: Addr, sel: seq<OrigNode>, max: Addr,
                          best: Option<OrigNode>)
    requires i <= |table|
  {
    && (best.Some? ==> Capable(table, best.value) && best.value !in sel && max == Closeness(best.value, key)
                       && LastOfTies(table[..i], key, sel, best.value))
    && (best.None? ==> max == 0 && forall n :: Capable(table, n) && n !in sel ==> n !in table[..i])
    && (forall n :: Capable(table, n) && n !in sel && n in table[..i] ==> Closeness(n, key) <= max)
  }

  lemma RunningStarts(table: seq<OrigNode>, key: Addr, sel: seq<OrigNode>)
    ensures Running(table, 0, key, sel, 0, None)
  {
  }

  lemma RunningEnds(table: seq<OrigNode>, key: Addr, sel: seq<OrigNode>, max: Addr, best: Option<OrigNode>)
    requires Running(table, |table|, key, sel, max, best)
    ensures best.Some? ==> Capable(table, best.value) && best.value !in sel && max == Closeness(best.value, key)
                           && LastOfTies(table, key, sel, best.value)
    ensures best.None? ==> max == 0 && Exhausted(table, sel)
    ensures forall n :: Capable(table, n) && n !in sel ==> Closeness(n, key) <= max
  {
    assert table[..|table|] == table;
  }

  lemma ClosestBound(table: seq<OrigNode>, key: Addr, sel: seq<OrigNode>, lastMax: Addr, n: OrigNode)
    requires AtMost(table, key, sel, lastMax) && n in table
    ensures n.hasDat && n !in sel ==> Closeness(n, key) <= lastMax
  {
  }

  /** Whether node i takes the lead. */
  predicate TakesOver(table: seq<OrigNode>, i: nat, key: Addr, sel: seq<OrigNode>, max: Addr)
    requires i < |table|
  {
    table[i].hasDat && table[i] !in sel && max <= Closeness(table[i], key)
  }

  lemma RunningOn(table: seq<OrigNode>, i: nat, key: Addr, sel: seq<OrigNode>, max: Addr, best: Option<OrigNode>)
    requires IsTable(table) && i < |table| && Running(table, i, key, sel, max, best)
    ensures best.Some? ==> best.value.orig != table[i].orig
    ensures if TakesOver(table, i, key, sel, max)
            then Running(table, i + 1, key, sel, Closeness(table[i], key), Some(table[i]))
            else Running(table, i + 1, key, sel, max, best)
  {
    hide Closeness, LastOfTies;
    assert table[..i + 1] == table[..i] + [table[i]];
    if best.Some? {
      LastListed(table[..i], key, sel, best.value);
    }
    if TakesOver(table, i, key, sel, max) {
      LastIsLast(table[..i], key, sel, table[i]);
    } else if best.Some? {
      StaysLast(table[..i], key, sel, best.value, table[i]);
    }
  }

  lemma LastListed(table: seq<OrigNode>, key: Addr, sel: seq<OrigNode>, n: OrigNode)
    requires LastOfTies(table, key, sel, n)
    ensures n in table
  {
  }

  lemma LastIsLast(table: seq<OrigNode>, key: Addr, sel: seq<OrigNode>, n: OrigNode)
    ensures LastOfTies(table + [n], key, sel, n)
  {
    assert (table + [n])[|table|] == n;
  }

  lemma StaysLast(table: seq<OrigNode>, key: Addr, sel: seq<OrigNode>, n: OrigNode, m: OrigNode)
    requires LastOfTies(table, key, sel, n) && (m.hasDat && m !in sel ==> Closeness(m, key) != Closeness(n, key))
    ensures LastOfTies(table + [m], key, sel, n)
  {
    hide Closeness;
    var k :| 0 <= k < |table| && table[k] == n
             && forall j :: k < j < |table| && table[j].hasDat && table[j] !in sel
                  ==> Closeness(table[j], key) != Closeness(n, key);
    assert (table + [m])[k] == n;
  }

  /** batadv_choose_next_candidate */
  method ChooseNextCandidate(table: seq<OrigNode>, cands: array<Candidate>, select: nat, key: Addr, lastMax: Addr,
                             ghost sel: seq<OrigNode>) returns (newMax: Addr, ghost sel': seq<OrigNode>)
    requires IsTable(table) && select < cands.Length
    requires Played(table, key, sel, cands[..select]) && AtMost(table, key, sel, lastMax)
    modifies cands
    ensures cands[..select] == old(cands[..select])
    ensures sel' == sel || (|sel'| == |sel| + 1 && sel <= sel' && LastOfTies(table, key, sel, sel'[|sel|]))
    ensures Played(table, key, sel', cands[..select + 1]) && AtMost(table, key, sel', newMax)
  {
    hide Running, Closeness, LastOfTies;
    var max: Addr, best := 0, None;
    RunningStarts(table, key, sel);
    var i := 0;
    while i < |table|
      invariant 0 <= i <= |table| && cands[..] == old(cands[..])
      invariant Running(table, i, key, sel, max, best)
    {
      var n := table[i];
      var tmpMax := Closeness(n, key);
      RunningOn(table, i, key, sel, max, best);
      ClosestBound(table, key, sel, lastMax, n);
      var eligible := IsOrigNodeEligible(cands, select, tmpMax, max, lastMax, n, best);
      if eligible {
        max, best := tmpMax, Some(n);
      }
      i := i + 1;
    }
    RunningEnds(table, key, sel, max, best);
    newMax := max;
    if best.Some? {
      cands[select] := Orig(best.value);
      sel' := sel + [best.value];
    } else {
      cands[select] := NotFound;
      sel' := sel;
    }
  }

  // ---- the choice ----------------------------------------------------------------------

  ghost function CapableSet(table: seq<OrigNode>): set<OrigNode> {
    set n | n in table && n.hasDat
  }

  /** batadv_dat_select_candidates: the closest nodes that run DAT, as many as there are up to three. */
  method DatSelectCandidates(table: seq<OrigNode>, key: Addr) returns (cands: seq<Candidate>)
    requires IsTable(table)
    ensures exists sel :: |sel| == Min(3, |CapableSet(table)|) && |cands| == 3
              && Played(table, key, sel, cands)
  {
    var res := new Candidate[CANDIDATES_NUM](_ => NotFound);
    var lastMax: Addr := DAT_ADDR_MAX;
    ghost var sel: seq<OrigNode> := [];
    var select := 0;
    while select < CANDIDATES_NUM
      invariant 0 <= select <= CANDIDATES_NUM
      invariant Played(table, key, sel, res[..select]) && AtMost(table, key, sel, lastMax)
    {
      lastMax, sel := ChooseNextCandidate(table, res, select, key, lastMax, sel);
      select := select + 1;
    }
    cands := res[..];
    assert res[..CANDIDATES_NUM] == cands;
    CountIs(table, key, sel, cands);
  }

  lemma CountIs(table: seq<OrigNode>, key: Addr, sel: seq<OrigNode>, cands: seq<Candidate>)
    requires Played(table, key, sel, cands)
    ensures |sel| == Min(|cands|, |CapableSet(table)|)
  {
    DistinctMembers(sel);
    SubsetSize(Members(sel), CapableSet(table));
    if |sel| < |cands| {
      assert CapableSet(table) == Members(sel);
    }
  }

  /** Nodes whose tables hold the same originators, in whatever order, agree on how close each candidate is, also on a
      tie. */
  lemma SameCloseness(table: seq<OrigNode>, table': seq<OrigNode>, key: Addr, sel: seq<OrigNode>, sel': seq<OrigNode>,
                      cands: seq<Candidate>, cands': seq<Candidate>, i: nat)
    requires CapableSet(table) == CapableSet(table') && |cands| == |cands'|
    requires Played(table, key, sel, cands) && Played(table', key, sel', cands')
    requires i < |sel|
    ensures |sel| == |sel'| && Closeness(sel[i], key) == Closeness(sel'[i], key)
  {
    CountIs(table, key, sel, cands);
    CountIs(table', key, sel', cands');
    if Closeness(sel[i], key) > Closeness(sel'[i], key) {
      CloserAreChosen(table, table', key, sel, sel', i);
    } else if Closeness(sel[i], key) < Closeness(sel'[i], key) {
      CloserAreChosen(table', table, key, sel', sel, i);
    }
  }

  /** The first i + 1 of `sel` cannot all be closer than the i-th of `sel'`: they would all be among its first i. */
  lemma CloserAreChosen(table: seq<OrigNode>, table': seq<OrigNode>, key: Addr, sel: seq<OrigNode>, sel': seq<OrigNode>,
                        i: nat)
    requires CapableSet(table) == CapableSet(table') && Closest(table, key, sel) && Closest(table', key, sel')
    requires i < |sel| && i < |sel'|
    ensures Closeness(sel[i], key) <= Closeness(sel'[i], key)
  {
    if Closeness(sel[i], key) > Closeness(sel'[i], key) {
      forall n | n in sel[..i + 1]
        ensures n in sel'[..i]
      {
        assert n in CapableSet(table');
        assert n in sel' && sel'[i] in sel';
      }
      DistinctMembers(sel[..i + 1]);
      DistinctMembers(sel'[..i]);
      SubsetSize(Members(sel[..i + 1]), Members(sel'[..i]));
      assert false;
    }
  }

  /** They choose the same nodes in the same order when no two are equally close. */
  lemma SameChoice(table: seq<OrigNode>, table': seq<OrigNode>, key: Addr, sel: seq<OrigNode>, sel': seq<OrigNode>,
                   cands: seq<Candidate>, cands': seq<Candidate>)
    requires CapableSet(table) == CapableSet(table') && |cands| == |cands'|
    requires Played(table, key, sel, cands) && Played(table', key, sel', cands')
    requires forall m, n :: Capable(table, m) && Capable(table, n) && m != n ==> Closeness(m, key) != Closeness(n, key)
    ensures cands == cands'
  {
    CountIs(table, key, sel, cands);
    CountIs(table', key, sel', cands');
    forall i | 0 <= i < |sel|
      ensures sel[i] == sel'[i]
    {
      SameCloseness(table, table', key, sel, sel', cands, cands', i);
      assert sel'[i] in sel' && sel'[i] in CapableSet(table');
      assert Capable(table, sel[i]) && Capable(table, sel'[i]);
    }
  }
}
