// Any number of gateways on one LAN: once the CLAIM frames sent have been heard, no two of
// them hold the same client as their own, so no two of them bridge its broadcasts.
module BlaOwners {
  import opened BatmanCommon
  import opened BlaProtocol

  type NodeId = int
  type Lan = map<NodeId, Config>
  type Tables = map<NodeId, State>

  /** Something happens at one gateway: any frame from anybody, payload, the timer, or shutdown. */
  datatype Move = Move(node: NodeId, e: Event, now: int)

  ghost predicate Owns(cfg: Config, s: State, c: ClaimKey) {
    c in s.claims && s.claims[c].owner.orig == cfg.primary
  }

  ghost predicate Good(lan: Lan, s: Tables) {
    s.Keys == lan.Keys && forall n :: n in lan ==> Inv(lan[n], s[n])
  }

  ghost predicate IsRun(lan: Lan, s: Tables, ms: seq<Move>) {
    Good(lan, s) && forall m :: m in ms ==> m.node in lan
  }

  ghost function Run(lan: Lan, s: Tables, ms: seq<Move>): (r: Tables)
    requires IsRun(lan, s, ms)
    ensures Good(lan, r)
  {
    if ms == [] then s
    else
      var before, m := Run(lan, s, ms[..|ms| - 1]), ms[|ms| - 1];
      StepKeeps(lan[m.node], before[m.node], m.e, m.now);
      before[m.node := Step(lan[m.node], before[m.node], m.e, m.now).s]
  }

  ghost predicate IsClaim(f: Frame, owner: Mac, c: ClaimKey) {
    f.kind == CLAIM && f.hwSrc == owner && f.ethSrc == c.addr && f.vid == c.vid
  }

  /** At move i gateway p sends a CLAIM for c. */
  ghost predicate SendsAt(lan: Lan, s: Tables, ms: seq<Move>, i: nat, p: NodeId, c: ClaimKey)
    requires IsRun(lan, s, ms) && i < |ms| && p in lan
  {
    ms[i].node == p && ClaimsOk(Run(lan, s, ms[..i])[p])
    && exists f :: f in Step(lan[p], Run(lan, s, ms[..i])[p], ms[i].e, ms[i].now).sent && IsClaim(f, lan[p].primary, c)
  }

  /** At move j gateway q accepts a CLAIM of p for c. */
  ghost predicate HearsAt(lan: Lan, s: Tables, ms: seq<Move>, j: nat, q: NodeId, p: NodeId, c: ClaimKey)
    requires IsRun(lan, s, ms) && j < |ms| && q in lan && p in lan
  {
    ms[j].node == q && ms[j].e.ClaimFrame? && IsClaim(ms[j].e.f, lan[p].primary, c)
    && Accepts(lan[q], Run(lan, s, ms[..j])[q], ms[j].e.f, ms[j].e.inMesh)
  }

  /** Whoever sends a CLAIM for c is heard by gateway q some time later, however late and in whatever order. */
  ghost predicate Heard(lan: Lan, s: Tables, ms: seq<Move>, q: NodeId, p: NodeId, c: ClaimKey)
    requires IsRun(lan, s, ms) && q in lan && p in lan
  {
    forall i: nat :: i < |ms| && SendsAt(lan, s, ms, i, p, c)
        ==> exists j: nat :: i < j < |ms| && HearsAt(lan, s, ms, j, q, p, c)
  }

  // ---- what one step does to ownership -----------------------------------------------

  /** Claims only go. */
  ghost predicate OnlyLess(s: State, s': State) {
    forall c :: c in s'.claims ==> c in s.claims && s'.claims[c] == s.claims[c]
  }

  lemma {:induction false} PurgeClaimsLess(cfg: Config, s: State, order: seq<ClaimKey>, all: bool, now: int)
    requires ClaimsOk(s)
    ensures OnlyLess(s, PurgeClaims(cfg, s, order, all, now).s)
  {
    if order == [] {
    } else {
      PurgeClaimsLess(cfg, s, order[..|order| - 1], all, now);
    }
  }

  lemma {:induction false} PurgeGwsLess(s: State, order: seq<GwKey>, all: bool, now: int)
    ensures OnlyLess(s, PurgeGws(s, order, all, now))
  {
    if order == [] {
    } else {
      PurgeGwsLess(s, order[..|order| - 1], all, now);
    }
  }

  lemma {:induction false} TickGwsSame(cfg: Config, s: State, order: seq<GwKey>, now: int)
    ensures TickGws(cfg, s, order, now).s.claims == s.claims
  {
    if order == [] {
    } else {
      TickGwsSame(cfg, s, order[..|order| - 1], now);
    }
  }

  /** Frames of others never make a claim our own; a CLAIM makes it the sender's. */
  lemma FrameLeaves(cfg: Config, s: State, f: Frame, inMesh: bool, order: seq<ClaimKey>, now: int, c: ClaimKey)
    requires ClaimsOk(s)
    ensures var s' := ProcessClaim(cfg, s, f, inMesh, order, now).s;
            && (Owns(cfg, s', c) ==> Owns(cfg, s, c))
            && (Accepts(cfg, s, f, inMesh) && f.kind == CLAIM && f.ethSrc == c.addr && f.vid == c.vid
                ==> !Owns(cfg, s', c))
  {
    hide Handled;
    if Accepts(cfg, s, f, inMesh) {
      HandledLeaves(cfg, UpdateOwn(cfg, Grouped(s, f), f.vid, now).s, f, order, now, c);
    }
  }

  lemma HandledLeaves(cfg: Config, s: State, f: Frame, order: seq<ClaimKey>, now: int, c: ClaimKey)
    requires ClaimsOk(s) && Backbone(f) != cfg.primary
    ensures var s' := Handled(cfg, s, f, order, now).s;
            && (Owns(cfg, s', c) ==> Owns(cfg, s, c))
            && (f.kind == CLAIM && f.ethSrc == c.addr && f.vid == c.vid ==> !Owns(cfg, s', c))
  {
  }

  /** A CLAIM refreshes its sender's entry exactly when it is a new claim for that gateway; one that it repeats is
      refreshed itself and its gateway is not. */
  lemma ClaimRefreshesIff(cfg: Config, s: State, backbone: Mac, c: ClaimKey, now: int)
    requires ClaimsOk(s)
    ensures var g, s' := GwKey(backbone, c.vid), HandleClaim(cfg, s, backbone, c.addr, c.vid, now).s;
            && g in s'.gws && s'.claims == s.claims[c := Claim(g, now)]
            && s'.gws[g].lasttime == if c in s.claims && s.claims[c].owner == g then s.gws[g].lasttime else now
  {
    hide Xor;
  }

  /** An UNCLAIM ends the claim of whoever holds it, exactly when its sender is known; the other claims stay. */
  lemma UnclaimIff(cfg: Config, s: State, backbone: Mac, c: ClaimKey)
    requires ClaimsOk(s)
    ensures HandleUnclaim(cfg, s, backbone, c.addr, c.vid).s.claims
            == if GwKey(backbone, c.vid) in s.gws then s.claims - {c} else s.claims
  {
  }

  /** A gateway that comes to own a client has just sent a CLAIM for it. */
  lemma OwnerClaims(cfg: Config, s: State, e: Event, now: int, c: ClaimKey)
    requires Inv(cfg, s) && !Owns(cfg, s, c) && ClaimsOk(s) && Owns(cfg, Step(cfg, s, e, now).s, c)
    ensures exists f :: f in Step(cfg, s, e, now).sent && IsClaim(f, cfg.primary, c)
  {
    match e
    case ClaimFrame(f, inMesh, order) =>
      FrameLeaves(cfg, s, f, inMesh, order, now, c);
    case FromMesh(enabled, src, vid, bcast) => RxClaims(cfg, s, enabled, src, vid, bcast, now, c);
    case FromLan(enabled, src, vid, multicast) => TxLess(cfg, s, enabled, src, vid, multicast, now);
    case Periodic(enabled, corder, gorder, torder) =>
      PurgeClaimsLess(cfg, s, corder, false, now);
      var s1 := PurgeClaims(cfg, s, corder, false, now).s;
      PurgeGwsLess(s1, gorder, false, now);
      TickGwsSame(cfg, PurgeGws(s1, gorder, false, now), torder, now);
    case Shutdown(corder, gorder) =>
      PurgeClaimsLess(cfg, s, corder, true, now);
      PurgeGwsLess(PurgeClaims(cfg, s, corder, true, now).s, gorder, true, now);
  }

  lemma TxLess(cfg: Config, s: State, enabled: bool, src: Mac, vid: Vid, multicast: bool, now: int)
    requires ClaimsOk(s)
    ensures OnlyLess(s, BlaTx(cfg, s, enabled, src, vid, multicast, now).o.s)
  {
  }

  lemma RxClaims(cfg: Config, s: State, enabled: bool, src: Mac, vid: Vid, bcast: bool, now: int, c: ClaimKey)
    requires ClaimsOk(s) && !Owns(cfg, s, c)
    ensures var o := BlaRx(cfg, s, enabled, src, vid, bcast, now).o;
            Owns(cfg, o.s, c) ==> exists f :: f in o.sent && IsClaim(f, cfg.primary, c)
  {
    hide AddClaim, GetBackboneGw, ClaimsOk;
    var o := BlaRx(cfg, s, enabled, src, vid, bcast, now).o;
    if Owns(cfg, o.s, c) {
      var h := HandleClaim(cfg, s, cfg.primary, src, vid, now);
      AddsOne(cfg, s, src, vid, now, c);
      var f := h.sent[|h.sent| - 1];
      assert f in h.sent && f in o.sent && IsClaim(f, cfg.primary, c);
    }
  }

  lemma AddsOne(cfg: Config, s: State, src: Mac, vid: Vid, now: int, c: ClaimKey)
    requires ClaimsOk(s) && !Owns(cfg, s, c)
    ensures var h := HandleClaim(cfg, s, cfg.primary, src, vid, now);
            (Owns(cfg, h.s, c) <==> c == ClaimKey(src, vid)) && h.sent != []
                && h.sent[|h.sent| - 1] == SendClaim(cfg, s, src, vid, CLAIM)
  {
  }

  // ---- payload frames ----------------------------------------------------------------

  ghost predicate IsUnclaim(f: Frame, owner: Mac, c: ClaimKey) {
    f.kind == UNCLAIM && f.ethSrc == owner && f.hwSrc == c.addr && f.vid == c.vid
  }

  /** All other claims stay as they are. */
  ghost predicate Others(s: State, s': State, c: ClaimKey) {
    s'.claims - {c} == s.claims - {c}
  }

  /** The node's own entry in the VLAN was used just now. */
  ghost predicate Fresh(cfg: Config, s: State, vid: Vid, now: int) {
    var g := GwKey(cfg.primary, vid);
    g in s.gws && s.gws[g].lasttime == now
  }

  /** A frame from the mesh is kept from the LAN only as a broadcast, while a request is pending or when its client is
      registered for another gateway. With any other frame the client becomes this gateway's own, which is said in a
      CLAIM if it was not before. */
  lemma RxVerdict(cfg: Config, s: State, c: ClaimKey, bcast: bool, now: int)
    requires ClaimsOk(s)
    ensures var v := BlaRx(cfg, s, true, c.addr, c.vid, bcast, now);
            && (v.handled <==> bcast && (s.numRequests != 0 || (c in s.claims && !Owns(cfg, s, c))))
            && (v.handled ==> v.o == Out(s, []))
            && (!v.handled ==>
                  && Others(s, v.o.s, c) && Fresh(cfg, v.o.s, c.vid, now)
                  && Owns(cfg, v.o.s, c) && v.o.s.claims[c].lasttime == now
                  && (Owns(cfg, s, c) <==> forall f :: f in v.o.sent ==> !IsClaim(f, cfg.primary, c)))
  {
    hide AddClaim, ClaimsOk;
    var own := GwKey(cfg.primary, c.vid);
    var v := BlaRx(cfg, s, true, c.addr, c.vid, bcast, now);
    if !v.handled && !Owns(cfg, s, c) {
      var h := HandleClaim(cfg, s, cfg.primary, c.addr, c.vid, now);
      Claimed(cfg, s, c, now);
      assert h.sent[0] in v.o.sent;
    }
  }

  lemma Claimed(cfg: Config, s: State, c: ClaimKey, now: int)
    requires ClaimsOk(s)
    ensures var h := HandleClaim(cfg, s, cfg.primary, c.addr, c.vid, now);
            && h.s.claims == s.claims[c := Claim(GwKey(cfg.primary, c.vid), now)] && |h.sent| == 1
            && IsClaim(h.sent[0], cfg.primary, c)
  {
  }

  /** A frame from the LAN is kept from the mesh only as a broadcast, while a request is pending or when its client is
      registered for another gateway. With any other frame an own client is given up, which is said in an UNCLAIM, and
      other clients stay as they are registered. */
  lemma TxVerdict(cfg: Config, s: State, c: ClaimKey, multicast: bool, now: int)
    requires ClaimsOk(s)
    ensures var v := BlaTx(cfg, s, true, c.addr, c.vid, multicast, now);
            && (v.handled <==> multicast && (s.numRequests != 0 || (c in s.claims && !Owns(cfg, s, c))))
            && (v.handled ==> v.o == Out(s, []))
            && (!v.handled ==>
                  && Fresh(cfg, v.o.s, c.vid, now)
                  && v.o.s.claims == (if Owns(cfg, s, c) then s.claims - {c} else s.claims)
                  && (Owns(cfg, s, c) <==> exists f :: f in v.o.sent && IsUnclaim(f, cfg.primary, c)))
  {
    var v := BlaTx(cfg, s, true, c.addr, c.vid, multicast, now);
    if !v.handled && Owns(cfg, s, c) {
      var h := HandleUnclaim(cfg, s, cfg.primary, c.addr, c.vid);
      assert h.sent[0] in v.o.sent && IsUnclaim(h.sent[0], cfg.primary, c);
    }
  }

  /** With the avoidance switched off every frame passes and no claim changes. */
  lemma OffPasses(cfg: Config, s: State, c: ClaimKey, bcast: bool, now: int)
    requires ClaimsOk(s)
    ensures var rx := BlaRx(cfg, s, false, c.addr, c.vid, bcast, now);
            var tx := BlaTx(cfg, s, false, c.addr, c.vid, bcast, now);
            !rx.handled && !tx.handled && rx.o.s.claims == tx.o.s.claims == s.claims
  {
  }

  /** Frames of this node itself and of other groups outside the mesh change nothing; any other makes the larger group
      this node's. */
  lemma FrameCounts(cfg: Config, s: State, f: Frame, inMesh: bool, order: seq<ClaimKey>, now: int)
    requires ClaimsOk(s)
    ensures var o := ProcessClaim(cfg, s, f, inMesh, order, now);
            if (if f.kind == CLAIM then f.hwSrc else f.ethSrc) == cfg.primary || !(f.group == s.group || inMesh)
            then o == Out(s, [])
            else o.s.group >= s.group && o.s.group >= f.group && o.s.group in {s.group, f.group}
                 && Fresh(cfg, o.s, f.vid, now)
  {
    hide Handled;
    if Accepts(cfg, s, f, inMesh) {
      HandledStays(cfg, UpdateOwn(cfg, Grouped(s, f), f.vid, now).s, f, order, now, GwKey(cfg.primary, f.vid));
    }
  }

  lemma HandledStays(cfg: Config, s: State, f: Frame, order: seq<ClaimKey>, now: int, g: GwKey)
    requires ClaimsOk(s) && g in s.gws && s.gws[g].lasttime == now
    ensures var s' := Handled(cfg, s, f, order, now).s; s'.group == s.group && g in s'.gws && s'.gws[g].lasttime == now
  {
    hide SendClaim, OwnClaimFrames, Xor;
  }

  // ---- over whole runs -------------------------------------------------------------------

  ghost predicate OwnsAfter(lan: Lan, s: Tables, ms: seq<Move>, n: nat, p: NodeId, c: ClaimKey)
    requires IsRun(lan, s, ms) && n <= |ms| && p in lan
  {
    Owns(lan[p], Run(lan, s, ms[..n])[p], c)
  }

  /** One move: ownership that comes was claimed, and what is heard from another ends it. */
  lemma MoveOwns(lan: Lan, s: Tables, ms: seq<Move>, i: nat, p: NodeId, c: ClaimKey)
    requires IsRun(lan, s, ms) && i < |ms| && p in lan
    ensures !OwnsAfter(lan, s, ms, i, p, c) && OwnsAfter(lan, s, ms, i + 1, p, c) ==> SendsAt(lan, s, ms, i, p, c)
    ensures forall q :: q in lan && HearsAt(lan, s, ms, i, p, q, c) ==> !OwnsAfter(lan, s, ms, i + 1, p, c)
  {
    hide Step, Owns, Accepts, Inv, ClaimsOk, Run;
    var before := Run(lan, s, ms[..i]);
    InvClaims(lan[p], before[p]);
    RunStep(lan, s, ms, i);
    if ms[i].node == p {
      if !OwnsAfter(lan, s, ms, i, p, c) && OwnsAfter(lan, s, ms, i + 1, p, c) {
        OwnerClaims(lan[p], before[p], ms[i].e, ms[i].now, c);
      }
      if ms[i].e.ClaimFrame? {
        FrameStep(lan[p], before[p], ms[i].e, ms[i].now);
        FrameLeaves(lan[p], before[p], ms[i].e.f, ms[i].e.inMesh, ms[i].e.order, ms[i].now, c);
      }
    }
  }

  lemma RunStep(lan: Lan, s: Tables, ms: seq<Move>, i: nat)
    requires IsRun(lan, s, ms) && i < |ms|
    ensures var before, m := Run(lan, s, ms[..i]), ms[i];
            ClaimsOk(before[m.node])
            && Run(lan, s, ms[..i + 1]) == before[m.node := Step(lan[m.node], before[m.node], m.e, m.now).s]
  {
    hide Step;
    assert ms[..i + 1][..i] == ms[..i] && ms[..i + 1][i] == ms[i];
  }

  lemma FrameStep(cfg: Config, s: State, e: Event, now: int)
    requires ClaimsOk(s) && e.ClaimFrame?
    ensures Step(cfg, s, e, now) == ProcessClaim(cfg, s, e.f, e.inMesh, e.order, now)
  {
  }

  /** The move with which the present ownership began. */
  lemma {:induction false} LastGained(lan: Lan, s: Tables, ms: seq<Move>, n: nat, p: NodeId, c: ClaimKey)
    returns (i: nat)
    requires IsRun(lan, s, ms) && n <= |ms| && p in lan && !OwnsAfter(lan, s, ms, 0, p, c)
             && OwnsAfter(lan, s, ms, n, p, c)
    ensures i < n && !OwnsAfter(lan, s, ms, i, p, c) && forall k: nat :: i < k <= n ==> OwnsAfter(lan, s, ms, k, p, c)
    decreases n
  {
    hide OwnsAfter, IsRun;
    if OwnsAfter(lan, s, ms, n - 1, p, c) {
      i := LastGained(lan, s, ms, n - 1, p, c);
    } else {
      i := n - 1;
    }
  }

  /** Whatever happens at any number of gateways, and however late frames arrive: when the CLAIMs of two gateways for a
      client have reached one another, they do not both own it. */
  lemma OneOwner(lan: Lan, s: Tables, ms: seq<Move>, p: NodeId, q: NodeId, c: ClaimKey)
    requires IsRun(lan, s, ms) && p in lan && q in lan
    requires !Owns(lan[p], s[p], c) && !Owns(lan[q], s[q], c)
    requires Heard(lan, s, ms, q, p, c) && Heard(lan, s, ms, p, q, c)
    ensures !(Owns(lan[p], Run(lan, s, ms)[p], c) && Owns(lan[q], Run(lan, s, ms)[q], c))
  {
    hide Owns, Run, SendsAt, HearsAt;
    EndsOf(lan, s, ms, p, c);
    EndsOf(lan, s, ms, q, c);
    hide OwnsAfter;
    if OwnsAfter(lan, s, ms, |ms|, p, c) && OwnsAfter(lan, s, ms, |ms|, q, c) {
      var i := LastGained(lan, s, ms, |ms|, p, c);
      MoveOwns(lan, s, ms, i, p, c);
      var j: nat :| i < j < |ms| && HearsAt(lan, s, ms, j, q, p, c);
      MoveOwns(lan, s, ms, j, q, c);
      var k := LastGained(lan, s, ms, |ms|, q, c);
      assert k > j;
      MoveOwns(lan, s, ms, k, q, c);
      var l: nat :| k < l < |ms| && HearsAt(lan, s, ms, l, p, q, c);
      MoveOwns(lan, s, ms, l, p, c);
      assert false;
    }
  }

  lemma EndsOf(lan: Lan, s: Tables, ms: seq<Move>, p: NodeId, c: ClaimKey)
    requires IsRun(lan, s, ms) && p in lan
    ensures OwnsAfter(lan, s, ms, 0, p, c) <==> Owns(lan[p], s[p], c)
    ensures OwnsAfter(lan, s, ms, |ms|, p, c) <==> Owns(lan[p], Run(lan, s, ms)[p], c)
  {
    assert ms[..|ms|] == ms;
  }

  /** A broadcast of a client that is registered goes from the mesh to the LAN only at its owner. */
  lemma ForwardsIff(cfg: Config, s: State, c: ClaimKey, now: int)
    requires ClaimsOk(s) && c in s.claims
    ensures BlaRx(cfg, s, true, c.addr, c.vid, true, now).handled <==> s.numRequests != 0 || !Owns(cfg, s, c)
  {
    hide Owns, BlaRx;
    RxVerdict(cfg, s, c, true, now);
  }

  /** No loop: of two gateways that both have the client registered, at most one bridges its broadcast. */
  lemma OneForwards(lan: Lan, s: Tables, ms: seq<Move>, p: NodeId, q: NodeId, c: ClaimKey, now: int, now': int)
    requires IsRun(lan, s, ms) && p in lan && q in lan
    requires !Owns(lan[p], s[p], c) && !Owns(lan[q], s[q], c)
    requires Heard(lan, s, ms, q, p, c) && Heard(lan, s, ms, p, q, c)
    requires var r := Run(lan, s, ms); ClaimsOk(r[p]) && ClaimsOk(r[q]) && c in r[p].claims && c in r[q].claims
    ensures var r := Run(lan, s, ms);
            BlaRx(lan[p], r[p], true, c.addr, c.vid, true, now).handled
                || BlaRx(lan[q], r[q], true, c.addr, c.vid, true, now').handled
  {
    var r := Run(lan, s, ms);
    hide Run, Owns, Heard, BlaRx;
    OneOwner(lan, s, ms, p, q, c);
    ForwardsIff(lan[p], r[p], c, now);
    ForwardsIff(lan[q], r[q], c, now');
  }

  /** Nor does a broadcast loop the other way: of two gateways that both have the client registered, at most one lets
      its broadcast from the LAN into the mesh. */
  lemma OneFloods(lan: Lan, s: Tables, ms: seq<Move>, p: NodeId, q: NodeId, c: ClaimKey, now: int, now': int)
    requires IsRun(lan, s, ms) && p in lan && q in lan
    requires !Owns(lan[p], s[p], c) && !Owns(lan[q], s[q], c)
    requires Heard(lan, s, ms, q, p, c) && Heard(lan, s, ms, p, q, c)
    requires var r := Run(lan, s, ms); ClaimsOk(r[p]) && ClaimsOk(r[q]) && c in r[p].claims && c in r[q].claims
    ensures var r := Run(lan, s, ms);
            BlaTx(lan[p], r[p], true, c.addr, c.vid, true, now).handled
            || BlaTx(lan[q], r[q], true, c.addr, c.vid, true, now').handled
  {
    var r := Run(lan, s, ms);
    hide Run, Owns, Heard, BlaTx;
    OneOwner(lan, s, ms, p, q, c);
    TxVerdict(lan[p], r[p], c, true, now);
    TxVerdict(lan[q], r[q], c, true, now');
  }
}
