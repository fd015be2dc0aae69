// The claim tables of bridge loop avoidance as values: every handler as a function from
// state to state and the frames it sends, and the invariant all of them keep.
module BlaProtocol {
  import opened Basics
  import opened BatmanCommon

  type Crc = bv16
  type Vid = int

  const ANNOUNCE_HEAD: bv32 := 0x43054305
  const BROADCAST := Mac(0xffffffff, 0xffff)
  const CRC_INIT: Crc := 0
  const WAIT_PERIODS := 3
  const PERIOD_LENGTH := 10000
  const BACKBONE_TIMEOUT := PERIOD_LENGTH * 6
  const CLAIM_TIMEOUT := PERIOD_LENGTH * 10

  datatype GwKey = GwKey(orig: Mac, vid: Vid)
  datatype ClaimKey = ClaimKey(addr: Mac, vid: Vid)

  datatype Gw = Gw(lasttime: int, crc: Crc, requestSent: bool, waitPeriods: int, refcount: int)
  datatype Claim = Claim(owner: GwKey, lasttime: int)

  /** What stays fixed during a run; `crc16` is the kernel's checksum of an address. */
  datatype Config = Config(primary: Mac, crc16: Mac -> Crc)

  datatype State = State(claims: map<ClaimKey, Claim>, gws: map<GwKey, Gw>, numRequests: int, group: int)

  datatype FrameType = CLAIM | UNCLAIM | ANNOUNCE | REQUEST

  /** A claim frame: an ARP reply with the type and group in its target hardware address. */
  datatype Frame = Frame(kind: FrameType, group: int, ethSrc: Mac, ethDst: Mac, hwSrc: Mac, vid: Vid)

  datatype Out = Out(s: State, sent: seq<Frame>)

  // ---- sets and aggregates ---------------------------------------------------

  ghost function Owned(s: State, g: GwKey): set<ClaimKey> {
    set c | c in s.claims && s.claims[c].owner == g
  }

  ghost function Pending(s: State): set<GwKey> {
    set g | g in s.gws && s.gws[g].requestSent
  }

  function Xor(a: Crc, b: Crc): Crc {
    a ^ b
  }

  ghost function XorOver(crc16: Mac -> Crc, cs: set<ClaimKey>): Crc {
    if cs == {} then CRC_INIT
    else
      var c :| c in cs;
      Xor(crc16(c.addr), XorOver(crc16, cs - {c}))
  }

  lemma XorSwap(a: Crc, b: Crc, c: Crc)
    ensures Xor(a, Xor(b, c)) == Xor(b, Xor(a, c))
  {
  }

  lemma XorCancel(a: Crc, b: Crc)
    ensures Xor(Xor(a, b), a) == b && Xor(a, b) == Xor(b, a)
  {
  }

  /** The aggregate does not depend on the order in which the elements are taken. */
  lemma {:induction false} XorTake(crc16: Mac -> Crc, cs: set<ClaimKey>, c: ClaimKey)
    requires c in cs
    ensures XorOver(crc16, cs) == Xor(crc16(c.addr), XorOver(crc16, cs - {c}))
    decreases |cs|
  {
    hide Xor;
    var d :| d in cs && XorOver(crc16, cs) == Xor(crc16(d.addr), XorOver(crc16, cs - {d}));
    if d == c {
    } else {
      XorTake(crc16, cs - {d}, c);
      XorTake(crc16, cs - {c}, d);
      assert cs - {d} - {c} == cs - {c} - {d};
      XorSwap(crc16(d.addr), crc16(c.addr), XorOver(crc16, cs - {c} - {d}));
    }
  }

  lemma XorAdd(crc16: Mac -> Crc, cs: set<ClaimKey>, c: ClaimKey)
    requires c !in cs
    ensures XorOver(crc16, cs + {c}) == Xor(XorOver(crc16, cs), crc16(c.addr))
  {
    hide Xor;
    XorTake(crc16, cs + {c}, c);
    assert cs + {c} - {c} == cs;
    XorCancel(crc16(c.addr), XorOver(crc16, cs));
  }

  lemma XorDrop(crc16: Mac -> Crc, cs: set<ClaimKey>, c: ClaimKey)
    requires c in cs
    ensures XorOver(crc16, cs - {c}) == Xor(XorOver(crc16, cs), crc16(c.addr))
  {
    hide Xor;
    XorTake(crc16, cs, c);
    XorCancel(crc16(c.addr), XorOver(crc16, cs - {c}));
  }

  // ---- the invariant --------------------------------------------------------

  ghost predicate GwOk(cfg: Config, s: State, g: GwKey)
    requires g in s.gws
  {
    s.gws[g].crc == XorOver(cfg.crc16, Owned(s, g)) && s.gws[g].refcount == 1 + |Owned(s, g)|
  }

  ghost predicate ClaimsOk(s: State) {
    forall c :: c in s.claims ==> s.claims[c].owner in s.gws && s.claims[c].owner.vid == c.vid
  }

  ghost predicate Inv(cfg: Config, s: State) {
    && ClaimsOk(s)
    && (forall g :: g in s.gws ==> GwOk(cfg, s, g))
    && s.numRequests == |Pending(s)|
  }

  // ---- claims ---------------------------------------------------------------

  /** batadv_bla_del_backbone_claims */
  ghost function DelBackboneClaims(s: State, g: GwKey): State
    requires g in s.gws
  {
    s.(claims := map c | c in s.claims && s.claims[c].owner != g :: s.claims[c],
       gws := s.gws[g := s.gws[g].(crc := CRC_INIT, refcount := s.gws[g].refcount - |Owned(s, g)|)])
  }

  function Released(cfg: Config, gws: map<GwKey, Gw>, g: GwKey, c: ClaimKey): map<GwKey, Gw>
    requires g in gws
  {
    gws[g := gws[g].(crc := Xor(gws[g].crc, cfg.crc16(c.addr)), refcount := gws[g].refcount - 1)]
  }

  function Acquired(cfg: Config, gws: map<GwKey, Gw>, g: GwKey, c: ClaimKey, now: int): map<GwKey, Gw>
    requires g in gws
  {
    gws[g := gws[g].(crc := Xor(gws[g].crc, cfg.crc16(c.addr)), refcount := gws[g].refcount + 1, lasttime := now)]
  }

  /** batadv_bla_add_claim */
  function AddClaim(cfg: Config, s: State, c: ClaimKey, g: GwKey, now: int): State
    requires g in s.gws && (c in s.claims ==> s.claims[c].owner in s.gws)
  {
    var claims := s.claims[c := Claim(g, now)];
    if c !in s.claims then
      s.(claims := claims, gws := Acquired(cfg, s.gws, g, c, now))
    else if s.claims[c].owner == g then
      s.(claims := claims)
    else
      s.(claims := claims, gws := Acquired(cfg, Released(cfg, s.gws, s.claims[c].owner, c), g, c, now))
  }

  /** batadv_bla_del_claim */
  function DelClaim(cfg: Config, s: State, c: ClaimKey): State
    requires c in s.claims ==> s.claims[c].owner in s.gws
  {
    if c !in s.claims then s
    else s.(claims := s.claims - {c}, gws := Released(cfg, s.gws, s.claims[c].owner, c))
  }

  // ---- frames ---------------------------------------------------------------

  /** batadv_bla_send_claim: where each type puts the address it is about. */
  function SendClaim(cfg: Config, s: State, mac: Mac, vid: Vid, kind: FrameType): Frame {
    match kind
    case CLAIM => Frame(CLAIM, s.group, mac, BROADCAST, cfg.primary, vid)
    case UNCLAIM => Frame(UNCLAIM, s.group, cfg.primary, BROADCAST, mac, vid)
    case ANNOUNCE => Frame(ANNOUNCE, s.group, cfg.primary, BROADCAST, mac, vid)
    case REQUEST => Frame(REQUEST, s.group, cfg.primary, mac, mac, vid)
  }

  function SendAnnounce(cfg: Config, s: State, g: GwKey): Frame
    requires g in s.gws
  {
    SendClaim(cfg, s, Mac(ANNOUNCE_HEAD, s.gws[g].crc), g.vid, ANNOUNCE)
  }

  // ---- backbone gateways ----------------------------------------------------------

  /** batadv_bla_get_backbone_gw */
  function GetBackboneGw(cfg: Config, s: State, g: GwKey, own: bool, now: int): (o: Out)
    ensures g in o.s.gws && o.s.claims == s.claims
  {
    if g in s.gws then Out(s, [])
    else
      var s' := s.(gws := s.gws[g := Gw(now, CRC_INIT, false, 0, 1)]);
      if !own then Out(s', [])
      else
        Out(s'.(gws := s'.gws[g := s'.gws[g].(requestSent := true, waitPeriods := WAIT_PERIODS)],
                numRequests := s.numRequests + 1),
            [SendAnnounce(cfg, s', g)])
  }

  function Touched(s: State, g: GwKey, now: int): State
    requires g in s.gws
  {
    s.(gws := s.gws[g := s.gws[g].(lasttime := now)])
  }

  /** batadv_bla_update_own_backbone_gw */
  function UpdateOwn(cfg: Config, s: State, vid: Vid, now: int): (o: Out)
    ensures GwKey(cfg.primary, vid) in o.s.gws && o.s.claims == s.claims
  {
    var o := GetBackboneGw(cfg, s, GwKey(cfg.primary, vid), true, now);
    Out(Touched(o.s, GwKey(cfg.primary, vid), now), o.sent)
  }

  function SetRequestSent(s: State, g: GwKey, value: bool): State
    requires g in s.gws
  {
    var was := s.gws[g].requestSent;
    s.(gws := s.gws[g := s.gws[g].(requestSent := value)],
       numRequests := if was == value then s.numRequests else if value then s.numRequests + 1 else s.numRequests - 1)
  }

  /** batadv_bla_send_request */
  ghost function SendRequest(cfg: Config, s: State, g: GwKey): Out
    requires g in s.gws
  {
    Out(SetRequestSent(DelBackboneClaims(s, g), g, true), [SendClaim(cfg, s, g.orig, g.vid, REQUEST)])
  }

  /** The CLAIM frames for the own claims among `order`. */
  ghost function OwnClaimFrames(cfg: Config, s: State, g: GwKey, order: seq<ClaimKey>): seq<Frame> {
    if order == [] then []
    else
      var c := order[|order| - 1];
      OwnClaimFrames(cfg, s, g, order[..|order| - 1])
      + if c in s.claims && s.claims[c].owner == g then [SendClaim(cfg, s, c.addr, c.vid, CLAIM)] else []
  }

  /** batadv_bla_answer_request; `order` is the order of the claim hash. */
  ghost function AnswerRequest(cfg: Config, s: State, vid: Vid, order: seq<ClaimKey>): Out {
    var g := GwKey(cfg.primary, vid);
    if g !in s.gws then Out(s, [])
    else Out(s, OwnClaimFrames(cfg, s, g, order) + [SendAnnounce(cfg, s, g)])
  }

  // ---- handlers ---------------------------------------------------------------

  /** batadv_handle_announce */
  ghost function HandleAnnounce(cfg: Config, s: State, an: Mac, backbone: Mac, vid: Vid, now: int): Out {
    if an.head != ANNOUNCE_HEAD then Out(s, [])
    else
      var g := GwKey(backbone, vid);
      var o := GetBackboneGw(cfg, s, g, false, now);
      var s1 := Touched(o.s, g, now);
      if s1.gws[g].crc != an.tail then
        var o' := SendRequest(cfg, s1, g);
        Out(o'.s, o.sent + o'.sent)
      else Out(SetRequestSent(s1, g, false), o.sent)
  }

  /** batadv_handle_request */
  ghost function HandleRequest(cfg: Config, s: State, backbone: Mac, ethDst: Mac, vid: Vid, order: seq<ClaimKey>): Out {
    if backbone != ethDst || ethDst != cfg.primary then Out(s, []) else AnswerRequest(cfg, s, vid, order)
  }

  /** batadv_handle_unclaim: the claim goes, whoever it is registered for. */
  function HandleUnclaim(cfg: Config, s: State, backbone: Mac, addr: Mac, vid: Vid): Out
    requires ClaimsOk(s)
  {
    var sent := if backbone == cfg.primary then [SendClaim(cfg, s, addr, vid, UNCLAIM)] else [];
    if GwKey(backbone, vid) !in s.gws then Out(s, sent)
    else Out(DelClaim(cfg, s, ClaimKey(addr, vid)), sent)
  }

  /** batadv_handle_claim */
  function HandleClaim(cfg: Config, s: State, backbone: Mac, addr: Mac, vid: Vid, now: int): Out
    requires ClaimsOk(s)
  {
    var o := GetBackboneGw(cfg, s, GwKey(backbone, vid), false, now);
    Out(AddClaim(cfg, o.s, ClaimKey(addr, vid), GwKey(backbone, vid), now),
        o.sent + if backbone == cfg.primary then [SendClaim(cfg, s, addr, vid, CLAIM)] else [])
  }

  function Backbone(f: Frame): Mac {
    if f.kind == CLAIM then f.hwSrc else f.ethSrc
  }

  /** batadv_check_claim_group: is the frame one to process, and in which group are we then. */
  predicate Accepts(cfg: Config, s: State, f: Frame, inMesh: bool) {
    Backbone(f) != cfg.primary && (f.group == s.group || inMesh)
  }

  /** A frame takes this node into its group, when that is the larger one. */
  function Grouped(s: State, f: Frame): State {
    s.(group := if f.group > s.group then f.group else s.group)
  }

  /** What is done with an accepted frame, after the node has seen to its own entry. */
  ghost function Handled(cfg: Config, s: State, f: Frame, order: seq<ClaimKey>, now: int): Out
    requires ClaimsOk(s)
  {
    match f.kind
    case CLAIM => HandleClaim(cfg, s, f.hwSrc, f.ethSrc, f.vid, now)
    case UNCLAIM => HandleUnclaim(cfg, s, f.ethSrc, f.hwSrc, f.vid)
    case ANNOUNCE => HandleAnnounce(cfg, s, f.hwSrc, f.ethSrc, f.vid, now)
    case REQUEST => HandleRequest(cfg, s, f.hwSrc, f.ethDst, f.vid, order)
  }

  /** batadv_bla_process_claim, for a frame that is a claim frame; `inMesh` tells whether its
      backbone is a known originator. */
  ghost function ProcessClaim(cfg: Config, s: State, f: Frame, inMesh: bool, order: seq<ClaimKey>, now: int): Out
    requires ClaimsOk(s)
  {
    if !Accepts(cfg, s, f, inMesh) then Out(s, [])
    else
      var o := UpdateOwn(cfg, Grouped(s, f), f.vid, now);
      var o' := Handled(cfg, o.s, f, order, now);
      Out(o'.s, o.sent + o'.sent)
  }

  datatype Verdict = Verdict(o: Out, handled: bool)

  /** batadv_bla_rx: a frame from the mesh for client `src`; `bcast` for a multicast destination in a broadcast packet.
  */
  function BlaRx(cfg: Config, s: State, enabled: bool, src: Mac, vid: Vid, bcast: bool, now: int): Verdict
    requires ClaimsOk(s)
  {
    var c := ClaimKey(src, vid);
    if !enabled then Verdict(UpdateOwn(cfg, s, vid, now), false)
    else if s.numRequests != 0 && bcast then Verdict(Out(s, []), true)
    else if c !in s.claims || (s.claims[c].owner.orig != cfg.primary && !bcast) then
      var o := HandleClaim(cfg, s, cfg.primary, src, vid, now);
      var o' := UpdateOwn(cfg, o.s, vid, now);
      Verdict(Out(o'.s, o.sent + o'.sent), false)
    else if s.claims[c].owner.orig == cfg.primary then
      Verdict(UpdateOwn(cfg, s.(claims := s.claims[c := s.claims[c].(lasttime := now)]), vid, now), false)
    else Verdict(Out(s, []), true)
  }

  /** batadv_bla_tx, for a frame from the LAN that is not a claim frame. */
  function BlaTx(cfg: Config, s: State, enabled: bool, src: Mac, vid: Vid, multicast: bool, now: int): Verdict
    requires ClaimsOk(s)
  {
    var c := ClaimKey(src, vid);
    if !enabled then Verdict(UpdateOwn(cfg, s, vid, now), false)
    else if s.numRequests != 0 && multicast then Verdict(Out(s, []), true)
    else if c !in s.claims then Verdict(UpdateOwn(cfg, s, vid, now), false)
    else if s.claims[c].owner.orig == cfg.primary then
      var o := HandleUnclaim(cfg, s, cfg.primary, src, vid);
      var o' := UpdateOwn(cfg, o.s, vid, now);
      Verdict(Out(o'.s, o.sent + o'.sent), false)
    else if multicast then Verdict(Out(s, []), true)
    else Verdict(UpdateOwn(cfg, s, vid, now), false)
  }

  // ---- periodic work ------------------------------------------------------------

  function PurgeClaim(cfg: Config, s: State, c: ClaimKey, all: bool, now: int): Out
    requires ClaimsOk(s)
  {
    if c in s.claims
       && (all || (s.claims[c].owner.orig == cfg.primary && HasTimedOut(s.claims[c].lasttime, CLAIM_TIMEOUT, now)))
    then HandleUnclaim(cfg, s, s.claims[c].owner.orig, c.addr, c.vid)
    else Out(s, [])
  }

  /** batadv_bla_purge_claims, over the claim hash in the order `order`. */
  ghost function PurgeClaims(cfg: Config, s: State, order: seq<ClaimKey>, all: bool, now: int): (o: Out)
    requires ClaimsOk(s)
    ensures ClaimsOk(o.s)
  {
    if order == [] then Out(s, [])
    else
      var n := |order| - 1;
      var o := PurgeClaims(cfg, s, order[..n], all, now);
      var o' := PurgeClaim(cfg, o.s, order[n], all, now);
      Out(o'.s, o.sent + o'.sent)
  }

  /** One entry of batadv_bla_purge_backbone_gw. */
  ghost function PurgeGw(s: State, g: GwKey, all: bool, now: int): State {
    if g in s.gws && (all || HasTimedOut(s.gws[g].lasttime, BACKBONE_TIMEOUT, now)) then
      var s' := DelBackboneClaims(s, g);
      s'.(gws := s'.gws - {g}, numRequests := if s.gws[g].requestSent then s.numRequests - 1 else s.numRequests)
    else s
  }

  ghost function PurgeGws(s: State, order: seq<GwKey>, all: bool, now: int): State {
    if order == [] then s else PurgeGw(PurgeGws(s, order[..|order| - 1], all, now), order[|order| - 1], all, now)
  }

  /** What the periodic work does for one backbone gateway. */
  function TickGw(cfg: Config, s: State, g: GwKey, now: int): Out {
    if g !in s.gws || g.orig != cfg.primary then Out(s, [])
    else
      var s1 := Touched(s, g, now);
      var sent := [SendAnnounce(cfg, s1, g)];
      if !s1.gws[g].requestSent then Out(s1, sent)
      else
        var w := s1.gws[g].waitPeriods - 1;
        var s2 := s1.(gws := s1.gws[g := s1.gws[g].(waitPeriods := w)]);
        Out(if w == 0 then SetRequestSent(s2, g, false) else s2, sent)
  }

  ghost function TickGws(cfg: Config, s: State, order: seq<GwKey>, now: int): Out {
    if order == [] then Out(s, [])
    else
      var o := TickGws(cfg, s, order[..|order| - 1], now);
      var o' := TickGw(cfg, o.s, order[|order| - 1], now);
      Out(o'.s, o.sent + o'.sent)
  }

  /** batadv_bla_periodic_work: walks over the claims and twice over the gateways. */
  ghost function PeriodicWork(cfg: Config, s: State, enabled: bool, corder: seq<ClaimKey>, gorder: seq<GwKey>,
                              torder: seq<GwKey>, now: int): Out
    requires ClaimsOk(s)
  {
    var o := PurgeClaims(cfg, s, corder, false, now);
    var s' := PurgeGws(o.s, gorder, false, now);
    if !enabled then Out(s', o.sent)
    else
      var o' := TickGws(cfg, s', torder, now);
      Out(o'.s, o.sent + o'.sent)
  }

  // ---- what walks leave behind --------------------------------------------------------

  /** A walk over a table meets each of its keys once. */
  ghost predicate Walks<T>(order: seq<T>, keys: set<T>) {
    Distinct(order) && Members(order) == keys
  }

  lemma WalkFacts<T>(order: seq<T>, keys: set<T>)
    requires Walks(order, keys)
    ensures Distinct(order) && forall k :: k in keys <==> k in order
  {
    assert forall k :: k in order <==> k in Members(order);
  }

  predicate ClaimGoes(cfg: Config, cl: Claim, all: bool, now: int) {
    all || (cl.owner.orig == cfg.primary && HasTimedOut(cl.lasttime, CLAIM_TIMEOUT, now))
  }

  predicate GwGoes(v: Gw, all: bool, now: int) {
    all || HasTimedOut(v.lasttime, BACKBONE_TIMEOUT, now)
  }

  /** Same gateways, and only checksums and references may differ. */
  ghost predicate SameGws(s: State, s': State) {
    s'.gws.Keys == s.gws.Keys && s'.group == s.group && s'.numRequests == s.numRequests
    && forall g :: g in s.gws ==> s'.gws[g] == s.gws[g].(crc := s'.gws[g].crc, refcount := s'.gws[g].refcount)
  }

  lemma SameGwsAgain(s: State, s1: State, s2: State)
    requires SameGws(s, s1) && SameGws(s1, s2)
    ensures SameGws(s, s2)
  {
  }

  ghost function ClaimsLeft(cfg: Config, claims: map<ClaimKey, Claim>, order: seq<ClaimKey>, all: bool,
                            now: int): map<ClaimKey, Claim> {
    map c | c in claims && !(c in order && ClaimGoes(cfg, claims[c], all, now)) :: claims[c]
  }

  lemma ClaimsLeftOne(cfg: Config, claims: map<ClaimKey, Claim>, order: seq<ClaimKey>, c: ClaimKey, all: bool, now: int)
    ensures var left := ClaimsLeft(cfg, claims, order, all, now);
            ClaimsLeft(cfg, claims, order + [c], all, now)
            == if c in left && ClaimGoes(cfg, left[c], all, now) then left - {c} else left
    ensures ClaimsLeft(cfg, claims, [], all, now) == claims
  {
  }

  /** A purge of claims removes exactly the own claims it meets that have timed out, or all it meets. */
  lemma {:induction false} PurgeClaimsLeaves(cfg: Config, s: State, order: seq<ClaimKey>, all: bool, now: int)
    requires ClaimsOk(s)
    ensures var s' := PurgeClaims(cfg, s, order, all, now).s;
            s'.claims == ClaimsLeft(cfg, s.claims, order, all, now) && SameGws(s, s')
  {
    hide ClaimsLeft, ClaimGoes, ClaimsOk, SameGws, PurgeClaim;
    if order == [] {
      ClaimsLeftOne(cfg, s.claims, [], ClaimKey(cfg.primary, 0), all, now);
      SameGwsSelf(s);
    } else {
      var init, c := order[..|order| - 1], order[|order| - 1];
      PurgeClaimsLeaves(cfg, s, init, all, now);
      assert order == init + [c];
      var s1 := PurgeClaims(cfg, s, init, all, now).s;
      PurgeClaimLeaves(cfg, s1, c, all, now);
      ClaimsLeftOne(cfg, s.claims, init, c, all, now);
      SameGwsAgain(s, s1, PurgeClaim(cfg, s1, c, all, now).s);
    }
  }

  /** The UNCLAIM frames for the own claims among `order` that go. */
  ghost function UnclaimFrames(cfg: Config, s: State, order: seq<ClaimKey>, all: bool, now: int): seq<Frame> {
    if order == [] then []
    else
      var c := order[|order| - 1];
      UnclaimFrames(cfg, s, order[..|order| - 1], all, now)
      + if c in s.claims && ClaimGoes(cfg, s.claims[c], all, now) && s.claims[c].owner.orig == cfg.primary
        then [SendClaim(cfg, s, c.addr, c.vid, UNCLAIM)] else []
  }

  /** A purge of claims sends an UNCLAIM for each own claim that it removes, and nothing else. */
  lemma {:induction false} PurgeClaimsSends(cfg: Config, s: State, order: seq<ClaimKey>, all: bool, now: int)
    requires ClaimsOk(s) && Distinct(order)
    ensures PurgeClaims(cfg, s, order, all, now).sent == UnclaimFrames(cfg, s, order, all, now)
  {
    hide ClaimsLeft, ClaimGoes, ClaimsOk, SameGws, PurgeClaim;
    if order == [] {
    } else {
      var init, c := order[..|order| - 1], order[|order| - 1];
      assert order == init + [c] && c !in init;
      PurgeClaimsSends(cfg, s, init, all, now);
      PurgeClaimsLeaves(cfg, s, init, all, now);
      PurgeClaimSends(cfg, s, PurgeClaims(cfg, s, init, all, now).s, init, c, all, now);
    }
  }

  lemma PurgeClaimSends(cfg: Config, s: State, s': State, order: seq<ClaimKey>, c: ClaimKey, all: bool, now: int)
    requires c !in order && ClaimsOk(s') && s'.claims == ClaimsLeft(cfg, s.claims, order, all, now) && SameGws(s, s')
    ensures PurgeClaim(cfg, s', c, all, now).sent
            == if c in s.claims && ClaimGoes(cfg, s.claims[c], all, now) && s.claims[c].owner.orig == cfg.primary
               then [SendClaim(cfg, s, c.addr, c.vid, UNCLAIM)] else []
  {
  }

  lemma SameGwsSelf(s: State)
    ensures SameGws(s, s)
  {
  }

  lemma PurgeClaimLeaves(cfg: Config, s: State, c: ClaimKey, all: bool, now: int)
    requires ClaimsOk(s)
    ensures var s' := PurgeClaim(cfg, s, c, all, now).s;
            && s'.claims
               == (if c in s.claims && ClaimGoes(cfg, s.claims[c], all, now) then s.claims - {c} else s.claims)
            && SameGws(s, s')
  {
    hide Xor;
  }

  ghost function GwsLeft(gws: map<GwKey, Gw>, order: seq<GwKey>, all: bool, now: int): map<GwKey, Gw> {
    map g | g in gws && !(g in order && GwGoes(gws[g], all, now)) :: gws[g]
  }

  /** The claims whose owners have stayed. */
  ghost function ClaimsOf(claims: map<ClaimKey, Claim>, gws: map<GwKey, Gw>, left: map<GwKey, Gw>)
    : map<ClaimKey, Claim>
  {
    map c | c in claims && (claims[c].owner in gws ==> claims[c].owner in left) :: claims[c]
  }

  lemma GwsLeftOne(gws: map<GwKey, Gw>, claims: map<ClaimKey, Claim>, order: seq<GwKey>, g: GwKey, all: bool, now: int)
    ensures var left, left' := GwsLeft(gws, order, all, now), GwsLeft(gws, order + [g], all, now);
            && left' == (if g in left && GwGoes(left[g], all, now) then left - {g} else left)
            && ClaimsOf(ClaimsOf(claims, gws, left), left, left') == ClaimsOf(claims, gws, left')
    ensures GwsLeft(gws, [], all, now) == gws && ClaimsOf(claims, gws, gws) == claims
  {
  }

  /** A purge of gateways removes exactly those it meets that have timed out, or all it meets, each with its claims. */
  lemma {:induction false} PurgeGwsLeaves(s: State, order: seq<GwKey>, all: bool, now: int)
    ensures var s' := PurgeGws(s, order, all, now);
            && s'.gws == GwsLeft(s.gws, order, all, now) && s'.claims == ClaimsOf(s.claims, s.gws, s'.gws)
                 && s'.group == s.group
  {
    hide GwsLeft, ClaimsOf, GwGoes, PurgeGw;
    if order == [] {
      GwsLeftOne(s.gws, s.claims, [], GwKey(BROADCAST, 0), all, now);
    } else {
      var init, g := order[..|order| - 1], order[|order| - 1];
      PurgeGwsLeaves(s, init, all, now);
      assert order == init + [g];
      PurgeGwLeaves(PurgeGws(s, init, all, now), g, all, now);
      GwsLeftOne(s.gws, s.claims, init, g, all, now);
    }
  }

  lemma PurgeGwLeaves(s: State, g: GwKey, all: bool, now: int)
    ensures var s' := PurgeGw(s, g, all, now);
            && s'.gws == (if g in s.gws && GwGoes(s.gws[g], all, now) then s.gws - {g} else s.gws)
            && s'.claims == ClaimsOf(s.claims, s.gws, s'.gws) && s'.group == s.group
  {
  }

  /** The gateway entry after the periodic work for it. */
  function Ticked(v: Gw, now: int): Gw {
    if !v.requestSent then v.(lasttime := now)
    else v.(lasttime := now, waitPeriods := v.waitPeriods - 1, requestSent := v.waitPeriods != 1)
  }

  ghost function AllTicked(cfg: Config, gws: map<GwKey, Gw>, order: seq<GwKey>, now: int): map<GwKey, Gw> {
    map g | g in gws :: if g in order && g.orig == cfg.primary then Ticked(gws[g], now) else gws[g]
  }

  lemma AllTickedOne(cfg: Config, gws: map<GwKey, Gw>, order: seq<GwKey>, g: GwKey, now: int)
    requires g !in order
    ensures var t := AllTicked(cfg, gws, order, now);
            && AllTicked(cfg, gws, order + [g], now)
                 == (if g in t && g.orig == cfg.primary then t[g := Ticked(t[g], now)] else t)
            && (g in gws ==> g in t && t[g] == gws[g])
    ensures AllTicked(cfg, gws, [], now) == gws
  {
  }

  /** The periodic work refreshes and announces every own gateway it meets and counts down its waiting time. */
  lemma {:induction false} TickGwsDoes(cfg: Config, s: State, order: seq<GwKey>, now: int)
    requires Distinct(order)
    ensures var o := TickGws(cfg, s, order, now);
            && o.s.claims == s.claims && o.s.group == s.group && o.s.gws == AllTicked(cfg, s.gws, order, now)
            && forall g :: g in s.gws && g in order && g.orig == cfg.primary ==> SendAnnounce(cfg, s, g) in o.sent
  {
    hide AllTicked, Ticked, TickGw, SendAnnounce;
    if order == [] {
      AllTickedOne(cfg, s.gws, [], GwKey(BROADCAST, 0), now);
    } else {
      var init, g := order[..|order| - 1], order[|order| - 1];
      TickGwsDoes(cfg, s, init, now);
      assert order == init + [g] && g !in init;
      var o := TickGws(cfg, s, init, now);
      TickGwDoes(cfg, o.s, g, now);
      AllTickedOne(cfg, s.gws, init, g, now);
      AnnounceSame(cfg, s, o.s, g);
    }
  }

  lemma AnnounceSame(cfg: Config, s: State, s': State, g: GwKey)
    ensures g in s.gws && g in s'.gws && s.group == s'.group && s.gws[g].crc == s'.gws[g].crc
            ==> SendAnnounce(cfg, s, g) == SendAnnounce(cfg, s', g)
  {
  }

  lemma TickGwDoes(cfg: Config, s: State, g: GwKey, now: int)
    ensures var o := TickGw(cfg, s, g, now);
            && o.s.claims == s.claims && o.s.group == s.group
            && o.s.gws == (if g in s.gws && g.orig == cfg.primary then s.gws[g := Ticked(s.gws[g], now)] else s.gws)
            && (g in s.gws && g.orig == cfg.primary ==> o.sent == [SendAnnounce(cfg, s, g)])
  {
  }

  /** Both purges, walking over the whole tables. */
  lemma PurgesLeave(cfg: Config, s: State, corder: seq<ClaimKey>, gorder: seq<GwKey>, all: bool, now: int)
    requires ClaimsOk(s) && Walks(corder, s.claims.Keys) && Walks(gorder, s.gws.Keys)
    ensures var s' := PurgeGws(PurgeClaims(cfg, s, corder, all, now).s, gorder, all, now);
            && (forall c :: c in s'.claims <==> c in s.claims && !ClaimGoes(cfg, s.claims[c], all, now)
                                                && !GwGoes(s.gws[s.claims[c].owner], all, now))
            && (forall g :: g in s'.gws <==> g in s.gws && !GwGoes(s.gws[g], all, now))
  {
    hide PurgeClaims, PurgeGws, HasTimedOut;
    PurgeClaimsLeaves(cfg, s, corder, all, now);
    PurgeGwsLeaves(PurgeClaims(cfg, s, corder, all, now).s, gorder, all, now);
    assert forall c :: c in s.claims ==> c in Members(corder);
    assert forall g :: g in s.gws ==> g in Members(gorder);
  }

  /** After the periodic work no own claim and no gateway is left that had timed out, and every own gateway that is left
      has been announced. */
  lemma PeriodicDoes(cfg: Config, s: State, corder: seq<ClaimKey>, gorder: seq<GwKey>, torder: seq<GwKey>, now: int)
    requires ClaimsOk(s) && Walks(corder, s.claims.Keys) && Walks(gorder, s.gws.Keys)
    requires Walks(torder, PurgeGws(PurgeClaims(cfg, s, corder, false, now).s, gorder, false, now).gws.Keys)
    ensures var o := PeriodicWork(cfg, s, true, corder, gorder, torder, now);
            && (forall c :: c in o.s.claims <==> c in s.claims && !ClaimGoes(cfg, s.claims[c], false, now)
                                                 && !GwGoes(s.gws[s.claims[c].owner], false, now))
            && (forall g :: g in o.s.gws <==> g in s.gws && !GwGoes(s.gws[g], false, now))
            && (forall g :: g in o.s.gws && g.orig == cfg.primary
                  ==> SendAnnounce(cfg, o.s, g) in o.sent && o.s.gws[g].lasttime == now)
  {
    hide PurgeClaims, PurgeGws, TickGws, ClaimGoes, GwGoes, ClaimsOk, Walks, SendAnnounce;
    PurgesLeave(cfg, s, corder, gorder, false, now);
    var s' := PurgeGws(PurgeClaims(cfg, s, corder, false, now).s, gorder, false, now);
    WalkFacts(torder, s'.gws.Keys);
    TickGwsDoes(cfg, s', torder, now);
    forall g | g in s'.gws && g.orig == cfg.primary
      ensures SendAnnounce(cfg, TickGws(cfg, s', torder, now).s, g) == SendAnnounce(cfg, s', g)
    {
      AnnounceSame(cfg, s', TickGws(cfg, s', torder, now).s, g);
    }
  }

  /** In milliseconds: own claims stay for 100 seconds, gateways with all their claims for 60. */
  lemma PeriodicKeeps(cfg: Config, s: State, corder: seq<ClaimKey>, gorder: seq<GwKey>, torder: seq<GwKey>, now: int)
    requires ClaimsOk(s) && Walks(corder, s.claims.Keys) && Walks(gorder, s.gws.Keys)
    requires Walks(torder, PurgeGws(PurgeClaims(cfg, s, corder, false, now).s, gorder, false, now).gws.Keys)
    ensures var s' := PeriodicWork(cfg, s, true, corder, gorder, torder, now).s;
            && (forall c :: c in s'.claims <==>
                  && c in s.claims && now - s.gws[s.claims[c].owner].lasttime <= 60_000
                  && (s.claims[c].owner.orig == cfg.primary ==> now - s.claims[c].lasttime <= 100_000))
            && (forall g :: g in s'.gws <==> g in s.gws && now - s.gws[g].lasttime <= 60_000)
  {
    hide PurgeClaims, PurgeGws, PeriodicWork, Walks;
    PeriodicDoes(cfg, s, corder, gorder, torder, now);
  }

  /** A shutdown leaves nothing: no claim, no gateway and no pending request. */
  lemma ShutdownEmpties(cfg: Config, s: State, corder: seq<ClaimKey>, gorder: seq<GwKey>, now: int)
    requires Inv(cfg, s) && ClaimsOk(s) && Walks(corder, s.claims.Keys) && Walks(gorder, s.gws.Keys)
    ensures var s' := Step(cfg, s, Shutdown(corder, gorder), now).s;
            s'.claims == map[] && s'.gws == map[] && s'.numRequests == 0
  {
    StepKeeps(cfg, s, Shutdown(corder, gorder), now);
    hide PurgeClaims, PurgeGws, GwOk, Walks;
    PurgesLeave(cfg, s, corder, gorder, true, now);
    var s' := PurgeGws(PurgeClaims(cfg, s, corder, true, now).s, gorder, true, now);
    assert s'.claims == map[] && s'.gws == map[];
    assert Pending(s') == {};
  }

  // ---- every step keeps the invariant ------------------------------------------------

  /** Claims and their owners untouched, checksums and references too. */
  ghost predicate SameClaims(s: State, s': State) {
    && s'.claims.Keys == s.claims.Keys && (forall c :: c in s.claims ==> s'.claims[c].owner == s.claims[c].owner)
    && (forall g :: g in s.gws
          ==> g in s'.gws && s'.gws[g].crc == s.gws[g].crc && s'.gws[g].refcount == s.gws[g].refcount)
  }

  lemma SameClaimsKeep(cfg: Config, s: State, s': State)
    requires Inv(cfg, s) && SameClaims(s, s')
    requires forall g :: g in s'.gws && g !in s.gws ==> s'.gws[g].crc == CRC_INIT && s'.gws[g].refcount == 1
    requires s'.numRequests == |Pending(s')|
    ensures Inv(cfg, s')
  {
    forall g | g in s'.gws
      ensures GwOk(cfg, s', g)
    {
      assert Owned(s', g) == Owned(s, g);
      if g in s.gws {
        assert GwOk(cfg, s, g);
      } else {
        assert Owned(s, g) == {};
      }
    }
  }

  lemma GwGains(cfg: Config, s: State, s': State, g: GwKey, c: ClaimKey)
    requires g in s.gws && g in s'.gws && GwOk(cfg, s, g) && c !in Owned(s, g) && Owned(s', g) == Owned(s, g) + {c}
    requires s'.gws[g].crc == Xor(s.gws[g].crc, cfg.crc16(c.addr)) && s'.gws[g].refcount == s.gws[g].refcount + 1
    ensures GwOk(cfg, s', g)
  {
    hide Owned, XorOver, Xor;
    XorAdd(cfg.crc16, Owned(s, g), c);
  }

  lemma GwLoses(cfg: Config, s: State, s': State, g: GwKey, c: ClaimKey)
    requires g in s.gws && g in s'.gws && GwOk(cfg, s, g) && c in Owned(s, g) && Owned(s', g) == Owned(s, g) - {c}
    requires s'.gws[g].crc == Xor(s.gws[g].crc, cfg.crc16(c.addr)) && s'.gws[g].refcount == s.gws[g].refcount - 1
    ensures GwOk(cfg, s', g)
  {
    hide Owned, XorOver, Xor;
    XorDrop(cfg.crc16, Owned(s, g), c);
  }

  lemma TouchedKeeps(cfg: Config, s: State, g: GwKey, now: int)
    requires Inv(cfg, s) && g in s.gws
    ensures Inv(cfg, Touched(s, g, now))
  {
    assert Pending(Touched(s, g, now)) == Pending(s);
    SameClaimsKeep(cfg, s, Touched(s, g, now));
  }

  lemma GetKeeps(cfg: Config, s: State, g: GwKey, own: bool, now: int)
    requires Inv(cfg, s)
    ensures Inv(cfg, GetBackboneGw(cfg, s, g, own, now).s)
  {
    hide GwOk, ClaimsOk;
    var s' := GetBackboneGw(cfg, s, g, own, now).s;
    if g !in s.gws {
      assert Pending(s') == if own then Pending(s) + {g} else Pending(s);
      SameClaimsKeep(cfg, s, s');
    }
  }

  lemma UpdateOwnKeeps(cfg: Config, s: State, vid: Vid, now: int)
    requires Inv(cfg, s)
    ensures Inv(cfg, UpdateOwn(cfg, s, vid, now).s)
  {
    GetKeeps(cfg, s, GwKey(cfg.primary, vid), true, now);
    TouchedKeeps(cfg, GetBackboneGw(cfg, s, GwKey(cfg.primary, vid), true, now).s, GwKey(cfg.primary, vid), now);
  }

  lemma SetRequestSentKeeps(cfg: Config, s: State, g: GwKey, value: bool)
    requires Inv(cfg, s) && g in s.gws
    ensures Inv(cfg, SetRequestSent(s, g, value))
  {
    hide GwOk, ClaimsOk;
    var s' := SetRequestSent(s, g, value);
    assert s'.numRequests == |Pending(s')| by {
      if value {
        assert Pending(s') == Pending(s) + {g};
      } else {
        assert Pending(s') == Pending(s) - {g};
      }
    }
    SameClaimsKeep(cfg, s, s');
  }

  lemma DelBackboneKeeps(cfg: Config, s: State, g: GwKey)
    requires Inv(cfg, s) && g in s.gws
    ensures Inv(cfg, DelBackboneClaims(s, g)) && Owned(DelBackboneClaims(s, g), g) == {}
  {
    var s' := DelBackboneClaims(s, g);
    assert Pending(s') == Pending(s);
    forall h | h in s'.gws
      ensures GwOk(cfg, s', h)
    {
      assert GwOk(cfg, s, h);
      assert Owned(s', h) == if h == g then {} else Owned(s, h);
    }
  }

  lemma DelClaimKeeps(cfg: Config, s: State, c: ClaimKey)
    requires Inv(cfg, s)
    ensures Inv(cfg, DelClaim(cfg, s, c))
  {
    hide GwOk, Xor;
    if c in s.claims {
      var s' := DelClaim(cfg, s, c);
      assert Pending(s') == Pending(s);
      forall h | h in s'.gws
        ensures GwOk(cfg, s', h)
      {
        DelKeepsOk(cfg, s, c, h);
      }
    }
  }

  lemma DelKeepsOk(cfg: Config, s: State, c: ClaimKey, h: GwKey)
    requires c in s.claims && s.claims[c].owner in s.gws && h in s.gws && GwOk(cfg, s, h)
    ensures h in DelClaim(cfg, s, c).gws && GwOk(cfg, DelClaim(cfg, s, c), h)
  {
    hide XorOver, Xor;
    var s' := DelClaim(cfg, s, c);
    if h == s.claims[c].owner {
      assert Owned(s', h) == Owned(s, h) - {c};
      GwLoses(cfg, s, s', h, c);
    } else {
      assert Owned(s', h) == Owned(s, h);
    }
  }

  lemma AddNewKeeps(cfg: Config, s: State, c: ClaimKey, g: GwKey, now: int)
    requires Inv(cfg, s) && g in s.gws && g.vid == c.vid && c !in s.claims
    ensures Inv(cfg, AddClaim(cfg, s, c, g, now))
  {
    hide Owned, XorOver, Xor;
    var s' := AddClaim(cfg, s, c, g, now);
    assert s'.numRequests == |Pending(s')| by {
      hide GwOk, ClaimsOk;
      assert Pending(s') == Pending(s);
    }
    forall h | h in s'.gws
      ensures GwOk(cfg, s', h)
    {
      hide Owned, XorOver, Xor;
      AddNewOwned(cfg, s, c, g, now, h);
      if h == g {
        GwGains(cfg, s, s', g, c);
      }
    }
  }

  lemma AddNewOwned(cfg: Config, s: State, c: ClaimKey, g: GwKey, now: int, h: GwKey)
    requires g in s.gws && c !in s.claims
    ensures c !in Owned(s, h)
    ensures Owned(AddClaim(cfg, s, c, g, now), h) == if h == g then Owned(s, h) + {c} else Owned(s, h)
  {
  }

  lemma AddClaimKeeps(cfg: Config, s: State, c: ClaimKey, g: GwKey, now: int)
    requires Inv(cfg, s) && g in s.gws && g.vid == c.vid
    ensures Inv(cfg, AddClaim(cfg, s, c, g, now))
  {
    if c !in s.claims {
      AddNewKeeps(cfg, s, c, g, now);
    } else if s.claims[c].owner == g {
      var s' := AddClaim(cfg, s, c, g, now);
      assert Pending(s') == Pending(s);
      SameClaimsKeep(cfg, s, s');
    } else {
      // a change of ownership is a release followed by a new claim
      var s1 := DelClaim(cfg, s, c);
      assert AddClaim(cfg, s1, c, g, now) == AddClaim(cfg, s, c, g, now) by {
        assert (s.claims - {c})[c := Claim(g, now)] == s.claims[c := Claim(g, now)];
      }
      hide *;
      DelClaimKeeps(cfg, s, c);
      AddNewKeeps(cfg, s1, c, g, now);
    }
  }

  lemma HandleClaimKeeps(cfg: Config, s: State, backbone: Mac, addr: Mac, vid: Vid, now: int)
    requires Inv(cfg, s)
    ensures Inv(cfg, HandleClaim(cfg, s, backbone, addr, vid, now).s)
  {
    GetKeeps(cfg, s, GwKey(backbone, vid), false, now);
    AddClaimKeeps(cfg, GetBackboneGw(cfg, s, GwKey(backbone, vid), false, now).s, ClaimKey(addr, vid),
        GwKey(backbone, vid), now);
  }

  lemma HandleAnnounceKeeps(cfg: Config, s: State, an: Mac, backbone: Mac, vid: Vid, now: int)
    requires Inv(cfg, s)
    ensures Inv(cfg, HandleAnnounce(cfg, s, an, backbone, vid, now).s)
  {
    var g := GwKey(backbone, vid);
    GetKeeps(cfg, s, g, false, now);
    var s0 := GetBackboneGw(cfg, s, g, false, now).s;
    TouchedKeeps(cfg, s0, g, now);
    var s1 := Touched(s0, g, now);
    DelBackboneKeeps(cfg, s1, g);
    SetRequestSentKeeps(cfg, DelBackboneClaims(s1, g), g, true);
    SetRequestSentKeeps(cfg, s1, g, false);
  }

  lemma ProcessClaimKeeps(cfg: Config, s: State, f: Frame, inMesh: bool, order: seq<ClaimKey>, now: int)
    requires Inv(cfg, s)
    ensures Inv(cfg, ProcessClaim(cfg, s, f, inMesh, order, now).s)
  {
    hide Inv, ClaimsOk, UpdateOwn, HandleClaim, HandleAnnounce, DelClaim, SendClaim, AnswerRequest;
    InvClaims(cfg, s);
    if Accepts(cfg, s, f, inMesh) {
      var s0 := s.(group := if f.group > s.group then f.group else s.group);
      GroupKeeps(cfg, s, s0.group);
      UpdateOwnKeeps(cfg, s0, f.vid, now);
      var s1 := UpdateOwn(cfg, s0, f.vid, now).s;
      InvClaims(cfg, s1);
      match f.kind
      case CLAIM => HandleClaimKeeps(cfg, s1, f.hwSrc, f.ethSrc, f.vid, now);
      case UNCLAIM => DelClaimKeeps(cfg, s1, ClaimKey(f.hwSrc, f.vid));
      case ANNOUNCE => HandleAnnounceKeeps(cfg, s1, f.hwSrc, f.ethSrc, f.vid, now);
      case REQUEST => AnswerSame(cfg, s1, f.vid, order);
    }
  }

  lemma GroupKeeps(cfg: Config, s: State, group: int)
    requires Inv(cfg, s)
    ensures Inv(cfg, s.(group := group))
  {
    assert Pending(s.(group := group)) == Pending(s);
    SameClaimsKeep(cfg, s, s.(group := group));
  }

  lemma AnswerSame(cfg: Config, s: State, vid: Vid, order: seq<ClaimKey>)
    ensures AnswerRequest(cfg, s, vid, order).s == s
  {
  }

  lemma InvClaims(cfg: Config, s: State)
    requires Inv(cfg, s)
    ensures ClaimsOk(s)
  {
  }

  lemma RefreshKeeps(cfg: Config, s: State, c: ClaimKey, now: int)
    requires Inv(cfg, s) && c in s.claims
    ensures Inv(cfg, s.(claims := s.claims[c := s.claims[c].(lasttime := now)]))
  {
    var s' := s.(claims := s.claims[c := s.claims[c].(lasttime := now)]);
    assert Pending(s') == Pending(s);
    SameClaimsKeep(cfg, s, s');
  }

  lemma BlaRxKeeps(cfg: Config, s: State, enabled: bool, src: Mac, vid: Vid, bcast: bool, now: int)
    requires Inv(cfg, s)
    ensures Inv(cfg, BlaRx(cfg, s, enabled, src, vid, bcast, now).o.s)
  {
    hide Inv, ClaimsOk, UpdateOwn, HandleClaim;
    InvClaims(cfg, s);
    var c := ClaimKey(src, vid);
    if c in s.claims {
      RefreshKeeps(cfg, s, c, now);
      UpdateOwnKeeps(cfg, s.(claims := s.claims[c := s.claims[c].(lasttime := now)]), vid, now);
    }
    UpdateOwnKeeps(cfg, s, vid, now);
    HandleClaimKeeps(cfg, s, cfg.primary, src, vid, now);
    UpdateOwnKeeps(cfg, HandleClaim(cfg, s, cfg.primary, src, vid, now).s, vid, now);
  }

  lemma BlaTxKeeps(cfg: Config, s: State, enabled: bool, src: Mac, vid: Vid, multicast: bool, now: int)
    requires Inv(cfg, s)
    ensures Inv(cfg, BlaTx(cfg, s, enabled, src, vid, multicast, now).o.s)
  {
    UpdateOwnKeeps(cfg, s, vid, now);
    DelClaimKeeps(cfg, s, ClaimKey(src, vid));
    UpdateOwnKeeps(cfg, HandleUnclaim(cfg, s, cfg.primary, src, vid).s, vid, now);
  }

  lemma {:induction false} PurgeClaimsKeeps(cfg: Config, s: State, order: seq<ClaimKey>, all: bool, now: int)
    requires Inv(cfg, s)
    ensures Inv(cfg, PurgeClaims(cfg, s, order, all, now).s)
  {
    if order == [] {
    } else {
      var n := |order| - 1;
      PurgeClaimsKeeps(cfg, s, order[..n], all, now);
      DelClaimKeeps(cfg, PurgeClaims(cfg, s, order[..n], all, now).s, order[n]);
    }
  }

  lemma PurgeGwKeeps(cfg: Config, s: State, g: GwKey, all: bool, now: int)
    requires Inv(cfg, s)
    ensures Inv(cfg, PurgeGw(s, g, all, now))
  {
    var s' := PurgeGw(s, g, all, now);
    if s' != s {
      var s1 := DelBackboneClaims(s, g);
      DelBackboneKeeps(cfg, s, g);
      DropUnusedKeeps(cfg, s1, g, s1.(gws := s1.gws - {g},
                      numRequests := if s1.gws[g].requestSent then s1.numRequests - 1 else s1.numRequests));
    }
  }

  lemma DropUnusedKeeps(cfg: Config, s: State, g: GwKey, s': State)
    requires Inv(cfg, s) && g in s.gws && Owned(s, g) == {}
    requires s' == s.(gws := s.gws - {g},
                      numRequests := if s.gws[g].requestSent then s.numRequests - 1 else s.numRequests)
    ensures Inv(cfg, s')
  {
    hide GwOk, Pending;
    PendingDropped(s, g, s');
    assert forall c :: c in s.claims && s.claims[c].owner == g ==> c in Owned(s, g);
    forall h | h in s'.gws
      ensures GwOk(cfg, s', h)
    {
      DropKeepsOk(cfg, s, s', h);
    }
  }

  lemma PendingDropped(s: State, g: GwKey, s': State)
    requires g in s.gws && s'.gws == s.gws - {g}
    ensures |Pending(s')| == if s.gws[g].requestSent then |Pending(s)| - 1 else |Pending(s)|
  {
    assert Pending(s') == Pending(s) - {g};
  }

  lemma DropKeepsOk(cfg: Config, s: State, s': State, h: GwKey)
    requires h in s.gws && h in s'.gws && s'.gws[h] == s.gws[h] && s'.claims == s.claims && GwOk(cfg, s, h)
    ensures GwOk(cfg, s', h)
  {
    hide XorOver;
    assert Owned(s', h) == Owned(s, h);
  }

  lemma {:induction false} PurgeGwsKeeps(cfg: Config, s: State, order: seq<GwKey>, all: bool, now: int)
    requires Inv(cfg, s)
    ensures Inv(cfg, PurgeGws(s, order, all, now))
  {
    if order == [] {
    } else {
      var n := |order| - 1;
      PurgeGwsKeeps(cfg, s, order[..n], all, now);
      PurgeGwKeeps(cfg, PurgeGws(s, order[..n], all, now), order[n], all, now);
    }
  }

  lemma WaitKeeps(cfg: Config, s: State, g: GwKey, periods: int)
    requires Inv(cfg, s) && g in s.gws
    ensures Inv(cfg, s.(gws := s.gws[g := s.gws[g].(waitPeriods := periods)]))
  {
    var s' := s.(gws := s.gws[g := s.gws[g].(waitPeriods := periods)]);
    assert Pending(s') == Pending(s);
    SameClaimsKeep(cfg, s, s');
  }

  lemma TickGwKeeps(cfg: Config, s: State, g: GwKey, now: int)
    requires Inv(cfg, s)
    ensures Inv(cfg, TickGw(cfg, s, g, now).s)
  {
    hide Inv, SetRequestSent;
    if g in s.gws && g.orig == cfg.primary {
      var s1 := Touched(s, g, now);
      TouchedKeeps(cfg, s, g, now);
      var w := s1.gws[g].waitPeriods - 1;
      WaitKeeps(cfg, s1, g, w);
      SetRequestSentKeeps(cfg, s1.(gws := s1.gws[g := s1.gws[g].(waitPeriods := w)]), g, false);
    }
  }

  lemma {:induction false} TickGwsKeeps(cfg: Config, s: State, order: seq<GwKey>, now: int)
    requires Inv(cfg, s)
    ensures Inv(cfg, TickGws(cfg, s, order, now).s)
  {
    if order == [] {
    } else {
      var n := |order| - 1;
      TickGwsKeeps(cfg, s, order[..n], now);
      TickGwKeeps(cfg, TickGws(cfg, s, order[..n], now).s, order[n], now);
    }
  }

  // ---- runs ---------------------------------------------------------------------------

  datatype Event =
    | ClaimFrame(f: Frame, inMesh: bool, order: seq<ClaimKey>)
    | FromMesh(enabled: bool, src: Mac, vid: Vid, bcast: bool)
    | FromLan(enabled: bool, src: Mac, vid: Vid, multicast: bool)
    | Periodic(enabled: bool, corder: seq<ClaimKey>, gorder: seq<GwKey>, torder: seq<GwKey>)
    | Shutdown(corder: seq<ClaimKey>, gorder: seq<GwKey>)

  ghost function Step(cfg: Config, s: State, e: Event, now: int): Out
    requires ClaimsOk(s)
  {
    match e
    case ClaimFrame(f, inMesh, order) => ProcessClaim(cfg, s, f, inMesh, order, now)
    case FromMesh(enabled, src, vid, bcast) => BlaRx(cfg, s, enabled, src, vid, bcast, now).o
    case FromLan(enabled, src, vid, multicast) => BlaTx(cfg, s, enabled, src, vid, multicast, now).o
    case Periodic(enabled, corder, gorder, torder) => PeriodicWork(cfg, s, enabled, corder, gorder, torder, now)
    case Shutdown(corder, gorder) =>
      var o := PurgeClaims(cfg, s, corder, true, now);
      Out(PurgeGws(o.s, gorder, true, now), o.sent)
  }

  lemma StepKeeps(cfg: Config, s: State, e: Event, now: int)
    requires Inv(cfg, s)
    ensures Inv(cfg, Step(cfg, s, e, now).s)
  {
    match e
    case ClaimFrame(f, inMesh, order) => ProcessClaimKeeps(cfg, s, f, inMesh, order, now);
    case FromMesh(enabled, src, vid, bcast) => BlaRxKeeps(cfg, s, enabled, src, vid, bcast, now);
    case FromLan(enabled, src, vid, multicast) => BlaTxKeeps(cfg, s, enabled, src, vid, multicast, now);
    case Periodic(enabled, corder, gorder, torder) =>
      PurgeClaimsKeeps(cfg, s, corder, false, now);
      var o := PurgeClaims(cfg, s, corder, false, now);
      PurgeGwsKeeps(cfg, o.s, gorder, false, now);
      TickGwsKeeps(cfg, PurgeGws(o.s, gorder, false, now), torder, now);
    case Shutdown(corder, gorder) =>
      PurgeClaimsKeeps(cfg, s, corder, true, now);
      PurgeGwsKeeps(cfg, PurgeClaims(cfg, s, corder, true, now).s, gorder, true, now);
  }

  /** The tables after a run of events, each with the time it happens at, from empty ones. In every
      run each gateway's checksum is the XOR over exactly the claims it owns, its references are the
      table's and theirs, and the request counter counts the pending entries. */
  ghost function Run(cfg: Config, group: int, es: seq<(Event, int)>): (s: State)
    ensures Inv(cfg, s)
  {
    if es == [] then
      var s := State(map[], map[], 0, group);
      assert Pending(s) == {};
      s
    else
      var s := Run(cfg, group, es[..|es| - 1]);
      var (e, now) := es[|es| - 1];
      StepKeeps(cfg, s, e, now);
      Step(cfg, s, e, now).s
  }
}
