// One gateway listening to another, amid all the other traffic: what it has registered for
// the other is what the other's frames say, and after an answered request what the other owns.
module BlaFollow {
  import opened Basics
  import opened BatmanCommon
  import opened BlaProtocol
  import opened BlaResync

  /** What is registered for a gateway, and whether its answer to a request is awaited. */
  datatype View = View(owned: set<ClaimKey>, pending: bool)

  ghost function ViewOf(s: State, g: GwKey): View {
    View(Owned(s, g), g in Pending(s))
  }

  /** The view of a gateway after a frame of its own. */
  ghost function Told(crc16: Mac -> Crc, v: View, f: Frame): View {
    match f.kind
    case CLAIM => v.(owned := v.owned + {ClaimKey(f.ethSrc, f.vid)})
    case UNCLAIM => v.(owned := v.owned - {ClaimKey(f.hwSrc, f.vid)})
    case ANNOUNCE =>
      if f.hwSrc.head != ANNOUNCE_HEAD then v
      else if f.hwSrc.tail == XorOver(crc16, v.owned) then v.(pending := false)
      else View({}, true)
    case REQUEST => v
  }

  ghost function ToldAll(crc16: Mac -> Crc, v: View, fs: seq<Frame>): View {
    if fs == [] then v else Told(crc16, ToldAll(crc16, v, fs[..|fs| - 1]), fs[|fs| - 1])
  }

  predicate IsOf(g: GwKey, f: Frame) {
    Backbone(f) == g.orig && f.vid == g.vid
  }

  /** Those frames that are of gateway `g`. */
  ghost function FramesOf(g: GwKey, fs: seq<Frame>): seq<Frame> {
    if fs == [] then []
    else FramesOf(g, fs[..|fs| - 1]) + if IsOf(g, fs[|fs| - 1]) then [fs[|fs| - 1]] else []
  }

  // ---- runs of one node ------------------------------------------------------------

  ghost function After(cfg: Config, s: State, es: seq<(Event, int)>): (r: State)
    requires Inv(cfg, s)
    ensures Inv(cfg, r)
  {
    if es == [] then s
    else
      var before, (e, now) := After(cfg, s, es[..|es| - 1]), es[|es| - 1];
      StepKeeps(cfg, before, e, now);
      Step(cfg, before, e, now).s
  }

  /** The frames of gateway `g` that arrive in the run. */
  ghost function Heard(g: GwKey, es: seq<(Event, int)>): seq<Frame> {
    if es == [] then []
    else
      var e := es[|es| - 1].0;
      Heard(g, es[..|es| - 1]) + if e.ClaimFrame? && IsOf(g, e.f) then [e.f] else []
  }

  /** The frames that the node sends in the run for its entry `g`. */
  ghost function Said(cfg: Config, s: State, g: GwKey, es: seq<(Event, int)>): seq<Frame>
    requires Inv(cfg, s)
  {
    if es == [] then []
    else
      var before, (e, now) := After(cfg, s, es[..|es| - 1]), es[|es| - 1];
      Said(cfg, s, g, es[..|es| - 1]) + FramesOf(g, Step(cfg, before, e, now).sent)
  }

  /** The event takes no client from gateway `g`, and `g` does not time out with it. */
  ghost predicate Spares(cfg: Config, s: State, g: GwKey, e: Event, now: int) {
    match e
    case ClaimFrame(f, inMesh, order) =>
      Accepts(cfg, s, f, inMesh) ==> && (f.kind == CLAIM ==> ClaimKey(f.ethSrc, f.vid) !in Owned(s, g))
                                     && (f.kind == UNCLAIM ==> ClaimKey(f.hwSrc, f.vid) !in Owned(s, g))
    case FromMesh(enabled, src, vid, bcast) => g.orig == cfg.primary || ClaimKey(src, vid) !in Owned(s, g)
    case FromLan(enabled, src, vid, multicast) => true
    case Periodic(enabled, corder, gorder, torder) => g in s.gws ==> !GwGoes(s.gws[g], false, now)
    case Shutdown(corder, gorder) => false
  }

  /** The event is an accepted frame of gateway `g`, or spares it. */
  ghost predicate Listens(cfg: Config, s: State, g: GwKey, e: Event, now: int) {
    if e.ClaimFrame? && IsOf(g, e.f) then Accepts(cfg, s, e.f, e.inMesh) else Spares(cfg, s, g, e, now)
  }

  ghost predicate AllListen(cfg: Config, s: State, g: GwKey, es: seq<(Event, int)>)
    requires Inv(cfg, s)
  {
    forall i :: 0 <= i < |es| ==> Listens(cfg, After(cfg, s, es[..i]), g, es[i].0, es[i].1)
  }

  ghost predicate AllSpare(cfg: Config, s: State, g: GwKey, es: seq<(Event, int)>)
    requires Inv(cfg, s)
  {
    forall i :: 0 <= i < |es| ==> Spares(cfg, After(cfg, s, es[..i]), g, es[i].0, es[i].1)
  }

  // ---- the listener ----------------------------------------------------------------

  lemma ClaimFollowed(cfg: Config, s: State, addr: Mac, backbone: Mac, vid: Vid, now: int, g: GwKey)
    requires ClaimsOk(s)
    ensures var c, s' := ClaimKey(addr, vid), HandleClaim(cfg, s, backbone, addr, vid, now).s;
            && Owned(s', g) == (if g == GwKey(backbone, vid) then Owned(s, g) + {c} else Owned(s, g) - {c})
            && (g in Pending(s') <==> g in Pending(s))
  {
  }

  lemma UnclaimFollowed(cfg: Config, s: State, addr: Mac, backbone: Mac, vid: Vid, g: GwKey)
    requires ClaimsOk(s)
    ensures var c, s' := ClaimKey(addr, vid), HandleUnclaim(cfg, s, backbone, addr, vid).s;
            && (c !in Owned(s, g) || g == GwKey(backbone, vid) ==> Owned(s', g) == Owned(s, g) - {c})
            && (g in Pending(s') <==> g in Pending(s))
  {
    hide Xor;
  }

  lemma AnnounceFollowed(cfg: Config, s: State, an: Mac, backbone: Mac, vid: Vid, now: int, g: GwKey)
    requires Inv(cfg, s)
    ensures var s' := HandleAnnounce(cfg, s, an, backbone, vid, now).s;
            if g != GwKey(backbone, vid) || an.head != ANNOUNCE_HEAD then ViewOf(s', g) == ViewOf(s, g)
            else if an.tail == XorOver(cfg.crc16, Owned(s, g)) then ViewOf(s', g) == View(Owned(s, g), false)
            else ViewOf(s', g) == View({}, true)
  {
    ViewIs(cfg, s, g);
    hide Inv, GwOk;
    if an.head == ANNOUNCE_HEAD {
      AnnounceKnown(cfg, s, an, GwKey(backbone, vid), now);
      AnnounceOthers(cfg, s, an, backbone, vid, now, g);
    }
  }

  lemma AnnounceOthers(cfg: Config, s: State, an: Mac, backbone: Mac, vid: Vid, now: int, g: GwKey)
    ensures var s' := HandleAnnounce(cfg, s, an, backbone, vid, now).s;
            g != GwKey(backbone, vid) ==> Owned(s', g) == Owned(s, g) && (g in Pending(s') <==> g in Pending(s))
  {
  }

  lemma OwnSameView(cfg: Config, s: State, vid: Vid, now: int, g: GwKey)
    requires g.orig != cfg.primary
    ensures ViewOf(UpdateOwn(cfg, s, vid, now).s, g) == ViewOf(s, g)
  {
  }

  lemma FirstSameView(cfg: Config, s: State, f: Frame, now: int, g: GwKey)
    requires g.orig != cfg.primary
    ensures ViewOf(OwnFirst(cfg, s, f, now).s, g) == ViewOf(s, g) && Owned(OwnFirst(cfg, s, f, now).s, g) == Owned(s, g)
  {
  }

  lemma FollowedHere(cfg: Config, s: State, f: Frame, order: seq<ClaimKey>, now: int, g: GwKey)
    requires Inv(cfg, s) && ClaimsOk(s) && g.orig != cfg.primary && Backbone(f) != cfg.primary
    requires IsOf(g, f) || ((f.kind == CLAIM ==> ClaimKey(f.ethSrc, f.vid) !in Owned(s, g))
                            && (f.kind == UNCLAIM ==> ClaimKey(f.hwSrc, f.vid) !in Owned(s, g)))
    ensures ViewOf(Handled(cfg, s, f, order, now).s, g)
            == if IsOf(g, f) then Told(cfg.crc16, ViewOf(s, g), f) else ViewOf(s, g)
  {
    hide Inv, ClaimsOk, Owned, Pending, XorOver, HandleClaim, HandleUnclaim, HandleAnnounce;
    match f.kind
    case CLAIM => ClaimFollowed(cfg, s, f.ethSrc, f.hwSrc, f.vid, now, g);
    case UNCLAIM => UnclaimFollowed(cfg, s, f.hwSrc, f.ethSrc, f.vid, g);
    case ANNOUNCE => AnnounceFollowed(cfg, s, f.hwSrc, f.ethSrc, f.vid, now, g);
    case REQUEST =>
  }

  /** A claim frame, accepted or not. */
  lemma FrameFollowed(cfg: Config, s: State, f: Frame, inMesh: bool, order: seq<ClaimKey>, now: int, g: GwKey)
    requires Inv(cfg, s) && g.orig != cfg.primary && Listens(cfg, s, g, ClaimFrame(f, inMesh, order), now)
    ensures ClaimsOk(s)
    ensures ViewOf(ProcessClaim(cfg, s, f, inMesh, order, now).s, g)
            == if IsOf(g, f) then Told(cfg.crc16, ViewOf(s, g), f) else ViewOf(s, g)
  {
    hide Inv, ClaimsOk, ProcessClaim, OwnFirst, Handled, Owned, Pending, Told, IsOf, ViewOf;
    Processed(cfg, s, f, inMesh, order, now);
    if Accepts(cfg, s, f, inMesh) {
      FirstSameView(cfg, s, f, now, g);
      FollowedHere(cfg, OwnFirst(cfg, s, f, now).s, f, order, now, g);
    }
  }

  lemma RxFollowed(cfg: Config, s: State, enabled: bool, src: Mac, vid: Vid, bcast: bool, now: int, g: GwKey)
    requires Inv(cfg, s) && g.orig != cfg.primary && ClaimKey(src, vid) !in Owned(s, g)
    ensures ClaimsOk(s) && ViewOf(BlaRx(cfg, s, enabled, src, vid, bcast, now).o.s, g) == ViewOf(s, g)
  {
    InvClaims(cfg, s);
    hide Inv, ClaimsOk, ViewOf, HandleClaim, UpdateOwn;
    var c := ClaimKey(src, vid);
    var h := HandleClaim(cfg, s, cfg.primary, src, vid, now).s;
    ClaimSameView(cfg, s, src, vid, now, g);
    OwnSameView(cfg, h, vid, now, g);
    OwnSameView(cfg, s, vid, now, g);
    if c in s.claims {
      var s' := s.(claims := s.claims[c := s.claims[c].(lasttime := now)]);
      RefreshSameView(s, c, now, g);
      OwnSameView(cfg, s', vid, now, g);
    }
  }

  lemma ClaimSameView(cfg: Config, s: State, src: Mac, vid: Vid, now: int, g: GwKey)
    requires ClaimsOk(s) && g.orig != cfg.primary && ClaimKey(src, vid) !in Owned(s, g)
    ensures ViewOf(HandleClaim(cfg, s, cfg.primary, src, vid, now).s, g) == ViewOf(s, g)
  {
    hide ClaimsOk, HandleClaim, Owned, Pending;
    ClaimFollowed(cfg, s, src, cfg.primary, vid, now, g);
  }

  lemma RefreshSameView(s: State, c: ClaimKey, now: int, g: GwKey)
    requires c in s.claims
    ensures ViewOf(s.(claims := s.claims[c := s.claims[c].(lasttime := now)]), g) == ViewOf(s, g)
  {
  }

  lemma TxFollowed(cfg: Config, s: State, enabled: bool, src: Mac, vid: Vid, multicast: bool, now: int, g: GwKey)
    requires Inv(cfg, s) && g.orig != cfg.primary
    ensures ClaimsOk(s) && ViewOf(BlaTx(cfg, s, enabled, src, vid, multicast, now).o.s, g) == ViewOf(s, g)
  {
    InvClaims(cfg, s);
    hide Inv, ClaimsOk, ViewOf, HandleUnclaim, UpdateOwn;
    var c := ClaimKey(src, vid);
    OwnSameView(cfg, s, vid, now, g);
    if c in s.claims && s.claims[c].owner.orig == cfg.primary {
      var h := HandleUnclaim(cfg, s, cfg.primary, src, vid).s;
      UnclaimSameView(cfg, s, src, vid, g);
      OwnSameView(cfg, h, vid, now, g);
    }
  }

  lemma UnclaimSameView(cfg: Config, s: State, src: Mac, vid: Vid, g: GwKey)
    requires ClaimsOk(s) && ClaimKey(src, vid) !in Owned(s, g)
    ensures ViewOf(HandleUnclaim(cfg, s, cfg.primary, src, vid).s, g) == ViewOf(s, g)
  {
    hide ClaimsOk, HandleUnclaim, Owned, Pending;
    UnclaimFollowed(cfg, s, src, cfg.primary, vid, g);
  }

  /** The periodic work touches no other gateway that has not timed out. */
  lemma PeriodicFollowed(cfg: Config, s: State, enabled: bool, corder: seq<ClaimKey>, gorder: seq<GwKey>,
                         torder: seq<GwKey>, now: int, g: GwKey)
    requires Inv(cfg, s) && g.orig != cfg.primary && (g in s.gws ==> !GwGoes(s.gws[g], false, now))
    ensures ClaimsOk(s) && ViewOf(PeriodicWork(cfg, s, enabled, corder, gorder, torder, now).s, g) == ViewOf(s, g)
  {
    InvClaims(cfg, s);
    hide Inv, ClaimsOk, PurgeClaims, PurgeGws, TickGws;
    var s1 := PurgeClaims(cfg, s, corder, false, now).s;
    var s2 := PurgeGws(s1, gorder, false, now);
    PurgeClaimsLeaves(cfg, s, corder, false, now);
    PurgeGwsLeaves(s1, gorder, false, now);
    TickSameView(cfg, s2, torder, now, g);
    PurgesSameView(cfg, s, s1, s2, corder, gorder, now, g);
  }

  lemma PurgesSameView(cfg: Config, s: State, s1: State, s2: State, corder: seq<ClaimKey>, gorder: seq<GwKey>, now: int,
                       g: GwKey)
    requires s1.claims == ClaimsLeft(cfg, s.claims, corder, false, now) && SameGws(s, s1)
    requires s2.gws == GwsLeft(s1.gws, gorder, false, now) && s2.claims == ClaimsOf(s1.claims, s1.gws, s2.gws)
    requires g.orig != cfg.primary && (g in s.gws ==> !GwGoes(s.gws[g], false, now))
    ensures ViewOf(s2, g) == ViewOf(s, g)
  {
  }

  lemma {:induction false} TickSameView(cfg: Config, s: State, order: seq<GwKey>, now: int, g: GwKey)
    requires g.orig != cfg.primary
    ensures ViewOf(TickGws(cfg, s, order, now).s, g) == ViewOf(s, g)
  {
    if order == [] {
    } else {
      TickSameView(cfg, s, order[..|order| - 1], now, g);
    }
  }

  lemma StepFollowed(cfg: Config, s: State, e: Event, now: int, g: GwKey)
    requires Inv(cfg, s) && g.orig != cfg.primary && Listens(cfg, s, g, e, now)
    ensures ClaimsOk(s)
    ensures ViewOf(Step(cfg, s, e, now).s, g)
            == if e.ClaimFrame? && IsOf(g, e.f) then Told(cfg.crc16, ViewOf(s, g), e.f) else ViewOf(s, g)
  {
    InvClaims(cfg, s);
    hide Inv, ClaimsOk, ViewOf, Owned, Pending, Told, IsOf, ProcessClaim, BlaRx, BlaTx, PeriodicWork;
    match e
    case ClaimFrame(f, inMesh, order) => FrameFollowed(cfg, s, f, inMesh, order, now, g);
    case FromMesh(enabled, src, vid, bcast) => RxFollowed(cfg, s, enabled, src, vid, bcast, now, g);
    case FromLan(enabled, src, vid, multicast) => TxFollowed(cfg, s, enabled, src, vid, multicast, now, g);
    case Periodic(enabled, corder, gorder, torder) => PeriodicFollowed(cfg, s, enabled, corder, gorder, torder, now, g);
    case Shutdown(corder, gorder) =>
  }

  /** In any run of a node that takes every frame of gateway `g`, with any other frames, payload and periodic work in
      between that spare `g`, what it has registered for `g` is what those frames say. */
  lemma {:induction false} Follows(cfg: Config, s: State, g: GwKey, es: seq<(Event, int)>)
    requires Inv(cfg, s) && g.orig != cfg.primary && AllListen(cfg, s, g, es)
    ensures ViewOf(After(cfg, s, es), g) == ToldAll(cfg.crc16, ViewOf(s, g), Heard(g, es))
  {
    hide Inv, ClaimsOk, ViewOf, Listens, Step, Told, IsOf;
    if es == [] {
    } else {
      var init, e, now := es[..|es| - 1], es[|es| - 1].0, es[|es| - 1].1;
      assert AllListen(cfg, s, g, init) by {
        assert forall i :: 0 <= i < |init| ==> init[i] == es[i] && init[..i] == es[..i];
      }
      Follows(cfg, s, g, init);
      StepFollowed(cfg, After(cfg, s, init), e, now, g);
      if e.ClaimFrame? && IsOf(g, e.f) {
        ToldMore(cfg.crc16, ViewOf(s, g), Heard(g, init), e.f);
      } else {
        assert Heard(g, es) == Heard(g, init);
      }
    }
  }

  lemma ToldMore(crc16: Mac -> Crc, v: View, fs: seq<Frame>, f: Frame)
    ensures ToldAll(crc16, v, fs + [f]) == Told(crc16, ToldAll(crc16, v, fs), f)
  {
    assert (fs + [f])[..|fs|] == fs;
  }

  // ---- the speaker -----------------------------------------------------------------

  /** A view that is a part of `o`, or all of it with nothing awaited. */
  ghost predicate Knows(whole: bool, v: View, o: set<ClaimKey>) {
    if whole then v == View(o, false) else v.owned <= o
  }

  /** Frames that let a view of `o` become one of `o'`. */
  ghost predicate Tells(crc16: Mac -> Crc, g: GwKey, whole: bool, fs: seq<Frame>, o: set<ClaimKey>, o': set<ClaimKey>) {
    forall v :: Knows(whole, v, o) ==> Knows(whole, ToldAll(crc16, v, FramesOf(g, fs)), o')
  }

  lemma {:induction false} FramesConcat(g: GwKey, a: seq<Frame>, b: seq<Frame>)
    ensures FramesOf(g, a + b) == FramesOf(g, a) + FramesOf(g, b)
  {
    if b == [] {
      assert a + b == a;
    } else {
      assert (a + b)[..|a + b| - 1] == a + b[..|b| - 1];
      FramesConcat(g, a, b[..|b| - 1]);
    }
  }

  lemma {:induction false} ToldConcat(crc16: Mac -> Crc, v: View, a: seq<Frame>, b: seq<Frame>)
    ensures ToldAll(crc16, v, a + b) == ToldAll(crc16, ToldAll(crc16, v, a), b)
  {
    hide Told;
    if b == [] {
      assert a + b == a;
    } else {
      assert (a + b)[..|a + b| - 1] == a + b[..|b| - 1];
      ToldConcat(crc16, v, a, b[..|b| - 1]);
    }
  }

  lemma TellsNothing(crc16: Mac -> Crc, g: GwKey, whole: bool, o: set<ClaimKey>)
    ensures Tells(crc16, g, whole, [], o, o)
  {
  }

  lemma TellsMore(crc16: Mac -> Crc, g: GwKey, whole: bool, a: seq<Frame>, b: seq<Frame>, o: set<ClaimKey>,
                  o1: set<ClaimKey>, o2: set<ClaimKey>)
    requires Tells(crc16, g, whole, a, o, o1) && Tells(crc16, g, whole, b, o1, o2)
    ensures Tells(crc16, g, whole, a + b, o, o2)
  {
    hide Knows, ToldAll, FramesOf;
    FramesConcat(g, a, b);
    forall v | Knows(whole, v, o)
      ensures Knows(whole, ToldAll(crc16, v, FramesOf(g, a + b)), o2)
    {
      ToldConcat(crc16, v, FramesOf(g, a), FramesOf(g, b));
    }
  }

  lemma OneFrame(crc16: Mac -> Crc, g: GwKey, f: Frame, v: View)
    ensures ToldAll(crc16, v, FramesOf(g, [f])) == if IsOf(g, f) then Told(crc16, v, f) else v
  {
    hide Told;
    assert FramesOf(g, []) == [];
    assert [f][..0] == [];
  }

  /** A single frame that says what it is to say. */
  lemma TellsOne(crc16: Mac -> Crc, g: GwKey, whole: bool, f: Frame, o: set<ClaimKey>, o': set<ClaimKey>)
    requires if !IsOf(g, f) then o' == o
             else match f.kind
                  case CLAIM => o' == o + {ClaimKey(f.ethSrc, f.vid)}
                  case UNCLAIM => o' == o - {ClaimKey(f.hwSrc, f.vid)}
                  case ANNOUNCE => o' == o && f.hwSrc == Mac(ANNOUNCE_HEAD, XorOver(crc16, o))
                  case REQUEST => o' == o
    ensures Tells(crc16, g, whole, [f], o, o')
  {
    hide ToldAll, FramesOf, XorOver;
    forall v | Knows(whole, v, o)
      ensures Knows(whole, ToldAll(crc16, v, FramesOf(g, [f])), o')
    {
      OneFrame(crc16, g, f, v);
    }
  }

  /** What a node sends in one step from `s` to `s'` tells about its own entry `g`. */
  ghost predicate Speaks(cfg: Config, whole: bool, s: State, o: Out, g: GwKey) {
    Tells(cfg.crc16, g, whole, o.sent, Owned(s, g), Owned(o.s, g))
  }

  lemma SpeaksNothing(cfg: Config, whole: bool, s: State, s': State, g: GwKey)
    requires Owned(s', g) == Owned(s, g)
    ensures Speaks(cfg, whole, s, Out(s', []), g)
  {
    TellsNothing(cfg.crc16, g, whole, Owned(s, g));
  }

  lemma SpeaksMore(cfg: Config, whole: bool, s: State, o: Out, o': Out, g: GwKey)
    requires Speaks(cfg, whole, s, o, g) && Speaks(cfg, whole, o.s, o', g)
    ensures Speaks(cfg, whole, s, Out(o'.s, o.sent + o'.sent), g)
  {
    hide Tells;
    TellsMore(cfg.crc16, g, whole, o.sent, o'.sent, Owned(s, g), Owned(o.s, g), Owned(o'.s, g));
  }

  /** An ANNOUNCE of an own entry. */
  lemma AnnounceSpeaks(cfg: Config, whole: bool, s: State, h: GwKey, s': State, g: GwKey)
    requires h in s.gws && GwOk(cfg, s, h) && h.orig == cfg.primary && Owned(s', g) == Owned(s, g)
    ensures Speaks(cfg, whole, s, Out(s', [SendAnnounce(cfg, s, h)]), g)
  {
    hide XorOver, Owned, Tells;
    TellsOne(cfg.crc16, g, whole, SendAnnounce(cfg, s, h), Owned(s, g), Owned(s, g));
  }

  lemma UpdateOwnSpeaks(cfg: Config, whole: bool, s: State, vid: Vid, now: int, g: GwKey)
    requires Inv(cfg, s)
    ensures Inv(cfg, UpdateOwn(cfg, s, vid, now).s) && Speaks(cfg, whole, s, UpdateOwn(cfg, s, vid, now), g)
    ensures Owned(UpdateOwn(cfg, s, vid, now).s, g) == Owned(s, g)
  {
    UpdateOwnKeeps(cfg, s, vid, now);
    var h, o := GwKey(cfg.primary, vid), UpdateOwn(cfg, s, vid, now);
    hide XorOver, Inv, Speaks;
    assert o.s.claims == s.claims;
    if h in s.gws {
      SpeaksNothing(cfg, whole, s, o.s, g);
    } else {
      var s' := GetBackboneGw(cfg, s, h, false, now).s;
      assert o.sent == [SendAnnounce(cfg, s', h)];
      NewIsOk(cfg, s, h, now);
      AnnounceSpeaks(cfg, whole, s', h, o.s, g);
      SameOwnedSpeaks(cfg, whole, s, s', o, g);
    }
  }

  lemma NewIsOk(cfg: Config, s: State, h: GwKey, now: int)
    requires Inv(cfg, s) && h !in s.gws
    ensures var s' := GetBackboneGw(cfg, s, h, false, now).s; h in s'.gws && GwOk(cfg, s', h)
  {
    GetKeeps(cfg, s, h, false, now);
  }

  lemma SameOwnedSpeaks(cfg: Config, whole: bool, s: State, s': State, o: Out, g: GwKey)
    requires s.claims == s'.claims && Speaks(cfg, whole, s', o, g)
    ensures Speaks(cfg, whole, s, o, g)
  {
    hide Tells;
    assert Owned(s, g) == Owned(s', g);
  }

  // ---- what each step tells --------------------------------------------------------

  lemma OwnClaimSpeaks(cfg: Config, whole: bool, s: State, src: Mac, vid: Vid, now: int, g: GwKey)
    requires ClaimsOk(s) && g.orig == cfg.primary
    ensures Speaks(cfg, whole, s, HandleClaim(cfg, s, cfg.primary, src, vid, now), g)
  {
    var o := HandleClaim(cfg, s, cfg.primary, src, vid, now);
    assert o.sent == [SendClaim(cfg, s, src, vid, CLAIM)];
    VlanOf(s, g, ClaimKey(src, vid));
    ClaimFollowed(cfg, s, src, cfg.primary, vid, now, g);
    hide ClaimsOk, HandleClaim, Tells, Owned, Pending;
    TellsOne(cfg.crc16, g, whole, SendClaim(cfg, s, src, vid, CLAIM), Owned(s, g), Owned(o.s, g));
  }

  lemma VlanOf(s: State, g: GwKey, c: ClaimKey)
    requires ClaimsOk(s)
    ensures c in Owned(s, g) ==> c.vid == g.vid && g in s.gws
  {
  }

  lemma OwnUnclaimSpeaks(cfg: Config, whole: bool, s: State, src: Mac, vid: Vid, g: GwKey)
    requires ClaimsOk(s) && g.orig == cfg.primary
    ensures Speaks(cfg, whole, s, HandleUnclaim(cfg, s, cfg.primary, src, vid), g)
  {
    var o := HandleUnclaim(cfg, s, cfg.primary, src, vid);
    assert o.sent == [SendClaim(cfg, s, src, vid, UNCLAIM)];
    VlanOf(s, g, ClaimKey(src, vid));
    UnclaimFollowed(cfg, s, src, cfg.primary, vid, g);
    hide ClaimsOk, HandleUnclaim, Tells, Owned, Pending;
    TellsOne(cfg.crc16, g, whole, SendClaim(cfg, s, src, vid, UNCLAIM), Owned(s, g), Owned(o.s, g));
  }

  /** What was done, and then the update of the own entry. */
  ghost function ThenOwn(cfg: Config, o: Out, vid: Vid, now: int): Out {
    var o' := UpdateOwn(cfg, o.s, vid, now);
    Out(o'.s, o.sent + o'.sent)
  }

  lemma ThenOwnSpeaks(cfg: Config, whole: bool, s: State, o: Out, vid: Vid, now: int, g: GwKey)
    requires Inv(cfg, o.s) && Speaks(cfg, whole, s, o, g)
    ensures Speaks(cfg, whole, s, ThenOwn(cfg, o, vid, now), g)
  {
    hide Inv, UpdateOwn, Speaks;
    UpdateOwnSpeaks(cfg, whole, o.s, vid, now, g);
    SpeaksMore(cfg, whole, s, o, UpdateOwn(cfg, o.s, vid, now), g);
  }

  lemma RxSpeaks(cfg: Config, whole: bool, s: State, enabled: bool, src: Mac, vid: Vid, bcast: bool, now: int, g: GwKey)
    requires Inv(cfg, s) && g.orig == cfg.primary
    ensures ClaimsOk(s) && Speaks(cfg, whole, s, BlaRx(cfg, s, enabled, src, vid, bcast, now).o, g)
  {
    InvClaims(cfg, s);
    hide Inv, ClaimsOk, HandleClaim, UpdateOwn, Speaks;
    var c, h := ClaimKey(src, vid), HandleClaim(cfg, s, cfg.primary, src, vid, now);
    var o := BlaRx(cfg, s, enabled, src, vid, bcast, now).o;
    if o == ThenOwn(cfg, h, vid, now) {
      HandleClaimKeeps(cfg, s, cfg.primary, src, vid, now);
      OwnClaimSpeaks(cfg, whole, s, src, vid, now, g);
      ThenOwnSpeaks(cfg, whole, s, h, vid, now, g);
    } else if o == Out(s, []) {
      SpeaksNothing(cfg, whole, s, s, g);
    } else if o == UpdateOwn(cfg, s, vid, now) {
      UpdateOwnSpeaks(cfg, whole, s, vid, now, g);
    } else {
      RefreshKeeps(cfg, s, c, now);
      UpdateOwnSpeaks(cfg, whole, s.(claims := s.claims[c := s.claims[c].(lasttime := now)]), vid, now, g);
      RefreshSpeaks(cfg, whole, s, c, now, o, g);
    }
  }

  lemma RefreshSpeaks(cfg: Config, whole: bool, s: State, c: ClaimKey, now: int, o: Out, g: GwKey)
    requires c in s.claims
    requires Speaks(cfg, whole, s.(claims := s.claims[c := s.claims[c].(lasttime := now)]), o, g)
    ensures Speaks(cfg, whole, s, o, g)
  {
    hide Tells;
    assert Owned(s.(claims := s.claims[c := s.claims[c].(lasttime := now)]), g) == Owned(s, g);
  }

  lemma TxSpeaks(cfg: Config, whole: bool, s: State, enabled: bool, src: Mac, vid: Vid, multicast: bool, now: int,
                 g: GwKey)
    requires Inv(cfg, s) && g.orig == cfg.primary
    ensures ClaimsOk(s) && Speaks(cfg, whole, s, BlaTx(cfg, s, enabled, src, vid, multicast, now).o, g)
  {
    InvClaims(cfg, s);
    hide Inv, ClaimsOk, HandleUnclaim, UpdateOwn, Speaks;
    var h := HandleUnclaim(cfg, s, cfg.primary, src, vid);
    var o := BlaTx(cfg, s, enabled, src, vid, multicast, now).o;
    if o == ThenOwn(cfg, h, vid, now) {
      UnclaimKeeps(cfg, s, cfg.primary, src, vid);
      OwnUnclaimSpeaks(cfg, whole, s, src, vid, g);
      ThenOwnSpeaks(cfg, whole, s, h, vid, now, g);
    } else if o == Out(s, []) {
      SpeaksNothing(cfg, whole, s, s, g);
    } else {
      UpdateOwnSpeaks(cfg, whole, s, vid, now, g);
    }
  }

  lemma UnclaimKeeps(cfg: Config, s: State, backbone: Mac, addr: Mac, vid: Vid)
    requires Inv(cfg, s) && ClaimsOk(s)
    ensures Inv(cfg, HandleUnclaim(cfg, s, backbone, addr, vid).s)
  {
    DelClaimKeeps(cfg, s, ClaimKey(addr, vid));
  }

  // frames of others

  lemma OwnFramesSpeak(cfg: Config, whole: bool, s: State, h: GwKey, order: seq<ClaimKey>, g: GwKey)
    requires ClaimsOk(s) && h.orig == g.orig == cfg.primary
    ensures Speaks(cfg, whole, s, Out(s, OwnClaimFrames(cfg, s, h, order)), g)
  {
    hide Speaks;
    if order == [] {
      SpeaksNothing(cfg, whole, s, s, g);
    } else {
      var init, c := order[..|order| - 1], order[|order| - 1];
      OwnFramesSpeak(cfg, whole, s, h, init, g);
      FramesStep(cfg, s, h, order);
      if c in Owned(s, h) {
        OwnFrameSpeaks(cfg, whole, s, h, c, g);
        SpeaksMore(cfg, whole, s, Out(s, OwnClaimFrames(cfg, s, h, init)),
            Out(s, [SendClaim(cfg, s, c.addr, c.vid, CLAIM)]), g);
      }
    }
  }

  lemma OwnFrameSpeaks(cfg: Config, whole: bool, s: State, h: GwKey, c: ClaimKey, g: GwKey)
    requires ClaimsOk(s) && h.orig == g.orig == cfg.primary && c in Owned(s, h)
    ensures Speaks(cfg, whole, s, Out(s, [SendClaim(cfg, s, c.addr, c.vid, CLAIM)]), g)
  {
    VlanOf(s, h, c);
    hide Owned, Tells;
    if g == h {
      assert Owned(s, g) == Owned(s, g) + {c};
    }
    TellsOne(cfg.crc16, g, whole, SendClaim(cfg, s, c.addr, c.vid, CLAIM), Owned(s, g), Owned(s, g));
  }

  lemma AnswerSpeaks(cfg: Config, whole: bool, s: State, vid: Vid, order: seq<ClaimKey>, g: GwKey)
    requires Inv(cfg, s) && g.orig == cfg.primary
    ensures Speaks(cfg, whole, s, AnswerRequest(cfg, s, vid, order), g)
  {
    InvClaims(cfg, s);
    var h := GwKey(cfg.primary, vid);
    hide ClaimsOk, OwnClaimFrames, SendAnnounce, Speaks;
    if h in s.gws {
      assert GwOk(cfg, s, h);
      OwnFramesSpeak(cfg, whole, s, h, order, g);
      AnnounceSpeaks(cfg, whole, s, h, s, g);
      SpeaksMore(cfg, whole, s, Out(s, OwnClaimFrames(cfg, s, h, order)), Out(s, [SendAnnounce(cfg, s, h)]), g);
    } else {
      SpeaksNothing(cfg, whole, s, s, g);
    }
  }

  lemma SentHere(cfg: Config, s: State, f: Frame, order: seq<ClaimKey>, now: int)
    requires ClaimsOk(s) && Backbone(f) != cfg.primary
    ensures var o := Handled(cfg, s, f, order, now);
            match f.kind
            case CLAIM => o.sent == []
            case UNCLAIM => o.sent == []
            case ANNOUNCE => o.sent == [] || (|o.sent| == 1 && o.sent[0].kind == REQUEST)
            case REQUEST => o == Out(s, []) || o == AnswerRequest(cfg, s, f.vid, order)
  {
    hide AddClaim, DelClaim, AnswerRequest;
  }

  lemma HandledSpeaks(cfg: Config, whole: bool, s: State, f: Frame, order: seq<ClaimKey>, now: int, g: GwKey)
    requires Inv(cfg, s) && ClaimsOk(s) && g.orig == cfg.primary && Backbone(f) != cfg.primary
    requires (f.kind == CLAIM ==> ClaimKey(f.ethSrc, f.vid) !in Owned(s, g))
             && (f.kind == UNCLAIM ==> ClaimKey(f.hwSrc, f.vid) !in Owned(s, g))
    ensures Speaks(cfg, whole, s, Handled(cfg, s, f, order, now), g)
  {
    hide Inv, ClaimsOk, Owned, Pending, XorOver, HandleClaim, HandleUnclaim, HandleAnnounce, AnswerRequest, Tells;
    SentHere(cfg, s, f, order, now);
    var o := Handled(cfg, s, f, order, now);
    TellsNothing(cfg.crc16, g, whole, Owned(s, g));
    assert forall c :: c !in Owned(s, g) ==> Owned(s, g) - {c} == Owned(s, g);
    match f.kind
    case CLAIM => ClaimFollowed(cfg, s, f.ethSrc, f.hwSrc, f.vid, now, g);
    case UNCLAIM => UnclaimFollowed(cfg, s, f.hwSrc, f.ethSrc, f.vid, g);
    case ANNOUNCE =>
      AnnounceFollowed(cfg, s, f.hwSrc, f.ethSrc, f.vid, now, g);
      if o.sent != [] {
        TellsOne(cfg.crc16, g, whole, o.sent[0], Owned(s, g), Owned(s, g));
        assert o.sent == [o.sent[0]];
      }
    case REQUEST => AnswerSpeaks(cfg, whole, s, f.vid, order, g);
  }

  lemma FrameSpeaks(cfg: Config, whole: bool, s: State, f: Frame, inMesh: bool, order: seq<ClaimKey>, now: int,
                    g: GwKey)
    requires Inv(cfg, s) && g.orig == cfg.primary && Spares(cfg, s, g, ClaimFrame(f, inMesh, order), now)
    ensures ClaimsOk(s) && Speaks(cfg, whole, s, ProcessClaim(cfg, s, f, inMesh, order, now), g)
  {
    hide Inv, ClaimsOk, ProcessClaim, OwnFirst, Handled, Owned, Speaks;
    Processed(cfg, s, f, inMesh, order, now);
    if Accepts(cfg, s, f, inMesh) {
      var u := OwnFirst(cfg, s, f, now);
      FirstSpeaks(cfg, whole, s, f, now, g);
      HandledSpeaks(cfg, whole, u.s, f, order, now, g);
      SpeaksMore(cfg, whole, s, u, Handled(cfg, u.s, f, order, now), g);
    } else {
      SpeaksNothing(cfg, whole, s, s, g);
    }
  }

  lemma FirstSpeaks(cfg: Config, whole: bool, s: State, f: Frame, now: int, g: GwKey)
    requires Inv(cfg, s)
    ensures Speaks(cfg, whole, s, OwnFirst(cfg, s, f, now), g) && Owned(OwnFirst(cfg, s, f, now).s, g) == Owned(s, g)
    ensures GwKey(cfg.primary, f.vid) in OwnFirst(cfg, s, f, now).s.gws
  {
    GroupKeeps(cfg, s, Grouped(s, f).group);
    UpdateOwnSpeaks(cfg, whole, Grouped(s, f), f.vid, now, g);
    SameOwnedSpeaks(cfg, whole, s, Grouped(s, f), OwnFirst(cfg, s, f, now), g);
  }

  // the periodic work

  lemma {:induction false} PurgeClaimsSpeak(cfg: Config, whole: bool, s: State, order: seq<ClaimKey>, now: int,
                                            g: GwKey)
    requires ClaimsOk(s) && g.orig == cfg.primary
    ensures Speaks(cfg, whole, s, PurgeClaims(cfg, s, order, false, now), g)
  {
    hide ClaimsOk, PurgeClaim, Speaks;
    if order == [] {
      SpeaksNothing(cfg, whole, s, s, g);
    } else {
      var init, c := order[..|order| - 1], order[|order| - 1];
      PurgeClaimsSpeak(cfg, whole, s, init, now, g);
      var o := PurgeClaims(cfg, s, init, false, now);
      PurgeClaimSpeaks(cfg, whole, o.s, c, now, g);
      SpeaksMore(cfg, whole, s, o, PurgeClaim(cfg, o.s, c, false, now), g);
    }
  }

  lemma PurgeClaimSpeaks(cfg: Config, whole: bool, s: State, c: ClaimKey, now: int, g: GwKey)
    requires ClaimsOk(s) && g.orig == cfg.primary
    ensures Speaks(cfg, whole, s, PurgeClaim(cfg, s, c, false, now), g)
  {
    hide ClaimsOk, Speaks, HandleUnclaim;
    SpeaksNothing(cfg, whole, s, s, g);
    OwnUnclaimSpeaks(cfg, whole, s, c.addr, c.vid, g);
  }

  lemma PurgeGwsSpeak(cfg: Config, whole: bool, s: State, order: seq<GwKey>, now: int, g: GwKey)
    requires ClaimsOk(s) && (g in s.gws ==> !GwGoes(s.gws[g], false, now))
    ensures Speaks(cfg, whole, s, Out(PurgeGws(s, order, false, now), []), g)
  {
    hide PurgeGws, Speaks, GwGoes;
    PurgeGwsLeaves(s, order, false, now);
    SpeaksNothing(cfg, whole, s, PurgeGws(s, order, false, now), g);
  }

  lemma {:induction false} TickGwsSpeak(cfg: Config, whole: bool, s: State, order: seq<GwKey>, now: int, g: GwKey)
    requires Inv(cfg, s)
    ensures Speaks(cfg, whole, s, TickGws(cfg, s, order, now), g)
  {
    hide Inv, TickGw, Speaks;
    if order == [] {
      SpeaksNothing(cfg, whole, s, s, g);
    } else {
      var init, h := order[..|order| - 1], order[|order| - 1];
      TickGwsSpeak(cfg, whole, s, init, now, g);
      TickGwsKeeps(cfg, s, init, now);
      var o := TickGws(cfg, s, init, now);
      TickGwSpeaks(cfg, whole, o.s, h, now, g);
      SpeaksMore(cfg, whole, s, o, TickGw(cfg, o.s, h, now), g);
    }
  }

  lemma TickGwSpeaks(cfg: Config, whole: bool, s: State, h: GwKey, now: int, g: GwKey)
    requires Inv(cfg, s)
    ensures Speaks(cfg, whole, s, TickGw(cfg, s, h, now), g)
  {
    TickGwDoes(cfg, s, h, now);
    var o := TickGw(cfg, s, h, now);
    assert h in s.gws ==> GwOk(cfg, s, h);
    assert Owned(o.s, g) == Owned(s, g);
    hide Inv, GwOk, TickGw, Ticked, Owned, Speaks;
    if h in s.gws && h.orig == cfg.primary {
      AnnounceSpeaks(cfg, whole, s, h, o.s, g);
    } else {
      TickNothing(cfg, s, h, now);
      SpeaksNothing(cfg, whole, s, o.s, g);
    }
  }

  lemma TickNothing(cfg: Config, s: State, h: GwKey, now: int)
    requires !(h in s.gws && h.orig == cfg.primary)
    ensures TickGw(cfg, s, h, now) == Out(s, [])
  {
  }

  lemma PeriodicSpeaks(cfg: Config, whole: bool, s: State, enabled: bool, corder: seq<ClaimKey>, gorder: seq<GwKey>,
                       torder: seq<GwKey>, now: int, g: GwKey)
    requires Inv(cfg, s) && g.orig == cfg.primary && (g in s.gws ==> !GwGoes(s.gws[g], false, now))
    ensures ClaimsOk(s) && Speaks(cfg, whole, s, PeriodicWork(cfg, s, enabled, corder, gorder, torder, now), g)
  {
    InvClaims(cfg, s);
    PurgeClaimsLeaves(cfg, s, corder, false, now);
    hide Inv, ClaimsOk, PurgeClaims, PurgeGws, TickGws, Speaks;
    var o := PurgeClaims(cfg, s, corder, false, now);
    var s' := PurgeGws(o.s, gorder, false, now);
    PurgeClaimsKeeps(cfg, s, corder, false, now);
    PurgeGwsKeeps(cfg, o.s, gorder, false, now);
    PurgeClaimsSpeak(cfg, whole, s, corder, now, g);
    PurgeGwsSpeak(cfg, whole, o.s, gorder, now, g);
    SpeaksMore(cfg, whole, s, o, Out(s', []), g);
    assert o.sent + [] == o.sent;
    TickGwsSpeak(cfg, whole, s', torder, now, g);
    SpeaksMore(cfg, whole, s, Out(s', o.sent), TickGws(cfg, s', torder, now), g);
  }

  lemma StepSpeaks(cfg: Config, whole: bool, s: State, e: Event, now: int, g: GwKey)
    requires Inv(cfg, s) && g.orig == cfg.primary && Spares(cfg, s, g, e, now)
    ensures ClaimsOk(s) && Speaks(cfg, whole, s, Step(cfg, s, e, now), g)
  {
    InvClaims(cfg, s);
    hide Inv, ClaimsOk, Owned, ProcessClaim, BlaRx, BlaTx, PeriodicWork, Speaks;
    match e
    case ClaimFrame(f, inMesh, order) => FrameSpeaks(cfg, whole, s, f, inMesh, order, now, g);
    case FromMesh(enabled, src, vid, bcast) => RxSpeaks(cfg, whole, s, enabled, src, vid, bcast, now, g);
    case FromLan(enabled, src, vid, multicast) => TxSpeaks(cfg, whole, s, enabled, src, vid, multicast, now, g);
    case Periodic(enabled, corder, gorder, torder) =>
      PeriodicSpeaks(cfg, whole, s, enabled, corder, gorder, torder, now, g);
    case Shutdown(corder, gorder) =>
  }

  /** In any run of a node in which no other gateway takes its clients, its frames tell what it owns. */
  lemma {:induction false} SaidSpeaks(cfg: Config, whole: bool, s: State, g: GwKey, es: seq<(Event, int)>, v: View)
    requires Inv(cfg, s) && g.orig == cfg.primary && AllSpare(cfg, s, g, es) && Knows(whole, v, Owned(s, g))
    ensures Knows(whole, ToldAll(cfg.crc16, v, Said(cfg, s, g, es)), Owned(After(cfg, s, es), g))
  {
    hide Inv, ClaimsOk, Owned, Knows, Spares, Step;
    if es == [] {
    } else {
      var init, e, now := es[..|es| - 1], es[|es| - 1].0, es[|es| - 1].1;
      SparedBefore(cfg, s, g, es, |init|);
      SaidSpeaks(cfg, whole, s, g, init, v);
      var before := After(cfg, s, init);
      StepSpeaks(cfg, whole, before, e, now, g);
      ToldConcat(cfg.crc16, v, Said(cfg, s, g, init), FramesOf(g, Step(cfg, before, e, now).sent));
    }
  }

  lemma SparedBefore(cfg: Config, s: State, g: GwKey, es: seq<(Event, int)>, k: nat)
    requires Inv(cfg, s) && AllSpare(cfg, s, g, es) && k <= |es|
    ensures AllSpare(cfg, s, g, es[..k])
  {
    hide Inv, Spares, After;
    assert forall i :: 0 <= i < k ==> es[..k][i] == es[i] && es[..k][..i] == es[..i];
  }

  // ---- an answered request ---------------------------------------------------------

  /** A REQUEST to this node, accepted, while the walk over the claims covers all of them. */
  ghost predicate Requested(cfg: Config, s: State, g: GwKey, e: Event) {
    && e.ClaimFrame? && e.f.kind == REQUEST && e.f.vid == g.vid && e.f.hwSrc == e.f.ethDst == cfg.primary
    && Accepts(cfg, s, e.f, e.inMesh) && forall c :: c in s.claims ==> c in e.order
  }

  lemma {:induction false} OwnFramesAdd(cfg: Config, s: State, g: GwKey, order: seq<ClaimKey>, v: View)
    requires ClaimsOk(s) && g.orig == cfg.primary
    ensures ToldAll(cfg.crc16, v, FramesOf(g, OwnClaimFrames(cfg, s, g, order))).owned
            == v.owned + set c | c in order && c in Owned(s, g)
  {
    hide ClaimsOk, Owned, ToldAll, FramesOf, OwnClaimFrames;
    if order == [] {
      NoFrames(cfg, s, g, v);
    } else {
      var init, c := order[..|order| - 1], order[|order| - 1];
      assert order == init + [c];
      OwnFramesAdd(cfg, s, g, init, v);
      FramesStep(cfg, s, g, order);
      if c in Owned(s, g) {
        var fs, f := OwnClaimFrames(cfg, s, g, init), SendClaim(cfg, s, c.addr, c.vid, CLAIM);
        FramesConcat(g, fs, [f]);
        ToldConcat(cfg.crc16, v, FramesOf(g, fs), FramesOf(g, [f]));
        OneFrame(cfg.crc16, g, f, ToldAll(cfg.crc16, v, FramesOf(g, fs)));
      }
    }
  }

  lemma NoFrames(cfg: Config, s: State, g: GwKey, v: View)
    ensures ToldAll(cfg.crc16, v, FramesOf(g, OwnClaimFrames(cfg, s, g, []))) == v
  {
  }

  lemma AllListed(s: State, g: GwKey, order: seq<ClaimKey>, v: View)
    requires v.owned <= Owned(s, g) && forall c :: c in s.claims ==> c in order
    ensures v.owned + (set c | c in order && c in Owned(s, g)) == Owned(s, g)
  {
  }

  lemma AnswerTells(cfg: Config, s: State, g: GwKey, order: seq<ClaimKey>, v: View)
    requires Inv(cfg, s) && g.orig == cfg.primary && g in s.gws && v.owned <= Owned(s, g)
    requires forall c :: c in s.claims ==> c in order
    ensures ToldAll(cfg.crc16, v, FramesOf(g, AnswerRequest(cfg, s, g.vid, order).sent)) == View(Owned(s, g), false)
  {
    InvClaims(cfg, s);
    assert GwOk(cfg, s, g);
    AllListed(s, g, order, v);
    hide Inv, ClaimsOk, Owned, ToldAll, FramesOf, OwnClaimFrames, XorOver;
    var fs, f := OwnClaimFrames(cfg, s, g, order), SendAnnounce(cfg, s, g);
    OwnFramesAdd(cfg, s, g, order, v);
    FramesConcat(g, fs, [f]);
    ToldConcat(cfg.crc16, v, FramesOf(g, fs), FramesOf(g, [f]));
    OneFrame(cfg.crc16, g, f, ToldAll(cfg.crc16, v, FramesOf(g, fs)));
  }

  /** Whoever knows only a part of the claims knows all of them after the answer. */
  lemma RequestTells(cfg: Config, s: State, g: GwKey, e: Event, now: int, v: View)
    requires Inv(cfg, s) && g.orig == cfg.primary && Requested(cfg, s, g, e) && v.owned <= Owned(s, g)
    ensures ClaimsOk(s) && ToldAll(cfg.crc16, v, FramesOf(g, Step(cfg, s, e, now).sent)) == View(Owned(s, g), false)
    ensures Owned(Step(cfg, s, e, now).s, g) == Owned(s, g)
  {
    hide Inv, ClaimsOk, ToldAll, FramesOf, AnswerRequest, OwnFirst, Owned, ProcessClaim;
    var u := OwnFirst(cfg, s, e.f, now);
    Processed(cfg, s, e.f, e.inMesh, e.order, now);
    FirstSpeaks(cfg, false, s, e.f, now, g);
    var o := AnswerRequest(cfg, u.s, g.vid, e.order);
    AnswerSame(cfg, u.s, g.vid, e.order);
    assert Step(cfg, s, e, now) == Out(o.s, u.sent + o.sent);
    FramesConcat(g, u.sent, o.sent);
    ToldConcat(cfg.crc16, v, FramesOf(g, u.sent), FramesOf(g, o.sent));
    assert Knows(false, v, Owned(s, g));
    var v' := ToldAll(cfg.crc16, v, FramesOf(g, u.sent));
    assert v'.owned <= Owned(u.s, g);
    AnswerTells(cfg, u.s, g, e.order, v');
  }

  lemma {:induction false} AnsweredSpeaks(cfg: Config, s: State, g: GwKey, es: seq<(Event, int)>, k: nat, v: View)
    requires Inv(cfg, s) && g.orig == cfg.primary && AllSpare(cfg, s, g, es) && v.owned <= Owned(s, g)
    requires k < |es| && Requested(cfg, After(cfg, s, es[..k]), g, es[k].0)
    ensures ToldAll(cfg.crc16, v, Said(cfg, s, g, es)) == View(Owned(After(cfg, s, es), g), false)
    decreases |es|
  {
    hide Inv, ClaimsOk, Owned, Spares, Requested, Step;
    var n := |es| - 1;
    var init, e, now := es[..n], es[n].0, es[n].1;
    SparedBefore(cfg, s, g, es, n);
    var before, told := After(cfg, s, init), ToldAll(cfg.crc16, v, Said(cfg, s, g, init));
    if k == n {
      SaidSpeaks(cfg, false, s, g, init, v);
      RequestTells(cfg, before, g, e, now, told);
    } else {
      assert init[..k] == es[..k] && init[k] == es[k];
      AnsweredSpeaks(cfg, s, g, init, k, v);
      StepSpeaks(cfg, true, before, e, now, g);
      assert Knows(true, told, Owned(before, g));
    }
    ToldConcat(cfg.crc16, v, Said(cfg, s, g, init), FramesOf(g, Step(cfg, before, e, now).sent));
  }

  // ---- both together ---------------------------------------------------------------

  /** Resynchronisation in traffic. `a` has registered no more for `b` than `b` owns, as after the mismatch that makes
      it ask. However frames of any other gateways, payload and periodic work are interleaved at both, when `b` has
      processed a REQUEST and all that `b` sent has arrived in order, `a` has registered what `b` then owns, and waits
      for nothing. */
  lemma ResyncAmidst(a: Config, sa: State, ea: seq<(Event, int)>, b: Config, sb: State, eb: seq<(Event, int)>, vid: Vid,
                     k: nat)
    requires Peers(a, b) && Inv(a, sa) && Inv(b, sb)
    requires var g := GwKey(b.primary, vid);
             && Owned(sa, g) <= Owned(sb, g) && AllListen(a, sa, g, ea) && AllSpare(b, sb, g, eb)
             && Heard(g, ea) == Said(b, sb, g, eb)
             && k < |eb| && Requested(b, After(b, sb, eb[..k]), g, eb[k].0)
    ensures var g, sa', sb' := GwKey(b.primary, vid), After(a, sa, ea), After(b, sb, eb);
            Owned(sa', g) == Owned(sb', g) && ViewCrc(sa', g) == ViewCrc(sb', g) && g !in Pending(sa')
  {
    var g := GwKey(b.primary, vid);
    hide Inv, Owned, Pending, AllListen, AllSpare, Heard, Said, Requested, After, ToldAll, ViewCrc;
    Follows(a, sa, g, ea);
    AnsweredSpeaks(b, sb, g, eb, k, ViewOf(sa, g));
    ViewIs(a, After(a, sa, ea), g);
    ViewIs(b, After(b, sb, eb), g);
  }

  /** And once the tables agree they stay so: no checksum mismatch comes up and nothing is asked for again. */
  lemma StaysInStep(a: Config, sa: State, ea: seq<(Event, int)>, b: Config, sb: State, eb: seq<(Event, int)>, vid: Vid)
    requires Peers(a, b) && Inv(a, sa) && Inv(b, sb)
    requires var g := GwKey(b.primary, vid);
             && Owned(sa, g) == Owned(sb, g) && g !in Pending(sa) && AllListen(a, sa, g, ea) && AllSpare(b, sb, g, eb)
             && Heard(g, ea) == Said(b, sb, g, eb)
    ensures var g, sa', sb' := GwKey(b.primary, vid), After(a, sa, ea), After(b, sb, eb);
            Owned(sa', g) == Owned(sb', g) && ViewCrc(sa', g) == ViewCrc(sb', g) && g !in Pending(sa')
  {
    var g := GwKey(b.primary, vid);
    hide Inv, Owned, Pending, AllListen, AllSpare, Heard, Said, After, ToldAll, ViewCrc;
    Follows(a, sa, g, ea);
    SaidSpeaks(b, true, sb, g, eb, ViewOf(sa, g));
    ViewIs(a, After(a, sa, ea), g);
    ViewIs(b, After(b, sb, eb), g);
  }

  // ---- how long a new gateway waits --------------------------------------------------

  /** How often the periodic work was done. */
  ghost function Periods(es: seq<(Event, int)>): nat {
    if es == [] then 0 else Periods(es[..|es| - 1]) + if es[|es| - 1].0.Periodic? then 1 else 0
  }

  /** The periodic work meets the entry once while it is fresh, and there is no shutdown. */
  ghost predicate Ticks(s: State, g: GwKey, e: Event, now: int) {
    match e
    case Periodic(enabled, corder, gorder, torder) =>
      enabled && Distinct(torder) && g in torder && (g in s.gws ==> now - s.gws[g].lasttime <= 60_000)
    case Shutdown(corder, gorder) => false
    case _ => true
  }

  ghost predicate AllTick(cfg: Config, s: State, g: GwKey, es: seq<(Event, int)>)
    requires Inv(cfg, s)
  {
    forall i :: 0 <= i < |es| ==> Ticks(After(cfg, s, es[..i]), g, es[i].0, es[i].1)
  }

  /** The entry waits for `w` more periods, or no longer. */
  ghost predicate Waiting(s: State, g: GwKey, w: int) {
    g in s.gws && (s.gws[g].requestSent <==> w > 0) && (w > 0 ==> s.gws[g].waitPeriods == w)
  }

  /** Same waiting time. */
  ghost predicate SameWait(s: State, s': State, g: GwKey) {
    g in s.gws ==> g in s'.gws && s'.gws[g].requestSent == s.gws[g].requestSent
                   && s'.gws[g].waitPeriods == s.gws[g].waitPeriods
  }

  lemma HandledSameWait(cfg: Config, s: State, f: Frame, order: seq<ClaimKey>, now: int, g: GwKey)
    requires ClaimsOk(s) && g.orig == cfg.primary && Backbone(f) != cfg.primary
    ensures SameWait(s, Handled(cfg, s, f, order, now).s, g)
  {
    hide SendClaim, OwnClaimFrames, Xor, Owned;
  }

  lemma UpdateSameWait(cfg: Config, s: State, vid: Vid, now: int, g: GwKey)
    ensures SameWait(s, UpdateOwn(cfg, s, vid, now).s, g)
  {
  }

  lemma ClaimSameWait(cfg: Config, s: State, backbone: Mac, addr: Mac, vid: Vid, now: int, g: GwKey)
    requires ClaimsOk(s)
    ensures SameWait(s, HandleClaim(cfg, s, backbone, addr, vid, now).s, g)
    ensures SameWait(s, HandleUnclaim(cfg, s, backbone, addr, vid).s, g)
  {
    hide Xor;
  }

  lemma FrameSameWait(cfg: Config, s: State, f: Frame, inMesh: bool, order: seq<ClaimKey>, now: int, g: GwKey)
    requires Inv(cfg, s) && g.orig == cfg.primary
    ensures ClaimsOk(s) && SameWait(s, ProcessClaim(cfg, s, f, inMesh, order, now).s, g)
  {
    hide Inv, ClaimsOk, UpdateOwn, Handled, ProcessClaim;
    Processed(cfg, s, f, inMesh, order, now);
    if Accepts(cfg, s, f, inMesh) {
      UpdateSameWait(cfg, Grouped(s, f), f.vid, now, g);
      HandledSameWait(cfg, OwnFirst(cfg, s, f, now).s, f, order, now, g);
    }
  }

  lemma RxSameWait(cfg: Config, s: State, enabled: bool, src: Mac, vid: Vid, bcast: bool, now: int, g: GwKey)
    requires ClaimsOk(s)
    ensures SameWait(s, BlaRx(cfg, s, enabled, src, vid, bcast, now).o.s, g)
    ensures SameWait(s, BlaTx(cfg, s, enabled, src, vid, bcast, now).o.s, g)
  {
    hide ClaimsOk, HandleClaim, HandleUnclaim, UpdateOwn;
    var c, h := ClaimKey(src, vid), HandleClaim(cfg, s, cfg.primary, src, vid, now);
    var h' := HandleUnclaim(cfg, s, cfg.primary, src, vid);
    ClaimSameWait(cfg, s, cfg.primary, src, vid, now, g);
    UpdateSameWait(cfg, h.s, vid, now, g);
    UpdateSameWait(cfg, h'.s, vid, now, g);
    UpdateSameWait(cfg, s, vid, now, g);
    if c in s.claims {
      UpdateSameWait(cfg, s.(claims := s.claims[c := s.claims[c].(lasttime := now)]), vid, now, g);
    }
  }

  lemma PeriodWaits(cfg: Config, s: State, corder: seq<ClaimKey>, gorder: seq<GwKey>, torder: seq<GwKey>, now: int,
                    g: GwKey, w: int)
    requires ClaimsOk(s) && g.orig == cfg.primary && Waiting(s, g, w)
    requires Distinct(torder) && g in torder && now - s.gws[g].lasttime <= 60_000
    ensures Waiting(PeriodicWork(cfg, s, true, corder, gorder, torder, now).s, g, w - 1)
  {
    hide ClaimsOk, PurgeClaims, PurgeGws, TickGws;
    PurgeClaimsLeaves(cfg, s, corder, false, now);
    var s1 := PurgeClaims(cfg, s, corder, false, now).s;
    PurgeGwsLeaves(s1, gorder, false, now);
    TickGwsDoes(cfg, PurgeGws(s1, gorder, false, now), torder, now);
  }

  lemma StepWaits(cfg: Config, s: State, e: Event, now: int, g: GwKey, w: int)
    requires Inv(cfg, s) && g.orig == cfg.primary && Waiting(s, g, w) && Ticks(s, g, e, now)
    ensures ClaimsOk(s) && Waiting(Step(cfg, s, e, now).s, g, if e.Periodic? then w - 1 else w)
  {
    InvClaims(cfg, s);
    hide Inv, ClaimsOk, ProcessClaim, BlaRx, BlaTx, PeriodicWork;
    match e
    case ClaimFrame(f, inMesh, order) => FrameSameWait(cfg, s, f, inMesh, order, now, g);
    case FromMesh(enabled, src, vid, bcast) => RxSameWait(cfg, s, enabled, src, vid, bcast, now, g);
    case FromLan(enabled, src, vid, multicast) => RxSameWait(cfg, s, enabled, src, vid, multicast, now, g);
    case Periodic(enabled, corder, gorder, torder) => PeriodWaits(cfg, s, corder, gorder, torder, now, g, w);
    case Shutdown(corder, gorder) =>
  }

  /** Whatever frames and payload come in between, the own entry waits for exactly its number of periods. */
  lemma {:induction false} WaitsOut(cfg: Config, s: State, g: GwKey, es: seq<(Event, int)>, w: int)
    requires Inv(cfg, s) && g.orig == cfg.primary && Waiting(s, g, w) && AllTick(cfg, s, g, es)
    ensures Waiting(After(cfg, s, es), g, w - Periods(es))
  {
    hide Inv, ClaimsOk, Waiting, Ticks, Step;
    if es == [] {
    } else {
      var init, e, now := es[..|es| - 1], es[|es| - 1].0, es[|es| - 1].1;
      assert AllTick(cfg, s, g, init) by {
        assert forall i :: 0 <= i < |init| ==> init[i] == es[i] && init[..i] == es[..i];
      }
      WaitsOut(cfg, s, g, init, w);
      StepWaits(cfg, After(cfg, s, init), e, now, g, w - Periods(init));
    }
  }

  lemma NewWaits(cfg: Config, s: State, g: GwKey, now: int)
    requires g !in s.gws
    ensures Waiting(GetBackboneGw(cfg, s, g, true, now).s, g, 3)
    ensures g.orig == cfg.primary ==>
              GetBackboneGw(cfg, s, g, true, now).sent
              == [Frame(ANNOUNCE, s.group, g.orig, BROADCAST, Mac(ANNOUNCE_HEAD, CRC_INIT), g.vid)]
  {
  }

  /** So a new own gateway, which announces itself, counts as pending for exactly three periods. */
  lemma NewGatewayWaits(cfg: Config, s: State, g: GwKey, now: int, es: seq<(Event, int)>)
    requires Inv(cfg, s) && g.orig == cfg.primary && g !in s.gws
    ensures Inv(cfg, GetBackboneGw(cfg, s, g, true, now).s)
    ensures GetBackboneGw(cfg, s, g, true, now).sent
            == [Frame(ANNOUNCE, s.group, g.orig, BROADCAST, Mac(ANNOUNCE_HEAD, CRC_INIT), g.vid)]
    ensures var s' := GetBackboneGw(cfg, s, g, true, now).s;
            AllTick(cfg, s', g, es) ==> (g in Pending(After(cfg, s', es)) <==> Periods(es) < 3)
  {
    hide Inv, AllTick, After, Periods, GetBackboneGw;
    GetKeeps(cfg, s, g, true, now);
    var s' := GetBackboneGw(cfg, s, g, true, now).s;
    NewWaits(cfg, s, g, now);
    if AllTick(cfg, s', g, es) {
      WaitsOut(cfg, s', g, es, 3);
    }
  }
}
