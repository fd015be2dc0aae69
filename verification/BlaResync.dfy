// Two gateways on one LAN: a checksum mismatch is repaired by ANNOUNCE, REQUEST and the
// in-order answer, whatever the two tables looked like before.
module BlaResync {
  import opened BatmanCommon
  import opened BlaProtocol
  import opened Checksums

  /** `a` hears frames of `b`: different nodes, one checksum function, and `b` is in reach for `a`. */
  ghost predicate Peers(a: Config, b: Config) {
    a.primary != b.primary && a.crc16 == b.crc16
  }

  ghost predicate Hears(s: State, group: int, inMesh: bool) {
    inMesh || group == s.group
  }

  /** What `s` has registered for gateway `g`, as checksum; a gateway not yet known has none. */
  ghost function ViewCrc(s: State, g: GwKey): Crc {
    if g in s.gws then s.gws[g].crc else CRC_INIT
  }

  ghost predicate Requests(sent: seq<Frame>, g: GwKey) {
    exists f :: f in sent && f.kind == REQUEST && f.vid == g.vid && f.hwSrc == g.orig && f.ethDst == g.orig
  }

  // ---- when is a difference noticed ---------------------------------------------

  lemma {:induction false} XorUnion(crc16: Mac -> Crc, a: set<ClaimKey>, b: set<ClaimKey>)
    requires a !! b
    ensures XorOver(crc16, a + b) == Xor(XorOver(crc16, a), XorOver(crc16, b))
    decreases |b|
  {
    if b == {} {
      assert a + b == a;
      XorNone(crc16, XorOver(crc16, a));
    } else {
      hide XorOver, Xor;
      var c :| c in b;
      var b' := b - {c};
      XorUnion(crc16, a, b');
      XorTake(crc16, a + b, c);
      XorTake(crc16, b, c);
      assert a + b - {c} == a + b';
      XorSwap(crc16(c.addr), XorOver(crc16, a), XorOver(crc16, b'));
    }
  }

  lemma XorNone(crc16: Mac -> Crc, x: Crc)
    ensures Xor(x, XorOver(crc16, {})) == x
  {
  }

  lemma XorPair(x: Crc, y: Crc, z: Crc)
    ensures Xor(x, z) == Xor(y, z) <==> Xor(x, y) == 0
  {
    hide Xor;
    XorCancel(z, x);
    XorCancel(z, y);
    XorCancel(x, y);
    XorUnit(x);
  }

  lemma XorUnit(x: Crc)
    ensures Xor(x, x) == 0 && Xor(0, x) == x
  {
  }

  ghost predicate Parts(whole: set<ClaimKey>, p: set<ClaimKey>, q: set<ClaimKey>) {
    p !! q && whole == p + q
  }

  lemma XorParts(crc16: Mac -> Crc, whole: set<ClaimKey>, p: set<ClaimKey>, q: set<ClaimKey>)
    requires Parts(whole, p, q)
    ensures XorOver(crc16, whole) == Xor(XorOver(crc16, p), XorOver(crc16, q))
  {
    XorUnion(crc16, p, q);
  }

  lemma DifferenceParts(a: set<ClaimKey>, b: set<ClaimKey>)
    ensures Parts(a, a - b, a * b) && Parts(b, b - a, a * b) && Parts((a - b) + (b - a), a - b, b - a)
  {
    assert a == (a - b) + a * b && b == (b - a) + a * b;
  }

  /** Two claim sets have one checksum exactly when the claims they do not share cancel out. */
  lemma SameCrcIff(crc16: Mac -> Crc, a: set<ClaimKey>, b: set<ClaimKey>)
    ensures XorOver(crc16, a) == XorOver(crc16, b) <==> XorOver(crc16, (a - b) + (b - a)) == 0
  {
    hide *;
    DifferenceParts(a, b);
    XorParts(crc16, a, a - b, a * b);
    XorParts(crc16, b, b - a, a * b);
    XorParts(crc16, (a - b) + (b - a), a - b, b - a);
    XorPair(XorOver(crc16, a - b), XorOver(crc16, b - a), XorOver(crc16, a * b));
  }

  /** One claim more or less goes unnoticed exactly when its address has checksum 0. */
  lemma OneMissingIff(crc16: Mac -> Crc, a: set<ClaimKey>, c: ClaimKey)
    requires c in a
    ensures XorOver(crc16, a - {c}) == XorOver(crc16, a) <==> crc16(c.addr) == 0
  {
    hide XorOver, Xor;
    XorDrop(crc16, a, c);
    XorNeutral(XorOver(crc16, a), crc16(c.addr));
  }

  /** One claim in place of another goes unnoticed exactly when their addresses have the same checksum. */
  lemma OneSwappedIff(crc16: Mac -> Crc, a: set<ClaimKey>, c: ClaimKey, d: ClaimKey)
    requires c !in a && d !in a
    ensures XorOver(crc16, a + {c}) == XorOver(crc16, a + {d}) <==> crc16(c.addr) == crc16(d.addr)
  {
    hide XorOver, Xor;
    XorAdd(crc16, a, c);
    XorAdd(crc16, a, d);
    XorCancel(XorOver(crc16, a), crc16(c.addr));
    XorCancel(XorOver(crc16, a), crc16(d.addr));
  }

  lemma XorNeutral(x: Crc, y: Crc)
    ensures Xor(x, y) == x <==> y == 0
  {
  }

  /** Whatever the checksum function, there are different claim sets of one VLAN that it does not tell apart. */
  lemma Collision(crc16: Mac -> Crc, vid: Vid) returns (a: set<ClaimKey>, b: set<ClaimKey>)
    ensures a != b && |a| == |b| == 1 && (forall c :: c in a + b ==> c.vid == vid)
            && XorOver(crc16, a) == XorOver(crc16, b)
  {
    var m, m' := AddressesCollide(crc16);
    var c, d := ClaimKey(m, vid), ClaimKey(m', vid);
    a, b := {c}, {d};
    OneSwappedIff(crc16, {}, c, d);
    assert {} + {c} == a && {} + {d} == b;
    assert c in a && c !in b;
  }

  /** The effect of an ANNOUNCE of `g` with checksum `crc` on a table that knows `g`. */
  lemma AnnounceKnown(cfg: Config, s: State, an: Mac, g: GwKey, now: int)
    requires an.head == ANNOUNCE_HEAD
    ensures var o, differs := HandleAnnounce(cfg, s, an, g.orig, g.vid, now), ViewCrc(s, g) != an.tail;
            && g in o.s.gws && (o.s.gws[g].requestSent <==> differs) && o.s.gws[g].lasttime == now
            && o.sent == (if differs then [SendClaim(cfg, s, g.orig, g.vid, REQUEST)] else [])
            && o.s.claims
               == (if differs then map c | c in s.claims && s.claims[c].owner != g :: s.claims[c] else s.claims)
            && o.s.group == s.group
  {
  }

  /** What every accepted claim frame does first: it takes over a larger group and makes sure that
      the node has a backbone entry of its own. */
  ghost function OwnFirst(cfg: Config, s: State, f: Frame, now: int): (u: Out)
    ensures u.s.claims == s.claims && forall r :: r in u.sent ==> r.kind == ANNOUNCE
    ensures forall g: GwKey :: g.orig != cfg.primary
              ==> (g in u.s.gws <==> g in s.gws) && (g in s.gws ==> u.s.gws[g] == s.gws[g])
    ensures u.s.group == if f.group > s.group then f.group else s.group
  {
    UpdateOwn(cfg, Grouped(s, f), f.vid, now)
  }

  lemma Processed(cfg: Config, s: State, f: Frame, inMesh: bool, order: seq<ClaimKey>, now: int)
    requires Inv(cfg, s)
    ensures ClaimsOk(s) && Inv(cfg, OwnFirst(cfg, s, f, now).s) && ClaimsOk(OwnFirst(cfg, s, f, now).s)
    ensures var u := OwnFirst(cfg, s, f, now);
            var o := Handled(cfg, u.s, f, order, now);
            ProcessClaim(cfg, s, f, inMesh, order, now)
            == if Accepts(cfg, s, f, inMesh) then Out(o.s, u.sent + o.sent) else Out(s, [])
  {
    InvClaims(cfg, s);
    GroupKeeps(cfg, s, Grouped(s, f).group);
    UpdateOwnKeeps(cfg, Grouped(s, f), f.vid, now);
    InvClaims(cfg, UpdateOwn(cfg, Grouped(s, f), f.vid, now).s);
    hide Inv, ClaimsOk, UpdateOwn, Handled;
  }

  /** The effect of a received ANNOUNCE: the claims of `g` go and a REQUEST is sent exactly when the
      checksums differ; otherwise they stay and nothing is pending any more. */
  lemma AnnounceHandled(cfg: Config, s: State, f: Frame, inMesh: bool, order: seq<ClaimKey>, now: int, g: GwKey)
    requires Inv(cfg, s) && f.kind == ANNOUNCE && f.hwSrc.head == ANNOUNCE_HEAD && g == GwKey(f.ethSrc, f.vid)
    requires g.orig != cfg.primary && Hears(s, f.group, inMesh)
    ensures var o, differs := ProcessClaim(cfg, s, f, inMesh, order, now), ViewCrc(s, g) != f.hwSrc.tail;
            && Inv(cfg, o.s) && g in o.s.gws && (o.s.gws[g].requestSent <==> differs) && o.s.gws[g].lasttime == now
            && (Requests(o.sent, g) <==> differs)
            && o.s.claims
               == (if differs then map c | c in s.claims && s.claims[c].owner != g :: s.claims[c] else s.claims)
            && o.s.group == if f.group > s.group then f.group else s.group
  {
    hide Inv, ClaimsOk, HandleAnnounce, ProcessClaim, OwnFirst;
    ProcessClaimKeeps(cfg, s, f, inMesh, order, now);
    Processed(cfg, s, f, inMesh, order, now);
    var u := OwnFirst(cfg, s, f, now);
    AnnounceKnown(cfg, u.s, f.hwSrc, g, now);
    var o, o' := ProcessClaim(cfg, s, f, inMesh, order, now), HandleAnnounce(cfg, u.s, f.hwSrc, f.ethSrc, f.vid, now);
    assert o == Out(o'.s, u.sent + o'.sent);
    if o'.sent != [] {
      assert o'.sent[0] in o.sent;
    } else {
      assert o.sent == u.sent;
    }
  }

  lemma AnnounceFrame(b: Config, sb: State, g: GwKey)
    requires g in sb.gws && g.orig == b.primary
    ensures var f := SendAnnounce(b, sb, g);
            f.kind == ANNOUNCE && f.hwSrc == Mac(ANNOUNCE_HEAD, sb.gws[g].crc) && g == GwKey(f.ethSrc, f.vid)
                && f.group == sb.group
  {
  }

  /** Equal claim sets give equal checksums, also for a gateway the receiver does not know yet. */
  lemma SameView(a: Config, sa: State, b: Config, sb: State, g: GwKey)
    requires Peers(a, b) && Inv(a, sa) && Inv(b, sb) && g in sb.gws && Owned(sa, g) == Owned(sb, g)
    ensures ViewCrc(sa, g) == sb.gws[g].crc
  {
    assert GwOk(b, sb, g);
    if g in sa.gws {
      assert GwOk(a, sa, g);
    } else {
      assert Owned(sa, g) == {};
    }
  }

  /** Equal tables never trigger a REQUEST, and clear a pending one. */
  lemma EqualTablesQuiet(a: Config, sa: State, b: Config, sb: State, vid: Vid, inMesh: bool, order: seq<ClaimKey>,
                         now: int)
    requires Peers(a, b) && Inv(a, sa) && Inv(b, sb) && Hears(sa, sb.group, inMesh)
    requires var g := GwKey(b.primary, vid); g in sb.gws && Owned(sa, g) == Owned(sb, g)
    ensures ClaimsOk(sa)
    ensures var g := GwKey(b.primary, vid);
            var o := ProcessClaim(a, sa, SendAnnounce(b, sb, g), inMesh, order, now);
            Inv(a, o.s) && !Requests(o.sent, g) && o.s.claims == sa.claims && g in o.s.gws && !o.s.gws[g].requestSent
  {
    var g := GwKey(b.primary, vid);
    InvClaims(a, sa);
    hide Inv, Owned, ViewCrc, ProcessClaim, SendAnnounce;
    AnnounceFrame(b, sb, g);
    AnnounceHandled(a, sa, SendAnnounce(b, sb, g), inMesh, order, now, g);
    SameView(a, sa, b, sb, g);
  }

  lemma ViewIs(a: Config, sa: State, g: GwKey)
    requires Inv(a, sa)
    ensures ViewCrc(sa, g) == XorOver(a.crc16, Owned(sa, g))
  {
    if g in sa.gws {
      assert GwOk(a, sa, g);
    } else {
      assert Owned(sa, g) == {};
    }
  }

  /** The owner's ANNOUNCE is answered by a REQUEST exactly when the two claim sets have different checksums. */
  lemma NoticedIff(a: Config, sa: State, b: Config, sb: State, vid: Vid, inMesh: bool, order: seq<ClaimKey>, now: int)
    requires Peers(a, b) && Inv(a, sa) && Inv(b, sb) && Hears(sa, sb.group, inMesh) && GwKey(b.primary, vid) in sb.gws
    ensures ClaimsOk(sa)
    ensures var g := GwKey(b.primary, vid);
            Requests(ProcessClaim(a, sa, SendAnnounce(b, sb, g), inMesh, order, now).sent, g)
            <==> XorOver(a.crc16, Owned(sa, g)) != XorOver(a.crc16, Owned(sb, g))
  {
    hide Inv, Owned, ViewCrc, ProcessClaim, SendAnnounce, XorOver, Xor, Requests, Hears;
    var g := GwKey(b.primary, vid);
    InvClaims(a, sa);
    AnnounceFrame(b, sb, g);
    AnnounceHandled(a, sa, SendAnnounce(b, sb, g), inMesh, order, now, g);
    ViewIs(a, sa, g);
    ViewIs(b, sb, g);
    ViewOfKnown(sb, g);
  }

  /** When the owner announces, a claim that is missing at the receiver is noticed exactly when its address has a
      checksum other than 0, and one registered in place of another exactly when the two addresses have different
      checksums. */
  lemma LossNoticedIff(a: Config, sa: State, b: Config, sb: State, vid: Vid, c: ClaimKey, d: ClaimKey, inMesh: bool,
                       order: seq<ClaimKey>, now: int)
    requires Peers(a, b) && Inv(a, sa) && Inv(b, sb) && Hears(sa, sb.group, inMesh)
    requires var g := GwKey(b.primary, vid); g in sb.gws && c in Owned(sb, g) && d !in Owned(sb, g)
    ensures ClaimsOk(sa)
    ensures var g := GwKey(b.primary, vid);
            var o := ProcessClaim(a, sa, SendAnnounce(b, sb, g), inMesh, order, now);
            && (Owned(sa, g) == Owned(sb, g) - {c} ==> (Requests(o.sent, g) <==> a.crc16(c.addr) != 0))
            && (Owned(sa, g) == Owned(sb, g) - {c} + {d}
                ==> (Requests(o.sent, g) <==> a.crc16(c.addr) != a.crc16(d.addr)))
  {
    hide *;
    var g := GwKey(b.primary, vid);
    var rest := Owned(sb, g) - {c};
    NoticedIff(a, sa, b, sb, vid, inMesh, order, now);
    OneMissingIff(a.crc16, Owned(sb, g), c);
    OneSwappedIff(a.crc16, rest, c, d);
    assert rest + {c} == Owned(sb, g);
  }

  // ---- the answer to a request ------------------------------------------------------

  /** The frames of one burst, processed in the order in which they were sent. */
  ghost function ProcessAll(cfg: Config, s: State, frames: seq<Frame>, inMesh: bool, clock: nat -> int): (s': State)
    requires Inv(cfg, s)
    ensures Inv(cfg, s')
  {
    if frames == [] then s
    else
      var n := |frames| - 1;
      var s1 := ProcessAll(cfg, s, frames[..n], inMesh, clock);
      ProcessClaimKeeps(cfg, s1, frames[n], inMesh, [], clock(n));
      ProcessClaim(cfg, s1, frames[n], inMesh, [], clock(n)).s
  }

  lemma ProcessMore(cfg: Config, s: State, frames: seq<Frame>, f: Frame, inMesh: bool, clock: nat -> int)
    requires Inv(cfg, s)
    ensures var s1 := ProcessAll(cfg, s, frames, inMesh, clock);
            ClaimsOk(s1) && ProcessAll(cfg, s, frames + [f], inMesh, clock)
                == ProcessClaim(cfg, s1, f, inMesh, [], clock(|frames|)).s
  {
    assert (frames + [f])[..|frames|] == frames;
  }

  lemma ClaimAdded(a: Config, s: State, backbone: Mac, c: ClaimKey, now: int)
    requires ClaimsOk(s)
    ensures var s' := HandleClaim(a, s, backbone, c.addr, c.vid, now).s;
            s'.claims == s.claims[c := Claim(GwKey(backbone, c.vid), now)] && s'.group == s.group
  {
  }

  /** One CLAIM frame of `b`: the client now belongs to `b`, every other claim stays as it was. */
  lemma ClaimHandled(a: Config, s: State, b: Config, sb: State, c: ClaimKey, inMesh: bool, now: int)
    requires a.primary != b.primary && Inv(a, s) && Hears(s, sb.group, inMesh)
    ensures ClaimsOk(s)
    ensures var s' := ProcessClaim(a, s, SendClaim(b, sb, c.addr, c.vid, CLAIM), inMesh, [], now).s;
            s'.claims == s.claims[c := Claim(GwKey(b.primary, c.vid), now)] && Hears(s', sb.group, inMesh)
  {
    hide Inv, ClaimsOk, HandleClaim, ProcessClaim, OwnFirst;
    var f := SendClaim(b, sb, c.addr, c.vid, CLAIM);
    Processed(a, s, f, inMesh, [], now);
    ClaimAdded(a, OwnFirst(a, s, f, now).s, b.primary, c, now);
  }

  ghost predicate Untouched(s: State, s': State, cs: set<ClaimKey>) {
    && (forall c :: c in s.claims && c !in cs ==> c in s'.claims && s'.claims[c] == s.claims[c])
    && (forall c :: c in s'.claims ==> c in s.claims || c in cs)
  }

  /** `s'` is `s` after some of the claims in `cs`, at least those also in `order`, went over to `g`. */
  ghost predicate GoneOver(s: State, s': State, g: GwKey, cs: set<ClaimKey>, order: seq<ClaimKey>) {
    && Untouched(s, s', cs)
    && (forall c :: c in cs && c in order ==> c in s'.claims && s'.claims[c].owner == g)
    && (forall c :: c in s.claims && s.claims[c].owner == g ==> c in s'.claims && s'.claims[c].owner == g)
    && (forall c :: c in s'.claims && s'.claims[c].owner == g ==> c in cs || (c in s.claims && s.claims[c].owner == g))
  }

  lemma OneGoesOver(s: State, s1: State, s': State, g: GwKey, cs: set<ClaimKey>, order: seq<ClaimKey>, c: ClaimKey,
                    now: int)
    requires GoneOver(s, s1, g, cs, order)
             && (if c in cs then s'.claims == s1.claims[c := Claim(g, now)] else s'.claims == s1.claims)
    ensures GoneOver(s, s', g, cs, order + [c])
  {
  }

  /** The CLAIM frames of the answer: all listed own claims of `b` go over, nothing else changes. */
  lemma {:induction false} ClaimsHandled(a: Config, s: State, b: Config, sb: State, g: GwKey, order: seq<ClaimKey>,
                                         inMesh: bool, clock: nat -> int)
    requires a.primary != b.primary && g.orig == b.primary && Inv(a, s) && ClaimsOk(sb) && Hears(s, sb.group, inMesh)
    ensures var s' := ProcessAll(a, s, OwnClaimFrames(b, sb, g, order), inMesh, clock);
            Hears(s', sb.group, inMesh) && GoneOver(s, s', g, Owned(sb, g), order)
  {
    if order == [] {
    } else {
      var n := |order| - 1;
      var c, frames := order[n], OwnClaimFrames(b, sb, g, order[..n]);
      ClaimsHandled(a, s, b, sb, g, order[..n], inMesh, clock);
      assert order == order[..n] + [c];
      FramesStep(b, sb, g, order);
      hide ProcessClaim, ProcessAll, OwnClaimFrames, SendClaim, Inv, GoneOver;
      var s1 := ProcessAll(a, s, frames, inMesh, clock);
      if c in Owned(sb, g) {
        ProcessMore(a, s, frames, SendClaim(b, sb, c.addr, c.vid, CLAIM), inMesh, clock);
        ClaimHandled(a, s1, b, sb, c, inMesh, clock(|frames|));
      }
      OneGoesOver(s, s1, ProcessAll(a, s, OwnClaimFrames(b, sb, g, order), inMesh, clock), g, Owned(sb, g), order[..n],
          c, clock(|frames|));
    }
  }

  lemma FramesStep(b: Config, sb: State, g: GwKey, order: seq<ClaimKey>)
    requires order != [] && ClaimsOk(sb)
    ensures var n := |order| - 1;
            var c, frames := order[n], OwnClaimFrames(b, sb, g, order[..n]);
            && OwnClaimFrames(b, sb, g, order)
                 == (if c in Owned(sb, g) then frames + [SendClaim(b, sb, c.addr, c.vid, CLAIM)] else frames)
            && (c in Owned(sb, g) ==> c.vid == g.vid)
  {
  }

  /** What `b` sends when it processes the REQUEST of `a`. */
  lemma RequestAnswered(a: Config, sa: State, b: Config, sb: State, g: GwKey, inMesh: bool, order: seq<ClaimKey>,
                        now: int)
    requires a.primary != b.primary && g.orig == b.primary && Inv(b, sb) && g in sb.gws && Hears(sb, sa.group, inMesh)
    ensures ClaimsOk(sb)
    ensures var o := ProcessClaim(b, sb, SendClaim(a, sa, g.orig, g.vid, REQUEST), inMesh, order, now);
            && Inv(b, o.s) && o.s.claims == sb.claims && g in o.s.gws && o.s.gws[g].crc == sb.gws[g].crc
            && (sa.group == sb.group ==> o.s.group == sb.group)
            && o.sent == OwnClaimFrames(b, o.s, g, order) + [SendAnnounce(b, o.s, g)]
  {
    hide Inv, ClaimsOk, OwnClaimFrames, SendAnnounce, ProcessClaim;
    var f := SendClaim(a, sa, g.orig, g.vid, REQUEST);
    ProcessClaimKeeps(b, sb, f, inMesh, order, now);
    Processed(b, sb, f, inMesh, order, now);
    var u := OwnFirst(b, sb, f, now);
    assert u.sent == [] && u.s == Touched(Grouped(sb, f), g, now);
    assert u.sent + AnswerRequest(b, u.s, g.vid, order).sent == AnswerRequest(b, u.s, g.vid, order).sent;
  }

  /** Resynchronisation: whatever `a` and `b` have registered, after `b`'s answer to a request `a` has
      exactly `b`'s own claims for `b`, with the same checksum and no request pending, and its claims
      for clients that `b` does not claim are as before. `a` must hold nothing for `b` that `b` does not
      claim; sending the REQUEST has dropped everything. */
  lemma AnswerConverges(a: Config, s: State, b: Config, sb: State, vid: Vid, order: seq<ClaimKey>, inMesh: bool,
                        clock: nat -> int)
    requires Peers(a, b) && Inv(a, s) && Inv(b, sb) && Hears(s, sb.group, inMesh)
    requires var g := GwKey(b.primary, vid); g in sb.gws && Owned(s, g) <= Owned(sb, g)
    requires forall c :: c in sb.claims ==> c in order
    ensures var g := GwKey(b.primary, vid);
            var s' := ProcessAll(a, s, OwnClaimFrames(b, sb, g, order) + [SendAnnounce(b, sb, g)], inMesh, clock);
            && Owned(s', g) == Owned(sb, g) && Untouched(s, s', Owned(sb, g))
            && g in s'.gws && s'.gws[g].crc == sb.gws[g].crc && !s'.gws[g].requestSent
  {
    var g := GwKey(b.primary, vid);
    var frames, f := OwnClaimFrames(b, sb, g, order), SendAnnounce(b, sb, g);
    var s1 := ProcessAll(a, s, frames, inMesh, clock);
    assert a.primary != b.primary;
    hide *;
    InvClaims(b, sb);
    ClaimsHandled(a, s, b, sb, g, order, inMesh, clock);
    AllGoneOver(s, s1, sb, g, order);
    ProcessMore(a, s, frames, f, inMesh, clock);
    EqualTablesQuiet(a, s1, b, sb, vid, inMesh, [], clock(|frames|));
    var s' := ProcessAll(a, s, frames + [f], inMesh, clock);
    ClaimsSame(s, s1, s', Owned(sb, g), g);
    SameView(a, s', b, sb, g);
    ViewOfKnown(s', g);
  }

  lemma ClaimsSame(s: State, s1: State, s': State, cs: set<ClaimKey>, g: GwKey)
    requires s'.claims == s1.claims
    ensures Owned(s', g) == Owned(s1, g) && (Untouched(s, s1, cs) ==> Untouched(s, s', cs))
  {
  }

  lemma ViewOfKnown(s: State, g: GwKey)
    ensures g in s.gws ==> ViewCrc(s, g) == s.gws[g].crc
  {
  }

  lemma AllGoneOver(s: State, s1: State, sb: State, g: GwKey, order: seq<ClaimKey>)
    requires GoneOver(s, s1, g, Owned(sb, g), order) && Owned(s, g) <= Owned(sb, g)
    requires forall c :: c in sb.claims ==> c in order
    ensures Owned(s1, g) == Owned(sb, g) && Untouched(s, s1, Owned(sb, g))
  {
    assert forall c :: c in s.claims && s.claims[c].owner == g ==> c in Owned(s, g);
  }

  /** The first half: the announced checksum differs, so `a` drops what it had for `b` and asks. */
  lemma MismatchAsks(a: Config, sa: State, b: Config, sb: State, g: GwKey, inMesh: bool, order: seq<ClaimKey>, now: int)
    requires a.primary != b.primary && Inv(a, sa) && g.orig == b.primary && g in sb.gws && Hears(sa, sb.group, inMesh)
    requires ViewCrc(sa, g) != sb.gws[g].crc
    ensures ClaimsOk(sa)
    ensures var o := ProcessClaim(a, sa, SendAnnounce(b, sb, g), inMesh, order, now);
            Inv(a, o.s) && Requests(o.sent, g) && Owned(o.s, g) == {} && g in Pending(o.s)
            && (sa.group == sb.group ==> o.s.group == sa.group)
  {
    hide Inv, ClaimsOk, ViewCrc, SendAnnounce, ProcessClaim, Requests;
    InvClaims(a, sa);
    AnnounceFrame(b, sb, g);
    AnnounceHandled(a, sa, SendAnnounce(b, sb, g), inMesh, order, now, g);
  }

  /** The whole exchange: `b` announces a checksum that `a` does not share, `a` requests, `b` answers in
      order, and `a` processes the answer. `sb'` is `b` at the time the request arrives. */
  lemma Resync(a: Config, sa: State, b: Config, sb: State, sb': State, vid: Vid, order: seq<ClaimKey>,
               aorder: seq<ClaimKey>, inMesh: bool, now: int, bnow: int, clock: nat -> int)
    requires Peers(a, b) && Inv(a, sa) && Inv(b, sb) && Inv(b, sb')
    requires var g := GwKey(b.primary, vid); g in sb.gws && g in sb'.gws && ViewCrc(sa, g) != sb.gws[g].crc
    requires inMesh || (sa.group == sb.group == sb'.group)
    requires forall c :: c in sb'.claims ==> c in order
    ensures ClaimsOk(sa) && ClaimsOk(sb')
    ensures var g := GwKey(b.primary, vid);
            var o1 := ProcessClaim(a, sa, SendAnnounce(b, sb, g), inMesh, aorder, now);
            var o2 := ProcessClaim(b, sb', SendClaim(a, o1.s, g.orig, g.vid, REQUEST), inMesh, order, bnow);
            && Requests(o1.sent, g) && Owned(o1.s, g) == {} && g in Pending(o1.s)
            && Inv(a, o1.s) && var s' := ProcessAll(a, o1.s, o2.sent, inMesh, clock);
            && Owned(s', g) == Owned(o2.s, g) == Owned(sb', g)
            && g in s'.gws && g in o2.s.gws && s'.gws[g].crc == o2.s.gws[g].crc && g !in Pending(s')
            && Untouched(o1.s, s', Owned(sb', g))
  {
    var g := GwKey(b.primary, vid);
    assert a.primary != b.primary;
    hide *;
    HearsEither(sa, sb, inMesh);
    MismatchAsks(a, sa, b, sb, g, inMesh, aorder, now);
    var o1 := ProcessClaim(a, sa, SendAnnounce(b, sb, g), inMesh, aorder, now);
    HearsEither(o1.s, sb', inMesh);
    RequestAnswered(a, o1.s, b, sb', g, inMesh, order, bnow);
    var o2 := ProcessClaim(b, sb', SendClaim(a, o1.s, g.orig, g.vid, REQUEST), inMesh, order, bnow);
    HearsEither(o1.s, o2.s, inMesh);
    OwnedSame(o2.s, sb', g);
    AnswerConverges(a, o1.s, b, o2.s, vid, order, inMesh, clock);
    NotPending(ProcessAll(a, o1.s, o2.sent, inMesh, clock), g);
  }

  lemma HearsEither(s: State, s': State, inMesh: bool)
    ensures inMesh || s.group == s'.group ==> Hears(s, s'.group, inMesh) && Hears(s', s.group, inMesh)
  {
  }

  lemma OwnedSame(s: State, s': State, g: GwKey)
    ensures s.claims == s'.claims ==> Owned(s, g) == Owned(s', g)
  {
  }

  lemma NotPending(s: State, g: GwKey)
    ensures g in s.gws && !s.gws[g].requestSent ==> g !in Pending(s)
  {
  }
}
