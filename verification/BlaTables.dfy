// The tables of bridge loop avoidance as the code keeps them: claims that point to the
// entry of their backbone gateway, updated in place.
module BlaTables {
  import opened Basics
  import opened BatmanCommon
  import opened BlaProtocol
  import P = BlaProtocol

  /** The three cases of AddClaim, as the writes that make them up. */
  lemma AddClaimCases(cfg: Config, s: State, c: ClaimKey, g: GwKey, now: int)
    requires g in s.gws && (c in s.claims ==> s.claims[c].owner in s.gws)
    ensures var r, claims := P.AddClaim(cfg, s, c, g, now), s.claims[c := Claim(g, now)];
            var v := s.gws[g].(refcount := s.gws[g].refcount + 1, crc := Xor(s.gws[g].crc, cfg.crc16(c.addr)),
                               lasttime := now);
            if c !in s.claims then r == s.(claims := claims, gws := s.gws[g := v])
            else
              var o := s.claims[c].owner;
              var w := s.gws[o].(crc := Xor(s.gws[o].crc, cfg.crc16(c.addr)), refcount := s.gws[o].refcount - 1);
              r == s.(claims := claims, gws := if o == g then s.gws else s.gws[o := w][g := v])
  {
    hide Xor;
  }

  /** The walk of del_backbone_claims when it has `todo` still before it. */
  ghost predicate Walked(s: State, g: GwKey, todo: set<ClaimKey>, s': State) {
    && g in s.gws && todo <= s.claims.Keys && s'.numRequests == s.numRequests && s'.group == s.group
    && s'.claims == (map c | c in s.claims && (c in todo || s.claims[c].owner != g) :: s.claims[c])
    && s'.gws == s.gws[g := s.gws[g].(refcount := s.gws[g].refcount - |Owned(s, g) - todo|)]
  }

  lemma WalkStarts(s: State, g: GwKey)
    requires g in s.gws
    ensures Walked(s, g, s.claims.Keys, s)
  {
    assert Owned(s, g) - s.claims.Keys == {};
  }

  lemma WalkSkips(s: State, g: GwKey, todo: set<ClaimKey>, s': State, c: ClaimKey)
    requires Walked(s, g, todo, s') && c in todo
    ensures c in s'.claims && s'.claims[c] == s.claims[c] && g in s'.gws
    ensures s.claims[c].owner != g ==> Walked(s, g, todo - {c}, s')
  {
    if s.claims[c].owner != g {
      assert Owned(s, g) - (todo - {c}) == Owned(s, g) - todo;
    }
  }

  lemma WalkDrops(s: State, g: GwKey, todo: set<ClaimKey>, s': State, c: ClaimKey)
    requires Walked(s, g, todo, s') && c in todo && s.claims[c].owner == g
    ensures g in s'.gws
    ensures Walked(s, g, todo - {c},
            s'.(claims := s'.claims - {c}, gws := s'.gws[g := s'.gws[g].(refcount := s'.gws[g].refcount - 1)]))
  {
    assert Owned(s, g) - (todo - {c}) == (Owned(s, g) - todo) + {c};
  }

  lemma WalkEnds(s: State, g: GwKey, s': State)
    requires Walked(s, g, {}, s')
    ensures g in s'.gws && s'.(gws := s'.gws[g := s'.gws[g].(crc := CRC_INIT)]) == P.DelBackboneClaims(s, g)
  {
    assert Owned(s, g) - {} == Owned(s, g);
  }

  // ---- walks over a hash table: each key once, in an order that nothing else is known of ----

  ghost predicate Walking<T(!new)>(order: seq<T>, todo: set<T>, keys: set<T>) {
    Distinct(order) && Members(order) !! todo && Members(order) + todo == keys
  }

  lemma WalkBegins<T(!new)>(keys: set<T>)
    ensures Walking([], keys, keys)
  {
    assert Members<T>([]) == {};
  }

  lemma WalkMeets<T(!new)>(order: seq<T>, todo: set<T>, keys: set<T>, k: T)
    requires Walking(order, todo, keys) && k in todo
    ensures k in keys && Walking(order + [k], todo - {k}, keys)
  {
    assert Members(order + [k]) == Members(order) + {k};
    assert k !in Members(order);
  }

  lemma WalkOver<T(!new)>(order: seq<T>, keys: set<T>)
    requires Walking(order, {}, keys)
    ensures Walks(order, keys)
  {
  }

  /** The keys of a table in some order. */
  ghost method AnyWalk<T(!new)>(keys: set<T>) returns (order: seq<T>)
    ensures Walks(order, keys)
  {
    var todo := keys;
    order := [];
    WalkBegins(keys);
    while todo != {}
      invariant Walking(order, todo, keys)
    {
      var k :| k in todo;
      WalkMeets(order, todo, keys, k);
      order, todo := order + [k], todo - {k};
    }
  }

  lemma PurgeClaimsMore(cfg: Config, s: State, order: seq<ClaimKey>, c: ClaimKey, all: bool, now: int)
    requires ClaimsOk(s)
    ensures var o := P.PurgeClaims(cfg, s, order, all, now);
            var o' := P.PurgeClaim(cfg, o.s, c, all, now);
            P.PurgeClaims(cfg, s, order + [c], all, now) == Out(o'.s, o.sent + o'.sent)
  {
    assert (order + [c])[..|order|] == order;
  }

  lemma PurgeGwsMore(s: State, order: seq<GwKey>, g: GwKey, all: bool, now: int)
    ensures P.PurgeGws(s, order + [g], all, now) == P.PurgeGw(P.PurgeGws(s, order, all, now), g, all, now)
  {
    assert (order + [g])[..|order|] == order;
  }

  lemma TickGwsMore(cfg: Config, s: State, order: seq<GwKey>, g: GwKey, now: int)
    ensures var o := P.TickGws(cfg, s, order, now);
            var o' := P.TickGw(cfg, o.s, g, now);
            P.TickGws(cfg, s, order + [g], now) == Out(o'.s, o.sent + o'.sent)
  {
    assert (order + [g])[..|order|] == order;
  }

  lemma OwnFramesMore(cfg: Config, s: State, g: GwKey, order: seq<ClaimKey>, c: ClaimKey)
    ensures OwnClaimFrames(cfg, s, g, order + [c])
            == OwnClaimFrames(cfg, s, g, order)
               + if c in s.claims && s.claims[c].owner == g then [P.SendClaim(cfg, s, c.addr, c.vid, CLAIM)] else []
  {
    assert (order + [c])[..|order|] == order;
  }

  lemma NoOwnFrames(cfg: Config, s: State, g: GwKey)
    ensures OwnClaimFrames(cfg, s, g, []) == []
  {
  }

  lemma NothingPurged(cfg: Config, s: State, all: bool, now: int)
    requires ClaimsOk(s)
    ensures P.PurgeClaims(cfg, s, [], all, now) == Out(s, [])
  {
  }

  lemma NoGwPurged(s: State, all: bool, now: int)
    ensures P.PurgeGws(s, [], all, now) == s
  {
  }

  lemma NoneTicked(cfg: Config, s: State, now: int)
    ensures P.TickGws(cfg, s, [], now) == Out(s, [])
  {
  }

  lemma AllGo(cfg: Config, s: State, now: int)
    ensures forall c :: c in s.claims ==> ClaimGoes(cfg, s.claims[c], true, now)
    ensures forall g :: g in s.gws ==> GwGoes(s.gws[g], true, now)
  {
  }

  lemma FreeLeaves(cfg: Config, s: State, corder: seq<ClaimKey>, gorder: seq<GwKey>, now: int)
    requires ClaimsOk(s) && Walks(corder, s.claims.Keys)
    requires Walks(gorder, P.PurgeClaims(cfg, s, corder, true, now).s.gws.Keys)
    ensures var s' := P.PurgeGws(P.PurgeClaims(cfg, s, corder, true, now).s, gorder, true, now);
            && s'.claims == map[] && s'.gws == map[] && s'.group == s.group && (Inv(cfg, s) ==> s'.numRequests == 0)
  {
    hide ClaimsOk, ClaimGoes, GwGoes, Inv, P.PurgeClaims, P.PurgeGws, Walks;
    PurgeClaimsLeaves(cfg, s, corder, true, now);
    PurgesLeave(cfg, s, corder, gorder, true, now);
    PurgeGwsLeaves(P.PurgeClaims(cfg, s, corder, true, now).s, gorder, true, now);
    AllGo(cfg, s, now);
    if Inv(cfg, s) {
      ShutdownEmpties(cfg, s, corder, gorder, now);
    }
  }

  lemma ClaimsOkWith(s: State, c: ClaimKey, cl: Claim)
    requires ClaimsOk(s) && cl.owner in s.gws && cl.owner.vid == c.vid
    ensures ClaimsOk(s.(claims := s.claims[c := cl]))
  {
  }

  lemma DeletionKeepsGroup(s: State, g: GwKey)
    requires g in s.gws
    ensures P.DelBackboneClaims(s, g).group == s.group && g in P.DelBackboneClaims(s, g).gws
  {
  }

  lemma ClaimingKeepsGroup(cfg: Config, s: State, g: GwKey, c: ClaimKey, now: int)
    requires ClaimsOk(s)
    ensures var s' := P.GetBackboneGw(cfg, s, g, false, now).s;
            g in s'.gws && (c in s'.claims ==> s'.claims[c].owner in s'.gws)
                && P.AddClaim(cfg, s', c, g, now).group == s.group
  {
    hide Xor;
  }

  class BackboneGw {
    const key: GwKey
    var lasttime: int
    var crc: Crc
    var requestSent: bool
    var waitPeriods: int
    var refcount: int

    constructor (key: GwKey, now: int)
      ensures this.key == key && View() == Gw(now, CRC_INIT, false, 0, 1)
    {
      this.key := key;
      lasttime, crc, requestSent, waitPeriods, refcount := now, CRC_INIT, false, 0, 1;
    }

    function View(): Gw
      reads this
    {
      Gw(lasttime, crc, requestSent, waitPeriods, refcount)
    }
  }

  class ClaimEntry {
    const key: ClaimKey
    var backboneGw: BackboneGw
    var lasttime: int

    constructor (key: ClaimKey, backboneGw: BackboneGw, now: int)
      ensures this.key == key && this.backboneGw == backboneGw && lasttime == now
    {
      this.key, this.backboneGw, lasttime := key, backboneGw, now;
    }
  }

  class Bla {
    const cfg: Config
    var claimHash: map<ClaimKey, ClaimEntry>
    var backboneHash: map<GwKey, BackboneGw>
    var numRequests: int
    var group: int
    var sent: seq<Frame>
    ghost var st: State
    ghost var repr: set<object>

    ghost predicate GwIn(g: GwKey)
      requires g in backboneHash
      reads this, repr
    {
      var b := backboneHash[g];
      b in repr && b.key == g && g in st.gws && st.gws[g] == b.View()
    }

    ghost predicate ClaimIn(c: ClaimKey)
      requires c in claimHash
      reads this, repr
    {
      var e := claimHash[c];
      && e in repr && e.key == c && c in st.claims && st.claims[c] == Claim(e.backboneGw.key, e.lasttime)
      && e.backboneGw.key in backboneHash && backboneHash[e.backboneGw.key] == e.backboneGw
    }

    ghost predicate Valid()
      reads this, repr
    {
      && this in repr && st.numRequests == numRequests && st.group == group && ClaimsOk(st)
      && st.gws.Keys == backboneHash.Keys && (forall g :: g in backboneHash ==> GwIn(g))
      && st.claims.Keys == claimHash.Keys && (forall c :: c in claimHash ==> ClaimIn(c))
    }

    constructor (cfg: Config, group: int)
      ensures Valid() && fresh(repr) && this.cfg == cfg && sent == [] && st == State(map[], map[], 0, group)
    {
      this.cfg, this.group := cfg, group;
      claimHash, backboneHash, numRequests, sent := map[], map[], 0, [];
      st := State(map[], map[], 0, group);
      repr := {this};
    }

    /** Valid but for the fields of one gateway entry, whose new value is not yet noted in `st`. */
    ghost predicate ValidBut(b: BackboneGw)
      reads this, repr
    {
      && this in repr && b in repr && b.key in backboneHash && backboneHash[b.key] == b
      && st.numRequests == numRequests && st.group == group && ClaimsOk(st)
      && st.gws.Keys + {b.key} == backboneHash.Keys && (forall g :: g in backboneHash && g != b.key ==> GwIn(g))
      && st.claims.Keys == claimHash.Keys && (forall c :: c in claimHash ==> ClaimIn(c))
    }

    /** The same for the fields of one claim. */
    ghost predicate ValidButClaim(claim: ClaimEntry)
      reads this, repr
    {
      && this in repr && claim in repr && claim.key in claimHash && claimHash[claim.key] == claim
      && Known(claim.backboneGw) && claim.backboneGw.key.vid == claim.key.vid
      && st.numRequests == numRequests && st.group == group && ClaimsOk(st)
      && st.gws.Keys == backboneHash.Keys && (forall g :: g in backboneHash ==> GwIn(g))
      && st.claims.Keys + {claim.key} == claimHash.Keys && (forall c :: c in claimHash && c != claim.key ==> ClaimIn(c))
    }

    /** The tables themselves are those of before. */
    twostate predicate SameTables()
      reads this
    {
      && repr == old(repr) && claimHash == old(claimHash) && backboneHash == old(backboneHash)
      && numRequests == old(numRequests) && group == old(group)
    }

    ghost predicate Known(b: BackboneGw)
      reads this
    {
      b.key in backboneHash && backboneHash[b.key] == b
    }

    // ---- single writes ----------------------------------------------------------

    /** Writes the fields of a gateway entry. */
    method Put(b: BackboneGw, v: Gw)
      requires Valid() && Known(b)
      modifies this`st, b
      ensures Valid() && b.View() == v && st == old(st).(gws := old(st).gws[b.key := v])
    {
      hide Valid, ValidBut, Known;
      b.lasttime, b.crc, b.requestSent, b.waitPeriods, b.refcount :=
          v.lasttime, v.crc, v.requestSent, v.waitPeriods, v.refcount;
      GwWritten(b);
      NoteGw(b);
    }

    twostate lemma GwWritten(new b: BackboneGw)
      requires old(allocated(b)) && old(Valid() && Known(b)) && SameTables() && st == old(st)
               && unchanged(old(repr) - {b})
      ensures ValidBut(b)
    {
      hide ClaimsOk;
      assert old(GwIn(b.key));
      forall g | g in backboneHash && g != b.key
        ensures GwIn(g)
      {
        assert old(GwIn(g));
      }
      forall c | c in claimHash
        ensures ClaimIn(c)
      {
        assert old(ClaimIn(c));
      }
    }

    ghost method NoteGw(b: BackboneGw)
      requires ValidBut(b)
      modifies this`st
      ensures Valid() && st == old(st).(gws := old(st).gws[b.key := b.View()])
    {
      hide Valid, ValidBut, BackboneGw.View;
      st := st.(gws := st.gws[b.key := b.View()]);
      GwNoted(b);
    }

    twostate lemma GwNoted(new b: BackboneGw)
      requires old(allocated(b)) && old(ValidBut(b)) && SameTables() && unchanged(old(repr) - {this})
      requires st == old(st).(gws := old(st).gws[b.key := b.View()])
      ensures Valid()
    {
      assert ClaimsOk(st);
      forall g | g in backboneHash
        ensures GwIn(g)
      {
        assert g != b.key ==> old(GwIn(g));
      }
      forall c | c in claimHash
        ensures ClaimIn(c)
      {
        assert old(ClaimIn(c));
      }
    }

    method AddGw(g: GwKey, now: int) returns (b: BackboneGw)
      requires Valid() && g !in backboneHash
      modifies this`st, this`backboneHash, this`repr
      ensures Valid() && fresh(b) && repr == old(repr) + {b} && b.key == g && backboneHash == old(backboneHash)[g := b]
      ensures st == old(st).(gws := old(st).gws[g := Gw(now, CRC_INIT, false, 0, 1)])
    {
      hide *;
      b := new BackboneGw(g, now);
      backboneHash, repr := backboneHash[g := b], repr + {b};
      GwAdded(b);
      NoteGw(b);
    }

    twostate lemma GwAdded(new b: BackboneGw)
      requires old(Valid()) && b.key !in old(backboneHash) && backboneHash == old(backboneHash)[b.key := b]
      requires b !in old(repr) && repr == old(repr) + {b} && st == old(st) && claimHash == old(claimHash)
      requires numRequests == old(numRequests) && group == old(group)
      requires unchanged(old(repr) - {this})
      ensures ValidBut(b)
    {
      hide ClaimsOk;
      forall g | g in backboneHash && g != b.key
        ensures GwIn(g)
      {
        assert old(GwIn(g));
      }
      forall c | c in claimHash
        ensures ClaimIn(c)
      {
        assert old(ClaimIn(c));
      }
    }

    method RemoveGw(b: BackboneGw)
      requires Valid() && Known(b) && forall c :: c in st.claims ==> st.claims[c].owner != b.key
      modifies this`st, this`backboneHash
      ensures Valid() && backboneHash == old(backboneHash) - {b.key} && st == old(st).(gws := old(st).gws - {b.key})
    {
      hide Valid, Known;
      backboneHash := backboneHash - {b.key};
      st := st.(gws := st.gws - {b.key});
      GwRemoved(b.key);
    }

    twostate lemma GwRemoved(new k: GwKey)
      requires old(Valid()) && (forall c :: c in old(st).claims ==> old(st).claims[c].owner != k)
      requires backboneHash == old(backboneHash) - {k} && st == old(st).(gws := old(st).gws - {k})
      requires repr == old(repr) && claimHash == old(claimHash) && numRequests == old(numRequests)
               && group == old(group)
      requires unchanged(old(repr) - {this})
      ensures Valid()
    {
      forall g | g in backboneHash
        ensures GwIn(g)
      {
        assert old(GwIn(g));
      }
      forall c | c in claimHash
        ensures ClaimIn(c)
      {
        assert old(ClaimIn(c));
      }
    }

    /** Points a claim to a gateway entry and stamps it. */
    method SetOwner(claim: ClaimEntry, b: BackboneGw, now: int)
      requires Valid() && Known(b) && claim.key in claimHash && claimHash[claim.key] == claim
               && b.key.vid == claim.key.vid
      modifies this`st, claim
      ensures Valid() && claim.backboneGw == b && claim.lasttime == now
      ensures st == old(st).(claims := old(st).claims[claim.key := Claim(b.key, now)])
    {
      hide Valid, ValidButClaim, Known;
      claim.backboneGw, claim.lasttime := b, now;
      ClaimWritten(claim, b);
      NoteClaim(claim);
    }

    twostate lemma ClaimWritten(new claim: ClaimEntry, new b: BackboneGw)
      requires old(allocated(claim) && allocated(b)) && SameTables() && st == old(st) && unchanged(old(repr) - {claim})
      requires old(Valid() && Known(b)) && claim.key in claimHash && claimHash[claim.key] == claim
               && b.key.vid == claim.key.vid
      requires claim.backboneGw == b
      ensures ValidButClaim(claim)
    {
      hide ClaimsOk;
      assert old(ClaimIn(claim.key));
      forall g | g in backboneHash
        ensures GwIn(g)
      {
        assert old(GwIn(g));
      }
      forall c | c in claimHash && c != claim.key
        ensures ClaimIn(c)
      {
        assert old(ClaimIn(c));
      }
    }

    ghost method NoteClaim(claim: ClaimEntry)
      requires ValidButClaim(claim)
      modifies this`st
      ensures Valid()
      ensures st == old(st).(claims := old(st).claims[claim.key := Claim(claim.backboneGw.key, claim.lasttime)])
    {
      hide Valid, ValidButClaim;
      st := st.(claims := st.claims[claim.key := Claim(claim.backboneGw.key, claim.lasttime)]);
      ClaimNoted(claim);
    }

    twostate lemma GwInStill(g: GwKey)
      requires SameTables() && g in backboneHash && old(GwIn(g)) && unchanged(old(repr) - {this})
               && st.gws == old(st).gws
      ensures GwIn(g)
    {
    }

    twostate lemma ClaimNoted(new claim: ClaimEntry)
      requires old(allocated(claim)) && old(ValidButClaim(claim)) && SameTables() && unchanged(old(repr) - {this})
      requires st == old(st).(claims := old(st).claims[claim.key := Claim(claim.backboneGw.key, claim.lasttime)])
      ensures Valid()
    {
      hide ClaimsOk, GwIn;
      var b := claim.backboneGw;
      forall g | g in backboneHash
        ensures GwIn(g)
      {
        GwInStill(g);
      }
      assert b.key in st.gws && ClaimsOk(st) by {
        ClaimsOkWith(old(st), claim.key, Claim(b.key, claim.lasttime));
      }
      forall c | c in claimHash
        ensures ClaimIn(c)
      {
        assert c != claim.key ==> old(ClaimIn(c));
      }
    }

    method InsertClaim(c: ClaimKey, b: BackboneGw, now: int)
      requires Valid() && Known(b) && c !in claimHash && b.key.vid == c.vid
      modifies this`st, this`claimHash, this`repr
      ensures Valid() && c in claimHash && fresh(claimHash[c]) && repr == old(repr) + {claimHash[c]}
              && claimHash == old(claimHash)[c := claimHash[c]]
      ensures st == old(st).(claims := old(st).claims[c := Claim(b.key, now)])
    {
      hide Valid, ValidButClaim, Known;
      var claim := new ClaimEntry(c, b, now);
      claimHash, repr := claimHash[c := claim], repr + {claim};
      ClaimInserted(claim, b);
      NoteClaim(claim);
    }

    twostate lemma ClaimInserted(new claim: ClaimEntry, new b: BackboneGw)
      requires old(allocated(b)) && old(Valid() && Known(b)) && claim.key !in old(claimHash) && claim !in old(repr)
      requires claim.backboneGw == b && b.key.vid == claim.key.vid
      requires claimHash == old(claimHash)[claim.key := claim] && repr == old(repr) + {claim} && st == old(st)
      requires backboneHash == old(backboneHash) && numRequests == old(numRequests) && group == old(group)
      requires unchanged(old(repr) - {this})
      ensures ValidButClaim(claim)
    {
      hide ClaimsOk;
      forall g | g in backboneHash
        ensures GwIn(g)
      {
        assert old(GwIn(g));
      }
      forall c | c in claimHash && c != claim.key
        ensures ClaimIn(c)
      {
        assert old(ClaimIn(c));
      }
    }

    method RemoveClaim(c: ClaimKey)
      requires Valid() && c in claimHash
      modifies this`st, this`claimHash
      ensures Valid() && claimHash == old(claimHash) - {c} && st == old(st).(claims := old(st).claims - {c})
    {
      hide Valid;
      Lookups();
      claimHash := claimHash - {c};
      st := st.(claims := st.claims - {c});
      FewerClaims();
    }

    /** Claims taken out of both tables, or the counter or the group changed in both places. */
    twostate lemma FewerClaims()
      requires old(Valid()) && repr == old(repr) && backboneHash == old(backboneHash) && st.gws == old(st).gws
      requires numRequests == st.numRequests && group == st.group && unchanged(old(repr) - {this})
      requires claimHash.Keys <= old(claimHash).Keys && claimHash.Keys == st.claims.Keys
      requires forall c :: c in claimHash
                 ==> claimHash[c] == old(claimHash)[c] && c in old(st).claims && st.claims[c] == old(st).claims[c]
      ensures Valid()
    {
      forall g | g in backboneHash
        ensures GwIn(g)
      {
        assert old(GwIn(g));
      }
      forall c | c in claimHash
        ensures ClaimIn(c)
      {
        assert old(ClaimIn(c));
      }
    }

    lemma Look(b: BackboneGw)
      requires Valid() && Known(b)
      ensures b.key in st.gws && st.gws[b.key] == b.View() && b in repr && this in repr
    {
      assert GwIn(b.key);
    }

    lemma LookClaim(c: ClaimKey)
      requires Valid()
      ensures c in claimHash <==> c in st.claims
      ensures c in claimHash ==>
                var e := claimHash[c];
                e in repr && e.key == c && Known(e.backboneGw) && st.claims[c] == Claim(e.backboneGw.key, e.lasttime)
      ensures c in st.claims ==> st.claims[c].owner in st.gws && st.claims[c].owner.vid == c.vid
    {
      assert c in claimHash ==> ClaimIn(c);
    }

    // ---- claims -------------------------------------------------------------

    method AddClaim(c: ClaimKey, b: BackboneGw, now: int)
      requires Valid() && Known(b) && b.key.vid == c.vid
      modifies repr
      ensures Valid() && fresh(repr - old(repr)) && backboneHash == old(backboneHash) && sent == old(sent)
      ensures b.key in old(st).gws && (c in old(st).claims ==> old(st).claims[c].owner in old(st).gws)
      ensures st == P.AddClaim(cfg, old(st), c, b.key, now)
    {
      hide Valid, P.AddClaim, Xor;
      LookClaim(c);
      Look(b);
      AddClaimCases(cfg, st, c, b.key, now);
      if c !in claimHash {
        InsertClaim(c, b, now);
      } else {
        var claim := claimHash[c];
        var owner := claim.backboneGw;
        Look(owner);
        SetOwner(claim, b, now);
        if owner == b {
          return;
        }
        Put(owner, owner.View().(crc := Xor(owner.crc, cfg.crc16(c.addr)), refcount := owner.refcount - 1));
      }
      Put(b, b.View().(refcount := b.refcount + 1, crc := Xor(b.crc, cfg.crc16(c.addr)), lasttime := now));
    }

    method DelClaim(c: ClaimKey)
      requires Valid()
      modifies repr
      ensures Valid() && repr == old(repr) && backboneHash == old(backboneHash) && sent == old(sent)
      ensures c in old(st).claims ==> old(st).claims[c].owner in old(st).gws
      ensures st == P.DelClaim(cfg, old(st), c)
    {
      hide Valid, Xor;
      LookClaim(c);
      if c !in claimHash {
        return;
      }
      var b := claimHash[c].backboneGw;
      Look(b);
      RemoveClaim(c);
      Put(b, b.View().(crc := Xor(b.crc, cfg.crc16(c.addr)), refcount := b.refcount - 1));
    }

    /** Takes a claim of gateway `b` out of the hash and drops the reference it held. */
    method PutClaim(c: ClaimKey, b: BackboneGw)
      requires Valid() && c in claimHash && Known(b) && claimHash[c].backboneGw == b
      modifies repr
      ensures Valid() && repr == old(repr) && claimHash == old(claimHash) - {c} && backboneHash == old(backboneHash)
              && sent == old(sent)
      ensures b.key in old(st).gws
      ensures st == old(st).(claims := old(st).claims - {c},
                             gws := old(st).gws[b.key :=
                                 old(st).gws[b.key].(refcount := old(st).gws[b.key].refcount - 1)])
    {
      hide Valid;
      Look(b);
      RemoveClaim(c);
      Put(b, b.View().(refcount := b.refcount - 1));
    }

    /** batadv_bla_del_backbone_claims: a walk over the claim hash, in any order. */
    method DelBackboneClaims(b: BackboneGw)
      requires Valid() && Known(b)
      modifies repr
      ensures Valid() && repr == old(repr) && backboneHash == old(backboneHash) && sent == old(sent)
      ensures b.key in old(st).gws && st == P.DelBackboneClaims(old(st), b.key)
    {
      hide Valid, Xor;
      Look(b);
      assert claimHash.Keys == st.claims.Keys by {
        Lookups();
      }
      hide Walked;
      var todo := claimHash.Keys;
      WalkStarts(st, b.key);
      while todo != {}
        invariant Valid() && repr == old(repr) && backboneHash == old(backboneHash) && sent == old(sent)
        invariant Walked(old(st), b.key, todo, st)
      {
        var c :| c in todo;
        LookClaim(c);
        WalkSkips(old(st), b.key, todo, st, c);
        if claimHash[c].backboneGw == b {
          WalkDrops(old(st), b.key, todo, st, c);
          PutClaim(c, b);
        }
        todo := todo - {c};
      }
      WalkEnds(old(st), b.key, st);
      Look(b);
      Put(b, b.View().(crc := CRC_INIT));
    }

    lemma Lookups()
      requires Valid()
      ensures this in repr && claimHash.Keys == st.claims.Keys && backboneHash.Keys == st.gws.Keys && ClaimsOk(st)
      ensures numRequests == st.numRequests && group == st.group
    {
    }

    // ---- frames and gateways -----------------------------------------------------

    method SendClaim(mac: Mac, vid: Vid, kind: FrameType)
      requires Valid()
      modifies this`sent
      ensures Valid() && sent == old(sent) + [P.SendClaim(cfg, st, mac, vid, kind)]
    {
      var f := Frame(kind, group, cfg.primary, BROADCAST, cfg.primary, vid);
      match kind {
        case CLAIM => f := f.(ethSrc := mac);
        case UNCLAIM => f := f.(hwSrc := mac);
        case ANNOUNCE => f := f.(hwSrc := mac);
        case REQUEST => f := f.(hwSrc := mac, ethDst := mac);
      }
      sent := sent + [f];
    }

    method SendAnnounce(b: BackboneGw)
      requires Valid() && Known(b)
      modifies this`sent
      ensures Valid() && b.key in st.gws && sent == old(sent) + [P.SendAnnounce(cfg, st, b.key)]
    {
      hide Valid;
      Look(b);
      SendClaim(Mac(ANNOUNCE_HEAD, b.crc), b.key.vid, ANNOUNCE);
    }

    method SetNumRequests(n: int)
      requires Valid()
      modifies this`numRequests, this`st
      ensures Valid() && st == old(st).(numRequests := n) && numRequests == n
    {
      hide Valid;
      Lookups();
      numRequests := n;
      st := st.(numRequests := n);
      FewerClaims();
    }

    method GetBackboneGw(g: GwKey, own: bool, now: int) returns (b: BackboneGw)
      requires Valid()
      modifies repr
      ensures Valid() && fresh(repr - old(repr)) && Known(b) && b.key == g
      ensures var o := P.GetBackboneGw(cfg, old(st), g, own, now); st == o.s && sent == old(sent) + o.sent
    {
      hide Valid;
      Lookups();
      if g in backboneHash {
        LookGw(g);
        return backboneHash[g];
      }
      b := AddGw(g, now);
      if own {
        SendAnnounce(b);
        Look(b);
        Put(b, b.View().(requestSent := true, waitPeriods := WAIT_PERIODS));
        SetNumRequests(numRequests + 1);
      }
    }

    lemma LookGw(g: GwKey)
      requires Valid() && g in backboneHash
      ensures backboneHash[g] in repr && backboneHash[g].key == g && this in repr
    {
      assert GwIn(g);
    }

    method UpdateOwnBackboneGw(vid: Vid, now: int)
      requires Valid()
      modifies repr
      ensures Valid() && fresh(repr - old(repr))
      ensures var o := P.UpdateOwn(cfg, old(st), vid, now); st == o.s && sent == old(sent) + o.sent
    {
      hide Valid, P.GetBackboneGw;
      var b := GetBackboneGw(GwKey(cfg.primary, vid), true, now);
      Look(b);
      Put(b, b.View().(lasttime := now));
    }

    method SetRequestSent(b: BackboneGw, value: bool)
      requires Valid() && Known(b)
      modifies this`st, this`numRequests, b
      ensures Valid() && b.key in old(st).gws && st == P.SetRequestSent(old(st), b.key, value)
    {
      hide Valid;
      Look(b);
      Lookups();
      if b.requestSent != value {
        SetNumRequests(if value then numRequests + 1 else numRequests - 1);
        Put(b, b.View().(requestSent := value));
      }
    }

    method SendRequest(b: BackboneGw)
      requires Valid() && Known(b)
      modifies repr
      ensures Valid() && repr == old(repr) && backboneHash == old(backboneHash) && b.key in old(st).gws
      ensures var o := P.SendRequest(cfg, old(st), b.key); st == o.s && sent == old(sent) + o.sent
    {
      hide Valid, P.DelBackboneClaims, P.SetRequestSent;
      Look(b);
      DeletionKeepsGroup(st, b.key);
      DelBackboneClaims(b);
      SendClaim(b.key.orig, b.key.vid, REQUEST);
      Look(b);
      SetRequestSent(b, true);
    }

    /** batadv_bla_answer_request; `order` is the order in which the claim hash was walked. */
    method AnswerRequest(vid: Vid) returns (ghost order: seq<ClaimKey>)
      requires Valid()
      modifies this`sent
      ensures Valid() && Walks(order, st.claims.Keys)
      ensures var o := P.AnswerRequest(cfg, old(st), vid, order); st == o.s && sent == old(sent) + o.sent
    {
      hide Valid, OwnClaimFrames, Walking, Walks, P.SendClaim, P.SendAnnounce;
      var g := GwKey(cfg.primary, vid);
      Lookups();
      if g !in backboneHash {
        order := AnyWalk(st.claims.Keys);
        return;
      }
      LookGw(g);
      var b := backboneHash[g];
      var todo := claimHash.Keys;
      order := [];
      WalkBegins(todo);
      NoOwnFrames(cfg, st, g);
      while todo != {}
        invariant Valid() && Walking(order, todo, st.claims.Keys)
                  && sent == old(sent) + OwnClaimFrames(cfg, st, g, order)
      {
        var c :| c in todo;
        LookClaim(c);
        WalkMeets(order, todo, st.claims.Keys, c);
        OwnFramesMore(cfg, st, g, order, c);
        if claimHash[c].backboneGw == b {
          SendClaim(c.addr, c.vid, CLAIM);
        }
        order, todo := order + [c], todo - {c};
      }
      WalkOver(order, st.claims.Keys);
      SendAnnounce(b);
    }

    // ---- handlers -----------------------------------------------------------------

    /** batadv_handle_announce */
    method HandleAnnounce(an: Mac, backbone: Mac, vid: Vid, now: int)
      requires Valid()
      modifies repr
      ensures Valid() && fresh(repr - old(repr))
      ensures var o := P.HandleAnnounce(cfg, old(st), an, backbone, vid, now); st == o.s && sent == old(sent) + o.sent
    {
      hide Valid, P.GetBackboneGw, P.SendRequest, P.SetRequestSent;
      if an.head != ANNOUNCE_HEAD {
        return;
      }
      var b := GetBackboneGw(GwKey(backbone, vid), false, now);
      Look(b);
      Put(b, b.View().(lasttime := now));
      Look(b);
      if b.crc != an.tail {
        SendRequest(b);
      } else {
        SetRequestSent(b, false);
      }
    }

    /** batadv_handle_request */
    method HandleRequest(backbone: Mac, ethDst: Mac, vid: Vid) returns (ghost order: seq<ClaimKey>)
      requires Valid()
      modifies this`sent
      ensures Valid() && Walks(order, st.claims.Keys)
      ensures var o := P.HandleRequest(cfg, old(st), backbone, ethDst, vid, order);
              st == o.s && sent == old(sent) + o.sent
    {
      hide Valid, P.AnswerRequest;
      if backbone == ethDst && ethDst == cfg.primary {
        order := AnswerRequest(vid);
      } else {
        order := AnyWalk(st.claims.Keys);
      }
    }

    /** batadv_handle_unclaim */
    method HandleUnclaim(backbone: Mac, addr: Mac, vid: Vid)
      requires Valid()
      modifies repr
      ensures Valid() && repr == old(repr) && ClaimsOk(old(st))
      ensures var o := P.HandleUnclaim(cfg, old(st), backbone, addr, vid); st == o.s && sent == old(sent) + o.sent
    {
      hide Valid, P.DelClaim;
      Lookups();
      if backbone == cfg.primary {
        SendClaim(addr, vid, UNCLAIM);
      }
      if GwKey(backbone, vid) !in backboneHash {
        return;
      }
      DelClaim(ClaimKey(addr, vid));
    }

    /** batadv_handle_claim */
    method HandleClaim(backbone: Mac, addr: Mac, vid: Vid, now: int)
      requires Valid()
      modifies repr
      ensures Valid() && fresh(repr - old(repr)) && ClaimsOk(old(st))
      ensures var o := P.HandleClaim(cfg, old(st), backbone, addr, vid, now); st == o.s && sent == old(sent) + o.sent
    {
      hide Valid, P.AddClaim, P.GetBackboneGw;
      Lookups();
      var b := GetBackboneGw(GwKey(backbone, vid), false, now);
      AddClaim(ClaimKey(addr, vid), b, now);
      if backbone == cfg.primary {
        Lookups();
        ClaimingKeepsGroup(cfg, old(st), GwKey(backbone, vid), ClaimKey(addr, vid), now);
        SendClaim(addr, vid, CLAIM);
      }
    }

    /** batadv_bla_process_claim and batadv_check_claim_group. */
    method ProcessClaim(f: Frame, inMesh: bool, now: int) returns (ghost order: seq<ClaimKey>)
      requires Valid()
      modifies repr
      ensures Walks(order, old(st).claims.Keys)
      ensures Valid() && fresh(repr - old(repr)) && ClaimsOk(old(st))
      ensures var o := P.ProcessClaim(cfg, old(st), f, inMesh, order, now); st == o.s && sent == old(sent) + o.sent
    {
      hide Valid, Walks, P.UpdateOwn, P.Handled;
      order := AnyWalk(st.claims.Keys);
      Lookups();
      if Backbone(f) == cfg.primary || (f.group != group && !inMesh) {
        return;
      }
      if f.group > group {
        SetGroup(f.group);
      }
      UpdateOwnBackboneGw(f.vid, now);
      Lookups();
      order := Handle(f, now);
    }

    method Handle(f: Frame, now: int) returns (ghost order: seq<ClaimKey>)
      requires Valid()
      modifies repr
      ensures Valid() && fresh(repr - old(repr)) && ClaimsOk(old(st)) && Walks(order, old(st).claims.Keys)
      ensures var o := P.Handled(cfg, old(st), f, order, now); st == o.s && sent == old(sent) + o.sent
    {
      hide Valid, Walks, P.HandleClaim, P.HandleUnclaim, P.HandleAnnounce, P.HandleRequest;
      order := AnyWalk(st.claims.Keys);
      Lookups();
      match f.kind {
        case CLAIM => HandleClaim(f.hwSrc, f.ethSrc, f.vid, now);
        case UNCLAIM => HandleUnclaim(f.ethSrc, f.hwSrc, f.vid);
        case ANNOUNCE => HandleAnnounce(f.hwSrc, f.ethSrc, f.vid, now);
        case REQUEST => order := HandleRequest(f.hwSrc, f.ethDst, f.vid);
      }
    }

    method SetGroup(n: int)
      requires Valid()
      modifies this`group, this`st
      ensures Valid() && st == old(st).(group := n) && group == n
    {
      hide Valid;
      Lookups();
      group := n;
      st := st.(group := n);
      FewerClaims();
    }

    /** batadv_bla_rx */
    method BlaRx(enabled: bool, src: Mac, vid: Vid, bcast: bool, now: int) returns (handled: bool)
      requires Valid()
      modifies repr
      ensures Valid() && fresh(repr - old(repr)) && ClaimsOk(old(st))
      ensures var v := P.BlaRx(cfg, old(st), enabled, src, vid, bcast, now);
              st == v.o.s && sent == old(sent) + v.o.sent && handled == v.handled
    {
      hide Valid, P.UpdateOwn, P.HandleClaim;
      Lookups();
      if enabled {
        if numRequests != 0 && bcast {
          return true;
        }
        var c := ClaimKey(src, vid);
        LookClaim(c);
        if c !in claimHash {
          HandleClaim(cfg.primary, src, vid, now);
        } else if claimHash[c].backboneGw.key.orig == cfg.primary {
          SetOwner(claimHash[c], claimHash[c].backboneGw, now);
        } else if bcast {
          return true;
        } else {
          HandleClaim(cfg.primary, src, vid, now);
        }
      }
      UpdateOwnBackboneGw(vid, now);
      return false;
    }

    /** batadv_bla_tx */
    method BlaTx(enabled: bool, src: Mac, vid: Vid, multicast: bool, now: int) returns (handled: bool)
      requires Valid()
      modifies repr
      ensures Valid() && fresh(repr - old(repr)) && ClaimsOk(old(st))
      ensures var v := P.BlaTx(cfg, old(st), enabled, src, vid, multicast, now);
              st == v.o.s && sent == old(sent) + v.o.sent && handled == v.handled
    {
      hide Valid, P.UpdateOwn, P.HandleUnclaim;
      Lookups();
      if enabled {
        if numRequests != 0 && multicast {
          return true;
        }
        var c := ClaimKey(src, vid);
        LookClaim(c);
        if c in claimHash {
          if claimHash[c].backboneGw.key.orig == cfg.primary {
            HandleUnclaim(cfg.primary, src, vid);
          } else if multicast {
            return true;
          }
        }
      }
      UpdateOwnBackboneGw(vid, now);
      return false;
    }

    // ---- periodic work --------------------------------------------------------------

    /** batadv_bla_purge_claims: of all claims exactly the own ones that have timed out go, or all. */
    method PurgeClaims(all: bool, now: int) returns (ghost order: seq<ClaimKey>)
      requires Valid()
      modifies repr
      ensures Valid() && repr == old(repr) && ClaimsOk(old(st)) && Walks(order, old(st).claims.Keys)
      ensures var o := P.PurgeClaims(cfg, old(st), order, all, now); st == o.s && sent == old(sent) + o.sent
      ensures forall c :: c in st.claims <==> c in old(st).claims && !ClaimGoes(cfg, old(st).claims[c], all, now)
    {
      hide Valid, Walking, ClaimGoes, P.HandleUnclaim, P.PurgeClaims;
      Lookups();
      var todo := claimHash.Keys;
      order := [];
      WalkBegins(todo);
      NothingPurged(cfg, st, all, now);
      while todo != {}
        invariant Valid() && repr == old(repr) && Walking(order, todo, old(st).claims.Keys)
        invariant var o := P.PurgeClaims(cfg, old(st), order, all, now); st == o.s && sent == old(sent) + o.sent
      {
        var c :| c in todo;
        Lookups();
        LookClaim(c);
        WalkMeets(order, todo, old(st).claims.Keys, c);
        PurgeClaimsMore(cfg, old(st), order, c, all, now);
        if c in claimHash {
          var claim := claimHash[c];
          var orig := claim.backboneGw.key.orig;
          if all || (orig == cfg.primary && HasTimedOut(claim.lasttime, CLAIM_TIMEOUT, now)) {
            HandleUnclaim(orig, c.addr, c.vid);
          }
        }
        order, todo := order + [c], todo - {c};
      }
      WalkOver(order, old(st).claims.Keys);
      PurgeClaimsLeaves(cfg, old(st), order, all, now);
      assert forall c :: c in old(st).claims ==> c in Members(order);
    }

    method PurgeGw(b: BackboneGw)
      requires Valid() && Known(b)
      modifies repr
      ensures Valid() && repr == old(repr) && sent == old(sent) && b.key in old(st).gws
      ensures st == P.PurgeGw(old(st), b.key, true, 0)
    {
      hide Valid, Xor;
      Look(b);
      Lookups();
      if b.requestSent {
        SetNumRequests(numRequests - 1);
      }
      DelBackboneClaims(b);
      RemoveGw(b);
    }

    /** batadv_bla_purge_backbone_gw: of all gateways exactly those that have timed out go, or all. */
    method PurgeGws(all: bool, now: int) returns (ghost order: seq<GwKey>)
      requires Valid()
      modifies repr
      ensures Valid() && repr == old(repr) && sent == old(sent) && Walks(order, old(st).gws.Keys)
      ensures st == P.PurgeGws(old(st), order, all, now)
      ensures forall g :: g in st.gws <==> g in old(st).gws && !GwGoes(old(st).gws[g], all, now)
    {
      hide Valid, Walking, P.PurgeGws, P.DelBackboneClaims;
      Lookups();
      var todo := backboneHash.Keys;
      order := [];
      WalkBegins(todo);
      NoGwPurged(st, all, now);
      while todo != {}
        invariant Valid() && repr == old(repr) && sent == old(sent) && Walking(order, todo, old(st).gws.Keys)
        invariant st == P.PurgeGws(old(st), order, all, now)
      {
        var g :| g in todo;
        Lookups();
        WalkMeets(order, todo, old(st).gws.Keys, g);
        PurgeGwsMore(old(st), order, g, all, now);
        if g in backboneHash {
          LookGw(g);
          var b := backboneHash[g];
          Look(b);
          if all || HasTimedOut(b.lasttime, BACKBONE_TIMEOUT, now) {
            PurgeGw(b);
          }
        }
        order, todo := order + [g], todo - {g};
      }
      WalkOver(order, old(st).gws.Keys);
      PurgeGwsLeaves(old(st), order, all, now);
      assert forall g :: g in old(st).gws ==> g in Members(order);
    }

    method TickGw(b: BackboneGw, now: int)
      requires Valid() && Known(b) && b.key.orig == cfg.primary
      modifies repr
      ensures Valid() && repr == old(repr)
      ensures var o := P.TickGw(cfg, old(st), b.key, now); st == o.s && sent == old(sent) + o.sent
    {
      hide Valid;
      Look(b);
      Put(b, b.View().(lasttime := now));
      SendAnnounce(b);
      if !b.requestSent {
        return;
      }
      Put(b, b.View().(waitPeriods := b.waitPeriods - 1));
      if b.waitPeriods == 0 {
        SetRequestSent(b, false);
      }
    }

    method TickGws(now: int) returns (ghost order: seq<GwKey>)
      requires Valid()
      modifies repr
      ensures Valid() && repr == old(repr) && Walks(order, old(st).gws.Keys)
      ensures var o := P.TickGws(cfg, old(st), order, now); st == o.s && sent == old(sent) + o.sent
    {
      hide Valid, Walking, Walks, P.TickGws;
      Lookups();
      var todo := backboneHash.Keys;
      order := [];
      WalkBegins(todo);
      NoneTicked(cfg, st, now);
      while todo != {}
        invariant Valid() && repr == old(repr) && Walking(order, todo, old(st).gws.Keys)
        invariant var o := P.TickGws(cfg, old(st), order, now); st == o.s && sent == old(sent) + o.sent
      {
        var g :| g in todo;
        Lookups();
        WalkMeets(order, todo, old(st).gws.Keys, g);
        TickGwsMore(cfg, old(st), order, g, now);
        if g in backboneHash {
          LookGw(g);
          if g.orig == cfg.primary {
            TickGw(backboneHash[g], now);
          }
        }
        order, todo := order + [g], todo - {g};
      }
      WalkOver(order, old(st).gws.Keys);
    }

    /** batadv_bla_periodic_work: no own claim and no gateway that has timed out is left, and every own gateway that is
        left has been announced with its checksum. */
    method PeriodicWork(enabled: bool, now: int)
      returns (ghost corder: seq<ClaimKey>, ghost gorder: seq<GwKey>, ghost torder: seq<GwKey>)
      requires Valid()
      modifies repr
      ensures Valid() && repr == old(repr) && ClaimsOk(old(st))
      ensures Walks(corder, old(st).claims.Keys) && Walks(gorder, old(st).gws.Keys) && Walks(torder, st.gws.Keys)
      ensures var o := P.PeriodicWork(cfg, old(st), enabled, corder, gorder, torder, now);
              st == o.s && sent == old(sent) + o.sent
      ensures forall c :: c in st.claims <==> c in old(st).claims && !ClaimGoes(cfg, old(st).claims[c], false, now)
                                              && !GwGoes(old(st).gws[old(st).claims[c].owner], false, now)
      ensures forall g :: g in st.gws <==> g in old(st).gws && !GwGoes(old(st).gws[g], false, now)
      ensures enabled ==> forall g :: g in st.gws && g.orig == cfg.primary ==>
                                        P.SendAnnounce(cfg, st, g) in sent[|old(sent)|..]
    {
      hide Valid, Walks, ClaimGoes, GwGoes, P.PurgeClaims, P.PurgeGws, P.TickGws, P.SendAnnounce;
      Lookups();
      corder := PurgeClaims(false, now);
      Lookups();
      PurgeClaimsLeaves(cfg, old(st), corder, false, now);
      gorder := PurgeGws(false, now);
      PurgesLeave(cfg, old(st), corder, gorder, false, now);
      if enabled {
        Lookups();
        ghost var keys := st.gws.Keys;
        torder := TickGws(now);
        PeriodicDoes(cfg, old(st), corder, gorder, torder, now);
        assert st.gws.Keys == keys;
      } else {
        torder := AnyWalk(st.gws.Keys);
      }
    }

    /** batadv_bla_free: nothing is left, and exactly the own claims have been given up. */
    method Free(now: int) returns (ghost order: seq<ClaimKey>)
      requires Valid()
      modifies repr
      ensures Valid() && st.claims == map[] && st.gws == map[] && group == old(group)
      ensures Walks(order, old(st).claims.Keys) && sent == old(sent) + UnclaimFrames(cfg, old(st), order, true, now)
      ensures old(Inv(cfg, st)) ==> numRequests == 0
    {
      hide Valid, ClaimsOk, ClaimGoes, GwGoes, Inv, P.PurgeClaims, P.PurgeGws, UnclaimFrames, SameGws;
      Lookups();
      order := PurgeClaims(true, now);
      Lookups();
      PurgeClaimsLeaves(cfg, old(st), order, true, now);
      PurgeClaimsSends(cfg, old(st), order, true, now);
      var gorder := PurgeGws(true, now);
      Lookups();
      FreeLeaves(cfg, old(st), order, gorder, now);
    }
  }
}
