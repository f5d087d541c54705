/** Many queue pairs and result owners share one device's zones. Take and Put are atomic (they hold
    the mutex), so every history is a sequence of steps on the shared state; here is what each step
    keeps, in whatever order they come. */
module SharedZones {
  import opened Sequences
  import opened MemoryPool
  import opened ZoneStack

  /** An operation under way, or a result not yet recycled. */
  type Holder = nat

  datatype Event =
    | Taken(who: Holder, zone: Memzone)
    | Returned(who: Holder, zone: Memzone)

  /** Somebody relies on the contents of a zone. */
  datatype Claim = Claim(who: Holder, zone: Memzone)

  /** The shared state, who relies on what, and how many zones takes have obtained anew. */
  datatype Lending = Lending(zones: Zones, claims: set<Claim>, preallocated: nat, hot: nat)

  ghost predicate Possible(s: Lending, e: Event)
  {
    e.Taken? ==> CanTake(s.zones, e.zone)
  }

  function Step(s: Lending, e: Event): Lending
  {
    match e
    case Taken(h, z) =>
      s.(zones := Take(s.zones, z), claims := s.claims + {Claim(h, z)}, hot := s.hot + (if s.zones.free == [] then 1 else 0))
    case Returned(h, z) =>
      s.(zones := Put(s.zones, z), claims := s.claims - {Claim(h, z)})
  }

  /** Nobody puts back a zone somebody else relies on. Zones nobody relies on may be put any time. */
  ghost predicate Fair(s: Lending, e: Event)
  {
    e.Returned? ==> forall c :: c in s.claims && c.zone == e.zone ==> c.who == e.who
  }

  /** Free and lent zones never overlap and no zone is free twice; claims are on lent zones only, and
      never two on the same zone; and all zones are accounted for. */
  ghost predicate Orderly(s: Lending)
  {
    && s.zones.WellFormed()
    && (forall c :: c in s.claims ==> c.zone in s.zones.occupied)
    && (forall c, d :: c in s.claims && d in s.claims && c.zone == d.zone ==> c == d)
    && |s.zones.free| + |s.zones.occupied| == s.preallocated + s.hot
  }

  /** The state after a history. */
  function After(s: Lending, es: seq<Event>): Lending
    decreases |es|
  {
    if es == [] then s else After(Step(s, es[0]), es[1..])
  }

  ghost predicate AllPossible(s: Lending, es: seq<Event>)
    decreases |es|
  {
    es != [] ==> Possible(s, es[0]) && AllPossible(Step(s, es[0]), es[1..])
  }

  /** A history of possible steps leads from s to s'. */
  ghost predicate Leads(s: Lending, es: seq<Event>, s': Lending)
  {
    AllPossible(s, es) && s' == After(s, es)
  }

  ghost predicate AlwaysFair(s: Lending, es: seq<Event>)
    decreases |es|
  {
    es != [] ==> Fair(s, es[0]) && AlwaysFair(Step(s, es[0]), es[1..])
  }

  /** The zones a history obtained anew. */
  ghost function Fetched(s: Lending, es: seq<Event>): set<Memzone>
    decreases |es|
  {
    if es == [] then {}
    else (if es[0].Taken? && s.zones.free == [] then {es[0].zone} else {}) + Fetched(Step(s, es[0]), es[1..])
  }

  lemma TakeAccounts(st: Zones, z: Memzone)
    requires st.WellFormed() && CanTake(st, z)
    ensures Take(st, z).WellFormed() && z !in st.occupied && Take(st, z).occupied == st.occupied + {z}
    ensures Take(st, z).Obtained() == st.Obtained() + (if st.free == [] then {z} else {})
    ensures |Take(st, z).free| + |Take(st, z).occupied| == |st.free| + |st.occupied| + (if st.free == [] then 1 else 0)
  {
    if st.free != [] {
      var k := |st.free| - 1;
      assert st.free == st.free[..k] + [z];
      assert Elements(st.free) == Elements(st.free[..k]) + {z};
    }
  }

  lemma PutAccounts(st: Zones, z: Memzone)
    requires st.WellFormed()
    ensures Put(st, z).WellFormed() && Put(st, z).Obtained() == st.Obtained()
    ensures |Put(st, z).free| + |Put(st, z).occupied| == |st.free| + |st.occupied|
  {
    if z in st.occupied {
      assert Elements(st.free + [z]) == Elements(st.free) + {z};
    }
  }

  lemma StepKeepsOrder(s: Lending, e: Event)
    requires Orderly(s) && Possible(s, e) && Fair(s, e)
    ensures Orderly(Step(s, e))
    ensures Step(s, e).zones.Obtained() ==
            s.zones.Obtained() + (if e.Taken? && s.zones.free == [] then {e.zone} else {})
  {
    match e
    case Taken(h, z) => TakeKeepsOrder(s, h, z);
    case Returned(h, z) => PutKeepsOrder(s, h, z);
  }

  lemma TakeKeepsOrder(s: Lending, h: Holder, z: Memzone)
    requires Orderly(s) && CanTake(s.zones, z)
    ensures var s' := Step(s, Taken(h, z));
            Orderly(s') && s'.zones.Obtained() == s.zones.Obtained() + (if s.zones.free == [] then {z} else {})
  {
    hide Take, CanTake, Zones.WellFormed, Zones.Obtained;
    TakeAccounts(s.zones, z);
  }

  lemma PutKeepsOrder(s: Lending, h: Holder, z: Memzone)
    requires Orderly(s) && forall c :: c in s.claims && c.zone == z ==> c.who == h
    ensures var s' := Step(s, Returned(h, z)); Orderly(s') && s'.zones.Obtained() == s.zones.Obtained()
  {
    PutAccounts(s.zones, z);
  }

  /** Under any interleaving: the stack stays free of duplicates and apart from the zones on loan,
      together they are exactly the zones ever obtained, and nobody else ever relies on a zone
      somebody relies on. */
  lemma {:induction false} EveryHistoryIsOrderly(s: Lending, es: seq<Event>, s': Lending)
    requires Orderly(s) && Leads(s, es, s') && AlwaysFair(s, es)
    ensures Orderly(s') && s'.zones.Obtained() == s.zones.Obtained() + Fetched(s, es)
    decreases |es|
  {
    if es != [] {
      StepKeepsOrder(s, es[0]);
      EveryHistoryIsOrderly(Step(s, es[0]), es[1..], s');
    }
  }

  /** Orderly at the start and after every step. */
  ghost predicate AlwaysOrderly(s: Lending, es: seq<Event>)
    decreases |es|
  {
    Orderly(s) && (es != [] ==> AlwaysOrderly(Step(s, es[0]), es[1..]))
  }

  /** Returning a zone somebody else relies on frees it under their hands. */
  lemma UnfairBreaksOrder(s: Lending, e: Event)
    requires Orderly(s) && !Fair(s, e)
    ensures !Orderly(Step(s, e))
  {
    var c :| c in s.claims && c.zone == e.zone && c.who != e.who;
    assert c in Step(s, e).claims && c.zone !in Step(s, e).zones.occupied;
  }

  /** Fairness is exactly what order takes: a history of possible steps stays orderly throughout if and
      only if nobody ever returns a zone somebody else relies on. */
  lemma {:induction false} OrderlyIffFair(s: Lending, es: seq<Event>)
    requires Orderly(s) && AllPossible(s, es)
    ensures AlwaysOrderly(s, es) <==> AlwaysFair(s, es)
    decreases |es|
  {
    if es != [] {
      if Fair(s, es[0]) {
        StepKeepsOrder(s, es[0]);
        OrderlyIffFair(Step(s, es[0]), es[1..]);
      } else {
        UnfairBreaksOrder(s, es[0]);
      }
    }
  }

  /** A zone somebody relies on is handed to nobody until that holder returns it. */
  lemma {:induction false} HeldUntilReturned(s: Lending, es: seq<Event>, s': Lending, c: Claim)
    requires Orderly(s) && Leads(s, es, s') && AlwaysFair(s, es) && c in s.claims
    requires forall i :: 0 <= i < |es| ==> es[i] != Returned(c.who, c.zone)
    ensures c in s'.claims && forall i :: 0 <= i < |es| && es[i].Taken? ==> es[i].zone != c.zone
    decreases |es|
  {
    if es != [] {
      hide Orderly, Step, Fair, Possible;
      HeldStep(s, es[0], c);
      assert forall i :: 0 <= i < |es[1..]| ==> es[1..][i] == es[i + 1];
      HeldUntilReturned(Step(s, es[0]), es[1..], s', c);
    }
  }

  lemma HeldStep(s: Lending, e: Event, c: Claim)
    requires Orderly(s) && Possible(s, e) && Fair(s, e) && c in s.claims && e != Returned(c.who, c.zone)
    ensures Orderly(Step(s, e)) && c in Step(s, e).claims && (e.Taken? ==> e.zone != c.zone)
  {
    StepKeepsOrder(s, e);
    if e.Taken? {
      TakeAccounts(s.zones, e.zone);
    }
  }

  // ----- what one holder contributes -----

  /** The events of holder h, in their order. */
  function Own(es: seq<Event>, h: Holder): seq<Event>
  {
    if es == [] then [] else if es[0].who == h then [es[0]] + Own(es[1..], h) else Own(es[1..], h)
  }

  /** The zones holder h relies on. */
  function HeldBy(s: Lending, h: Holder): set<Memzone>
  {
    set c | c in s.claims && c.who == h :: c.zone
  }

  /** A holder that holds `held` returns only what it holds. This can be told from its own events alone. */
  ghost predicate Honest(own: seq<Event>, held: set<Memzone>)
    decreases |own|
  {
    own != [] ==>
      match own[0]
      case Taken(_, z) => Honest(own[1..], held + {z})
      case Returned(_, z) => z in held && Honest(own[1..], held - {z})
  }

  /** What a holder that held `held` still holds after its own events. */
  function LeftWith(own: seq<Event>, held: set<Memzone>): set<Memzone>
    decreases |own|
  {
    if own == [] then held
    else
      match own[0]
      case Taken(_, z) => LeftWith(own[1..], held + {z})
      case Returned(_, z) => LeftWith(own[1..], held - {z})
  }

  lemma HeldAfter(s: Lending, e: Event, h: Holder)
    ensures HeldBy(Step(s, e), h) ==
            if e.who != h then HeldBy(s, h) else if e.Taken? then HeldBy(s, h) + {e.zone} else HeldBy(s, h) - {e.zone}
  {
    var claims, held := Step(s, e).claims, HeldBy(s, h);
    forall z
      ensures z in HeldBy(Step(s, e), h) <==> Claim(h, z) in claims
      ensures z in held <==> Claim(h, z) in s.claims
    {
    }
  }

  lemma OwnNext(es: seq<Event>, h: Holder)
    requires es != []
    ensures Own(es, h) == if es[0].who == h then [es[0]] + Own(es[1..], h) else Own(es[1..], h)
    ensures es[0].who == h ==> Own(es, h)[1..] == Own(es[1..], h)
  {
  }

  /** Holders that are honest, each for itself, are fair to each other in any interleaving. */
  lemma {:induction false} HonestIsFair(s: Lending, es: seq<Event>)
    requires Orderly(s) && AllPossible(s, es) && forall h :: Honest(Own(es, h), HeldBy(s, h))
    ensures AlwaysFair(s, es) && forall h :: HeldBy(After(s, es), h) == LeftWith(Own(es, h), HeldBy(s, h))
    decreases |es|
  {
    if es != [] {
      var e := es[0];
      forall h
        ensures Honest(Own(es[1..], h), HeldBy(Step(s, e), h))
        ensures LeftWith(Own(es, h), HeldBy(s, h)) == LeftWith(Own(es[1..], h), HeldBy(Step(s, e), h))
      {
        assert Honest(Own(es, h), HeldBy(s, h));
        OwnNext(es, h);
        HeldAfter(s, e, h);
      }
      HonestFirst(s, es);
      StepKeepsOrder(s, e);
      HonestIsFair(Step(s, e), es[1..]);
    }
  }

  lemma HonestFirst(s: Lending, es: seq<Event>)
    requires Orderly(s) && es != [] && Honest(Own(es, es[0].who), HeldBy(s, es[0].who))
    ensures Fair(s, es[0])
  {
    OwnNext(es, es[0].who);
    if es[0].Returned? {
      assert Claim(es[0].who, es[0].zone) in s.claims;
    }
  }

  function Takes(h: Holder, zs: seq<Memzone>): (es: seq<Event>)
    ensures |es| == |zs|
  {
    seq(|zs|, i requires 0 <= i < |zs| => Taken(h, zs[i]))
  }

  function Returns(h: Holder, zs: seq<Memzone>): (es: seq<Event>)
    ensures |es| == |zs|
  {
    seq(|zs|, i requires 0 <= i < |zs| => Returned(h, zs[i]))
  }

  lemma {:induction false} AfterConcat(s: Lending, a: seq<Event>, b: seq<Event>)
    ensures After(s, a + b) == After(After(s, a), b)
    ensures AllPossible(s, a + b) <==> AllPossible(s, a) && AllPossible(After(s, a), b)
    decreases |a|
  {
    if a == [] {
      assert a + b == b;
    } else {
      assert (a + b)[1..] == a[1..] + b;
      AfterConcat(Step(s, a[0]), a[1..], b);
    }
  }

  /** A run of takes by one holder does to the zones what the run of takes does. */
  lemma {:induction false} TakesLead(s: Lending, h: Holder, zs: seq<Memzone>)
    ensures AllPossible(s, Takes(h, zs)) <==> CanTakeAll(s.zones, zs)
    ensures After(s, Takes(h, zs)).zones == TakeAll(s.zones, zs)
    decreases |zs|
  {
    if zs != [] {
      var before, z := zs[..|zs| - 1], zs[|zs| - 1];
      TakesLead(s, h, before);
      assert Takes(h, zs) == Takes(h, before) + [Taken(h, z)];
      AfterConcat(s, Takes(h, before), [Taken(h, z)]);
      OneEvent(After(s, Takes(h, before)), Taken(h, z));
    }
  }

  lemma OneEvent(s: Lending, e: Event)
    ensures After(s, [e]) == Step(s, e) && (AllPossible(s, [e]) <==> Possible(s, e))
  {
    assert [e][1..] == [];
  }

  lemma {:induction false} ReturnsLead(s: Lending, h: Holder, zs: seq<Memzone>)
    ensures AllPossible(s, Returns(h, zs)) && After(s, Returns(h, zs)).zones == PutAll(s.zones, zs)
    decreases |zs|
  {
    if zs != [] {
      ReturnsLead(Step(s, Returned(h, zs[0])), h, zs[1..]);
      assert Returns(h, zs)[1..] == Returns(h, zs[1..]);
    }
  }

  /** Takes followed by returns of distinct zones among them are honest; what is not returned is kept. */
  lemma {:induction false} TakesHonest(h: Holder, zs: seq<Memzone>, rest: seq<Event>, held: set<Memzone>)
    ensures Honest(Takes(h, zs) + rest, held) <==> Honest(rest, held + Elements(zs))
    ensures LeftWith(Takes(h, zs) + rest, held) == LeftWith(rest, held + Elements(zs))
    decreases |zs|
  {
    if zs == [] {
      assert Takes(h, zs) + rest == rest && held + Elements(zs) == held;
    } else {
      assert (Takes(h, zs) + rest)[1..] == Takes(h, zs[1..]) + rest;
      assert zs == [zs[0]] + zs[1..];
      assert held + Elements(zs) == held + {zs[0]} + Elements(zs[1..]);
      TakesHonest(h, zs[1..], rest, held + {zs[0]});
    }
  }

  lemma {:induction false} ReturnsHonest(h: Holder, zs: seq<Memzone>, held: set<Memzone>)
    requires Distinct(zs) && forall z :: z in zs ==> z in held
    ensures Honest(Returns(h, zs), held) && LeftWith(Returns(h, zs), held) == held - Elements(zs)
    decreases |zs|
  {
    if zs != [] {
      assert Returns(h, zs)[1..] == Returns(h, zs[1..]);
      assert zs == [zs[0]] + zs[1..];
      assert held - Elements(zs) == held - {zs[0]} - Elements(zs[1..]);
      ReturnsHonest(h, zs[1..], held - {zs[0]});
    }
  }

  /** Every zone on loan is claimed by somebody. */
  ghost predicate AllClaimed(s: Lending)
  {
    forall z :: z in s.zones.occupied ==> exists c :: c in s.claims && c.zone == z
  }

  lemma {:induction false} StaysClaimed(s: Lending, es: seq<Event>)
    requires AllClaimed(s)
    ensures AllClaimed(After(s, es))
    decreases |es|
  {
    if es != [] {
      StepStaysClaimed(s, es[0]);
      StaysClaimed(Step(s, es[0]), es[1..]);
    }
  }

  lemma StepStaysClaimed(s: Lending, e: Event)
    requires AllClaimed(s)
    ensures AllClaimed(Step(s, e))
  {
    forall z | z in Step(s, e).zones.occupied
      ensures exists c :: c in Step(s, e).claims && c.zone == z
    {
      if e.Taken? && e.zone == z {
        assert Claim(e.who, z) in Step(s, e).claims;
      } else {
        var c :| c in s.claims && c.zone == z;
        assert c in Step(s, e).claims;
      }
    }
  }

  /** A round in which honest holders give back all they take leaves nothing on loan. */
  lemma RoundSettles(s: Lending, es: seq<Event>, s': Lending)
    requires Orderly(s) && s.zones.occupied == {} && Leads(s, es, s')
    requires forall h :: Honest(Own(es, h), {}) && LeftWith(Own(es, h), {}) == {}
    ensures AlwaysFair(s, es) && Orderly(s') && s'.zones.occupied == {}
  {
    NothingClaimed(s);
    HonestIsFair(s, es);
    EveryHistoryIsOrderly(s, es, s');
    StaysClaimed(s, es);
    NothingHeld(s');
  }

  lemma NothingClaimed(s: Lending)
    requires Orderly(s) && s.zones.occupied == {}
    ensures AllClaimed(s) && forall h :: HeldBy(s, h) == {}
  {
  }

  lemma NothingHeld(s: Lending)
    requires AllClaimed(s) && forall h :: HeldBy(s, h) == {}
    ensures s.zones.occupied == {}
  {
    forall c | c in s.claims
      ensures c.zone in HeldBy(s, c.who)
    {
    }
    assert s.claims == {};
  }

  // ----- how many zones are enough -----

  /** Whenever the history takes a zone, fewer than n zones are on loan. */
  ghost predicate LoansBelow(s: Lending, es: seq<Event>, n: nat)
    decreases |es|
  {
    es != [] ==>
      && (es[0].Taken? ==> |s.zones.occupied| < n)
      && LoansBelow(Step(s, es[0]), es[1..], n)
  }

  /** With as many zones obtained as are ever on loan at once, no take leaves the fast path. */
  lemma {:induction false} EnoughNeverHot(s: Lending, es: seq<Event>, s': Lending)
    requires Orderly(s) && Leads(s, es, s') && AlwaysFair(s, es) && LoansBelow(s, es, s.preallocated + s.hot)
    ensures s'.hot == s.hot && Fetched(s, es) == {}
    decreases |es|
  {
    if es != [] {
      StepKeepsOrder(s, es[0]);
      EnoughNeverHot(Step(s, es[0]), es[1..], s');
    }
  }

  function TakesIn(es: seq<Event>): nat
  {
    if es == [] then 0 else (if es[0].Taken? then 1 else 0) + TakesIn(es[1..])
  }

  /** No more takes than zones were free at the start: none of them has to obtain a zone. */
  lemma {:induction false} FewTakesNeverHot(s: Lending, es: seq<Event>, s': Lending)
    requires Orderly(s) && Leads(s, es, s') && AlwaysFair(s, es) && TakesIn(es) <= |s.zones.free|
    ensures s'.hot == s.hot && Fetched(s, es) == {}
    decreases |es|
  {
    if es != [] {
      StepKeepsOrder(s, es[0]);
      FewTakesNeverHot(Step(s, es[0]), es[1..], s');
    }
  }

  /** Fairness matters. A result that is recycled twice, the second time after its zone has been lent
      to somebody else, makes that zone free while it is in use, and the next take hands it to a
      second user. */
  lemma RecyclingTwiceShares(z: Memzone)
    ensures var s := Lending(Zones([z], {}), {}, 1, 0);
            var es := [Taken(0, z), Returned(0, z), Taken(1, z), Returned(0, z), Taken(2, z)];
            var s' := Lending(Zones([], {z}), {Claim(1, z), Claim(2, z)}, 1, 0);
            Orderly(s) && Leads(s, es, s') && !Orderly(s')
  {
    var free, lent := Zones([z], {}), Zones([], {z});
    var s0, s1 := Lending(free, {}, 1, 0), Lending(lent, {Claim(0, z)}, 1, 0);
    var s3, s4 := Lending(lent, {Claim(1, z)}, 1, 0), Lending(free, {Claim(1, z)}, 1, 0);
    var s5 := Lending(lent, {Claim(1, z), Claim(2, z)}, 1, 0);
    TheftSteps(z);
    LeadsBack(s4, Taken(2, z), [], s5);
    LeadsBack(s3, Returned(0, z), [Taken(2, z)], s5);
    LeadsBack(s0, Taken(1, z), [Returned(0, z), Taken(2, z)], s5);
    LeadsBack(s1, Returned(0, z), [Taken(1, z), Returned(0, z), Taken(2, z)], s5);
    LeadsBack(s0, Taken(0, z), [Returned(0, z), Taken(1, z), Returned(0, z), Taken(2, z)], s5);
    assert Claim(1, z) in s5.claims && Claim(2, z) in s5.claims;
  }

  lemma TheftSteps(z: Memzone)
    ensures var free, lent := Zones([z], {}), Zones([], {z});
            && Step(Lending(free, {}, 1, 0), Taken(0, z)) == Lending(lent, {Claim(0, z)}, 1, 0)
            && Step(Lending(lent, {Claim(0, z)}, 1, 0), Returned(0, z)) == Lending(free, {}, 1, 0)
            && Step(Lending(free, {}, 1, 0), Taken(1, z)) == Lending(lent, {Claim(1, z)}, 1, 0)
            && Step(Lending(lent, {Claim(1, z)}, 1, 0), Returned(0, z)) == Lending(free, {Claim(1, z)}, 1, 0)
            && Step(Lending(free, {Claim(1, z)}, 1, 0), Taken(2, z)) == Lending(lent, {Claim(1, z), Claim(2, z)}, 1, 0)
  {
    assert Put(Zones([], {z}), z) == Zones([z], {}) && Take(Zones([z], {}), z) == Zones([], {z});
    assert {Claim(0, z)} - {Claim(0, z)} == {};
    assert {Claim(1, z)} - {Claim(0, z)} == {Claim(1, z)};
  }

  lemma LeadsBack(s: Lending, e: Event, es: seq<Event>, s': Lending)
    requires Possible(s, e) && Leads(Step(s, e), es, s')
    ensures Leads(s, [e] + es, s')
  {
    assert ([e] + es)[1..] == es;
  }
}
