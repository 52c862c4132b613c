/**
  What the Jain Zar rules guarantee: each restriction admits exactly the
  track-filtered units its rule accepts, in roster order; the exclusion and
  hit-count rules are exact complements; and the allowed-unit listings are
  unique, ascending, and independent of the order of the restrictions.
 */
module JainZarProperties {
  import opened Seqs
  import opened Roster
  import opened JainZar

  /** Every restriction a track builds admits exactly the units passing the track filter and its rule, in roster order. */
  lemma BuildTrackSelectsExactly(unitsData: seq<Unit>, trackFilter: Unit -> bool, rules: seq<RestrictionRule>)
    ensures var t := BuildTrack(Filter(unitsData, trackFilter), rules);
      forall k :: 0 <= k < |rules| ==> FiltersBy(t.unitsRestrictions[k].units, unitsData, trackFilter, rules[k].rule)
  {
    forall k | 0 <= k < |rules|
      ensures FiltersBy(BuildTrack(Filter(unitsData, trackFilter), rules).unitsRestrictions[k].units, unitsData, trackFilter, rules[k].rule)
    {
      TwoStageFilter(unitsData, trackFilter, rules[k].rule);
    }
  }

  /** Every alpha restriction is the Xenos units of the roster that its rule accepts, in roster order. */
  lemma AlphaRestrictionsSelectExactly(unitsData: seq<Unit>)
    ensures forall k :: 0 <= k < 5 ==>
      FiltersBy(AlphaTrack(unitsData).unitsRestrictions[k].units, unitsData, IsXenos, AlphaRules[k].rule)
  {
    BuildTrackSelectsExactly(unitsData, IsXenos, AlphaRules);
  }

  /** Every beta restriction is the Imperial units of the roster that its rule accepts, in roster order. */
  lemma BetaRestrictionsSelectExactly(unitsData: seq<Unit>)
    ensures forall k :: 0 <= k < 5 ==>
      FiltersBy(BetaTrack(unitsData).unitsRestrictions[k].units, unitsData, IsImperial, BetaRules[k].rule)
  {
    BuildTrackSelectsExactly(unitsData, IsImperial, BetaRules);
  }

  /** Every gamma restriction is the non-Ork units of the roster that its rule accepts, in roster order. */
  lemma GammaRestrictionsSelectExactly(unitsData: seq<Unit>)
    ensures forall k :: 0 <= k < 5 ==>
      FiltersBy(GammaTrack(unitsData).unitsRestrictions[k].units, unitsData, IsNotOrk, GammaRules[k].rule)
  {
    BuildTrackSelectsExactly(unitsData, IsNotOrk, GammaRules);
  }

  /** 'Physical' holds exactly the Xenos units whose damage flags include Physical. */
  lemma PhysicalIsXenosWithPhysical(unitsData: seq<Unit>, u: Unit)
    ensures u in AlphaTrack(unitsData).unitsRestrictions[0].units
        <==> u in unitsData && u.alliance == Xenos && Physical in u.damageTypes
  {
    AlphaRestrictionsSelectExactly(unitsData);
  }

  /** 'Ranged' holds exactly the Xenos units with a present, nonzero ranged hit count. */
  lemma RangedIsXenosWithRangeHits(unitsData: seq<Unit>, u: Unit)
    ensures u in AlphaTrack(unitsData).unitsRestrictions[1].units
        <==> u in unitsData && u.alliance == Xenos && u.rangeHits.Some? && u.rangeHits.value != 0
  {
    AlphaRestrictionsSelectExactly(unitsData);
  }

  /** 'No Blast' admits exactly the Imperial units lacking the Blast flag. */
  lemma NoBlastComplementsBlast(unitsData: seq<Unit>, u: Unit)
    ensures u in BetaTrack(unitsData).unitsRestrictions[2].units
        <==> u in unitsData && u.alliance == Imperial && Blast !in u.damageTypes
  {
    BetaRestrictionsSelectExactly(unitsData);
    assert FiltersBy(BetaTrack(unitsData).unitsRestrictions[2].units, unitsData, IsImperial, LacksBlast);
  }

  /** 'No Mech' admits exactly the non-Ork units having neither the Mechanical nor the LivingMetal flag. */
  lemma NoMechComplementsMech(unitsData: seq<Unit>, u: Unit)
    ensures u in GammaTrack(unitsData).unitsRestrictions[0].units
        <==> u in unitsData && u.faction != Orks && Mechanical !in u.traits && LivingMetal !in u.traits
  {
    GammaRestrictionsSelectExactly(unitsData);
    assert FiltersBy(GammaTrack(unitsData).unitsRestrictions[0].units, unitsData, IsNotOrk, NotMechanical);
  }

  /** 'No Flying' admits exactly the non-Ork units lacking the Flying flag. */
  lemma NoFlyingComplementsFlying(unitsData: seq<Unit>, u: Unit)
    ensures u in GammaTrack(unitsData).unitsRestrictions[3].units
        <==> u in unitsData && u.faction != Orks && Flying !in u.traits
  {
    GammaRestrictionsSelectExactly(unitsData);
    assert FiltersBy(GammaTrack(unitsData).unitsRestrictions[3].units, unitsData, IsNotOrk, NotFlying);
  }

  /** A Xenos, non-Ork unit of the roster is in alpha 'Max 3 hits' exactly when it is not in gamma 'Min 4 hits'. */
  lemma MaxThreeHitsComplementsMinFourHits(unitsData: seq<Unit>, u: Unit)
    requires u in unitsData && u.alliance == Xenos && u.faction != Orks
    ensures u in AlphaTrack(unitsData).unitsRestrictions[2].units
        <==> u !in GammaTrack(unitsData).unitsRestrictions[4].units
  {
    AlphaRestrictionsSelectExactly(unitsData);
    GammaRestrictionsSelectExactly(unitsData);
    HitRulesUseEffectiveHits(u);
  }

  /**
    A track's allowed names are the union of its restrictions' names, so
    listing the same restrictions in another order lists the same names.
   */
  lemma TrackNamesIndependentOfOrder(rs1: seq<Restriction>, rs2: seq<Restriction>)
    requires forall r :: r in rs1 <==> r in rs2
    ensures NameSet(TrackAllowedUnits(Track(rs1))) == NameSet(TrackAllowedUnits(Track(rs2)))
  {
    forall n ensures n in RestrictionNames(rs1) <==> n in RestrictionNames(rs2) {
      if n in RestrictionNames(rs1) {
        var k :| 0 <= k < |rs1| && n in NameSet(rs1[k].units);
        assert rs1[k] in rs2;
        var k2 :| 0 <= k2 < |rs2| && rs2[k2] == rs1[k];
      }
      if n in RestrictionNames(rs2) {
        var k :| 0 <= k < |rs2| && n in NameSet(rs2[k].units);
        assert rs2[k] in rs1;
        var k1 :| 0 <= k1 < |rs1| && rs1[k1] == rs2[k];
      }
    }
  }

  /** Over units keyed by name, a track's allowed units are exactly the units its restrictions admit. */
  lemma TrackAllowedUnitsAreRestrictionUnits(t: Track)
    requires KeyedByName(UnitsOf(t.unitsRestrictions))
    ensures forall u :: u in TrackAllowedUnits(t) <==> exists x :: x in t.unitsRestrictions && u in x.units
  {
    DedupeAndSortKeepsUnits(UnitsOf(t.unitsRestrictions));
  }

  /**
    Over units keyed by name, a track's allowed listing does not depend on the
    order (or repetition) of its restrictions: not only the names, the whole listing.
   */
  lemma TrackAllowedUnitsIndependentOfOrder(rs1: seq<Restriction>, rs2: seq<Restriction>)
    requires forall r :: r in rs1 <==> r in rs2
    requires KeyedByName(UnitsOf(rs1))
    ensures TrackAllowedUnits(Track(rs1)) == TrackAllowedUnits(Track(rs2))
  {
    var a, b := UnitsOf(rs1), UnitsOf(rs2);
    assert forall u :: u in a <==> u in b;
    TrackAllowedUnitsAreRestrictionUnits(Track(rs1));
    TrackAllowedUnitsAreRestrictionUnits(Track(rs2));
    StrictlyAscendingUnique(TrackAllowedUnits(Track(rs1)), TrackAllowedUnits(Track(rs2)));
  }

  /** Deduplicating and sorting a track's allowed listing again leaves it unchanged. */
  lemma TrackAllowedUnitsStable(t: Track)
    ensures DedupeAndSort(TrackAllowedUnits(t)) == TrackAllowedUnits(t)
  {
    DedupeAndSortIdempotent(UnitsOf(t.unitsRestrictions));
  }

  /** Deduplicating and sorting the event's allowed listing again leaves it unchanged. */
  lemma EventAllowedUnitsStable(e: JainZarLegendaryEvent)
    ensures DedupeAndSort(EventAllowedUnits(e)) == EventAllowedUnits(e)
  {
    var alpha := TrackAllowedUnits(e.alphaTrack);
    var beta := TrackAllowedUnits(e.betaTrack);
    var gamma := TrackAllowedUnits(e.gammaTrack);
    DedupeAndSortIdempotent(alpha + beta + gamma);
  }

  /** A track whose restrictions draw on a roster keyed by name lists units keyed by name. */
  lemma TrackOverKeyedRoster(t: Track, unitsData: seq<Unit>)
    requires KeyedByName(unitsData)
    requires forall r, u :: r in t.unitsRestrictions && u in r.units ==> u in unitsData
    ensures KeyedByName(UnitsOf(t.unitsRestrictions))
    ensures forall u :: u in TrackAllowedUnits(t) <==> exists x :: x in t.unitsRestrictions && u in x.units
  {
    TrackAllowedUnitsAreRestrictionUnits(t);
  }

  /** Units drawn from a roster keyed by name are keyed by name. */
  lemma KeyedSubset(s: seq<Unit>, unitsData: seq<Unit>)
    requires KeyedByName(unitsData)
    requires forall v :: v in s ==> v in unitsData
    ensures KeyedByName(s)
  {
  }

  /** A track whose restrictions draw on a roster lists only units of that roster. */
  lemma TrackListsFromRoster(t: Track, unitsData: seq<Unit>)
    requires forall r, v :: r in t.unitsRestrictions && v in r.units ==> v in unitsData
    ensures forall v :: v in TrackAllowedUnits(t) ==> v in unitsData
  {
  }

  /**
    For an event whose tracks draw on a roster keyed by name, a unit is
    allowed in the event exactly when some restriction of some track admits it.
   */
  lemma EventAllowedUnitsOverKeyedRoster(e: JainZarLegendaryEvent, unitsData: seq<Unit>, u: Unit)
    requires KeyedByName(unitsData)
    requires forall r, v :: r in e.alphaTrack.unitsRestrictions && v in r.units ==> v in unitsData
    requires forall r, v :: r in e.betaTrack.unitsRestrictions && v in r.units ==> v in unitsData
    requires forall r, v :: r in e.gammaTrack.unitsRestrictions && v in r.units ==> v in unitsData
    ensures u in EventAllowedUnits(e) <==>
        || (exists r :: r in e.alphaTrack.unitsRestrictions && u in r.units)
        || (exists r :: r in e.betaTrack.unitsRestrictions && u in r.units)
        || (exists r :: r in e.gammaTrack.unitsRestrictions && u in r.units)
  {
    var alpha := TrackAllowedUnits(e.alphaTrack);
    var beta := TrackAllowedUnits(e.betaTrack);
    var gamma := TrackAllowedUnits(e.gammaTrack);
    var all := alpha + beta + gamma;
    assert u in EventAllowedUnits(e) <==> u in all by {
      assert forall v :: v in all ==> v in unitsData by {
        TrackListsFromRoster(e.alphaTrack, unitsData);
        TrackListsFromRoster(e.betaTrack, unitsData);
        TrackListsFromRoster(e.gammaTrack, unitsData);
      }
      KeyedSubset(all, unitsData);
      DedupeAndSortKeepsUnits(all);
      assert EventAllowedUnits(e) == DedupeAndSort(all);
    }
    assert u in alpha <==> exists r :: r in e.alphaTrack.unitsRestrictions && u in r.units by {
      TrackOverKeyedRoster(e.alphaTrack, unitsData);
    }
    assert u in beta <==> exists r :: r in e.betaTrack.unitsRestrictions && u in r.units by {
      TrackOverKeyedRoster(e.betaTrack, unitsData);
    }
    assert u in gamma <==> exists r :: r in e.gammaTrack.unitsRestrictions && u in r.units by {
      TrackOverKeyedRoster(e.gammaTrack, unitsData);
    }
  }

  /**
    For a roster keyed by name, a unit is allowed in the Jain Zar event
    exactly when some restriction of some track admits it.
   */
  lemma EventAllowedUnitsAreRestrictionUnits(unitsData: seq<Unit>, u: Unit)
    requires KeyedByName(unitsData)
    ensures var e := NewJainZarLegendaryEvent(unitsData);
      u in EventAllowedUnits(e) <==>
        || (exists r :: r in e.alphaTrack.unitsRestrictions && u in r.units)
        || (exists r :: r in e.betaTrack.unitsRestrictions && u in r.units)
        || (exists r :: r in e.gammaTrack.unitsRestrictions && u in r.units)
  {
    EventAllowedUnitsOverKeyedRoster(NewJainZarLegendaryEvent(unitsData), unitsData, u);
  }
}
