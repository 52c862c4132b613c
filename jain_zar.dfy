/**
  The Jain Zar legendary event: three tracks, each of which narrows the
  roster by alliance or faction and then offers five named, point-valued
  restrictions, each the narrowed roster filtered by one rule. A track's
  allowed units, and the event's, are the name-deduplicated, name-sorted
  union of what its parts list.
 */
module JainZar {
  import opened Wrappers
  import opened Seqs
  import opened Roster

  /** One scoring restriction: its label, its point value and the units it admits. */
  datatype Restriction = Restriction(name: string, points: nat, units: seq<Unit>)

  /** A track is its list of restrictions; its allowed units are computed by `TrackAllowedUnits`. */
  datatype Track = Track(unitsRestrictions: seq<Restriction>)

  /** The event's three tracks, fixed when the event is built. */
  datatype JainZarLegendaryEvent = JainZarLegendaryEvent(alphaTrack: Track, betaTrack: Track, gammaTrack: Track)

  // ---------------------------------------------------------------------------
  // Attribute tests

  /** `(unit.damageTypes & F) === F` for a single flag `F`. */
  predicate HasDamage(u: Unit, d: DamageType)
  {
    d in u.damageTypes
  }

  /** `(unit.traits & F) === F` for a single flag `F`. */
  predicate HasTrait(u: Unit, t: Trait)
  {
    t in u.traits
  }

  /** `!!unit.rangeHits`: the ranged hit count is present and not zero. */
  predicate HasRangeHits(u: Unit)
  {
    u.rangeHits.Some? && u.rangeHits.value != 0
  }

  /** The hit count the hit rules look at: ranged hits where the unit has them, melee hits otherwise. */
  function EffectiveHits(u: Unit): (h: int)
    ensures u.rangeHits.Some? && u.rangeHits.value != 0 ==> h == u.rangeHits.value
    ensures u.rangeHits == None || u.rangeHits == Some(0) ==> h == u.meleeHits
  {
    if HasRangeHits(u) then u.rangeHits.value else u.meleeHits
  }

  // ---------------------------------------------------------------------------
  // Track filters

  predicate IsXenos(u: Unit) { u.alliance == Xenos }

  predicate IsImperial(u: Unit) { u.alliance == Imperial }

  predicate IsNotOrk(u: Unit) { u.faction != Orks }

  // ---------------------------------------------------------------------------
  // Restriction rules, written as the source writes them

  predicate DealsPhysical(u: Unit) { HasDamage(u, Physical) }

  predicate DealsPower(u: Unit) { HasDamage(u, Power) }

  predicate DealsBolter(u: Unit) { HasDamage(u, Bolter) }

  predicate DealsPiercing(u: Unit) { HasDamage(u, Piercing) }

  /** `(damageTypes & Blast) !== Blast` */
  predicate LacksBlast(u: Unit) { !HasDamage(u, Blast) }

  predicate IsRanged(u: Unit) { HasRangeHits(u) }

  predicate IsNecron(u: Unit) { u.faction == Necrons }

  predicate NoForcedSummons(u: Unit) { !u.forcedSummons }

  /** Neither the Mechanical nor the LivingMetal flag. */
  predicate NotMechanical(u: Unit) { !HasTrait(u, Mechanical) && !HasTrait(u, LivingMetal) }

  predicate NotFlying(u: Unit) { !HasTrait(u, Flying) }

  predicate AtMostThreeHits(u: Unit)
  {
    (!HasRangeHits(u) && u.meleeHits <= 3) || (HasRangeHits(u) && u.rangeHits.value <= 3)
  }

  predicate AtMostTwoHits(u: Unit)
  {
    (!HasRangeHits(u) && u.meleeHits <= 2) || (HasRangeHits(u) && u.rangeHits.value <= 2)
  }

  predicate AtLeastFourHits(u: Unit)
  {
    (!HasRangeHits(u) && u.meleeHits >= 4) || (HasRangeHits(u) && u.rangeHits.value >= 4)
  }

  /** The hit rules look at ranged hits when present and nonzero, and at melee hits otherwise. */
  lemma HitRulesUseEffectiveHits(u: Unit)
    ensures AtMostThreeHits(u) <==> EffectiveHits(u) <= 3
    ensures AtMostTwoHits(u) <==> EffectiveHits(u) <= 2
    ensures AtLeastFourHits(u) <==> EffectiveHits(u) >= 4
  {
  }

  // ---------------------------------------------------------------------------
  // Tracks and the event

  /** The labels a track shows: each restriction's name with its point value, in order. */
  function Labels(t: Track): (r: seq<(string, nat)>)
    ensures |r| == |t.unitsRestrictions|
  {
    seq(|t.unitsRestrictions|, i requires 0 <= i < |t.unitsRestrictions| =>
      (t.unitsRestrictions[i].name, t.unitsRestrictions[i].points))
  }

  /** One entry of a track's restriction list as the source writes it: label, point value, rule. */
  datatype RestrictionRule = RestrictionRule(name: string, points: nat, rule: Unit -> bool)

  /** The label and point value of each rule, in order. */
  function RuleLabels(rules: seq<RestrictionRule>): (r: seq<(string, nat)>)
    ensures |r| == |rules|
  {
    seq(|rules|, k requires 0 <= k < |rules| => (rules[k].name, rules[k].points))
  }

  /** Each restriction of the track is the narrowed roster filtered by its rule. */
  function BuildTrack(narrowed: seq<Unit>, rules: seq<RestrictionRule>): (t: Track)
    ensures |t.unitsRestrictions| == |rules|
    ensures forall k :: 0 <= k < |rules| ==>
      t.unitsRestrictions[k] == Restriction(rules[k].name, rules[k].points, Filter(narrowed, rules[k].rule))
    ensures Labels(t) == RuleLabels(rules)
    ensures forall r, u :: r in t.unitsRestrictions && u in r.units ==> u in narrowed
  {
    Track(seq(|rules|, k requires 0 <= k < |rules| =>
      Restriction(rules[k].name, rules[k].points, Filter(narrowed, rules[k].rule))))
  }

  const AlphaRules: seq<RestrictionRule> := [
    RestrictionRule("Physical", 100, DealsPhysical),
    RestrictionRule("Ranged", 60, IsRanged),
    RestrictionRule("Max 3 hits", 45, AtMostThreeHits),
    RestrictionRule("Necrons only", 110, IsNecron),
    RestrictionRule("No Summons", 60, NoForcedSummons)
  ]

  const BetaRules: seq<RestrictionRule> := [
    RestrictionRule("Power", 95, DealsPower),
    RestrictionRule("Bolter", 95, DealsBolter),
    RestrictionRule("No Blast", 50, LacksBlast),
    RestrictionRule("Max 2 hits", 70, AtMostTwoHits),
    RestrictionRule("No Summons", 60, NoForcedSummons)
  ]

  const GammaRules: seq<RestrictionRule> := [
    RestrictionRule("No Mech", 45, NotMechanical),
    RestrictionRule("Piercing", 100, DealsPiercing),
    RestrictionRule("Bolter", 95, DealsBolter),
    RestrictionRule("No Flying", 45, NotFlying),
    RestrictionRule("Min 4 hits", 90, AtLeastFourHits)
  ]

  /** Alpha: Xenos only. */
  function AlphaTrack(unitsData: seq<Unit>): (t: Track)
    ensures Labels(t) == [("Physical", 100), ("Ranged", 60), ("Max 3 hits", 45), ("Necrons only", 110), ("No Summons", 60)]
    ensures forall r, u :: r in t.unitsRestrictions && u in r.units ==> u in unitsData && u.alliance == Xenos
  {
    BuildTrack(Filter(unitsData, IsXenos), AlphaRules)
  }

  /** Beta: Imperial only. */
  function BetaTrack(unitsData: seq<Unit>): (t: Track)
    ensures Labels(t) == [("Power", 95), ("Bolter", 95), ("No Blast", 50), ("Max 2 hits", 70), ("No Summons", 60)]
    ensures forall r, u :: r in t.unitsRestrictions && u in r.units ==> u in unitsData && u.alliance == Imperial
  {
    BuildTrack(Filter(unitsData, IsImperial), BetaRules)
  }

  /** Gamma: every faction but the Orks. */
  function GammaTrack(unitsData: seq<Unit>): (t: Track)
    ensures Labels(t) == [("No Mech", 45), ("Piercing", 100), ("Bolter", 95), ("No Flying", 45), ("Min 4 hits", 90)]
    ensures forall r, u :: r in t.unitsRestrictions && u in r.units ==> u in unitsData && u.faction != Orks
  {
    BuildTrack(Filter(unitsData, IsNotOrk), GammaRules)
  }

  /** The constructor: builds the three tracks from one roster. */
  function NewJainZarLegendaryEvent(unitsData: seq<Unit>): (e: JainZarLegendaryEvent)
    ensures e.alphaTrack == AlphaTrack(unitsData) && e.betaTrack == BetaTrack(unitsData) && e.gammaTrack == GammaTrack(unitsData)
    ensures |e.alphaTrack.unitsRestrictions| == 5
    ensures |e.betaTrack.unitsRestrictions| == 5
    ensures |e.gammaTrack.unitsRestrictions| == 5
  {
    var alpha, beta, gamma := AlphaTrack(unitsData), BetaTrack(unitsData), GammaTrack(unitsData);
    assert |Labels(alpha)| == |Labels(beta)| == |Labels(gamma)| == 5;
    JainZarLegendaryEvent(alpha, beta, gamma)
  }

  // ---------------------------------------------------------------------------
  // Allowed units

  /** `restrictions.flatMap(r => r.units)` */
  function UnitsOf(restrictions: seq<Restriction>): (r: seq<Unit>)
    ensures forall u :: u in r <==> exists x :: x in restrictions && u in x.units
    ensures NameSet(r) == RestrictionNames(restrictions)
  {
    if restrictions == [] then []
    else
      var rest := UnitsOf(restrictions[1..]);
      NameSetAppend(restrictions[0].units, rest);
      assert restrictions == [restrictions[0]] + restrictions[1..];
      assert forall k :: 0 < k < |restrictions| ==> restrictions[k] == restrictions[1..][k - 1];
      restrictions[0].units + rest
  }

  /** The names any of the restrictions admits. */
  ghost function RestrictionNames(restrictions: seq<Restriction>): set<string>
  {
    set k, n | 0 <= k < |restrictions| && n in NameSet(restrictions[k].units) :: n
  }

  /** A track's `getAllowedUnits`: the units of all its restrictions, deduplicated by name, sorted by name. */
  function TrackAllowedUnits(t: Track): (r: seq<Unit>)
    ensures StrictlyAscendingByName(r)
    ensures NameSet(r) == RestrictionNames(t.unitsRestrictions)
    ensures forall u :: u in r ==> exists x :: x in t.unitsRestrictions && u in x.units
  {
    var all := UnitsOf(t.unitsRestrictions);
    var r := DedupeAndSort(all);
    assert forall u :: u in r ==> u in all by {
      forall u | u in r ensures u in all {
        assert FirstNamed(all, u.name) == Some(u);
      }
    }
    r
  }

  /** The event's `getAllowedUnits`: the three track listings, deduplicated by name, sorted by name. */
  function EventAllowedUnits(e: JainZarLegendaryEvent): (r: seq<Unit>)
    ensures StrictlyAscendingByName(r)
    ensures NameSet(r) == NameSet(TrackAllowedUnits(e.alphaTrack))
                        + NameSet(TrackAllowedUnits(e.betaTrack))
                        + NameSet(TrackAllowedUnits(e.gammaTrack))
    ensures forall u :: u in r ==> u in TrackAllowedUnits(e.alphaTrack) || u in TrackAllowedUnits(e.betaTrack) || u in TrackAllowedUnits(e.gammaTrack)
  {
    var alpha := TrackAllowedUnits(e.alphaTrack);
    var beta := TrackAllowedUnits(e.betaTrack);
    var gamma := TrackAllowedUnits(e.gammaTrack);
    NameSetAppend(alpha, beta);
    NameSetAppend(alpha + beta, gamma);
    var r := DedupeAndSort(alpha + beta + gamma);
    assert forall u :: u in r ==> u in alpha + beta + gamma by {
      forall u | u in r ensures u in alpha + beta + gamma {
        assert FirstNamed(alpha + beta + gamma, u.name) == Some(u);
      }
    }
    r
  }
}
