/**
  Two pieces of the legendary-events page: the auto-team priority list it
  displays, built from five toggles by conditional pushes, and the update that
  stores one event's team data in the personal-data dictionary.
 */
module LegendaryEventsPage {
  import opened Wrappers
  import opened Seqs

  /** The five auto-team toggles. */
  datatype AutoTeamsPreferences = AutoTeamsPreferences(
    ignoreRecommendedFirst: bool,
    preferCampaign: bool,
    ignoreRarity: bool,
    ignoreRank: bool,
    ignoreRecommendedLast: bool)

  /** The criteria the priority list can show; `Label` gives the text displayed for each. */
  datatype Criterion = RecommendFirst | CampaignChar | Rarity | Rank | EventPoints | RecommendLast

  function Label(c: Criterion): string
  {
    match c
    case RecommendFirst => "Recommend first"
    case CampaignChar => "Is campaign char"
    case Rarity => "Rarity"
    case Rank => "Rank"
    case EventPoints => "Event points"
    case RecommendLast => "Recommend last"
  }

  /** Every criterion, in precedence order. */
  const AllCriteria: seq<Criterion> := [RecommendFirst, CampaignChar, Rarity, Rank, EventPoints, RecommendLast]

  /** Whether criterion `c` takes part under preferences `p`; 'Event points' always does. */
  predicate IsActive(p: AutoTeamsPreferences, c: Criterion)
  {
    match c
    case RecommendFirst => !p.ignoreRecommendedFirst
    case CampaignChar => p.preferCampaign
    case Rarity => !p.ignoreRarity
    case Rank => !p.ignoreRank
    case EventPoints => true
    case RecommendLast => !p.ignoreRecommendedLast
  }

  /** `IsActive` under fixed preferences, as a filter test. */
  function ActiveUnder(p: AutoTeamsPreferences): Criterion -> bool
  {
    c => IsActive(p, c)
  }

  /** The reference definition: the full precedence list with the inactive criteria taken out. */
  function ActiveCriteria(p: AutoTeamsPreferences): seq<Criterion>
  {
    Filter(AllCriteria, ActiveUnder(p))
  }

  /** The displayed text of a list of criteria. */
  function LabelsOf(cs: seq<Criterion>): (r: seq<string>)
    ensures |r| == |cs|
    ensures forall i :: 0 <= i < |cs| ==> r[i] == Label(cs[i])
  {
    seq(|cs|, i requires 0 <= i < |cs| => Label(cs[i]))
  }

  /** `[c]` when `b` holds, `[]` otherwise: one conditional push. */
  function PushedIf(b: bool, c: Criterion): (r: seq<Criterion>)
    ensures c in r <==> b
    ensures |r| <= 1
  {
    if b then [c] else []
  }

  /** The labels after one conditional push are the labels before it, followed by the pushed label if any. */
  lemma LabelsOfPush(shown: seq<Criterion>, b: bool, c: Criterion)
    ensures LabelsOf(shown + PushedIf(b, c)) == LabelsOf(shown) + (if b then [Label(c)] else [])
  {
    var lhs, rhs := LabelsOf(shown + PushedIf(b, c)), LabelsOf(shown) + (if b then [Label(c)] else []);
    assert |lhs| == |rhs|;
    forall i | 0 <= i < |lhs| ensures lhs[i] == rhs[i] {
      if i < |shown| {
        assert (shown + PushedIf(b, c))[i] == shown[i];
      }
    }
  }

  /** `autoTeamsPriority`: pushes the label of each criterion whose toggle lets it take part, in the fixed order. */
  method AutoTeamsPriority(p: AutoTeamsPreferences) returns (result: seq<string>)
    ensures result == LabelsOf(ActiveCriteria(p))
  {
    // `shown` is the criteria pushed so far, `result` their labels.
    ghost var shown: seq<Criterion> := [];
    result := [];

    if !p.ignoreRecommendedFirst {
      result := result + [Label(RecommendFirst)];
    }
    LabelsOfPush(shown, !p.ignoreRecommendedFirst, RecommendFirst);
    shown := shown + PushedIf(!p.ignoreRecommendedFirst, RecommendFirst);
    assert result == LabelsOf(shown);

    if p.preferCampaign {
      result := result + [Label(CampaignChar)];
    }
    LabelsOfPush(shown, p.preferCampaign, CampaignChar);
    shown := shown + PushedIf(p.preferCampaign, CampaignChar);
    assert result == LabelsOf(shown);

    if !p.ignoreRarity {
      result := result + [Label(Rarity)];
    }
    LabelsOfPush(shown, !p.ignoreRarity, Rarity);
    shown := shown + PushedIf(!p.ignoreRarity, Rarity);
    assert result == LabelsOf(shown);

    if !p.ignoreRank {
      result := result + [Label(Rank)];
    }
    LabelsOfPush(shown, !p.ignoreRank, Rank);
    shown := shown + PushedIf(!p.ignoreRank, Rank);
    assert result == LabelsOf(shown);

    result := result + [Label(EventPoints)];
    LabelsOfPush(shown, true, EventPoints);
    shown := shown + PushedIf(true, EventPoints);
    assert result == LabelsOf(shown);

    if !p.ignoreRecommendedLast {
      result := result + [Label(RecommendLast)];
    }
    LabelsOfPush(shown, !p.ignoreRecommendedLast, RecommendLast);
    shown := shown + PushedIf(!p.ignoreRecommendedLast, RecommendLast);
    assert result == LabelsOf(shown);

    assert shown == ActiveCriteria(p) by {
      ActiveCriteriaUnfolded(p);
      PushesReassociate(
        PushedIf(!p.ignoreRecommendedFirst, RecommendFirst), PushedIf(p.preferCampaign, CampaignChar),
        PushedIf(!p.ignoreRarity, Rarity), PushedIf(!p.ignoreRank, Rank),
        PushedIf(true, EventPoints), PushedIf(!p.ignoreRecommendedLast, RecommendLast));
    }
  }

  /** Six pushes made one after another give the right-nested concatenation. */
  lemma PushesReassociate<T>(a: seq<T>, b: seq<T>, c: seq<T>, d: seq<T>, e: seq<T>, f: seq<T>)
    ensures [] + a + b + c + d + e + f == a + (b + (c + (d + (e + (f + [])))))
  {
    assert f + [] == f;
    assert e + f == e + (f + []);
  }

  /** One step of the reference definition: the next criterion is kept exactly when it is active. */
  lemma ActiveStep(p: AutoTeamsPreferences, c: Criterion, rest: seq<Criterion>, kept: seq<Criterion>)
    requires Filter(rest, ActiveUnder(p)) == kept
    ensures Filter([c] + rest, ActiveUnder(p)) == PushedIf(IsActive(p, c), c) + kept
  {
    FilterCons(c, rest, ActiveUnder(p));
  }

  /** The last three criteria of the precedence list, spelled out toggle by toggle. */
  lemma ActiveTailUnfolded(p: AutoTeamsPreferences)
    ensures Filter([Rank] + ([EventPoints] + ([RecommendLast] + [])), ActiveUnder(p)) ==
      PushedIf(!p.ignoreRank, Rank) + (
      PushedIf(true, EventPoints) + (
      PushedIf(!p.ignoreRecommendedLast, RecommendLast) + []))
  {
    var s5: seq<Criterion> := [RecommendLast] + [];
    var s4 := [EventPoints] + s5;
    var k5 := PushedIf(!p.ignoreRecommendedLast, RecommendLast) + [];
    var k4 := PushedIf(true, EventPoints) + k5;
    ActiveStep(p, RecommendLast, [], []);
    ActiveStep(p, EventPoints, s5, k5);
    ActiveStep(p, Rank, s4, k4);
  }

  /** The active criteria spelled out toggle by toggle. */
  lemma ActiveCriteriaUnfolded(p: AutoTeamsPreferences)
    ensures ActiveCriteria(p) ==
      PushedIf(!p.ignoreRecommendedFirst, RecommendFirst) + (
      PushedIf(p.preferCampaign, CampaignChar) + (
      PushedIf(!p.ignoreRarity, Rarity) + (
      PushedIf(!p.ignoreRank, Rank) + (
      PushedIf(true, EventPoints) + (
      PushedIf(!p.ignoreRecommendedLast, RecommendLast) + [])))))
  {
    var s3: seq<Criterion> := [Rank] + ([EventPoints] + ([RecommendLast] + []));
    var s2 := [Rarity] + s3;
    var s1 := [CampaignChar] + s2;
    var k3 := PushedIf(!p.ignoreRank, Rank) + (PushedIf(true, EventPoints) + (PushedIf(!p.ignoreRecommendedLast, RecommendLast) + []));
    var k2 := PushedIf(!p.ignoreRarity, Rarity) + k3;
    var k1 := PushedIf(p.preferCampaign, CampaignChar) + k2;
    ActiveTailUnfolded(p);
    ActiveStep(p, Rarity, s3, k3);
    ActiveStep(p, CampaignChar, s2, k2);
    ActiveStep(p, RecommendFirst, s1, k1);
    AllCriteriaNested();
  }

  /** Each criterion appears once in the precedence list. */
  lemma AllCriteriaDistinct()
    ensures Distinct(AllCriteria)
  {
  }

  /** The precedence list as a chain of single pushes. */
  lemma AllCriteriaNested()
    ensures AllCriteria == [RecommendFirst] + ([CampaignChar] + ([Rarity] + ([Rank] + ([EventPoints] + ([RecommendLast] + [])))))
  {
  }

  /** Different criteria are displayed differently. */
  lemma LabelInjective(c: Criterion, d: Criterion)
    requires c != d
    ensures Label(c) != Label(d)
  {
  }

  /** A listed criterion has its label displayed. */
  lemma LabelListed(cs: seq<Criterion>, c: Criterion)
    requires c in cs
    ensures Label(c) in LabelsOf(cs)
  {
    var i :| 0 <= i < |cs| && cs[i] == c;
    assert LabelsOf(cs)[i] == Label(c);
  }

  /** A criterion is listed exactly when it is active. */
  lemma ListedIffActive(p: AutoTeamsPreferences, c: Criterion)
    ensures c in ActiveCriteria(p) <==> IsActive(p, c)
  {
    EveryCriterionInList(c);
  }

  /** The precedence list holds every criterion. */
  lemma EveryCriterionInList(c: Criterion)
    ensures c in AllCriteria
  {
    match c
    case RecommendFirst => assert AllCriteria[0] == c;
    case CampaignChar => assert AllCriteria[1] == c;
    case Rarity => assert AllCriteria[2] == c;
    case Rank => assert AllCriteria[3] == c;
    case EventPoints => assert AllCriteria[4] == c;
    case RecommendLast => assert AllCriteria[5] == c;
  }

  /** 'Event points' is always listed. */
  lemma EventPointsAlwaysListed(p: AutoTeamsPreferences)
    ensures EventPoints in ActiveCriteria(p)
    ensures Label(EventPoints) in LabelsOf(ActiveCriteria(p))
  {
    var active := ActiveCriteria(p);
    ListedIffActive(p, EventPoints);
    LabelListed(active, EventPoints);
  }

  /** Each criterion other than 'Event points' is listed exactly when its toggle lets it take part. */
  lemma CriterionListedIffEnabled(p: AutoTeamsPreferences)
    ensures RecommendFirst in ActiveCriteria(p) <==> !p.ignoreRecommendedFirst
    ensures CampaignChar in ActiveCriteria(p) <==> p.preferCampaign
    ensures Rarity in ActiveCriteria(p) <==> !p.ignoreRarity
    ensures Rank in ActiveCriteria(p) <==> !p.ignoreRank
    ensures RecommendLast in ActiveCriteria(p) <==> !p.ignoreRecommendedLast
  {
    ListedIffActive(p, RecommendFirst);
    ListedIffActive(p, CampaignChar);
    ListedIffActive(p, Rarity);
    ListedIffActive(p, Rank);
    ListedIffActive(p, RecommendLast);
  }

  /** The listed criteria keep the fixed precedence order, appear once each, and number one to six. */
  lemma CriteriaOrderedWithoutRepeats(p: AutoTeamsPreferences)
    ensures IsSubsequence(ActiveCriteria(p), AllCriteria)
    ensures Distinct(ActiveCriteria(p))
    ensures 1 <= |ActiveCriteria(p)| <= 6
  {
    AllCriteriaDistinct();
    FilterDistinct(AllCriteria, ActiveUnder(p));
    EventPointsAlwaysListed(p);
  }

  /** The preferences with the toggle of criterion `c` flipped ('Event points' has none). */
  function Toggle(p: AutoTeamsPreferences, c: Criterion): AutoTeamsPreferences
  {
    match c
    case RecommendFirst => p.(ignoreRecommendedFirst := !p.ignoreRecommendedFirst)
    case CampaignChar => p.(preferCampaign := !p.preferCampaign)
    case Rarity => p.(ignoreRarity := !p.ignoreRarity)
    case Rank => p.(ignoreRank := !p.ignoreRank)
    case EventPoints => p
    case RecommendLast => p.(ignoreRecommendedLast := !p.ignoreRecommendedLast)
  }

  /** The test that keeps every criterion but `c`. */
  function Besides(c: Criterion): Criterion -> bool
  {
    x => x != c
  }

  /** Two repeat-free lists of criteria that differ only in whether they hold `c` differ in length by one. */
  lemma OneCriterionApart(a: seq<Criterion>, b: seq<Criterion>, c: Criterion)
    requires Distinct(a) && Distinct(b)
    requires (c in a) != (c in b)
    requires Filter(a, Besides(c)) == Filter(b, Besides(c))
    ensures |a| == |b| + 1 || |b| == |a| + 1
  {
    DifferByOneElement(a, b, c, Besides(c));
  }

  /** Flipping the toggle of `c` adds `c` to the list or removes it. */
  lemma ToggleFlipsCriterion(p: AutoTeamsPreferences, c: Criterion)
    requires c != EventPoints
    ensures (c in ActiveCriteria(p)) != (c in ActiveCriteria(Toggle(p, c)))
  {
    ListedIffActive(p, c);
    ListedIffActive(Toggle(p, c), c);
    assert IsActive(p, c) != IsActive(Toggle(p, c), c);
  }

  /** The toggle of `c` changes whether `c` is active and nothing else. */
  lemma ToggleAffectsOnlyItsCriterion(p: AutoTeamsPreferences, c: Criterion, x: Criterion)
    ensures IsActive(Toggle(p, c), x) == (if x == c && c != EventPoints then !IsActive(p, x) else IsActive(p, x))
  {
  }

  /** Flipping the toggle of `c` leaves the other criteria, in order, as they were. */
  lemma ToggleKeepsOtherCriteria(p: AutoTeamsPreferences, c: Criterion)
    ensures Filter(ActiveCriteria(p), Besides(c)) == Filter(ActiveCriteria(Toggle(p, c)), Besides(c))
  {
    var q := Toggle(p, c);
    forall x | Besides(c)(x) ensures ActiveUnder(p)(x) == ActiveUnder(q)(x) {
      ToggleAffectsOnlyItsCriterion(p, c, x);
    }
    FilterAgreeingWhereKept(AllCriteria, ActiveUnder(p), ActiveUnder(q), Besides(c));
  }

  /** Flipping one toggle makes the list one entry longer or one entry shorter. */
  lemma ToggleChangesLengthByOne(p: AutoTeamsPreferences, c: Criterion)
    requires c != EventPoints
    ensures |ActiveCriteria(p)| == |ActiveCriteria(Toggle(p, c))| + 1
         || |ActiveCriteria(Toggle(p, c))| == |ActiveCriteria(p)| + 1
  {
    ToggleFlipsCriterion(p, c);
    ToggleKeepsOtherCriteria(p, c);
    CriteriaOrderedWithoutRepeats(p);
    CriteriaOrderedWithoutRepeats(Toggle(p, c));
    OneCriterionApart(ActiveCriteria(p), ActiveCriteria(Toggle(p, c)), c);
  }

  // ---------------------------------------------------------------------------
  // Per-event team store

  /** The events the store keeps an entry for. */
  datatype LegendaryEventId = JainZar | AunShi | ShadowSun

  /**
    The team data one event page hands back. Only its `id` is read; the rest
    is stored as it is, and is stood for here by the selected teams by name.
   */
  datatype LegendaryEventData = LegendaryEventData(id: LegendaryEventId, teams: map<string, seq<string>>)

  /** A stored entry: the empty object the store is first filled with, or saved data. */
  datatype EventEntry = EmptyEntry | Saved(data: LegendaryEventData)

  /** The dictionary the store is initialised with when it is absent. */
  function InitialEvents(): (m: map<LegendaryEventId, EventEntry>)
    ensures m.Keys == {JainZar, AunShi, ShadowSun}
    ensures forall k :: k in m ==> m[k] == EmptyEntry
  {
    map[JainZar := EmptyEntry, AunShi := EmptyEntry, ShadowSun := EmptyEntry]
  }

  /** The dictionary after `updateLegendaryEventTeams(data)`, as a function of the one before. */
  function UpdatedEvents(store: Option<map<LegendaryEventId, EventEntry>>, data: LegendaryEventData): (m: map<LegendaryEventId, EventEntry>)
    ensures data.id in m && m[data.id] == Saved(data)
    ensures store.Some? ==> m.Keys == store.value.Keys + {data.id}
    ensures store.Some? ==> forall k :: k in store.value && k != data.id ==> m[k] == store.value[k]
    ensures store.None? ==> m.Keys == {JainZar, AunShi, ShadowSun}
    ensures store.None? ==> forall k :: k in m && k != data.id ==> m[k] == EmptyEntry
  {
    var events := if store.None? then InitialEvents() else store.value;
    assert data.id == JainZar || data.id == AunShi || data.id == ShadowSun;
    events[data.id := Saved(data)]
  }

  /** Saving the same data twice stores what saving it once does. */
  lemma UpdateIdempotent(store: Option<map<LegendaryEventId, EventEntry>>, data: LegendaryEventData)
    ensures UpdatedEvents(Some(UpdatedEvents(store, data)), data) == UpdatedEvents(store, data)
  {
  }

  /** A later save for the same event replaces an earlier one. */
  lemma LaterSaveWins(store: Option<map<LegendaryEventId, EventEntry>>, first: LegendaryEventData, second: LegendaryEventData)
    requires first.id == second.id
    ensures UpdatedEvents(Some(UpdatedEvents(store, first)), second) == UpdatedEvents(store, second)
  {
  }

  /** Saves for different events do not interfere: their order does not matter. */
  lemma SavesOfDifferentEventsCommute(store: Option<map<LegendaryEventId, EventEntry>>, a: LegendaryEventData, b: LegendaryEventData)
    requires a.id != b.id
    ensures UpdatedEvents(Some(UpdatedEvents(store, a)), b) == UpdatedEvents(Some(UpdatedEvents(store, b)), a)
  {
  }

  /** The personal-data store's `legendaryEvents3` dictionary, which may be absent. */
  class PersonalData {
    var legendaryEvents3: Option<map<LegendaryEventId, EventEntry>>

    constructor (stored: Option<map<LegendaryEventId, EventEntry>>)
      ensures legendaryEvents3 == stored
    {
      legendaryEvents3 := stored;
    }

    /** `updateLegendaryEventTeams`: initialise the dictionary if absent, then overwrite the entry of `data.id`. */
    method UpdateLegendaryEventTeams(data: LegendaryEventData)
      modifies this
      ensures legendaryEvents3 == Some(UpdatedEvents(old(legendaryEvents3), data))
      ensures legendaryEvents3.value[data.id] == Saved(data)
      ensures old(legendaryEvents3).Some? ==>
        forall k :: k in old(legendaryEvents3).value && k != data.id ==> legendaryEvents3.value[k] == old(legendaryEvents3).value[k]
    {
      if legendaryEvents3.None? {
        legendaryEvents3 := Some(InitialEvents());
      }
      if legendaryEvents3.Some? {
        legendaryEvents3 := Some(legendaryEvents3.value[data.id := Saved(data)]);
      }
    }
  }
}
