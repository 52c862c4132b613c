/**
  The rule logic of the goals page: whether a goal is complete, which goals
  outrank a goal, and the rank-range requests handed to the day estimator
  for the page total and for each goal card.
 */
module Goals {
  import opened Wrappers
  import opened Seqs

  /** The goal types; types other than the three named ones are kept apart by their code. */
  datatype PersonalGoalType = UpgradeRank | Ascend | Unlock | OtherGoalType(code: nat)

  /** A personal goal; the optional fields may be absent (`undefined`). */
  datatype Goal = Goal(
    id: string,
    character: string,
    goalType: PersonalGoalType,
    priority: int,
    targetRank: Option<nat>,
    targetRarity: Option<nat>,
    currentRank: Option<nat>,
    currentRarity: Option<nat>,
    upgrades: Option<seq<string>>,
    notes: string)

  /** The fields of a roster character the goal rules read. Ranks and rarities are their ordinals. */
  datatype Character2 = Character2(name: string, rank: nat, rarity: nat, upgrades: seq<string>)

  /** One request to the day estimator. `rankEnd` is the goal's target rank, which may be absent. */
  datatype RankRange = RankRange(id: string, rankStart: nat, rankEnd: Option<nat>, appliedUpgrades: seq<string>)

  /** Reading a field of a character that `find` did not find. */
  datatype GoalError = CharacterNotFound(name: string)

  /** The ordinal of `Rank.Locked`. */
  const Locked: nat := 0

  /** No character before position `i` has the name. */
  predicate NoneNamedBefore(characters: seq<Character2>, name: string, i: int)
    requires 0 <= i <= |characters|
  {
    forall j :: 0 <= j < i ==> characters[j].name != name
  }

  /** `characters.find(c => c.name === name)`: the first character with that name. */
  function FindCharacter(characters: seq<Character2>, name: string): (r: Option<Character2>)
    ensures r.None? <==> forall c :: c in characters ==> c.name != name
    ensures r.Some? ==> r.value.name == name
    ensures r.Some? ==> exists i :: 0 <= i < |characters| && characters[i] == r.value && NoneNamedBefore(characters, name, i)
  {
    if characters == [] then None
    else if characters[0].name == name then Some(characters[0])
    else
      var r := FindCharacter(characters[1..], name);
      assert characters == [characters[0]] + characters[1..];
      if r.Some? then
        var i :| 0 <= i < |characters[1..]| && characters[1..][i] == r.value && NoneNamedBefore(characters[1..], name, i);
        FoundInTail(characters, name, i);
        r
      else
        r
  }

  /** A first match in the tail, behind a head of another name, is a first match of the whole roster. */
  lemma FoundInTail(characters: seq<Character2>, name: string, i: int)
    requires characters != [] && characters[0].name != name
    requires 0 <= i < |characters| - 1 && NoneNamedBefore(characters[1..], name, i)
    ensures characters[i + 1] == characters[1..][i]
    ensures NoneNamedBefore(characters, name, i + 1)
  {
    assert forall j :: 1 <= j < i + 1 ==> characters[j] == characters[1..][j - 1];
  }

  /** `value >= target!`: false when the target is absent, as a comparison with `undefined` is. */
  predicate AtLeast(value: nat, target: Option<nat>)
  {
    target.Some? && value >= target.value
  }

  // ---------------------------------------------------------------------------
  // Completion

  /**
    `isGoalCompleted`: the disjunction of the three typed tests. The character
    is read only in the disjunct whose type matches, so a missing character is
    an error for the three named types and harmless for any other.
   */
  function IsGoalCompleted(goal: Goal, characters: seq<Character2>): (r: Result<bool, GoalError>)
    ensures r.Err? <==> !goal.goalType.OtherGoalType? && FindCharacter(characters, goal.character).None?
    ensures r.Err? ==> r.error == CharacterNotFound(goal.character)
    ensures goal.goalType.OtherGoalType? ==> r == Ok(false)
    ensures r == Ok(true) ==> exists c :: c in characters && c.name == goal.character
  {
    if goal.goalType.OtherGoalType? then Ok(false)
    else
      match FindCharacter(characters, goal.character)
      case None => Err(CharacterNotFound(goal.character))
      case Some(c) =>
        Ok(
          || (goal.goalType == UpgradeRank && AtLeast(c.rank, goal.targetRank))
          || (goal.goalType == Ascend && AtLeast(c.rarity, goal.targetRarity))
          || (goal.goalType == Unlock && c.rank > Locked))
  }

  /** Completion by type, for a goal whose character is on the roster. */
  lemma CompletionByType(goal: Goal, characters: seq<Character2>, c: Character2)
    requires FindCharacter(characters, goal.character) == Some(c)
    ensures goal.goalType == UpgradeRank ==>
      (IsGoalCompleted(goal, characters) == Ok(true) <==> goal.targetRank.Some? && c.rank >= goal.targetRank.value)
    ensures goal.goalType == Ascend ==>
      (IsGoalCompleted(goal, characters) == Ok(true) <==> goal.targetRarity.Some? && c.rarity >= goal.targetRarity.value)
    ensures goal.goalType == Unlock ==>
      (IsGoalCompleted(goal, characters) == Ok(true) <==> c.rank != Locked)
  {
  }

  // ---------------------------------------------------------------------------
  // Higher-priority goals

  /** The test `g => g.type === goal.type && g.priority < goal.priority`. */
  function Outranks(goal: Goal): Goal -> bool
  {
    (g: Goal) => g.goalType == goal.goalType && g.priority < goal.priority
  }

  /** `goals.filter(g => g.type === goal.type && g.priority < goal.priority)` */
  function HigherPriorityGoals(goals: seq<Goal>, goal: Goal): (r: seq<Goal>)
    ensures IsSubsequence(r, goals)
    ensures forall g :: g in r <==> g in goals && g.goalType == goal.goalType && g.priority < goal.priority
    ensures goal !in r
    ensures forall g :: multiset(r)[g] == if g.goalType == goal.goalType && g.priority < goal.priority then multiset(goals)[g] else 0
  {
    FilterCounts(goals, Outranks(goal));
    Filter(goals, Outranks(goal))
  }

  /** Outranking is a strict order: a goal that outranks another is not outranked by it... */
  lemma HigherPriorityAsymmetric(goals: seq<Goal>, g: Goal, h: Goal)
    requires h in HigherPriorityGoals(goals, g)
    ensures g !in HigherPriorityGoals(goals, h)
  {
  }

  /** ...and the goals that outrank an outranking goal outrank the goal as well. */
  lemma HigherPriorityTransitive(goals: seq<Goal>, g: Goal, h: Goal)
    requires h in HigherPriorityGoals(goals, g)
    ensures forall x :: x in HigherPriorityGoals(goals, h) ==> x in HigherPriorityGoals(goals, g)
  {
  }

  // ---------------------------------------------------------------------------
  // Requests to the estimator

  /** The `map` callback: the request for a goal whose character is found, `null`/`undefined` otherwise. */
  function RangeFor(g: Goal, characters: seq<Character2>): (r: Option<RankRange>)
    ensures r.Some? <==> FindCharacter(characters, g.character).Some?
    ensures r.Some? ==> var c := FindCharacter(characters, g.character).value;
      r.value == RankRange(g.character, c.rank, g.targetRank, c.upgrades)
  {
    match FindCharacter(characters, g.character)
    case None => None
    case Some(c) => Some(RankRange(g.character, c.rank, g.targetRank, c.upgrades))
  }

  /** The test `g => characters.find(c => c.name === g.character)` is truthy. */
  function CharacterFound(characters: seq<Character2>): Goal -> bool
  {
    (g: Goal) => FindCharacter(characters, g.character).Some?
  }

  /**
    `goals.map(...).filter(x => !!x)`: exactly one request per goal whose
    character is found, in goal order, each the request for that goal.
   */
  function FoundRanges(goals: seq<Goal>, characters: seq<Character2>): (r: seq<RankRange>)
    ensures var found := Filter(goals, CharacterFound(characters));
      |r| == |found| && forall i :: 0 <= i < |r| ==> RangeFor(found[i], characters) == Some(r[i])
  {
    if goals == [] then []
    else
      var rest := FoundRanges(goals[1..], characters);
      FilterCons(goals[0], goals[1..], CharacterFound(characters));
      assert goals == [goals[0]] + goals[1..];
      match RangeFor(goals[0], characters)
      case None => rest
      case Some(x) =>
        RangesCons(goals[0], x, Filter(goals[1..], CharacterFound(characters)), rest, characters);
        [x] + rest
  }

  /** Putting a found goal and its request in front keeps the requests matched to the goals. */
  lemma RangesCons(g: Goal, x: RankRange, found: seq<Goal>, rest: seq<RankRange>, characters: seq<Character2>)
    requires |rest| == |found| && forall i :: 0 <= i < |rest| ==> RangeFor(found[i], characters) == Some(rest[i])
    requires RangeFor(g, characters) == Some(x)
    ensures |[x] + rest| == |[g] + found|
    ensures forall i :: 0 <= i < |[x] + rest| ==> RangeFor(([g] + found)[i], characters) == Some(([x] + rest)[i])
  {
    forall i | 0 < i < |[x] + rest| ensures RangeFor(([g] + found)[i], characters) == Some(([x] + rest)[i]) {
      assert ([g] + found)[i] == found[i - 1];
      assert ([x] + rest)[i] == rest[i - 1];
    }
  }

  /** Every request comes from a goal of the list whose character is found. */
  lemma FoundRangesFromGoals(goals: seq<Goal>, characters: seq<Character2>, x: RankRange)
    requires x in FoundRanges(goals, characters)
    ensures exists g :: g in goals && RangeFor(g, characters) == Some(x)
  {
    var r := FoundRanges(goals, characters);
    var found := Filter(goals, CharacterFound(characters));
    var i :| 0 <= i < |r| && r[i] == x;
    assert found[i] in found;
  }

  predicate IsUpgradeRank(g: Goal) { g.goalType == UpgradeRank }

  /** The requests behind the page's 'Total Days': one per UpgradeRank goal whose character is found. */
  function TotalRequests(goals: seq<Goal>, characters: seq<Character2>): (r: seq<RankRange>)
    ensures var found := Filter(Filter(goals, IsUpgradeRank), CharacterFound(characters));
      |r| == |found| && forall i :: 0 <= i < |r| ==> RangeFor(found[i], characters) == Some(r[i])
  {
    FoundRanges(Filter(goals, IsUpgradeRank), characters)
  }

  /**
    The total's requests are exactly those of the UpgradeRank goals whose
    character is found, in goal order: each request starts at the character's
    current rank and ends at the goal's target rank.
   */
  lemma TotalRequestsExact(goals: seq<Goal>, characters: seq<Character2>)
    ensures var found := Filter(goals, g => IsUpgradeRank(g) && CharacterFound(characters)(g));
      && |TotalRequests(goals, characters)| == |found|
      && forall i :: 0 <= i < |found| ==>
           && found[i].goalType == UpgradeRank
           && FindCharacter(characters, found[i].character).Some?
           && TotalRequests(goals, characters)[i] == RankRange(found[i].character,
                FindCharacter(characters, found[i].character).value.rank,
                found[i].targetRank,
                FindCharacter(characters, found[i].character).value.upgrades)
  {
    var both := g => IsUpgradeRank(g) && CharacterFound(characters)(g);
    FilterFilter(goals, IsUpgradeRank, CharacterFound(characters), both);
    var found := Filter(goals, both);
    forall i | 0 <= i < |found| ensures found[i].goalType == UpgradeRank {
      assert found[i] in found;
    }
  }

  /**
    The requests of one goal card: the requests of its found higher-priority
    goals followed by the request for the card's own character, which must be
    found, since its name and rank are read.
   */
  function CardRequests(goal: Goal, higherPriorityGoals: seq<Goal>, characters: seq<Character2>): (r: Result<seq<RankRange>, GoalError>)
    ensures r.Err? <==> FindCharacter(characters, goal.character).None?
    ensures r.Err? ==> r.error == CharacterNotFound(goal.character)
    ensures r.Ok? ==> var found := FoundRanges(higherPriorityGoals, characters);
      && |r.value| == |found| + 1
      && r.value[..|found|] == found
      && RangeFor(goal, characters) == Some(r.value[|found|])
  {
    var found := FoundRanges(higherPriorityGoals, characters);
    match FindCharacter(characters, goal.character)
    case None => Err(CharacterNotFound(goal.character))
    case Some(c) =>
      var own := RankRange(c.name, c.rank, goal.targetRank, c.upgrades);
      assert (found + [own])[..|found|] == found;
      Ok(found + [own])
  }

  /**
    `estimatedDays`: 0 for a goal that is not of type UpgradeRank; otherwise
    what the estimator makes of the card's requests. The estimator is a parameter
    standing for `raids.length` of its result.
   */
  function EstimatedDays(goal: Goal, higherPriorityGoals: seq<Goal>, characters: seq<Character2>,
                         estimate: seq<RankRange> -> nat): (r: Result<nat, GoalError>)
    ensures goal.goalType != UpgradeRank ==> r == Ok(0)
    ensures goal.goalType == UpgradeRank ==>
      (r.Err? <==> FindCharacter(characters, goal.character).None?)
    ensures goal.goalType == UpgradeRank && r.Ok? ==>
      CardRequests(goal, higherPriorityGoals, characters).Ok? &&
      r.value == estimate(CardRequests(goal, higherPriorityGoals, characters).value)
  {
    if goal.goalType != UpgradeRank then Ok(0)
    else
      match CardRequests(goal, higherPriorityGoals, characters)
      case Err(e) => Err(e)
      case Ok(requests) => Ok(estimate(requests))
  }

  /** What one goal card shows: whether the goal is complete and its estimated days. */
  datatype CardView = CardView(completed: bool, estimatedDays: nat)

  /**
    One render of a goal card. The dependency list of the days memo reads the
    card's character's name and rank on every render, so a card whose
    character is missing fails whatever the goal's type; otherwise it shows
    the two memo callbacks' values.
   */
  function GoalCard(goal: Goal, higherPriorityGoals: seq<Goal>, characters: seq<Character2>,
                    estimate: seq<RankRange> -> nat): (r: Result<CardView, GoalError>)
    ensures r.Err? <==> FindCharacter(characters, goal.character).None?
    ensures r.Err? ==> r.error == CharacterNotFound(goal.character)
    ensures r.Ok? ==> IsGoalCompleted(goal, characters) == Ok(r.value.completed)
    ensures r.Ok? ==> EstimatedDays(goal, higherPriorityGoals, characters, estimate) == Ok(r.value.estimatedDays)
    ensures r.Ok? && goal.goalType != UpgradeRank ==> r.value.estimatedDays == 0
  {
    match FindCharacter(characters, goal.character)
    case None => Err(CharacterNotFound(goal.character))
    case Some(_) =>
      match (IsGoalCompleted(goal, characters), EstimatedDays(goal, higherPriorityGoals, characters, estimate))
      case (Ok(completed), Ok(days)) => Ok(CardView(completed, days))
      case _ => assert false; Err(CharacterNotFound(goal.character))
  }

  /**
    On a card built from the page's higher-priority filter, every request but
    the last is that of a same-type goal of strictly smaller priority.
   */
  lemma CardRequestsComeFromHigherGoals(goals: seq<Goal>, goal: Goal, characters: seq<Character2>)
    requires CardRequests(goal, HigherPriorityGoals(goals, goal), characters).Ok?
    ensures var requests := CardRequests(goal, HigherPriorityGoals(goals, goal), characters).value;
      forall i :: 0 <= i < |requests| - 1 ==>
        exists g :: g in goals && g.goalType == goal.goalType && g.priority < goal.priority
                 && RangeFor(g, characters) == Some(requests[i])
  {
    var higher := HigherPriorityGoals(goals, goal);
    var requests := CardRequests(goal, higher, characters).value;
    var found := FoundRanges(higher, characters);
    forall i | 0 <= i < |requests| - 1
      ensures exists g :: g in goals && g.goalType == goal.goalType && g.priority < goal.priority
                       && RangeFor(g, characters) == Some(requests[i])
    {
      assert requests[i] == requests[..|found|][i];
      assert requests[i] in found;
      FoundRangesFromGoals(higher, characters, requests[i]);
    }
  }

  /**
    An UpgradeRank goal whose character is found is complete exactly when the
    card's own request already starts at or beyond its end.
   */
  lemma CompletedIffNothingLeftToUpgrade(goal: Goal, higherPriorityGoals: seq<Goal>, characters: seq<Character2>)
    requires goal.goalType == UpgradeRank
    requires FindCharacter(characters, goal.character).Some?
    ensures var requests := CardRequests(goal, higherPriorityGoals, characters).value;
      var own := requests[|requests| - 1];
      IsGoalCompleted(goal, characters) == Ok(true) <==> own.rankEnd.Some? && own.rankStart >= own.rankEnd.value
  {
  }

  // ---------------------------------------------------------------------------
  // Editing

  /**
    The 'edit' menu item: when the goal's character is found, the dialog opens
    on that character and on a copy of the goal whose current rank, current
    rarity and upgrades are taken from it; otherwise nothing happens.
   */
  function EditGoal(goal: Goal, characters: seq<Character2>): (r: Option<(Goal, Character2)>)
    ensures r.None? <==> FindCharacter(characters, goal.character).None?
    ensures r.Some? ==> var (edited, c) := r.value;
      && FindCharacter(characters, goal.character) == Some(c)
      && edited.currentRank == Some(c.rank)
      && edited.currentRarity == Some(c.rarity)
      && edited.upgrades == Some(c.upgrades)
      && edited.(currentRank := goal.currentRank, currentRarity := goal.currentRarity, upgrades := goal.upgrades) == goal
  {
    match FindCharacter(characters, goal.character)
    case None => None
    case Some(c) => Some((goal.(currentRank := Some(c.rank), currentRarity := Some(c.rarity), upgrades := Some(c.upgrades)), c))
  }

  /** Editing the copy again gives the same dialog: the overrides only depend on the character. */
  lemma EditGoalIdempotent(goal: Goal, characters: seq<Character2>)
    requires EditGoal(goal, characters).Some?
    ensures EditGoal(EditGoal(goal, characters).value.0, characters) == EditGoal(goal, characters)
  {
  }
}
