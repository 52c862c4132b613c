/**
  The character data the event rules read (the source's `UnitData`) and the
  two lodash steps every roster listing ends with: `uniqBy(_, 'name')`, which
  keeps the first unit of each name, and `sortBy(_, 'name')`, a stable sort
  by name.
 */
module Roster {
  import opened Wrappers
  import opened Seqs
  import opened Names

  /** The alliance enum's numeric values are not part of this model; only its names are. */
  datatype Alliance = Imperial | Chaos | Xenos

  /** The two factions the rules name; every other faction is `OtherFaction`. */
  datatype Faction = Necrons | Orks | OtherFaction(factionName: string)

  /**
    One flag of the `DamageTypes` bit set. Every mask the rules test is a
    single flag, so `(damageTypes & F) === F` is membership of `F`.
   */
  datatype DamageType = Physical | Power | Bolter | Blast | Piercing | OtherDamage(damageName: string)

  /** One flag of the `Traits` bit set. */
  datatype Trait = Mechanical | LivingMetal | Flying | OtherTrait(traitName: string)

  /**
    A character as the event rules see it. `rangeHits` is optional, as in the
    source; `forcedSummons` reads as false when the source leaves it undefined.
   */
  datatype Unit = Unit(
    name: string,
    alliance: Alliance,
    faction: Faction,
    damageTypes: set<DamageType>,
    traits: set<Trait>,
    meleeHits: int,
    rangeHits: Option<int>,
    forcedSummons: bool)

  /** The names occurring in a listing. */
  function NameSet(s: seq<Unit>): set<string>
  {
    set u | u in s :: u.name
  }

  lemma NameSetCons(u: Unit, s: seq<Unit>)
    ensures NameSet([u] + s) == {u.name} + NameSet(s)
  {
    assert forall v :: v in [u] + s <==> v == u || v in s;
  }

  lemma NameSetAppend(a: seq<Unit>, b: seq<Unit>)
    ensures NameSet(a + b) == NameSet(a) + NameSet(b)
  {
    assert forall v :: v in a + b <==> v in a || v in b;
  }

  /** No name occurs twice. */
  predicate NamesDistinct(s: seq<Unit>)
  {
    forall i, j :: 0 <= i < j < |s| ==> s[i].name != s[j].name
  }

  /** Ascending by name, equal names allowed. */
  predicate AscendingByName(s: seq<Unit>)
  {
    forall i, j :: 0 <= i < j < |s| ==> NotAfter(s[i].name, s[j].name)
  }

  /** Strictly ascending by name, hence also without repeated names. */
  predicate StrictlyAscendingByName(s: seq<Unit>)
  {
    forall i, j :: 0 <= i < j < |s| ==> Before(s[i].name, s[j].name)
  }

  /** Units of equal name are the same unit: the name is the roster's key. */
  ghost predicate KeyedByName(s: seq<Unit>)
  {
    forall u, v :: u in s && v in s && u.name == v.name ==> u == v
  }

  /** No unit before position `i` is called `n`. */
  predicate NoneNamedBefore(s: seq<Unit>, n: string, i: int)
    requires 0 <= i <= |s|
  {
    forall j :: 0 <= j < i ==> s[j].name != n
  }

  /** The first unit of `s` called `n`, if any. */
  function FirstNamed(s: seq<Unit>, n: string): (r: Option<Unit>)
    ensures r.None? <==> n !in NameSet(s)
    ensures r.Some? ==> r.value in s && r.value.name == n
    ensures r.Some? ==> exists i :: 0 <= i < |s| && s[i] == r.value && NoneNamedBefore(s, n, i)
  {
    if s == [] then None
    else if s[0].name == n then
      assert NoneNamedBefore(s, n, 0);
      Some(s[0])
    else
      NameSetCons(s[0], s[1..]);
      assert s == [s[0]] + s[1..];
      var r := FirstNamed(s[1..], n);
      if r.Some? then
        var i :| 0 <= i < |s[1..]| && s[1..][i] == r.value && NoneNamedBefore(s[1..], n, i);
        FirstNamedInTail(s, n, i);
        r
      else
        r
  }

  /** A first match in the tail, behind a head of another name, is a first match of the whole listing. */
  lemma FirstNamedInTail(s: seq<Unit>, n: string, i: int)
    requires s != [] && s[0].name != n
    requires 0 <= i <= |s| - 1 && NoneNamedBefore(s[1..], n, i)
    ensures i < |s| - 1 ==> s[i + 1] == s[1..][i]
    ensures NoneNamedBefore(s, n, i + 1)
  {
    assert forall j :: 1 <= j < i + 1 ==> s[j] == s[1..][j - 1];
  }

  /** The position of the first unit of `s` called `n`, or `|s|` when no unit is. */
  function FirstIndexNamed(s: seq<Unit>, n: string): (k: nat)
    ensures k <= |s|
    ensures k < |s| ==> s[k].name == n
    ensures NoneNamedBefore(s, n, k)
  {
    if s == [] || s[0].name == n then 0
    else
      var k := FirstIndexNamed(s[1..], n);
      FirstNamedInTail(s, n, k);
      k + 1
  }

  /**
    Behind a head of another name, the first position of a name is one more
    than its first position in the tail.
   */
  lemma FirstIndexNamedTail(s: seq<Unit>, n: string)
    requires s != [] && s[0].name != n
    ensures FirstIndexNamed(s, n) == FirstIndexNamed(s[1..], n) + 1
  {
  }

  /** The units of `r` come in the order in which their names first occur in `s`. */
  predicate InFirstOccurrenceOrder(r: seq<Unit>, s: seq<Unit>)
  {
    forall i, j :: 0 <= i < j < |r| ==> FirstIndexNamed(s, r[i].name) < FirstIndexNamed(s, r[j].name)
  }

  /** Dropping a head whose name none of `r` bears keeps `r` in first-occurrence order. */
  lemma OrderAfterSkip(s: seq<Unit>, r: seq<Unit>)
    requires s != []
    requires forall u :: u in r ==> u.name != s[0].name
    requires InFirstOccurrenceOrder(r, s[1..])
    ensures InFirstOccurrenceOrder(r, s)
  {
    forall i | 0 <= i < |r|
      ensures FirstIndexNamed(s, r[i].name) == FirstIndexNamed(s[1..], r[i].name) + 1
    {
      assert r[i] in r;
      FirstIndexNamedTail(s, r[i].name);
    }
  }

  /** The head kept in front of units of other names is in first-occurrence order too. */
  lemma OrderAfterKeep(s: seq<Unit>, r: seq<Unit>)
    requires s != []
    requires forall u :: u in r ==> u.name != s[0].name
    requires InFirstOccurrenceOrder(r, s[1..])
    ensures InFirstOccurrenceOrder([s[0]] + r, s)
  {
    OrderAfterSkip(s, r);
    var t := [s[0]] + r;
    assert forall j :: 1 <= j < |t| ==> t[j] == r[j - 1];
    assert FirstIndexNamed(s, s[0].name) == 0;
  }

  /**
    lodash `uniqBy(s, 'name')` after the names in `seen` have already been
    taken: walks `s` from the front and keeps a unit only when its name is new.
   */
  function UniqByNameFrom(s: seq<Unit>, seen: set<string>): (r: seq<Unit>)
    ensures IsSubsequence(r, s)
    ensures NamesDistinct(r)
    ensures NameSet(r) == NameSet(s) - seen
    ensures forall u :: u in r ==> u.name !in seen && FirstNamed(s, u.name) == Some(u)
    ensures InFirstOccurrenceOrder(r, s)
  {
    if s == [] then []
    else
      assert s == [s[0]] + s[1..];
      NameSetCons(s[0], s[1..]);
      if s[0].name in seen then
        var rest := UniqByNameFrom(s[1..], seen);
        assert rest != [] ==> rest[0] != s[0] by {
          if rest != [] { assert rest[0] in rest; }
        }
        OrderAfterSkip(s, rest);
        rest
      else
        var rest := UniqByNameFrom(s[1..], seen + {s[0].name});
        NameSetCons(s[0], rest);
        assert ([s[0]] + rest)[1..] == rest;
        OrderAfterKeep(s, rest);
        [s[0]] + rest
  }

  /**
    lodash `uniqBy(s, 'name')`: the first unit of every name, ordered by where
    each name first occurs in `s`.
   */
  function UniqByName(s: seq<Unit>): (r: seq<Unit>)
    ensures IsSubsequence(r, s)
    ensures NamesDistinct(r)
    ensures NameSet(r) == NameSet(s)
    ensures forall u :: u in r ==> FirstNamed(s, u.name) == Some(u)
    ensures InFirstOccurrenceOrder(r, s)
  {
    UniqByNameFrom(s, {})
  }

  /** Inserts `u` before the first unit whose name is not before `u`'s, which keeps the sort stable. */
  function InsertByName(u: Unit, s: seq<Unit>): (r: seq<Unit>)
    ensures multiset(r) == multiset(s) + multiset{u}
    ensures NameSet(r) == NameSet(s) + {u.name}
  {
    if s == [] || NotAfter(u.name, s[0].name) then
      NameSetCons(u, s);
      [u] + s
    else
      assert s == [s[0]] + s[1..];
      NameSetCons(s[0], s[1..]);
      var rest := InsertByName(u, s[1..]);
      NameSetCons(s[0], rest);
      [s[0]] + rest
  }

  /** lodash `sortBy(s, 'name')`: a stable insertion sort by name. */
  function SortByName(s: seq<Unit>): (r: seq<Unit>)
    ensures multiset(r) == multiset(s)
    ensures NameSet(r) == NameSet(s)
  {
    if s == [] then []
    else
      assert s == [s[0]] + s[1..];
      NameSetCons(s[0], s[1..]);
      InsertByName(s[0], SortByName(s[1..]))
  }

  lemma {:induction false} InsertKeepsAscending(u: Unit, s: seq<Unit>)
    requires AscendingByName(s)
    ensures AscendingByName(InsertByName(u, s))
  {
    if s == [] {
    } else if NotAfter(u.name, s[0].name) {
      var r := InsertByName(u, s);
      assert r == [u] + s;
      forall j | 0 < j < |r|
        ensures NotAfter(u.name, r[j].name)
      {
        if j > 1 {
          NotAfterTransitive(u.name, s[0].name, s[j - 1].name);
        }
      }
    } else {
      InsertKeepsAscending(u, s[1..]);
      var rest := InsertByName(u, s[1..]);
      NotAfterTotal(u.name, s[0].name);
      forall j | 0 <= j < |rest|
        ensures NotAfter(s[0].name, rest[j].name)
      {
        assert rest[j] in multiset(rest);
        if rest[j] != u {
          assert rest[j] in s[1..];
        }
      }
    }
  }

  /** `sortBy(_, 'name')` returns its input in ascending order of name. */
  lemma {:induction false} SortByNameAscending(s: seq<Unit>)
    ensures AscendingByName(SortByName(s))
  {
    if s != [] {
      SortByNameAscending(s[1..]);
      InsertKeepsAscending(s[0], SortByName(s[1..]));
    }
  }

  /** A unit whose name is new, put in front of a listing without repeated names, keeps it so. */
  lemma ConsNamesDistinct(h: Unit, t: seq<Unit>)
    requires NamesDistinct(t) && h.name !in NameSet(t)
    ensures NamesDistinct([h] + t)
  {
    forall j | 0 <= j < |t| ensures t[j].name != h.name {
      assert t[j] in t;
    }
    assert forall j :: 1 <= j < |t| + 1 ==> ([h] + t)[j] == t[j - 1];
  }

  /** The head of a listing without repeated names has a name its tail lacks. */
  lemma HeadNameNotInTail(s: seq<Unit>)
    requires NamesDistinct(s) && s != []
    ensures NamesDistinct(s[1..]) && s[0].name !in NameSet(s[1..])
  {
    forall v | v in s[1..] ensures v.name != s[0].name {
      var k :| 0 <= k < |s[1..]| && s[1..][k] == v;
      assert s[k + 1] == v;
    }
  }

  lemma {:induction false} InsertKeepsNamesDistinct(u: Unit, s: seq<Unit>)
    requires NamesDistinct(s) && u.name !in NameSet(s)
    ensures NamesDistinct(InsertByName(u, s))
  {
    if s == [] || NotAfter(u.name, s[0].name) {
      ConsNamesDistinct(u, s);
    } else {
      assert s == [s[0]] + s[1..];
      NameSetCons(s[0], s[1..]);
      HeadNameNotInTail(s);
      InsertKeepsNamesDistinct(u, s[1..]);
      ConsNamesDistinct(s[0], InsertByName(u, s[1..]));
    }
  }

  /** Sorting a listing without repeated names keeps it without repeated names. */
  lemma {:induction false} SortKeepsNamesDistinct(s: seq<Unit>)
    requires NamesDistinct(s)
    ensures NamesDistinct(SortByName(s))
  {
    if s != [] {
      assert s == [s[0]] + s[1..];
      HeadNameNotInTail(s);
      SortKeepsNamesDistinct(s[1..]);
      InsertKeepsNamesDistinct(s[0], SortByName(s[1..]));
    }
  }

  /** Ascending without repeated names is strictly ascending. */
  lemma AscendingDistinctIsStrict(s: seq<Unit>)
    requires AscendingByName(s) && NamesDistinct(s)
    ensures StrictlyAscendingByName(s)
  {
    forall i, j | 0 <= i < j < |s| ensures Before(s[i].name, s[j].name) {
      NotAfterDistinct(s[i].name, s[j].name);
    }
  }

  /** `sortBy(uniqBy(s, 'name'), 'name')`: the pipeline every roster listing of the event goes through. */
  function DedupeAndSort(s: seq<Unit>): (r: seq<Unit>)
    ensures StrictlyAscendingByName(r)
    ensures NameSet(r) == NameSet(s)
    ensures forall u :: u in r ==> FirstNamed(s, u.name) == Some(u)
  {
    var unique := UniqByName(s);
    SortByNameAscending(unique);
    SortKeepsNamesDistinct(unique);
    AscendingDistinctIsStrict(SortByName(unique));
    assert forall u :: u in SortByName(unique) ==> u in multiset(unique);
    SortByName(unique)
  }

  /** Over a roster keyed by name, the dedupe-and-sort pipeline loses no unit and adds none. */
  lemma DedupeAndSortKeepsUnits(s: seq<Unit>)
    requires KeyedByName(s)
    ensures forall u :: u in DedupeAndSort(s) <==> u in s
  {
    var r := DedupeAndSort(s);
    forall u | u in s ensures u in r {
      assert u.name in NameSet(r);
      var v :| v in r && v.name == u.name;
      assert FirstNamed(s, v.name) == Some(v);
    }
  }

  /** In a strictly ascending listing the tail holds every unit but the head, and the head comes first by name. */
  lemma AscendingTail(s: seq<Unit>, u: Unit)
    requires StrictlyAscendingByName(s) && s != []
    ensures u in s[1..] <==> u in s && u != s[0]
    ensures u in s[1..] ==> Before(s[0].name, u.name)
  {
    assert s == [s[0]] + s[1..];
    if u in s[1..] {
      var i :| 0 <= i < |s[1..]| && s[1..][i] == u;
      assert s[i + 1] == u;
      BeforeIrreflexive(u.name);
    }
  }

  /** Two strictly ascending listings of the same units start with the same unit. */
  lemma AscendingSameHead(a: seq<Unit>, b: seq<Unit>)
    requires StrictlyAscendingByName(a) && StrictlyAscendingByName(b)
    requires forall u :: u in a <==> u in b
    requires a != []
    ensures b != [] && a[0] == b[0]
  {
    assert a[0] in b;
    assert b[0] in a;
    if a[0] != b[0] {
      AscendingTail(a, b[0]);
      AscendingTail(b, a[0]);
      BeforeAsymmetric(a[0].name, b[0].name);
    }
  }

  /** Two strictly ascending listings of the same units are the same listing. */
  lemma {:induction false} StrictlyAscendingUnique(a: seq<Unit>, b: seq<Unit>)
    requires StrictlyAscendingByName(a) && StrictlyAscendingByName(b)
    requires forall u :: u in a <==> u in b
    ensures a == b
  {
    if a == [] {
      assert forall i :: 0 <= i < |b| ==> b[i] in b;
    } else {
      AscendingSameHead(a, b);
      forall u ensures u in a[1..] <==> u in b[1..] {
        AscendingTail(a, u);
        AscendingTail(b, u);
      }
      assert StrictlyAscendingByName(a[1..]) && StrictlyAscendingByName(b[1..]) by {
        assert forall i :: 0 <= i < |a[1..]| ==> a[1..][i] == a[i + 1];
        assert forall i :: 0 <= i < |b[1..]| ==> b[1..][i] == b[i + 1];
      }
      StrictlyAscendingUnique(a[1..], b[1..]);
      assert a == [a[0]] + a[1..] && b == [b[0]] + b[1..];
    }
  }

  lemma {:induction false} UniqOfDistinct(s: seq<Unit>, seen: set<string>)
    requires NamesDistinct(s) && NameSet(s) !! seen
    ensures UniqByNameFrom(s, seen) == s
  {
    if s != [] {
      assert s == [s[0]] + s[1..];
      NameSetCons(s[0], s[1..]);
      HeadNameNotInTail(s);
      UniqOfDistinct(s[1..], seen + {s[0].name});
    }
  }

  lemma {:induction false} SortOfAscending(s: seq<Unit>)
    requires AscendingByName(s)
    ensures SortByName(s) == s
  {
    if s != [] {
      SortOfAscending(s[1..]);
      assert s == [s[0]] + s[1..];
    }
  }

  /** Running the dedupe-and-sort pipeline again on its own output changes nothing. */
  lemma DedupeAndSortIdempotent(s: seq<Unit>)
    ensures DedupeAndSort(DedupeAndSort(s)) == DedupeAndSort(s)
  {
    var r := DedupeAndSort(s);
    assert NamesDistinct(r) && AscendingByName(r) by {
      forall i, j | 0 <= i < j < |r| ensures r[i].name != r[j].name && NotAfter(r[i].name, r[j].name) {
        BeforeIrreflexive(r[i].name);
        BeforeAsymmetric(r[i].name, r[j].name);
      }
    }
    UniqOfDistinct(r, {});
    SortOfAscending(r);
  }
}
