/**
  The overall points table: three grids over the roster (every character,
  the unlocked ones, the ones flagged for an event) that share one column
  definition, whose Points column is the sum of a character's per-event
  points and is shown in descending order.
 */
module OverallPointsTable {
  import opened Seqs

  /** The event a character can be flagged for; `None` means not flagged. */
  datatype LegendaryEvents = None | JainZar | AunShi | ShadowSun

  /** The fields of a character the table reads. */
  datatype Character = Character(
    name: string,
    unlocked: bool,
    leSelection: LegendaryEvents,
    legendaryEventPoints: map<LegendaryEvents, int>)

  /** One grid row: the character and the value of its Points column. */
  datatype Row = Row(character: Character, points: int)

  // ---------------------------------------------------------------------------
  // Points

  /** Every key a points map can have. */
  const AllEvents: seq<LegendaryEvents> := [None, JainZar, AunShi, ShadowSun]

  /** The sum of a map's values, taking its keys in any order: the reference definition. */
  ghost function MapSum(m: map<LegendaryEvents, int>): int
    decreases |m.Keys|
  {
    if m == map[] then 0
    else
      var k :| k in m;
      assert (m - {k}).Keys == m.Keys - {k};
      m[k] + MapSum(m - {k})
  }

  /** Removing any one key first gives the same sum: the order of `Object.values` does not matter. */
  lemma {:induction false} MapSumRemove(m: map<LegendaryEvents, int>, k: LegendaryEvents)
    requires k in m
    ensures MapSum(m) == m[k] + MapSum(m - {k})
    decreases |m.Keys|
  {
    var j :| j in m && MapSum(m) == m[j] + MapSum(m - {j});
    if j != k {
      var mj, mk := m - {j}, m - {k};
      RemoveKeys(m, j, k);
      MapSumRemove(mj, k);
      MapSumRemove(mk, j);
    }
  }

  /** Removing two different keys in either order leaves the same map, and each removal shrinks it. */
  lemma RemoveKeys(m: map<LegendaryEvents, int>, j: LegendaryEvents, k: LegendaryEvents)
    requires j in m && k in m && j != k
    ensures k in m - {j} && (m - {j})[k] == m[k] && |(m - {j}).Keys| < |m.Keys|
    ensures j in m - {k} && (m - {k})[j] == m[j] && |(m - {k}).Keys| < |m.Keys|
    ensures (m - {j}) - {k} == (m - {k}) - {j}
  {
    assert (m - {j}).Keys == m.Keys - {j};
    assert (m - {k}).Keys == m.Keys - {k};
  }

  /** The sum of the values `m` holds under the keys of `keys`, in that order. */
  function SumOver(keys: seq<LegendaryEvents>, m: map<LegendaryEvents, int>): int
  {
    if keys == [] then 0
    else (if keys[0] in m then m[keys[0]] else 0) + SumOver(keys[1..], m)
  }

  /** A key not listed does not contribute. */
  lemma {:induction false} SumOverIgnoresUnlisted(keys: seq<LegendaryEvents>, m: map<LegendaryEvents, int>, k: LegendaryEvents)
    requires k !in keys
    ensures SumOver(keys, m) == SumOver(keys, m - {k})
  {
    if keys != [] {
      SumOverIgnoresUnlisted(keys[1..], m, k);
    }
  }

  /** Summing over a repeat-free list that covers every key is the map's sum. */
  lemma {:induction false} SumOverIsMapSum(keys: seq<LegendaryEvents>, m: map<LegendaryEvents, int>)
    requires Distinct(keys)
    requires forall k :: k in m ==> k in keys
    ensures SumOver(keys, m) == MapSum(m)
  {
    if keys == [] {
      assert m == map[];
    } else {
      var k0 := keys[0];
      assert Distinct(keys[1..]);
      assert k0 !in keys[1..];
      if k0 in m {
        SumOverIgnoresUnlisted(keys[1..], m, k0);
        SumOverIsMapSum(keys[1..], m - {k0});
        MapSumRemove(m, k0);
      } else {
        SumOverIsMapSum(keys[1..], m);
      }
    }
  }

  lemma EveryEventListed(k: LegendaryEvents)
    ensures k in AllEvents
  {
    match k
    case None => assert AllEvents[0] == k;
    case JainZar => assert AllEvents[1] == k;
    case AunShi => assert AllEvents[2] == k;
    case ShadowSun => assert AllEvents[3] == k;
  }

  /** The Points column: `sum(Object.values(legendaryEventPoints))`. */
  function Points(c: Character): (r: int)
    ensures r == MapSum(c.legendaryEventPoints)
    ensures c.legendaryEventPoints == map[] ==> r == 0
  {
    assert Distinct(AllEvents);
    forall k | k in c.legendaryEventPoints ensures k in AllEvents {
      EveryEventListed(k);
    }
    SumOverIsMapSum(AllEvents, c.legendaryEventPoints);
    SumOver(AllEvents, c.legendaryEventPoints)
  }

  // ---------------------------------------------------------------------------
  // Descending order of Points

  /** Rows in descending order of Points. */
  predicate Descending(s: seq<Row>)
  {
    forall i, j :: 0 <= i < j < |s| ==> s[i].points >= s[j].points
  }

  /** Puts `x` before the first row with no more points than it, so ahead of any row with as many. */
  function InsertByPoints(x: Row, s: seq<Row>): (r: seq<Row>)
    ensures multiset(r) == multiset(s) + multiset{x}
    ensures |r| == |s| + 1
  {
    if s == [] || s[0].points <= x.points then [x] + s
    else
      assert s == [s[0]] + s[1..];
      [s[0]] + InsertByPoints(x, s[1..])
  }

  /** The grid's descending sort on Points, an insertion sort that keeps equal points in input order. */
  function SortByPointsDesc(s: seq<Row>): (r: seq<Row>)
    ensures multiset(r) == multiset(s)
    ensures |r| == |s|
  {
    if s == [] then []
    else
      assert s == [s[0]] + s[1..];
      InsertByPoints(s[0], SortByPointsDesc(s[1..]))
  }

  /** No row has more than `v` points. */
  predicate AtMost(s: seq<Row>, v: int)
  {
    forall i :: 0 <= i < |s| ==> s[i].points <= v
  }

  /** Inserting a row within a bound keeps every row within it. */
  lemma {:induction false} InsertKeepsBound(x: Row, s: seq<Row>, v: int)
    requires AtMost(s, v) && x.points <= v
    ensures AtMost(InsertByPoints(x, s), v)
  {
    if s != [] && s[0].points > x.points {
      InsertKeepsBound(x, s[1..], v);
      var rest := InsertByPoints(x, s[1..]);
      assert forall i :: 1 <= i < |rest| + 1 ==> ([s[0]] + rest)[i] == rest[i - 1];
    }
  }

  /** A row followed by descending rows of at most its points is descending. */
  lemma ConsDescending(h: Row, s: seq<Row>)
    requires Descending(s) && AtMost(s, h.points)
    ensures Descending([h] + s)
  {
    assert forall i :: 1 <= i < |s| + 1 ==> ([h] + s)[i] == s[i - 1];
  }

  lemma {:induction false} InsertKeepsDescending(x: Row, s: seq<Row>)
    requires Descending(s)
    ensures Descending(InsertByPoints(x, s))
  {
    if s == [] {
      assert InsertByPoints(x, s) == [x];
    } else if s[0].points <= x.points {
      assert AtMost(s, x.points);
      ConsDescending(x, s);
    } else {
      assert Descending(s[1..]) && AtMost(s[1..], s[0].points) by {
        assert forall i :: 0 <= i < |s[1..]| ==> s[1..][i] == s[i + 1];
      }
      InsertKeepsDescending(x, s[1..]);
      InsertKeepsBound(x, s[1..], s[0].points);
      ConsDescending(s[0], InsertByPoints(x, s[1..]));
    }
  }

  /** Rows already in descending order of Points are left as they are. */
  lemma {:induction false} SortOfDescending(s: seq<Row>)
    requires Descending(s)
    ensures SortByPointsDesc(s) == s
  {
    if s != [] {
      assert Descending(s[1..]) by {
        assert forall i :: 0 <= i < |s[1..]| ==> s[1..][i] == s[i + 1];
      }
      SortOfDescending(s[1..]);
      assert s == [s[0]] + s[1..];
    }
  }

  /** The test `row => row.points === k`. */
  function WithPoints(k: int): Row -> bool
  {
    (row: Row) => row.points == k
  }

  /**
    Among the rows with any one Points value, inserting `x` in its place and
    putting it in front select the same rows in the same order.
   */
  lemma {:induction false} InsertAmongEqualPoints(x: Row, s: seq<Row>, k: int)
    ensures Filter(InsertByPoints(x, s), WithPoints(k)) == Filter([x] + s, WithPoints(k))
  {
    if s != [] && s[0].points > x.points {
      InsertAmongEqualPoints(x, s[1..], k);
      assert s == [s[0]] + s[1..];
      FilterCons(s[0], InsertByPoints(x, s[1..]), WithPoints(k));
      FilterCons(x, s[1..], WithPoints(k));
      FilterCons(x, s, WithPoints(k));
      FilterCons(s[0], s[1..], WithPoints(k));
    }
  }

  /** The sort is stable: the rows with any one Points value keep their input order. */
  lemma {:induction false} SortByPointsDescStable(s: seq<Row>, k: int)
    ensures Filter(SortByPointsDesc(s), WithPoints(k)) == Filter(s, WithPoints(k))
  {
    if s != [] {
      SortByPointsDescStable(s[1..], k);
      InsertAmongEqualPoints(s[0], SortByPointsDesc(s[1..]), k);
      FilterCons(s[0], SortByPointsDesc(s[1..]), WithPoints(k));
      FilterCons(s[0], s[1..], WithPoints(k));
      assert s == [s[0]] + s[1..];
    }
  }

  /** The sort's result is in descending order of Points. */
  lemma {:induction false} SortByPointsDescIsDescending(s: seq<Row>)
    ensures Descending(SortByPointsDesc(s))
  {
    if s != [] {
      SortByPointsDescIsDescending(s[1..]);
      InsertKeepsDescending(s[0], SortByPointsDesc(s[1..]));
    }
  }

  // ---------------------------------------------------------------------------
  // The three grids

  /** The row the shared column definition shows for a character. */
  function RowOf(c: Character): (r: Row)
    ensures r.character == c
    ensures r.points == MapSum(c.legendaryEventPoints)
  {
    Row(c, Points(c))
  }

  /** The rows of a grid before sorting, one per character of its row data, in input order. */
  function RowsOf(cs: seq<Character>): (r: seq<Row>)
    ensures |r| == |cs|
    ensures forall i :: 0 <= i < |cs| ==> r[i] == RowOf(cs[i])
  {
    seq(|cs|, i requires 0 <= i < |cs| => RowOf(cs[i]))
  }

  /** A grid over some row data, with the shared columns and the default descending sort on Points. */
  function Grid(rowData: seq<Character>): (r: seq<Row>)
    ensures Descending(r)
    ensures multiset(r) == multiset(RowsOf(rowData))
    ensures forall row :: row in r <==> row.character in rowData && row.points == Points(row.character)
  {
    var rows := RowsOf(rowData);
    SortByPointsDescIsDescending(rows);
    var r := SortByPointsDesc(rows);
    forall row ensures row in r <==> row in rows {
      assert row in r <==> row in multiset(r);
      assert row in rows <==> row in multiset(rows);
    }
    forall row ensures row in rows <==> row.character in rowData && row.points == Points(row.character) {
      if row in rows {
        var i :| 0 <= i < |rows| && rows[i] == row;
      }
      if row.character in rowData && row.points == Points(row.character) {
        var i :| 0 <= i < |rowData| && rowData[i] == row.character;
        assert rows[i] == row;
      }
    }
    r
  }

  predicate IsUnlocked(c: Character) { c.unlocked }

  predicate HasEventSelection(c: Character) { c.leSelection != None }

  /** 'Best characters overall': every character. */
  function BestOverall(characters: seq<Character>): (r: seq<Row>)
    ensures Descending(r)
    ensures |r| == |characters|
    ensures forall row :: row in r <==> row.character in characters && row == RowOf(row.character)
  {
    Grid(characters)
  }

  /** 'Your Best characters': the row data is `characters.filter(x => x.unlocked)`. */
  function YourBest(characters: seq<Character>): (r: seq<Row>)
    ensures Descending(r)
    ensures forall row :: row in r <==> row.character in characters && row.character.unlocked && row == RowOf(row.character)
  {
    Grid(Filter(characters, IsUnlocked))
  }

  /** 'Selected Best characters': the row data is `characters.filter(x => x.leSelection !== None)`. */
  function SelectedBest(characters: seq<Character>): (r: seq<Row>)
    ensures Descending(r)
    ensures forall row :: row in r <==> row.character in characters && row.character.leSelection != None && row == RowOf(row.character)
  {
    Grid(Filter(characters, HasEventSelection))
  }

  // ---------------------------------------------------------------------------
  // Properties of the views

  /** The unlocked row data is exactly the unlocked characters, in input order, each as often as given. */
  lemma UnlockedRowDataExact(characters: seq<Character>)
    ensures FiltersBy(Filter(characters, IsUnlocked), characters, IsUnlocked, IsUnlocked)
  {
    FilterIdempotent(characters, IsUnlocked);
    TwoStageFilter(characters, IsUnlocked, IsUnlocked);
  }

  /** The selected row data is exactly the characters flagged for an event, in input order, each as often as given. */
  lemma SelectedRowDataExact(characters: seq<Character>)
    ensures FiltersBy(Filter(characters, HasEventSelection), characters, HasEventSelection, HasEventSelection)
  {
    FilterIdempotent(characters, HasEventSelection);
    TwoStageFilter(characters, HasEventSelection, HasEventSelection);
  }

  /** Filtering the unlocked characters again keeps them all. */
  lemma UnlockedFilterIdempotent(characters: seq<Character>)
    ensures Filter(Filter(characters, IsUnlocked), IsUnlocked) == Filter(characters, IsUnlocked)
  {
    FilterIdempotent(characters, IsUnlocked);
  }

  /** Filtering the selected characters again keeps them all. */
  lemma SelectedFilterIdempotent(characters: seq<Character>)
    ensures Filter(Filter(characters, HasEventSelection), HasEventSelection) == Filter(characters, HasEventSelection)
  {
    FilterIdempotent(characters, HasEventSelection);
  }

  /** Every row of the two filtered grids is a row of the full grid, with the same Points. */
  lemma FilteredGridsAreSubgrids(characters: seq<Character>)
    ensures forall row :: row in YourBest(characters) ==> row in BestOverall(characters)
    ensures forall row :: row in SelectedBest(characters) ==> row in BestOverall(characters)
  {
  }

  /**
    A character appears in the 'Your Best' grid exactly when it is unlocked and
    on the roster, and then with the same Points as in the full grid.
   */
  lemma YourBestRows(characters: seq<Character>, c: Character)
    ensures RowOf(c) in YourBest(characters) <==> c in characters && c.unlocked
    ensures RowOf(c) in YourBest(characters) ==> RowOf(c) in BestOverall(characters)
    ensures forall row :: row in YourBest(characters) && row.character == c ==> row == RowOf(c)
  {
  }

  /**
    A character appears in the 'Selected Best' grid exactly when it is flagged
    for an event and on the roster, and then with the same Points as in the full grid.
   */
  lemma SelectedBestRows(characters: seq<Character>, c: Character)
    ensures RowOf(c) in SelectedBest(characters) <==> c in characters && c.leSelection != None
    ensures RowOf(c) in SelectedBest(characters) ==> RowOf(c) in BestOverall(characters)
    ensures forall row :: row in SelectedBest(characters) && row.character == c ==> row == RowOf(c)
  {
  }
}
