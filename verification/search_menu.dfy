/** The search screen: the criteria the user sets, when the Search button and
    the descending check box are enabled, the page of results the game
    library shows, and the list of games picked for comparison. */
module Menu {
  import opened Sequences
  import opened Text
  import opened Table
  import opened Controller

  /** The text the entry shows before the user types anything. */
  const Placeholder := "Search game..."

  /** The library shows at most this many rows of a search. */
  const PageSize := 100

  /** The values of the screen's Tk variables: the entry, the three combo
      boxes, the three platform check boxes, the sort attribute and the
      descending check box. */
  datatype Criteria = Criteria(
    entry: string,
    category: string,
    genre: string,
    tag: string,
    windows: int,
    mac: int,
    linux: int,
    sortAttribute: string,
    descending: int)

  /** The values the variables are given when the screen is built. */
  const InitialCriteria := Criteria(Placeholder, NoFilter, NoFilter, NoFilter, 0, 0, 0, NoFilter, 0)

  /** The arguments `search` passes to `search_data`: the placeholder is
      searched as the empty string, every other entry as it is. */
  function QueryOf(c: Criteria): Query
  {
    Query(if c.entry == Placeholder then "" else c.entry,
          c.category, c.genre, c.tag, c.windows, c.mac, c.linux)
  }

  /** The placeholder gives the same page as an empty entry; any other entry
      is searched as typed. */
  lemma PlaceholderSearchedAsEmpty(data: Frame, c: Criteria)
    requires Searchable(data, c.(entry := ""))
    ensures Searchable(data, c.(entry := Placeholder))
    ensures DisplayRows(data, c.(entry := Placeholder)) == DisplayRows(data, c.(entry := ""))
    ensures c.entry != Placeholder ==> QueryOf(c).entry == c.entry
  {
    assert QueryOf(c.(entry := Placeholder)) == QueryOf(c.(entry := ""));
  }

  // ------------------------------------------------------- enabled widgets

  /** `check_enable_search`: the button is enabled when the entry holds real
      text, a platform box is ticked, a filter is chosen or a sort attribute
      is chosen. The descending box plays no part. */
  predicate SearchEnabled(c: Criteria)
  {
    || (c.entry != "" && c.entry != Placeholder)
    || c.windows != 0 || c.mac != 0 || c.linux != 0
    || c.category != NoFilter || c.genre != NoFilter || c.tag != NoFilter
    || c.sortAttribute != NoFilter
  }

  /** `toggle_descending_state`: the descending box is enabled exactly when a
      sort attribute is chosen. */
  predicate DescendingEnabled(sortAttribute: string)
  {
    sortAttribute != NoFilter
  }

  /** The button is enabled exactly when a search would filter or sort
      something. */
  lemma SearchEnabledIffSomethingToDo(c: Criteria)
    ensures SearchEnabled(c) <==> !(Unfiltered(QueryOf(c)) && c.sortAttribute == NoFilter)
  {
  }

  /** On the values the variables start with, the enable rule and the
      descending rule are both false and the entry is searched as empty text.
      The descending box is created disabled to match, but the Search button
      is created enabled and keeps that state until the first write to a
      traced variable runs `check_enable_search` (see `SearchMenu`). */
  lemma RulesFalseOnInitialValues()
    ensures !SearchEnabled(InitialCriteria)
    ensures !DescendingEnabled(InitialCriteria.sortAttribute)
    ensures QueryOf(InitialCriteria).entry == ""
  {
  }

  // -------------------------------------------------------------- sorting

  /** The sort key of a row: its number in the column, or NaN (`None`) when
      the cell holds no number. */
  function Key(row: Row, attr: string): Option<real>
  {
    if Field(row, attr).Number? then Some(Field(row, attr).number) else None
  }

  /** `a` may come before `b` in `sort_values(attr, ascending=!descending)`:
      NaN goes last in both directions. */
  predicate InOrder(a: Row, b: Row, attr: string, descending: bool)
  {
    var ka, kb := Key(a, attr), Key(b, attr);
    kb.None? || (ka.Some? && (if descending then ka.value >= kb.value else ka.value <= kb.value))
  }

  predicate SortedBy(rows: seq<Row>, attr: string, descending: bool)
  {
    forall i, j :: 0 <= i < j < |rows| ==> InOrder(rows[i], rows[j], attr, descending)
  }

  /** Any two rows can be ordered, and the order is transitive. */
  lemma InOrderIsTotalPreorder(a: Row, b: Row, c: Row, attr: string, descending: bool)
    ensures InOrder(a, b, attr, descending) || InOrder(b, a, attr, descending)
    ensures InOrder(a, b, attr, descending) && InOrder(b, c, attr, descending) ==> InOrder(a, c, attr, descending)
  {
  }

  /** A row that may precede every row of a sorted list can head it. */
  lemma SortedPrepend(row: Row, rows: seq<Row>, attr: string, descending: bool)
    requires SortedBy(rows, attr, descending)
    requires forall j :: 0 <= j < |rows| ==> InOrder(row, rows[j], attr, descending)
    ensures SortedBy([row] + rows, attr, descending)
  {
    var r := [row] + rows;
    forall i, j | 0 <= i < j < |r|
      ensures InOrder(r[i], r[j], attr, descending)
    {
      assert r[j] == rows[j - 1];
      if i > 0 {
        assert r[i] == rows[i - 1];
      }
    }
  }

  /** Puts `row` into sorted `rows` in front of the first row it may precede. */
  function InsertInOrder(row: Row, rows: seq<Row>, attr: string, descending: bool): (r: seq<Row>)
    requires SortedBy(rows, attr, descending)
    ensures SortedBy(r, attr, descending)
    ensures multiset(r) == multiset(rows) + multiset{row}
  {
    if rows == [] || InOrder(row, rows[0], attr, descending) then
      PrecedesAll(row, rows, attr, descending);
      SortedPrepend(row, rows, attr, descending);
      [row] + rows
    else
      var rest := InsertInOrder(row, rows[1..], attr, descending);
      HeadPrecedesInsertion(row, rows, rest, attr, descending);
      SortedPrepend(rows[0], rest, attr, descending);
      assert rows == [rows[0]] + rows[1..];
      [rows[0]] + rest
  }

  /** A row that may precede the head of a sorted list may precede all of it. */
  lemma PrecedesAll(row: Row, rows: seq<Row>, attr: string, descending: bool)
    requires SortedBy(rows, attr, descending)
    requires rows == [] || InOrder(row, rows[0], attr, descending)
    ensures forall j :: 0 <= j < |rows| ==> InOrder(row, rows[j], attr, descending)
  {
    forall j | 0 <= j < |rows|
      ensures InOrder(row, rows[j], attr, descending)
    {
      if j > 0 {
        InOrderIsTotalPreorder(row, rows[0], rows[j], attr, descending);
      }
    }
  }

  /** The head of a sorted list may precede every row of the insertion of a
      row it does not follow into the rest of the list. */
  lemma HeadPrecedesInsertion(row: Row, rows: seq<Row>, rest: seq<Row>, attr: string, descending: bool)
    requires SortedBy(rows, attr, descending) && rows != [] && !InOrder(row, rows[0], attr, descending)
    requires multiset(rest) == multiset(rows[1..]) + multiset{row}
    ensures forall j :: 0 <= j < |rest| ==> InOrder(rows[0], rest[j], attr, descending)
  {
    forall j | 0 <= j < |rest|
      ensures InOrder(rows[0], rest[j], attr, descending)
    {
      assert rest[j] in multiset(rest);
      if rest[j] == row {
        InOrderIsTotalPreorder(row, rows[0], row, attr, descending);
      } else {
        assert rest[j] in multiset(rows[1..]);
        var k :| 0 <= k < |rows[1..]| && rows[1..][k] == rest[j];
        assert rows[k + 1] == rest[j];
      }
    }
  }

  /** `sort_values(attr, ascending=!descending)`: the rows ordered by the
      column, NaN last, each row kept as often as it occurs. */
  function SortRows(rows: seq<Row>, attr: string, descending: bool): (r: seq<Row>)
    ensures SortedBy(r, attr, descending)
    ensures multiset(r) == multiset(rows)
  {
    if rows == [] then []
    else
      assert rows == [rows[0]] + rows[1..];
      InsertInOrder(rows[0], SortRows(rows[1..], attr, descending), attr, descending)
  }

  /** In a sorted result the rows without a number come after all rows with
      one, whichever the direction. */
  lemma MissingKeysSortLast(rows: seq<Row>, attr: string, descending: bool)
    ensures var r := SortRows(rows, attr, descending);
      forall i, j :: 0 <= i < j < |r| && Key(r[i], attr).None? ==> Key(r[j], attr).None?
  {
    var r := SortRows(rows, attr, descending);
    forall i, j | 0 <= i < j < |r| && Key(r[i], attr).None?
      ensures Key(r[j], attr).None?
    {
      assert InOrder(r[i], r[j], attr, descending);
    }
  }

  function Reversed(rows: seq<Row>): (r: seq<Row>)
    ensures |r| == |rows|
    ensures forall i :: 0 <= i < |rows| ==> r[i] == rows[|rows| - 1 - i]
  {
    seq(|rows|, i requires 0 <= i < |rows| => rows[|rows| - 1 - i])
  }

  /** When every row has a number in the column, an ascending order read
      backwards is a descending order. */
  lemma ReversedAscendingIsDescending(rows: seq<Row>, attr: string)
    requires forall i :: 0 <= i < |rows| ==> Key(rows[i], attr).Some?
    requires SortedBy(rows, attr, false)
    ensures SortedBy(Reversed(rows), attr, true)
  {
    var r := Reversed(rows);
    forall i, j | 0 <= i < j < |r|
      ensures InOrder(r[i], r[j], attr, true)
    {
      assert InOrder(rows[|rows| - 1 - j], rows[|rows| - 1 - i], attr, false);
    }
  }

  /** With a missing number that no longer holds: NaN ends both orders, so
      reversing the ascending order does not give the descending one. */
  lemma MissingKeyBreaksReversal()
    ensures var a, b := map["Price" := Number(1.0)], map["Price" := Missing];
      && SortedBy([a, b], "Price", false)
      && !SortedBy(Reversed([a, b]), "Price", true)
  {
    var a, b := map["Price" := Number(1.0)], map["Price" := Missing];
    assert Reversed([a, b])[0] == b && Reversed([a, b])[1] == a;
    assert !InOrder(b, a, "Price", true);
  }

  // ----------------------------------------------------------- the page

  /** `search` may run for `c`: the search finds its columns, and a chosen
      sort attribute is a column (otherwise a `KeyError` is raised). */
  predicate Searchable(data: Frame, c: Criteria)
  {
    HasColumns(data, ColumnsRead(QueryOf(c))) && (c.sortAttribute == NoFilter || c.sortAttribute in data.columns)
  }

  /** The search result, sorted when a sort attribute is chosen. */
  function OrderedResult(data: Frame, c: Criteria): seq<Row>
    requires Searchable(data, c)
  {
    var found := SearchData(data, QueryOf(c)).rows;
    if c.sortAttribute == NoFilter then found else SortRows(found, c.sortAttribute, c.descending != 0)
  }

  /** `to_numpy().tolist()` row by row. */
  function RowValues(columns: seq<string>): Row -> seq<Cell>
  {
    row => Values(columns, row)
  }

  /** `[:PageSize]`. */
  function FirstPage<T>(s: seq<T>): seq<T>
  {
    if |s| <= PageSize then s else s[..PageSize]
  }

  /** The rows `search` hands to the library: the values of the first
      `PageSize` rows of the ordered result. */
  function DisplayRows(data: Frame, c: Criteria): seq<seq<Cell>>
    requires Searchable(data, c)
  {
    FirstPage(Map(OrderedResult(data, c), RowValues(data.columns)))
  }

  /** The ordered result holds exactly the matching rows of the table, each as
      often as the search keeps it; without a sort attribute it is the search
      order, with one it is sorted by that attribute in the chosen direction. */
  lemma OrderedResultSpec(data: Frame, c: Criteria)
    requires Searchable(data, c)
    ensures forall row :: row in OrderedResult(data, c) <==> row in data.rows && Matches(row, QueryOf(c))
    ensures multiset(OrderedResult(data, c)) == multiset(SearchData(data, QueryOf(c)).rows)
    ensures c.sortAttribute == NoFilter ==> OrderedResult(data, c) == SearchData(data, QueryOf(c)).rows
    ensures c.sortAttribute != NoFilter ==> SortedBy(OrderedResult(data, c), c.sortAttribute, c.descending != 0)
  {
    var found := SearchData(data, QueryOf(c)).rows;
    SearchSelectsMatchingRows(data, QueryOf(c));
    forall row
      ensures row in OrderedResult(data, c) <==> row in found
    {
      assert row in OrderedResult(data, c) <==> row in multiset(OrderedResult(data, c));
    }
  }

  /** The page is the first `PageSize` ordered rows (all of them when there
      are fewer), each shown as its values in column order. */
  lemma DisplayIsFirstPage(data: Frame, c: Criteria)
    requires Searchable(data, c)
    ensures var page, ordered := DisplayRows(data, c), OrderedResult(data, c);
      && |page| == (if |ordered| < PageSize then |ordered| else PageSize)
      && forall i :: 0 <= i < |page| ==> page[i] == Values(data.columns, ordered[i])
  {
  }

  /** With the Search button disabled (nothing to filter, no sort) the page
      is the first rows of the table in table order, provided every name is a
      string. */
  lemma DisabledSearchShowsTableHead(data: Frame, c: Criteria)
    requires !SearchEnabled(c) && Searchable(data, c)
    requires forall k :: 0 <= k < |data.rows| ==> Field(data.rows[k], "Name").Text?
    ensures DisplayRows(data, c) == FirstPage(Map(data.rows, RowValues(data.columns)))
  {
    SearchEnabledIffSomethingToDo(c);
    UnfilteredSearchKeepsAll(data, QueryOf(c));
  }

  /** Pressing the Search button of a fresh screen, which is enabled although
      the rule says otherwise, shows the first rows of the table in table
      order, provided every name is a string. */
  lemma FreshSearchShowsTableHead(data: Frame)
    requires Searchable(data, InitialCriteria)
    requires forall k :: 0 <= k < |data.rows| ==> Field(data.rows[k], "Name").Text?
    ensures DisplayRows(data, InitialCriteria) == FirstPage(Map(data.rows, RowValues(data.columns)))
  {
    RulesFalseOnInitialValues();
    DisabledSearchShowsTableHead(data, InitialCriteria);
  }

  /** While the descending box is disabled its value does not change what is
      shown. */
  lemma DescendingIgnoredWithoutSort(data: Frame, c: Criteria, descending: int)
    requires Searchable(data, c) && !DescendingEnabled(c.sortAttribute)
    ensures Searchable(data, c.(descending := descending))
    ensures DisplayRows(data, c.(descending := descending)) == DisplayRows(data, c)
  {
  }

  // ------------------------------------------------------- keyed tables

  /** A Treeview keyed by first values: every row has a first value and no
      two rows share it. */
  predicate Keyed(rows: seq<seq<Cell>>)
  {
    && (forall i :: 0 <= i < |rows| ==> |rows[i]| > 0)
    && (forall i, j :: 0 <= i < j < |rows| ==> rows[i][0] != rows[j][0])
  }

  /** Some row of `rows` has first value `key`. */
  predicate Listed(rows: seq<seq<Cell>>, key: Cell)
  {
    exists i :: 0 <= i < |rows| && |rows[i]| > 0 && rows[i][0] == key
  }

  /** Every prefix of a keyed table is keyed. */
  lemma KeyedPrefix(rows: seq<seq<Cell>>, n: nat)
    requires Keyed(rows) && n <= |rows|
    ensures Keyed(rows[..n])
  {
    assert forall i :: 0 <= i < n ==> rows[..n][i] == rows[i];
  }

  /** A shorter prefix of a keyed prefix is keyed. */
  lemma KeyedShorterPrefix(rows: seq<seq<Cell>>, a: nat, b: nat)
    requires a <= b <= |rows| && Keyed(rows[..b])
    ensures Keyed(rows[..a])
  {
    assert rows[..b][..a] == rows[..a];
    KeyedPrefix(rows[..b], a);
  }

  /** A keyed table stays keyed with one more row exactly when that row has a
      first value that is not listed yet. */
  lemma KeyedAppend(rows: seq<seq<Cell>>, row: seq<Cell>)
    requires Keyed(rows)
    ensures Keyed(rows + [row]) <==> |row| > 0 && !Listed(rows, row[0])
  {
    var more := rows + [row];
    assert more[|rows|] == row;
    assert forall i :: 0 <= i < |rows| ==> more[i] == rows[i];
    if |row| > 0 && Listed(rows, row[0]) {
      var i :| 0 <= i < |rows| && |rows[i]| > 0 && rows[i][0] == row[0];
      assert more[i][0] == more[|rows|][0];
    }
    if |row| > 0 && !Listed(rows, row[0]) {
      forall i, j | 0 <= i < j < |more|
        ensures more[i][0] != more[j][0]
      {
        assert more[i] == rows[i];
        if j < |rows| {
          assert more[j] == rows[j];
        }
      }
    }
  }

  /** Removing a row keeps a table keyed. */
  lemma KeyedRemoveAt(rows: seq<seq<Cell>>, k: nat)
    requires Keyed(rows) && k < |rows|
    ensures Keyed(RemoveAt(rows, k))
  {
    var r := RemoveAt(rows, k);
    forall i, j | 0 <= i < j < |r|
      ensures r[i][0] != r[j][0]
    {
      var i' := if i < k then i else i + 1;
      var j' := if j < k then j else j + 1;
      assert r[i] == rows[i'] && r[j] == rows[j'];
    }
  }

  /** Removing the last appended row gives the table back. */
  lemma RemoveLastUndoesAppend(rows: seq<seq<Cell>>, row: seq<Cell>)
    ensures RemoveAt(rows + [row], |rows|) == rows
  {
  }

  /** How many of `results` the library takes: `insert` with `iid=result[0]`
      raises at the first row without a first value or whose first value is
      already an item, and the rows before it stay inserted. */
  function InsertableLength(results: seq<seq<Cell>>): (n: nat)
    ensures n <= |results| && Keyed(results[..n])
    ensures n < |results| ==> !Keyed(results[..n + 1])
  {
    if results == [] then 0
    else
      var init := results[..|results| - 1];
      var m := InsertableLength(init);
      assert results[..m] == init[..m];
      if m == |init| && Keyed(results) then
        assert results[..|results|] == results;
        |results|
      else
        assert m < |init| ==> results[..m + 1] == init[..m + 1];
        assert m == |init| ==> results[..m + 1] == results;
        m
  }

  /** The prefix length is the only one that is keyed and cannot be extended. */
  lemma InsertableLengthUnique(results: seq<seq<Cell>>, n: nat)
    requires n <= |results| && Keyed(results[..n])
    requires n < |results| ==> !Keyed(results[..n + 1])
    ensures n == InsertableLength(results)
  {
    var m := InsertableLength(results);
    forall a: nat, b: nat | a <= b <= |results| && Keyed(results[..b])
      ensures Keyed(results[..a])
    {
      KeyedShorterPrefix(results, a, b);
    }
  }

  /** A keyed list of results is inserted whole. */
  lemma KeyedInsertsAll(results: seq<seq<Cell>>)
    requires Keyed(results)
    ensures InsertableLength(results) == |results|
  {
    assert results[..|results|] == results;
    InsertableLengthUnique(results, |results|);
  }

  /** No two rows of the table have the same value in the first column (the
      title, as `check_duplicate` calls it). */
  predicate FirstColumnUnique(data: Frame)
  {
    |data.columns| > 0 &&
    forall i, j :: 0 <= i < j < |data.rows| ==>
      Field(data.rows[i], data.columns[0]) != Field(data.rows[j], data.columns[0])
  }

  /** A table with unique first values holds each row once. */
  lemma UniqueFirstColumnIsDistinct(data: Frame)
    requires FirstColumnUnique(data)
    ensures Distinct(data.rows)
  {
    forall i, j | 0 <= i < j < |data.rows|
      ensures data.rows[i] != data.rows[j]
    {
      assert Field(data.rows[i], data.columns[0]) != Field(data.rows[j], data.columns[0]);
    }
  }

  /** The ordered result of a table with unique first values holds each
      row once. */
  lemma UniqueFirstColumnOrderedDistinct(data: Frame, c: Criteria)
    requires Searchable(data, c) && FirstColumnUnique(data)
    ensures Distinct(OrderedResult(data, c))
  {
    var found := SearchData(data, QueryOf(c)).rows;
    UniqueFirstColumnIsDistinct(data);
    DistinctIffCountsAtMostOne(data.rows);
    SearchIsConjunction(data, QueryOf(c));
    assert forall x :: multiset(found)[x] <= multiset(data.rows)[x];
    OrderedResultSpec(data, c);
    DistinctIffCountsAtMostOne(OrderedResult(data, c));
  }

  /** When the first column is unique the library takes the whole page. */
  lemma UniqueFirstColumnShowsWholePage(data: Frame, c: Criteria)
    requires Searchable(data, c) && FirstColumnUnique(data)
    ensures Keyed(DisplayRows(data, c))
    ensures InsertableLength(DisplayRows(data, c)) == |DisplayRows(data, c)|
  {
    var ordered := OrderedResult(data, c);
    var page := DisplayRows(data, c);
    var col := data.columns[0];
    OrderedResultSpec(data, c);
    UniqueFirstColumnOrderedDistinct(data, c);
    DisplayIsFirstPage(data, c);
    forall i, j | 0 <= i < j < |page|
      ensures page[i][0] != page[j][0]
    {
      assert page[i][0] == Field(ordered[i], col) && page[j][0] == Field(ordered[j], col);
      assert ordered[i] in ordered && ordered[j] in ordered;
      var a :| 0 <= a < |data.rows| && data.rows[a] == ordered[i];
      var b :| 0 <= b < |data.rows| && data.rows[b] == ordered[j];
      assert ordered[i] != ordered[j];
      assert a != b;
      if a < b {
        assert Field(data.rows[a], col) != Field(data.rows[b], col);
      } else {
        assert Field(data.rows[b], col) != Field(data.rows[a], col);
      }
    }
    KeyedInsertsAll(page);
  }

  // ------------------------------------------------------- the screen

  /** What a double click on the library does. */
  datatype Selection = NothingFocused | AlreadySelected | Added

  /** The search screen: the table the search reads, the rows of the game
      library and the rows of the selected-games table, each row given by
      its values in column order, and whether the Search button and the
      descending check box are enabled. */
  class SearchMenu {
    const data: Frame
    var library: seq<seq<Cell>>
    var selected: seq<seq<Cell>>
    var searchButtonEnabled: bool
    var descendingBoxEnabled: bool

    /** Column names are unique (as `read_csv` makes them), every row has one
        value per column, and both tables are keyed by first value. */
    ghost predicate Valid()
      reads this
    {
      && Distinct(data.columns)
      && (forall i :: 0 <= i < |library| ==> |library[i]| == |data.columns|)
      && (forall i :: 0 <= i < |selected| ==> |selected[i]| == |data.columns|)
      && Keyed(library) && Keyed(selected)
    }

    /** The screen as built: both tables empty, the Search button enabled
        (it is created without a state) and the descending box disabled. */
    constructor (data: Frame)
      requires Distinct(data.columns)
      ensures Valid() && this.data == data && library == [] && selected == []
      ensures searchButtonEnabled && !descendingBoxEnabled
    {
      this.data := data;
      library := [];
      selected := [];
      searchButtonEnabled := true;
      descendingBoxEnabled := false;
    }

    /** `check_enable_search`, run after a write to any criterion: the button
        follows the enable rule for the current criteria. */
    method CheckEnableSearch(c: Criteria)
      modifies this`searchButtonEnabled
      ensures searchButtonEnabled == SearchEnabled(c)
    {
      if || (c.entry != "" && c.entry != Placeholder)
         || c.windows != 0 || c.mac != 0 || c.linux != 0
         || c.category != NoFilter || c.genre != NoFilter || c.tag != NoFilter
         || c.sortAttribute != NoFilter
      {
        searchButtonEnabled := true;
      } else {
        searchButtonEnabled := false;
      }
    }

    /** `toggle_descending_state`, run when a sort attribute is picked: the
        box is enabled exactly when the attribute is not "None". */
    method ToggleDescendingState(sortAttribute: string)
      modifies this`descendingBoxEnabled
      ensures descendingBoxEnabled == DescendingEnabled(sortAttribute)
    {
      if sortAttribute == NoFilter {
        descendingBoxEnabled := false;
      } else {
        descendingBoxEnabled := true;
      }
    }

    /** `insert_search_result`: empty the library, then insert the results in
        order until one cannot be keyed. */
    method InsertSearchResult(results: seq<seq<Cell>>)
      requires Valid()
      requires forall i :: 0 <= i < |results| ==> |results[i]| == |data.columns|
      modifies this`library
      ensures Valid()
      ensures library == results[..InsertableLength(results)]
    {
      library := [];
      var i := 0;
      while i < |results|
        invariant i <= |results| && library == results[..i] && Keyed(library)
      {
        if results[i] == [] || Listed(library, results[i][0]) {
          break;
        }
        KeyedAppend(library, results[i]);
        library := library + [results[i]];
        i := i + 1;
        assert library == results[..i];
      }
      if i < |results| {
        KeyedAppend(results[..i], results[i]);
        assert results[..i + 1] == results[..i] + [results[i]];
      }
      InsertableLengthUnique(results, i);
    }

    /** `search`: search with the screen's criteria and put the first page of
        the (sorted) result into the library. */
    method Search(c: Criteria)
      requires Valid() && Searchable(data, c)
      modifies this`library
      ensures Valid()
      ensures library == DisplayRows(data, c)[..InsertableLength(DisplayRows(data, c))]
    {
      var page := DisplayRows(data, c);
      InsertSearchResult(page);
    }

    /** `check_duplicate`: some selected row has the game's first value. */
    method CheckDuplicate(game: seq<Cell>) returns (duplicate: bool)
      requires |game| > 0
      ensures duplicate <==> Listed(selected, game[0])
    {
      var i := 0;
      while i < |selected|
        invariant i <= |selected|
        invariant forall k :: 0 <= k < i ==> !(|selected[k]| > 0 && selected[k][0] == game[0])
      {
        var values := selected[i];
        if |values| > 0 && values[0] == game[0] {
          return true;
        }
        i := i + 1;
      }
      return false;
    }

    /** `insert_selected_game`: append the focused library row unless a row
        with its first value is already selected. With no focused row the
        lookup of the empty values fails and nothing changes. */
    method InsertSelectedGame(focus: Option<nat>) returns (outcome: Selection)
      requires Valid() && (focus.Some? ==> focus.value < |library|)
      modifies this`selected
      ensures Valid()
      ensures focus.None? ==> outcome == NothingFocused && selected == old(selected)
      ensures focus.Some? && Listed(old(selected), library[focus.value][0]) ==>
        outcome == AlreadySelected && selected == old(selected)
      ensures focus.Some? && !Listed(old(selected), library[focus.value][0]) ==>
        outcome == Added && selected == old(selected) + [library[focus.value]]
    {
      if focus.None? {
        return NothingFocused;
      }
      var game := library[focus.value];
      var duplicate := CheckDuplicate(game);
      if duplicate {
        return AlreadySelected;
      }
      KeyedAppend(selected, game);
      selected := selected + [game];
      return Added;
    }

    /** `deselect_game`: delete the chosen row; with no row chosen the
        `IndexError` is swallowed and nothing changes. */
    method DeselectGame(selection: Option<nat>)
      requires Valid() && (selection.Some? ==> selection.value < |selected|)
      modifies this`selected
      ensures Valid()
      ensures selected == if selection.None? then old(selected) else RemoveAt(old(selected), selection.value)
    {
      if selection.Some? {
        KeyedRemoveAt(selected, selection.value);
        selected := RemoveAt(selected, selection.value);
      }
    }

    /** `compare_games`: nothing when no game is selected; otherwise the
        table of the selected games, one row per selected row, in order,
        under the table's columns. */
    method CompareGames() returns (comparison: Option<Frame>)
      requires Valid()
      ensures comparison.None? <==> selected == []
      ensures comparison.Some? ==>
        && comparison.value.columns == data.columns
        && |comparison.value.rows| == |selected|
        && forall i :: 0 <= i < |selected| ==> Values(data.columns, comparison.value.rows[i]) == selected[i]
    {
      if selected == [] {
        return None;
      }
      var columns, games := data.columns, selected;
      var rows := seq(|games|, i requires 0 <= i < |games| => FromValues(columns, games[i]));
      forall i | 0 <= i < |games|
        ensures Values(columns, rows[i]) == games[i]
      {
        ValuesOfFromValues(columns, games[i]);
      }
      return Some(Frame(data.columns, rows));
    }
  }
}
