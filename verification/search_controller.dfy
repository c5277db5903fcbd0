/** The search of the game table: `SearchController.search_data`, a chain of
    boolean-mask selections over the loaded table. */
module Controller {
  import opened Sequences
  import opened Text
  import opened Table

  /** The arguments of `search_data`: the free-text entry, the category, genre
      and tag filters, and the three platform check-box values. */
  datatype Query = Query(
    entry: string,
    category: string,
    genre: string,
    tag: string,
    windows: int,
    mac: int,
    linux: int)

  /** The columns the search looks up for `q`; looking up a column the table
      lacks raises `KeyError`. */
  function ColumnsRead(q: Query): seq<string>
  {
    ["Name", "Developers", "Publishers"]
    + (if q.linux != 0 then ["Linux"] else [])
    + (if q.mac != 0 then ["Mac"] else [])
    + (if q.windows != 0 then ["Windows"] else [])
    + (if q.category != NoFilter then ["Categories"] else [])
    + (if q.genre != NoFilter then ["Genres"] else [])
    + (if q.tag != NoFilter then ["Tags"] else [])
  }

  /** `str.contains(entry, case=False, na=False, regex=False)` on one cell: a
      cell that is not a string never matches. */
  predicate CellContainsIgnoringCase(c: Cell, entry: string)
  {
    c.Text? && ContainsIgnoringCase(c.text, entry)
  }

  /** `str.contains(value, na=False)` on one cell, case-sensitive, with the
      value read as plain text. */
  predicate CellContains(c: Cell, value: string)
  {
    c.Text? && Contains(c.text, value)
  }

  /** The free-text test: the entry occurs in the name, the developers or the
      publishers. */
  predicate TextHit(row: Row, entry: string)
  {
    || CellContainsIgnoringCase(Field(row, "Name"), entry)
    || CellContainsIgnoringCase(Field(row, "Developers"), entry)
    || CellContainsIgnoringCase(Field(row, "Publishers"), entry)
  }

  function TextStage(entry: string): Row -> bool
  {
    row => TextHit(row, entry)
  }

  /** The mask `search_result[column]` of a boolean platform column. */
  function PlatformStage(column: string): Row -> bool
  {
    row => Field(row, column) == Flag(true)
  }

  /** The mask `search_result[column].str.contains(value, na=False)`. */
  function FieldStage(column: string, value: string): Row -> bool
  {
    row => CellContains(Field(row, column), value)
  }

  /** `result.loc[mask] if active else result`. */
  function Stage(rows: seq<Row>, active: bool, keep: Row -> bool): seq<Row>
  {
    if active then Filter(rows, keep) else rows
  }

  /** `search_data`, one selection after the other in the order the source
      applies them. */
  function SearchData(data: Frame, q: Query): Frame
    requires HasColumns(data, ColumnsRead(q))
  {
    var byText := Filter(data.rows, TextStage(q.entry));
    var byLinux := Stage(byText, q.linux != 0, PlatformStage("Linux"));
    var byMac := Stage(byLinux, q.mac != 0, PlatformStage("Mac"));
    var byWindows := Stage(byMac, q.windows != 0, PlatformStage("Windows"));
    var byCategory := Stage(byWindows, q.category != NoFilter, FieldStage("Categories", q.category));
    var byGenre := Stage(byCategory, q.genre != NoFilter, FieldStage("Genres", q.genre));
    var byTag := Stage(byGenre, q.tag != NoFilter, FieldStage("Tags", q.tag));
    Frame(data.columns, byTag)
  }

  /** The reference meaning of a search: a row is kept when it passes the
      free-text test and every active filter. */
  predicate Matches(row: Row, q: Query)
  {
    && TextHit(row, q.entry)
    && (q.linux != 0 ==> Field(row, "Linux") == Flag(true))
    && (q.mac != 0 ==> Field(row, "Mac") == Flag(true))
    && (q.windows != 0 ==> Field(row, "Windows") == Flag(true))
    && (q.category != NoFilter ==> CellContains(Field(row, "Categories"), q.category))
    && (q.genre != NoFilter ==> CellContains(Field(row, "Genres"), q.genre))
    && (q.tag != NoFilter ==> CellContains(Field(row, "Tags"), q.tag))
  }

  function Matcher(q: Query): Row -> bool
  {
    row => Matches(row, q)
  }

  /** Filters with pointwise equal predicates select the same elements. */
  lemma {:induction false} FilterSamePredicate(s: seq<Row>, p: Row -> bool, q: Row -> bool)
    requires forall x :: p(x) == q(x)
    ensures Filter(s, p) == Filter(s, q)
  {
    if s != [] {
      FilterSamePredicate(s[1..], p, q);
    }
  }

  /** One more conditional selection on an accumulated filter is one filter
      on the strengthened predicate. */
  lemma StageFuse(s: seq<Row>, acc: Row -> bool, active: bool, keep: Row -> bool, next: Row -> bool)
    requires forall x :: next(x) == (acc(x) && (active ==> keep(x)))
    ensures Stage(Filter(s, acc), active, keep) == Filter(s, next)
  {
    if active {
      FilterFuse(s, acc, keep, next);
    } else {
      FilterSamePredicate(s, acc, next);
    }
  }

  /** The test a row passes after the free-text selection and the first `k`
      of the six further selections, in the order the source applies them. */
  predicate PassesFirst(row: Row, q: Query, k: nat)
  {
    && TextHit(row, q.entry)
    && (k >= 1 && q.linux != 0 ==> Field(row, "Linux") == Flag(true))
    && (k >= 2 && q.mac != 0 ==> Field(row, "Mac") == Flag(true))
    && (k >= 3 && q.windows != 0 ==> Field(row, "Windows") == Flag(true))
    && (k >= 4 && q.category != NoFilter ==> CellContains(Field(row, "Categories"), q.category))
    && (k >= 5 && q.genre != NoFilter ==> CellContains(Field(row, "Genres"), q.genre))
  }

  function FirstStages(q: Query, k: nat): Row -> bool
  {
    row => PassesFirst(row, q, k)
  }

  /** The chain of selections is a single conjunctive filter: the result does
      not depend on the order in which the filters are applied. */
  lemma SearchIsConjunction(data: Frame, q: Query)
    requires HasColumns(data, ColumnsRead(q))
    ensures SearchData(data, q).columns == data.columns
    ensures SearchData(data, q).rows == Filter(data.rows, Matcher(q))
  {
    var s := data.rows;
    StageFuse(s, TextStage(q.entry), q.linux != 0, PlatformStage("Linux"), FirstStages(q, 1));
    StageFuse(s, FirstStages(q, 1), q.mac != 0, PlatformStage("Mac"), FirstStages(q, 2));
    StageFuse(s, FirstStages(q, 2), q.windows != 0, PlatformStage("Windows"), FirstStages(q, 3));
    StageFuse(s, FirstStages(q, 3), q.category != NoFilter, FieldStage("Categories", q.category), FirstStages(q, 4));
    StageFuse(s, FirstStages(q, 4), q.genre != NoFilter, FieldStage("Genres", q.genre), FirstStages(q, 5));
    StageFuse(s, FirstStages(q, 5), q.tag != NoFilter, FieldStage("Tags", q.tag), Matcher(q));
  }

  /** The result is an order-preserving sub-selection of the table: exactly
      the matching rows, each as often as in the table. */
  lemma SearchSelectsMatchingRows(data: Frame, q: Query)
    requires HasColumns(data, ColumnsRead(q))
    ensures IsSubsequence(SearchData(data, q).rows, data.rows)
    ensures forall row :: row in SearchData(data, q).rows <==> row in data.rows && Matches(row, q)
    ensures forall row :: Matches(row, q) ==>
      multiset(SearchData(data, q).rows)[row] == multiset(data.rows)[row]
  {
    SearchIsConjunction(data, q);
    FilterIsSubsequence(data.rows, Matcher(q));
  }

  /** Every returned row holds the entry, case-insensitively, in its name, its
      developers or its publishers; a missing field never matches. */
  lemma SearchRowsContainEntry(data: Frame, q: Query)
    requires HasColumns(data, ColumnsRead(q))
    ensures forall row :: row in SearchData(data, q).rows ==>
      || (Field(row, "Name").Text? && ContainsIgnoringCase(Field(row, "Name").text, q.entry))
      || (Field(row, "Developers").Text? && ContainsIgnoringCase(Field(row, "Developers").text, q.entry))
      || (Field(row, "Publishers").Text? && ContainsIgnoringCase(Field(row, "Publishers").text, q.entry))
  {
    SearchIsConjunction(data, q);
  }

  /** Setting a platform flag keeps exactly the rows of the search without it
      whose platform column is true. */
  lemma PlatformFlagsNarrow(data: Frame, q: Query)
    requires HasColumns(data, ColumnsRead(q)) && q.linux != 0
    ensures HasColumns(data, ColumnsRead(q.(linux := 0)))
    ensures SearchData(data, q).rows ==
      Filter(SearchData(data, q.(linux := 0)).rows, PlatformStage("Linux"))
    ensures forall row :: row in SearchData(data, q).rows ==> Field(row, "Linux") == Flag(true)
  {
    var q0 := q.(linux := 0);
    SearchIsConjunction(data, q);
    SearchIsConjunction(data, q0);
    FilterFuse(data.rows, Matcher(q0), PlatformStage("Linux"), Matcher(q));
  }

  /** The same for the Mac flag. */
  lemma MacFlagNarrows(data: Frame, q: Query)
    requires HasColumns(data, ColumnsRead(q)) && q.mac != 0
    ensures HasColumns(data, ColumnsRead(q.(mac := 0)))
    ensures SearchData(data, q).rows ==
      Filter(SearchData(data, q.(mac := 0)).rows, PlatformStage("Mac"))
  {
    var q0 := q.(mac := 0);
    SearchIsConjunction(data, q);
    SearchIsConjunction(data, q0);
    FilterFuse(data.rows, Matcher(q0), PlatformStage("Mac"), Matcher(q));
  }

  /** The same for the Windows flag. */
  lemma WindowsFlagNarrows(data: Frame, q: Query)
    requires HasColumns(data, ColumnsRead(q)) && q.windows != 0
    ensures HasColumns(data, ColumnsRead(q.(windows := 0)))
    ensures SearchData(data, q).rows ==
      Filter(SearchData(data, q.(windows := 0)).rows, PlatformStage("Windows"))
  {
    var q0 := q.(windows := 0);
    SearchIsConjunction(data, q);
    SearchIsConjunction(data, q0);
    FilterFuse(data.rows, Matcher(q0), PlatformStage("Windows"), Matcher(q));
  }

  /** A category filter other than "None" keeps exactly the rows of the
      search without it whose Categories text contains the value,
      case-sensitively. */
  lemma CategoryFilterNarrows(data: Frame, q: Query)
    requires HasColumns(data, ColumnsRead(q)) && q.category != NoFilter
    ensures HasColumns(data, ColumnsRead(q.(category := NoFilter)))
    ensures SearchData(data, q).rows ==
      Filter(SearchData(data, q.(category := NoFilter)).rows, FieldStage("Categories", q.category))
  {
    var q0 := q.(category := NoFilter);
    SearchIsConjunction(data, q);
    SearchIsConjunction(data, q0);
    FilterFuse(data.rows, Matcher(q0), FieldStage("Categories", q.category), Matcher(q));
  }

  /** The same for the genre filter. */
  lemma GenreFilterNarrows(data: Frame, q: Query)
    requires HasColumns(data, ColumnsRead(q)) && q.genre != NoFilter
    ensures HasColumns(data, ColumnsRead(q.(genre := NoFilter)))
    ensures SearchData(data, q).rows ==
      Filter(SearchData(data, q.(genre := NoFilter)).rows, FieldStage("Genres", q.genre))
  {
    var q0 := q.(genre := NoFilter);
    SearchIsConjunction(data, q);
    SearchIsConjunction(data, q0);
    FilterFuse(data.rows, Matcher(q0), FieldStage("Genres", q.genre), Matcher(q));
  }

  /** The same for the tag filter. */
  lemma TagFilterNarrows(data: Frame, q: Query)
    requires HasColumns(data, ColumnsRead(q)) && q.tag != NoFilter
    ensures HasColumns(data, ColumnsRead(q.(tag := NoFilter)))
    ensures SearchData(data, q).rows ==
      Filter(SearchData(data, q.(tag := NoFilter)).rows, FieldStage("Tags", q.tag))
  {
    var q0 := q.(tag := NoFilter);
    SearchIsConjunction(data, q);
    SearchIsConjunction(data, q0);
    FilterFuse(data.rows, Matcher(q0), FieldStage("Tags", q.tag), Matcher(q));
  }

  /** The query that filters nothing: empty entry, every filter "None",
      every platform flag 0. */
  predicate Unfiltered(q: Query)
  {
    q.entry == "" && q.category == NoFilter && q.genre == NoFilter && q.tag == NoFilter
    && q.windows == 0 && q.mac == 0 && q.linux == 0
  }

  /** With no filter, every row whose name is a string is returned, in
      order; so a table in which every name is a string comes back whole. */
  lemma UnfilteredSearchKeepsAll(data: Frame, q: Query)
    requires Unfiltered(q) && HasColumns(data, ColumnsRead(q))
    requires forall k :: 0 <= k < |data.rows| ==> Field(data.rows[k], "Name").Text?
    ensures SearchData(data, q).rows == data.rows
  {
    forall k | 0 <= k < |data.rows|
      ensures TextStage(q.entry)(data.rows[k])
    {
      EmptyIsContained(Field(data.rows[k], "Name").text);
    }
    FilterKeepsAll(data.rows, TextStage(q.entry));
  }

  /** Searching the result again with the same arguments changes nothing. */
  lemma SearchIdempotent(data: Frame, q: Query)
    requires HasColumns(data, ColumnsRead(q))
    ensures HasColumns(SearchData(data, q), ColumnsRead(q))
    ensures SearchData(SearchData(data, q), q) == SearchData(data, q)
  {
    var r := SearchData(data, q);
    SearchIsConjunction(data, q);
    SearchIsConjunction(r, q);
    FilterIdempotent(data.rows, Matcher(q));
  }

  /** The free-text entry ignores case while the category filter does not:
      "action" finds a game named "Action" but not the category "Action". */
  lemma EntryIgnoresCaseFiltersDoNot()
    ensures CellContainsIgnoringCase(Text("Action"), "action")
    ensures !CellContains(Text("Action"), "action")
  {
    assert Upper("Action") == "ACTION";
    assert Upper("action") == "ACTION";
    assert OccursAt("ACTION", "ACTION", 0);
    assert "Action"[0..6][0] != "action"[0];
    assert !OccursAt("Action", "action", 0);
  }

  /** The category filter is a substring test, not a token test: "Co-op"
      also selects a row listing only "Online Co-op". */
  lemma CategoryFilterMatchesSubstrings()
    ensures FieldStage("Categories", "Co-op")(map["Categories" := Text("Online Co-op")])
  {
    assert "Online Co-op"[7..12] == "Co-op";
    assert OccursAt("Online Co-op", "Co-op", 7);
  }
}
