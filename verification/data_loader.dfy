/** The dataset store: `DataLoader`, a singleton that reads the game table
    once, derives the category, genre and tag option lists from the raw
    table, and then normalises the table. */
module Loader {
  import opened Sequences
  import opened Text
  import opened Table

  /** One entry of a derived option list: a piece of text, or the NaN that
      pandas keeps (once) for rows whose field is missing. */
  datatype Token = NaN | Tok(text: string)

  /** The result of a step that looks columns up: `KeyError` names the
      columns it could not find. */
  datatype Outcome = Done | KeyError(columns: seq<string>)

  const SortingAttributes: seq<string> :=
    [NoFilter, "Price", "Metacritic score", "User score", "Positive", "Negative", "Recommendations"]
  const TokenColumns: seq<string> := ["Categories", "Genres", "Tags"]
  const DroppedColumns: seq<string> := ["Score rank", "Reviews", "Metacritic url", "Notes"]
  const FreeTextColumns: seq<string> :=
    ["About the game", "Website", "Support url", "Support email", "Screenshots", "Movies"]
  const ClassificationColumns: seq<string> := ["Developers", "Publishers", "Categories", "Genres", "Tags"]
  const NotAvailable := "Information not available"
  const Unknown := "Unknown"

  // ---------------------------------------------------------------- loading

  /** `data_file[-3:] == "csv"`: Python's slice gives the last three
      characters, or the whole name when it is shorter. */
  predicate HasCsvSuffix(file: string)
  {
    (if |file| >= 3 then file[|file| - 3..] else file) == "csv"
  }

  /** What `load_data` leaves in the table: the parsed file when the name ends
      in "csv" and the file exists (`files` holds the parsed contents of the
      files that exist), otherwise the empty frame. */
  function ReadTable(file: string, files: map<string, Frame>): Frame
  {
    if HasCsvSuffix(file) && file in files then files[file] else EmptyFrame
  }

  /** The suffix test is exactly "the name ends in csv", case-sensitively
      and without requiring a dot. */
  lemma CsvSuffixIsEndsWith(file: string)
    ensures HasCsvSuffix(file) <==> |file| >= 3 && file[|file| - 3..] == "csv"
  {
  }

  /** A name not ending in "csv", or a file that does not exist, leaves an
      empty table: one that lacks the columns the option lists are read
      from. */
  lemma FallbackTableIsEmpty(file: string, files: map<string, Frame>)
    requires !HasCsvSuffix(file) || file !in files
    ensures ReadTable(file, files) == EmptyFrame
    ensures Absent(ReadTable(file, files), ["Categories"]) == ["Categories"]
  {
  }

  // ------------------------------------------------------- option lists

  function AsToken(t: string): Token
  {
    Tok(t)
  }

  /** The tokens one raw cell contributes to `str.split(",").explode()`: its
      comma-separated pieces, untrimmed, or one NaN when it is not a string. */
  function CellTokens(c: Cell): seq<Token>
  {
    if c.Text? then Map(Split(c.text, ','), AsToken) else [NaN]
  }

  /** The exploded column: the tokens of every row, row after row. */
  function Explode(rows: seq<Row>, column: string): seq<Token>
  {
    if rows == [] then [] else CellTokens(Field(rows[0], column)) + Explode(rows[1..], column)
  }

  /** `data[column].str.split(",").explode().unique()`. */
  function UniqueTokens(f: Frame, column: string): seq<Token>
  {
    Unique(Explode(f.rows, column))
  }

  /** The list a combo box offers: "None" and then the derived tokens. */
  function OptionList(tokens: seq<Token>): (r: seq<Token>)
    ensures |r| == |tokens| + 1
  {
    [Tok(NoFilter)] + tokens
  }

  /** A token is in the exploded column exactly when some row contributes it. */
  lemma {:induction false} ExplodeHasRowTokens(rows: seq<Row>, column: string)
    ensures forall t :: t in Explode(rows, column) <==>
      exists k :: 0 <= k < |rows| && t in CellTokens(Field(rows[k], column))
  {
    if rows != [] {
      ExplodeHasRowTokens(rows[1..], column);
      forall t | t in Explode(rows, column)
        ensures exists k :: 0 <= k < |rows| && t in CellTokens(Field(rows[k], column))
      {
        if t !in CellTokens(Field(rows[0], column)) {
          assert t in Explode(rows[1..], column);
          var k :| 0 <= k < |rows[1..]| && t in CellTokens(Field(rows[1..][k], column));
          assert rows[1..][k] == rows[k + 1];
        }
      }
      forall t, k | 0 <= k < |rows| && t in CellTokens(Field(rows[k], column))
        ensures t in Explode(rows, column)
      {
        if k > 0 {
          assert rows[1..][k - 1] == rows[k];
        }
      }
    }
  }

  /** The derived list holds every token of every row exactly once, holds
      nothing else, and lists the tokens in the order they are first seen. */
  lemma UniqueTokensSpec(f: Frame, column: string)
    ensures forall k, t :: 0 <= k < |f.rows| && t in CellTokens(Field(f.rows[k], column)) ==>
      multiset(UniqueTokens(f, column))[t] == 1
    ensures forall t :: t in UniqueTokens(f, column) ==>
      exists k :: 0 <= k < |f.rows| && t in CellTokens(Field(f.rows[k], column))
    ensures forall i, j :: 0 <= i < j < |UniqueTokens(f, column)| ==>
      FirstIndex(Explode(f.rows, column), UniqueTokens(f, column)[i])
      < FirstIndex(Explode(f.rows, column), UniqueTokens(f, column)[j])
  {
    var e := Explode(f.rows, column);
    ExplodeHasRowTokens(f.rows, column);
    UniqueFirstSeen(e);
    forall k, t | 0 <= k < |f.rows| && t in CellTokens(Field(f.rows[k], column))
      ensures multiset(UniqueTokens(f, column))[t] == 1
    {
      assert t in e;
      DistinctOccursOnce(Unique(e), t);
    }
  }

  /** Each option list starts with "None" and then holds every raw token once. */
  lemma OptionListSpec(f: Frame, column: string)
    ensures OptionList(UniqueTokens(f, column))[0] == Tok(NoFilter)
    ensures forall k, t :: 0 <= k < |f.rows| && t in CellTokens(Field(f.rows[k], column)) ==>
      multiset(OptionList(UniqueTokens(f, column))[1..])[t] == 1
  {
    UniqueTokensSpec(f, column);
    assert OptionList(UniqueTokens(f, column))[1..] == UniqueTokens(f, column);
  }

  /** Tokens are split on the comma alone and kept exactly as written: a
      field made by joining comma-free pieces with "," yields those pieces,
      blanks after the commas included. */
  lemma TokensAreUntrimmedPieces(pieces: seq<string>)
    requires |pieces| >= 1
    requires forall k :: 0 <= k < |pieces| ==> ',' !in pieces[k]
    ensures CellTokens(Text(Join(pieces, ','))) == Map(pieces, AsToken)
  {
    SplitJoin(pieces, ',');
  }

  /** A row whose field is missing contributes NaN, not "Unknown": the lists
      are read before the table is normalised. */
  lemma MissingFieldGivesNaN(f: Frame, k: nat, column: string)
    requires k < |f.rows| && Field(f.rows[k], column) == Missing
    ensures NaN in UniqueTokens(f, column)
    ensures Tok(Unknown) !in CellTokens(Field(f.rows[k], column))
  {
    ExplodeHasRowTokens(f.rows, column);
    assert NaN in CellTokens(Field(f.rows[k], column));
  }

  // ---------------------------------------------------------- preprocessing

  /** The columns of `cols` that `f` lacks, in the order of `cols`. */
  function Absent(f: Frame, cols: seq<string>): (r: seq<string>)
    ensures r == [] <==> HasColumns(f, cols)
  {
    var r := Filter(cols, c => c !in f.columns);
    assert r != [] ==> r[0] in r && r[0] in cols && r[0] !in f.columns;
    assert forall c :: c in cols && c !in f.columns ==> c in r;
    r
  }

  /** The test "not one of `cols`". */
  function Outside(cols: seq<string>): string -> bool
  {
    c => c !in cols
  }

  function DropKeys(row: Row, cols: seq<string>): Row
  {
    row - set c | c in cols
  }

  function DropStep(cols: seq<string>): Row -> Row
  {
    row => DropKeys(row, cols)
  }

  /** `drop(columns=cols)`. */
  function DropColumns(f: Frame, cols: seq<string>): Frame
  {
    Frame(Filter(f.columns, Outside(cols)), Map(f.rows, DropStep(cols)))
  }

  predicate HasName(row: Row)
  {
    Field(row, "Name") != Missing
  }

  /** `dropna(subset=["Name"])`. */
  function DropMissingName(f: Frame): Frame
  {
    Frame(f.columns, Filter(f.rows, HasName))
  }

  /** One row after `fillna(value)` on the columns `cols`. */
  function FillRow(row: Row, cols: seq<string>, value: string): Row
  {
    map c | c in row :: if c in cols && row[c] == Missing then Text(value) else row[c]
  }

  function FillStep(cols: seq<string>, value: string): Row -> Row
  {
    row => FillRow(row, cols, value)
  }

  /** `f[cols] = f[cols].fillna(value)`. */
  function FillMissing(f: Frame, cols: seq<string>, value: string): Frame
  {
    Frame(f.columns, Map(f.rows, FillStep(cols, value)))
  }

  /** The outcome of `preprocess_data` and the table it leaves behind, also
      when a step raises `KeyError` part-way. */
  datatype Staged = Staged(outcome: Outcome, frame: Frame)

  /** `preprocess_data`: drop the four columns, drop the rows without a
      name, then fill the free-text and the classification columns. */
  function Preprocess(f: Frame): Staged
  {
    if Absent(f, DroppedColumns) != [] then Staged(KeyError(Absent(f, DroppedColumns)), f)
    else
      var dropped := DropColumns(f, DroppedColumns);
      if "Name" !in dropped.columns then Staged(KeyError(["Name"]), dropped)
      else
        var named := DropMissingName(dropped);
        if Absent(named, FreeTextColumns) != [] then Staged(KeyError(Absent(named, FreeTextColumns)), named)
        else
          var described := FillMissing(named, FreeTextColumns, NotAvailable);
          if Absent(described, ClassificationColumns) != [] then
            Staged(KeyError(Absent(described, ClassificationColumns)), described)
          else
            Staged(Done, FillMissing(described, ClassificationColumns, Unknown))
  }

  /** The columns `preprocess_data` looks up. */
  const PreprocessColumns: seq<string> := DroppedColumns + ["Name"] + FreeTextColumns + ClassificationColumns

  /** A row as preprocessing leaves it, stated cell by cell: the four columns
      are gone, a missing free-text cell reads "Information not available", a
      missing classification cell reads "Unknown", every other cell is as it
      was. */
  function NormalizeRow(row: Row): Row
  {
    map c | c in row && c !in DroppedColumns ::
      if row[c] == Missing && c in FreeTextColumns then Text(NotAvailable)
      else if row[c] == Missing && c in ClassificationColumns then Text(Unknown)
      else row[c]
  }

  /** None of the columns preprocessing reads or fills is a dropped one. */
  lemma NoFilledColumnIsDropped()
    ensures "Name" !in DroppedColumns
    ensures forall c :: c in FreeTextColumns ==> c !in DroppedColumns
    ensures forall c :: c in ClassificationColumns ==> c !in DroppedColumns
  {
  }

  /** Dropping columns keeps every other column. */
  lemma DropKeepsColumns(f: Frame, cols: seq<string>, keep: seq<string>)
    requires HasColumns(f, keep)
    requires forall c :: c in keep ==> c !in cols
    ensures HasColumns(DropColumns(f, cols), keep)
  {
    forall c | c in keep
      ensures c in DropColumns(f, cols).columns
    {
      assert Outside(cols)(c);
    }
  }

  /** When every column is there, the four steps all succeed. */
  lemma PreprocessSucceeds(f: Frame)
    requires HasColumns(f, PreprocessColumns)
    ensures Preprocess(f) == Staged(Done,
      FillMissing(FillMissing(DropMissingName(DropColumns(f, DroppedColumns)),
                              FreeTextColumns, NotAvailable),
                  ClassificationColumns, Unknown))
  {
    NoFilledColumnIsDropped();
    var later := ["Name"] + FreeTextColumns + ClassificationColumns;
    assert HasColumns(f, DroppedColumns) && HasColumns(f, later);
    DropKeepsColumns(f, DroppedColumns, later);
    var dropped := DropColumns(f, DroppedColumns);
    assert Absent(f, DroppedColumns) == [];
    assert "Name" in dropped.columns;
    var named := DropMissingName(dropped);
    assert Absent(named, FreeTextColumns) == [];
    var described := FillMissing(named, FreeTextColumns, NotAvailable);
    assert Absent(described, ClassificationColumns) == [];
  }

  /** Dropping, then filling free text, then filling classifications is
      `NormalizeRow`. */
  lemma NormalizeRowIsSteps(row: Row)
    ensures NormalizeRow(row) ==
      FillRow(FillRow(DropKeys(row, DroppedColumns), FreeTextColumns, NotAvailable), ClassificationColumns, Unknown)
  {
    NoFilledColumnIsDropped();
    var stepped :=
      FillRow(FillRow(DropKeys(row, DroppedColumns), FreeTextColumns, NotAvailable), ClassificationColumns, Unknown);
    assert NormalizeRow(row).Keys == stepped.Keys;
  }

  /** The staged preprocessing equals: keep the rows that have a name, in
      order, and normalise each of them. */
  lemma PreprocessPerRow(f: Frame)
    requires HasColumns(f, PreprocessColumns)
    ensures Preprocess(f).outcome == Done
    ensures Preprocess(f).frame.columns == Filter(f.columns, Outside(DroppedColumns))
    ensures Preprocess(f).frame.rows == Map(Filter(f.rows, HasName), NormalizeRow)
  {
    PreprocessSucceeds(f);
    RowSteps(f.rows);
  }

  /** The row part of the four steps, one row at a time. */
  lemma RowSteps(rows: seq<Row>)
    ensures Map(Map(Filter(Map(rows, DropStep(DroppedColumns)), HasName), FillStep(FreeTextColumns, NotAvailable)),
                FillStep(ClassificationColumns, Unknown))
         == Map(Filter(rows, HasName), NormalizeRow)
  {
    var drop := DropStep(DroppedColumns);
    var fill1 := FillStep(FreeTextColumns, NotAvailable);
    var fill2 := FillStep(ClassificationColumns, Unknown);
    NoFilledColumnIsDropped();
    FilterAfterMap(rows, drop, HasName, HasName);
    var kept := Filter(rows, HasName);
    var dropFill1 := (row: Row) => fill1(drop(row));
    MapFuse(kept, drop, fill1, dropFill1);
    forall row: Row
      ensures NormalizeRow(row) == fill2(dropFill1(row))
    {
      NormalizeRowIsSteps(row);
    }
    MapFuse(kept, dropFill1, fill2, NormalizeRow);
  }

  /** Normalised rows of a well-formed table have a name, no missing
      free-text or classification cell, and exactly the kept columns. */
  lemma NormalizedRowsSpec(columns: seq<string>, rows: seq<Row>)
    requires forall k :: 0 <= k < |rows| ==> rows[k].Keys == set c | c in columns
    requires forall c :: c in FreeTextColumns || c in ClassificationColumns ==> c in columns
    ensures var r := Map(Filter(rows, HasName), NormalizeRow);
      forall k :: 0 <= k < |r| ==>
        && HasName(r[k])
        && (forall c :: c in FreeTextColumns || c in ClassificationColumns ==> Field(r[k], c) != Missing)
        && r[k].Keys == set c | c in Filter(columns, Outside(DroppedColumns))
  {
    NoFilledColumnIsDropped();
    var kept := Filter(rows, HasName);
    var kept_columns := set c | c in Filter(columns, Outside(DroppedColumns));
    forall k | 0 <= k < |kept|
      ensures kept[k] in rows && HasName(kept[k])
      ensures NormalizeRow(kept[k]).Keys == kept_columns
    {
      assert kept[k] in kept;
      var row := kept[k];
      assert row.Keys == set c | c in columns;
      forall c | c in NormalizeRow(row).Keys
        ensures c in kept_columns
      {
        assert c in columns && Outside(DroppedColumns)(c);
      }
      forall c | c in kept_columns
        ensures c in NormalizeRow(row).Keys
      {
        assert c in Filter(columns, Outside(DroppedColumns));
      }
    }
    var r := Map(kept, NormalizeRow);
    forall k | 0 <= k < |r|
      ensures HasName(r[k])
      ensures forall c :: c in FreeTextColumns || c in ClassificationColumns ==> Field(r[k], c) != Missing
      ensures r[k].Keys == kept_columns
    {
      assert r[k] == NormalizeRow(kept[k]);
      forall c | c in FreeTextColumns || c in ClassificationColumns
        ensures Field(r[k], c) != Missing
      {
        assert c in kept[k];
      }
    }
  }

  /** After preprocessing a well-formed table every row has a name, and no
      free-text or classification cell is missing. */
  lemma PreprocessFillsEverything(f: Frame)
    requires WellFormed(f) && HasColumns(f, PreprocessColumns)
    ensures Preprocess(f).outcome == Done
    ensures forall row :: row in Preprocess(f).frame.rows ==> HasName(row)
    ensures forall row, c ::
      row in Preprocess(f).frame.rows && (c in FreeTextColumns || c in ClassificationColumns) ==>
        Field(row, c) != Missing
  {
    PreprocessPerRow(f);
    NormalizedRowsSpec(f.columns, f.rows);
  }

  /** Preprocessing keeps the table well formed and its columns are the old
      ones without the four dropped columns. */
  lemma PreprocessKeepsWellFormed(f: Frame)
    requires WellFormed(f) && HasColumns(f, PreprocessColumns)
    ensures WellFormed(Preprocess(f).frame)
    ensures forall c :: c in DroppedColumns ==> c !in Preprocess(f).frame.columns
  {
    PreprocessPerRow(f);
    NormalizedRowsSpec(f.columns, f.rows);
  }

  // ------------------------------------------------------ the singleton

  /** A `DataLoader` instance. The ghost field `raw` records the table as
      `load_data` read it, from which the option lists were derived. Each list
      is `None` until the line that sets it has run. */
  class DataLoader {
    var initialized: bool
    var data: Frame
    ghost var raw: Frame
    var categories: Option<seq<Token>>
    var genres: Option<seq<Token>>
    var tags: Option<seq<Token>>
    var sortingAttributes: Option<seq<string>>

    ghost predicate Valid()
      reads this
    {
      && (categories.Some? ==> categories.value == UniqueTokens(raw, "Categories"))
      && (genres.Some? ==> genres.value == UniqueTokens(raw, "Genres"))
      && (tags.Some? ==> tags.value == UniqueTokens(raw, "Tags"))
      && (sortingAttributes.Some? ==> sortingAttributes.value == SortingAttributes)
      && (!initialized ==> categories.None? && genres.None? && tags.None? && sortingAttributes.None?)
    }

    /** The object `__new__` creates on first use, its `__initialized` flag false. */
    constructor ()
      ensures Valid() && !initialized
    {
      initialized := false;
      data := EmptyFrame;
      raw := EmptyFrame;
      categories, genres, tags := None, None, None;
      sortingAttributes := None;
    }

    /** `load_data`. */
    method LoadData(file: string, files: map<string, Frame>)
      modifies this`data
      ensures data == ReadTable(file, files)
    {
      if HasCsvSuffix(file) {
        if file in files {
          data := files[file];
        } else {
          data := EmptyFrame;
        }
      } else {
        data := EmptyFrame;
      }
    }

    /** `preprocess_data`, overwriting the table step by step; a `KeyError`
        leaves the table as the steps before it made it. */
    method PreprocessData() returns (outcome: Outcome)
      modifies this`data
      ensures Staged(outcome, data) == Preprocess(old(data))
    {
      var absent := Absent(data, DroppedColumns);
      if absent != [] {
        return KeyError(absent);
      }
      data := DropColumns(data, DroppedColumns);
      if "Name" !in data.columns {
        return KeyError(["Name"]);
      }
      data := DropMissingName(data);
      absent := Absent(data, FreeTextColumns);
      if absent != [] {
        return KeyError(absent);
      }
      data := FillMissing(data, FreeTextColumns, NotAvailable);
      absent := Absent(data, ClassificationColumns);
      if absent != [] {
        return KeyError(absent);
      }
      data := FillMissing(data, ClassificationColumns, Unknown);
      return Done;
    }

    /** Lines 36-40 of `__init__`: derive the three option lists from the
        table just read, in order, stopping at the first column that is
        missing, then set the sorting attributes. */
    method DeriveOptionLists() returns (outcome: Outcome)
      requires categories.None? && genres.None? && tags.None? && sortingAttributes.None?
      modifies this`categories, this`genres, this`tags, this`sortingAttributes
      ensures categories == (if "Categories" in data.columns then Some(UniqueTokens(data, "Categories")) else None)
      ensures genres == (if HasColumns(data, ["Categories", "Genres"]) then Some(UniqueTokens(data, "Genres")) else None)
      ensures tags == (if HasColumns(data, TokenColumns) then Some(UniqueTokens(data, "Tags")) else None)
      ensures sortingAttributes == (if HasColumns(data, TokenColumns) then Some(SortingAttributes) else None)
      ensures outcome == if HasColumns(data, TokenColumns) then Done else KeyError([Absent(data, TokenColumns)[0]])
    {
      if "Categories" !in data.columns {
        return KeyError(["Categories"]);
      }
      categories := Some(UniqueTokens(data, "Categories"));
      if "Genres" !in data.columns {
        return KeyError(["Genres"]);
      }
      genres := Some(UniqueTokens(data, "Genres"));
      if "Tags" !in data.columns {
        return KeyError(["Tags"]);
      }
      tags := Some(UniqueTokens(data, "Tags"));
      sortingAttributes := Some(SortingAttributes);
      return Done;
    }

    /** `__init__`: a no-op once the flag is set; otherwise set the flag,
        load, derive the three option lists from the raw table (each lookup
        raises `KeyError` when its column is absent), set the sorting
        attributes and preprocess. */
    method Init(file: string, files: map<string, Frame>) returns (outcome: Outcome)
      requires Valid()
      modifies this
      ensures Valid()
      ensures old(initialized) ==> outcome == Done && unchanged(this)
      ensures !old(initialized) ==>
        var r := ReadTable(file, files);
        && initialized && raw == r
        && categories == (if "Categories" in r.columns then Some(UniqueTokens(r, "Categories")) else None)
        && genres == (if HasColumns(r, ["Categories", "Genres"]) then Some(UniqueTokens(r, "Genres")) else None)
        && tags == (if HasColumns(r, TokenColumns) then Some(UniqueTokens(r, "Tags")) else None)
        && sortingAttributes == (if HasColumns(r, TokenColumns) then Some(SortingAttributes) else None)
        && (if HasColumns(r, TokenColumns) then Staged(outcome, data) == Preprocess(r)
            else outcome == KeyError([Absent(r, TokenColumns)[0]]) && data == r)
    {
      if initialized {
        return Done;
      }
      initialized := true;
      LoadData(file, files);
      raw := data;
      outcome := DeriveOptionLists();
      if outcome == Done {
        outcome := PreprocessData();
      }
    }

    /** `unique_categories`: "None", then every raw category token once, in
        first-seen order. */
    function UniqueCategories(): (r: seq<Token>)
      reads this
      requires Valid() && categories.Some?
      ensures |r| >= 1 && r[0] == Tok(NoFilter)
      ensures forall k, t :: 0 <= k < |raw.rows| && t in CellTokens(Field(raw.rows[k], "Categories")) ==>
        multiset(r[1..])[t] == 1
    {
      OptionListSpec(raw, "Categories");
      OptionList(categories.value)
    }

    /** `unique_genres`, likewise. */
    function UniqueGenres(): (r: seq<Token>)
      reads this
      requires Valid() && genres.Some?
      ensures |r| >= 1 && r[0] == Tok(NoFilter)
      ensures forall k, t :: 0 <= k < |raw.rows| && t in CellTokens(Field(raw.rows[k], "Genres")) ==>
        multiset(r[1..])[t] == 1
    {
      OptionListSpec(raw, "Genres");
      OptionList(genres.value)
    }

    /** `unique_tags`, likewise. */
    function UniqueTags(): (r: seq<Token>)
      reads this
      requires Valid() && tags.Some?
      ensures |r| >= 1 && r[0] == Tok(NoFilter)
      ensures forall k, t :: 0 <= k < |raw.rows| && t in CellTokens(Field(raw.rows[k], "Tags")) ==>
        multiset(r[1..])[t] == 1
    {
      OptionListSpec(raw, "Tags");
      OptionList(tags.value)
    }

    /** `sorting_attributes`: "None" first, then the six numeric columns a
        search can be ordered by, each named once. */
    function SortingAttributeNames(): (r: seq<string>)
      reads this
      requires Valid() && sortingAttributes.Some?
      ensures |r| == 7 && r[0] == NoFilter && Distinct(r)
      ensures forall k :: 1 <= k < |r| ==> r[k] != NoFilter
    {
      sortingAttributes.value
    }
  }

  /** The class object of `DataLoader`: its `_instance` attribute holds the
      one instance once it exists. */
  class LoaderClass {
    var instance: DataLoader?

    ghost predicate Valid()
      reads this, instance
    {
      instance != null ==> instance.initialized && instance.Valid()
    }

    constructor ()
      ensures Valid() && instance == null
    {
      instance := null;
    }

    /** `DataLoader(data_file)`: `__new__` creates the instance on first use
        and returns the stored one afterwards, then `__init__` runs on it. A
        second construction returns the same instance, untouched. */
    method New(file: string, files: map<string, Frame>) returns (d: DataLoader, outcome: Outcome)
      requires Valid()
      modifies this, instance
      ensures Valid() && instance == d
      ensures old(instance) != null ==> d == old(instance) && outcome == Done && unchanged(d)
      ensures old(instance) == null ==>
        var r := ReadTable(file, files);
        && fresh(d) && d.initialized && d.raw == r
        && d.categories == (if "Categories" in r.columns then Some(UniqueTokens(r, "Categories")) else None)
        && d.genres == (if HasColumns(r, ["Categories", "Genres"]) then Some(UniqueTokens(r, "Genres")) else None)
        && d.tags == (if HasColumns(r, TokenColumns) then Some(UniqueTokens(r, "Tags")) else None)
        && d.sortingAttributes == (if HasColumns(r, TokenColumns) then Some(SortingAttributes) else None)
        && (if HasColumns(r, TokenColumns) then Staged(outcome, d.data) == Preprocess(r)
            else outcome == KeyError([Absent(r, TokenColumns)[0]]) && d.data == r)
    {
      if instance == null {
        instance := new DataLoader();
      }
      d := instance;
      outcome := d.Init(file, files);
    }
  }
}
