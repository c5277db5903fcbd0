# SteamLens search core in Dafny

SteamLens is a desktop browser for a table of Steam games. This project models
and proves the three pieces of it that are logic rather than widgets:

- **The search** (`SearchController.search_data`). It keeps the rows whose
  name, developers or publishers contain the typed text, ignoring case. Each
  ticked platform box then keeps only the rows with that flag set. Each chosen
  category, genre or tag keeps only the rows whose field contains it. The
  model writes the search as the chain of selections in the source and proves
  it equal to one conjunctive filter.
- **The dataset store** (`DataLoader`). It is a singleton that reads the table
  once. From the raw table it derives the category, genre and tag option
  lists: comma-split, flattened, de-duplicated in first-seen order, with
  "None" put first. It then normalises the table:
  - it drops four columns and the rows without a name;
  - a missing free-text cell becomes "Information not available";
  - a missing classification cell becomes "Unknown".

  `DataLoader` is a class with the initialised flag. A `LoaderClass` object
  stands for the class attribute `_instance`.
- **The search screen** (`SearchMenu`). It covers:
  - when the Search button and the descending box are enabled;
  - the page handed to the game library: the placeholder counts as empty
    text, rows are sorted when a sort attribute is chosen, and only the
    first 100 are kept;
  - the library and the selected-games tables, both keyed by each row's first
    value. These are a class whose methods update them in place.

Files:

- `sequences.dfy`: order-preserving filter, map, first-seen de-duplication.
- `text.dfy`: substring search, ASCII upper-casing, split and join on a
  delimiter.
- `table.dfy`: cells, rows as maps from column name to cell, frames.
- `search_controller.dfy`, `data_loader.dfy`, `search_menu.dfy`: one module
  each for the three source files.

A missing column makes pandas raise `KeyError`. `__init__` and
`preprocess_data` handle nothing, so the model returns the error as an
`Outcome`, together with the state the steps before it left behind. The
searches require their columns instead. A file that is missing or not named
`*csv` gives the empty table: `load_data` only prints a message for a missing
file, and `__init__` then raises `KeyError` on "Categories"
(data_loader.py:36). `Loader.FallbackTableIsEmpty` and
`Loader.DataLoader.Init` state this.

pandas puts NaN last in both sort directions, so reversing an ascending sort
is not a descending one once a value is missing
(`Menu.MissingKeyBreaksReversal`). It is one when every row has a number
(`Menu.ReversedAscendingIsDescending`).

The Search button is created without a state, so it starts enabled
(search_menu.py:66). `check_enable_search` runs only from traces, and every
trace is added after the variables got their first values. On a fresh screen
the button is therefore enabled although the rule, on those values, says
disabled (`Menu.RulesFalseOnInitialValues`); pressing it shows the first rows
of the table (`Menu.FreshSearchShowsTableHead`). The descending box is created
disabled, matching its rule.

## Model

| member | source | states |
|---|---|---|
| Sequences.Unique | data_loader.py:36-38 | `unique()` keeps exactly the values of the input, each once |
| Sequences.UniqueFirstSeen | data_loader.py:36-38 | `unique()` lists values in the order of their first occurrence |
| Sequences.FilterIsSubsequence | search_controller.py:76-88 | a boolean-mask selection keeps only rows of its input, in their relative order |
| Sequences.FilterCommute | search_controller.py:76-86 | two mask selections can be applied in either order with the same result |
| Sequences.FilterFuse | search_controller.py:76-86 | two successive mask selections equal one selection on the conjunction |
| Text.ContainsIgnoringCaseIsWeaker | search_controller.py:72-74 | an exact-case occurrence of the text is also found by the case-insensitive search |
| Text.QueryCaseIsIrrelevant | search_controller.py:72-74 | the case-insensitive search gives the same answer for a text and its upper-case form |
| Text.EmptyIsContained | search_controller.py:72-74 | the empty text is found in every string |
| Text.JoinSplit | data_loader.py:36-38 | joining the pieces of `split(",")` with "," restores the field |
| Text.SplitJoin | data_loader.py:36-38 | splitting a join of comma-free pieces returns those pieces |
| Table.ValuesOfFromValues | search_menu.py:166 | building a row from a value list and reading its values back returns the list |
| Table.FromValuesOfValues | search_menu.py:166 | building a row from its own values returns the row |
| Controller.SearchData | search_controller.py:59-88 | `search_data` as the chain of selections in the source; what it keeps is stated by SearchIsConjunction and SearchSelectsMatchingRows |
| Controller.Matches | search_controller.py:72-86 | the all-at-once test a row must pass; SearchIsConjunction proves the chain equal to filtering on it |
| Controller.SearchIsConjunction | search_controller.py:72-88 | the chain of selections keeps exactly the rows that pass all active tests at once, in table order; columns are unchanged |
| Controller.SearchSelectsMatchingRows | search_controller.py:72-88 | the result is a subsequence of the table; a row is in it iff it is in the table and matches; each matching row is kept as often as it occurs |
| Controller.SearchRowsContainEntry | search_controller.py:72-76 | every returned row has the text, case-insensitively, in a string name, developers or publishers field |
| Controller.PlatformFlagsNarrow | search_controller.py:77 | a set Linux flag keeps exactly the rows of the search without it whose Linux column is true |
| Controller.MacFlagNarrows | search_controller.py:78 | a set Mac flag keeps exactly the rows of the search without it whose Mac column is true |
| Controller.WindowsFlagNarrows | search_controller.py:79 | a set Windows flag keeps exactly the rows of the search without it whose Windows column is true |
| Controller.CategoryFilterNarrows | search_controller.py:81-82 | a chosen category keeps exactly the rows of the search without it whose Categories field contains it |
| Controller.GenreFilterNarrows | search_controller.py:83-84 | likewise for a chosen genre and the Genres field |
| Controller.TagFilterNarrows | search_controller.py:85-86 | likewise for a chosen tag and the Tags field |
| Controller.UnfilteredSearchKeepsAll | search_controller.py:72-88 | with empty text, no filter and no platform flag, a table whose names are all strings comes back whole and in order |
| Controller.SearchIdempotent | search_controller.py:72-88 | searching the result again with the same arguments returns it unchanged |
| Controller.EntryIgnoresCaseFiltersDoNot | search_controller.py:72-86 | the text search ignores case ("action" finds "Action"); the category test does not |
| Controller.CategoryFilterMatchesSubstrings | search_controller.py:81-82 | the category test is a substring test, not a token test ("Co-op" matches "Online Co-op") |
| Loader.HasCsvSuffix | data_loader.py:113 | `data_file[-3:] == "csv"` with Python's short-slice rule; its meaning is stated by CsvSuffixIsEndsWith |
| Loader.ReadTable | data_loader.py:106-119 | the table `load_data` leaves behind; FallbackTableIsEmpty and DataLoader.LoadData state it |
| Loader.CsvSuffixIsEndsWith | data_loader.py:113 | the suffix test holds iff the name has at least three characters and ends in "csv" |
| Loader.FallbackTableIsEmpty | data_loader.py:112-119 | a name not ending in "csv", or a missing file, leaves the empty table, which lacks the Categories column |
| Loader.CellTokens | data_loader.py:36-38 | the pieces one cell contributes to `str.split(",")`; TokensAreUntrimmedPieces and MissingFieldGivesNaN state them |
| Loader.Explode | data_loader.py:36-38 | `explode()`: the tokens of every row, row after row; ExplodeHasRowTokens states its contents |
| Loader.UniqueTokens | data_loader.py:36-38 | `unique()` of the exploded column; UniqueTokensSpec states its contents and order |
| Loader.OptionList | data_loader.py:77 | the option list has one entry more than the derived tokens, the leading "None" (its contents are stated by OptionListSpec) |
| Loader.ExplodeHasRowTokens | data_loader.py:36-38 | a token is in the exploded column iff some row's field yields it |
| Loader.UniqueTokensSpec | data_loader.py:36-38 | the derived list holds every token of every row exactly once, nothing else, in first-seen order |
| Loader.OptionListSpec | data_loader.py:71-95 | each option list starts with "None", then holds every raw token once |
| Loader.TokensAreUntrimmedPieces | data_loader.py:36-38 | a field made of comma-joined pieces yields exactly those pieces, blanks included |
| Loader.MissingFieldGivesNaN | data_loader.py:36-41 | a row with a missing field adds NaN to the list, not "Unknown": the lists are read before preprocessing |
| Loader.Absent | data_loader.py:125-131 | the columns a step looks up are all present iff none is reported missing |
| Loader.NoFilledColumnIsDropped | data_loader.py:125-131 | none of the columns that are read or filled is among the dropped ones |
| Loader.Preprocess | data_loader.py:121-131 | the four steps with the `KeyError` each can raise; PreprocessSucceeds, PreprocessPerRow and PreprocessFillsEverything state what it yields |
| Loader.NormalizeRow | data_loader.py:125-131 | one row as preprocessing leaves it, cell by cell; NormalizeRowIsSteps and RowSteps prove the steps equal to it |
| Loader.PreprocessSucceeds | data_loader.py:121-131 | with every column present the four steps all succeed in order |
| Loader.NormalizeRowIsSteps | data_loader.py:125-131 | dropping, then filling free text, then filling classifications is the cell-by-cell normalisation |
| Loader.RowSteps | data_loader.py:125-131 | the steps on the row list equal: keep named rows in order, normalise each |
| Loader.PreprocessPerRow | data_loader.py:121-131 | preprocessing keeps the named rows in order, normalises each, and removes the four columns from the column list |
| Loader.NormalizedRowsSpec | data_loader.py:125-131 | normalised rows have a name, no missing free-text or classification cell, and exactly the kept columns |
| Loader.PreprocessFillsEverything | data_loader.py:126-131 | after preprocessing no row lacks a name and no free-text or classification cell is missing |
| Loader.PreprocessKeepsWellFormed | data_loader.py:125 | preprocessing keeps every row's keys equal to the columns, and the four columns are gone |
| Loader.DataLoader.constructor | data_loader.py:19-21 | a new instance has its initialised flag false and no lists |
| Loader.DataLoader.LoadData | data_loader.py:106-119 | the table is the file's contents when the name ends in "csv" and the file exists, else empty |
| Loader.DataLoader.PreprocessData | data_loader.py:121-131 | the table and outcome are those of the staged preprocessing, also when a step raises part-way |
| Loader.DataLoader.DeriveOptionLists | data_loader.py:36-40 | the lists are derived in order until the first missing column, which is reported |
| Loader.DataLoader.Init | data_loader.py:24-41 | once initialised it changes nothing; otherwise it sets the flag, loads, derives the lists from the raw table and preprocesses, or stops at the first missing column |
| Loader.DataLoader.UniqueCategories | data_loader.py:70-77 | "None" first, then every raw category token exactly once |
| Loader.DataLoader.UniqueGenres | data_loader.py:79-86 | "None" first, then every raw genre token exactly once |
| Loader.DataLoader.UniqueTags | data_loader.py:88-95 | "None" first, then every raw tag token exactly once |
| Loader.DataLoader.SortingAttributeNames | data_loader.py:97-104 | seven distinct names, "None" first and only there |
| Loader.LoaderClass.constructor | data_loader.py:10 | no instance exists at first |
| Loader.LoaderClass.New | data_loader.py:12-41 | the first construction creates a fresh instance and runs `__init__` on it: the raw table, the option lists, the sorting attributes, and the preprocessed table with its outcome or the first missing column; later ones return the same instance untouched |
| Menu.QueryOf | search_menu.py:251-264 | the arguments `search` passes to `search_data`; PlaceholderSearchedAsEmpty states the placeholder rule |
| Menu.SearchEnabled | search_menu.py:173-183 | the enable rule of `check_enable_search`; SearchEnabledIffSomethingToDo states what it means |
| Menu.DescendingEnabled | search_menu.py:147-154 | the rule of `toggle_descending_state`; DescendingIgnoredWithoutSort states why it is sound |
| Menu.PlaceholderSearchedAsEmpty | search_menu.py:251-254 | the placeholder gives the same page as empty text; any other entry is searched as typed |
| Menu.SearchEnabledIffSomethingToDo | search_menu.py:173-183 | the Search button is enabled iff the search would filter or sort something |
| Menu.RulesFalseOnInitialValues | search_menu.py:26-39 | on the initial values both enable rules are false and the text searched is empty (the Search button itself starts enabled, see SearchMenu.constructor) |
| Menu.FreshSearchShowsTableHead | search_menu.py:26-39 | pressing the still-enabled Search button of a fresh screen shows the first rows of the table in table order |
| Menu.InOrderIsTotalPreorder | search_menu.py:266-281 | the sort order, NaN last, is total and transitive in both directions |
| Menu.InsertInOrder | search_menu.py:266-281 | inserting into a sorted list keeps it sorted and adds exactly that row |
| Menu.SortRows | search_menu.py:266-281 | the sorted rows are ordered by the attribute in the chosen direction and are a permutation of the input |
| Menu.MissingKeysSortLast | search_menu.py:266-281 | rows without a number come after all rows with one, in both directions |
| Menu.ReversedAscendingIsDescending | search_menu.py:272-281 | with a number in every row, the ascending order read backwards is descending |
| Menu.MissingKeyBreaksReversal | search_menu.py:272-281 | with a missing number, reversing the ascending order does not give a descending one |
| Menu.OrderedResult | search_menu.py:256-281 | the search result, sorted when a sort attribute is chosen; OrderedResultSpec states its contents and order |
| Menu.DisplayRows | search_menu.py:266-281 | the page handed to the library; DisplayIsFirstPage states it |
| Menu.OrderedResultSpec | search_menu.py:255-281 | the ordered result holds exactly the matching rows; it keeps the search order without a sort attribute and is sorted with one |
| Menu.DisplayIsFirstPage | search_menu.py:266-281 | the page is the values of the first min(100, n) ordered rows, in order |
| Menu.DisabledSearchShowsTableHead | search_menu.py:173-183 | with the button disabled, a search shows the first 100 rows of the table in table order |
| Menu.DescendingIgnoredWithoutSort | search_menu.py:147-154 | while the descending box is disabled its value does not change the page |
| Menu.Keyed | search_menu.py:244 | a Treeview's rows all have a first value (their `iid`) and no two share it; KeyedAppend states when an insert keeps it |
| Menu.Listed | search_menu.py:310-314 | some row has the given first value; SearchMenu.CheckDuplicate computes it |
| Menu.KeyedAppend | search_menu.py:243-245 | a keyed table stays keyed with one more row iff the row has a first value not yet listed |
| Menu.KeyedRemoveAt | search_menu.py:293-301 | removing a row keeps a table keyed |
| Menu.RemoveLastUndoesAppend | search_menu.py:283-301 | deselecting the game just added restores the table |
| Menu.InsertableLength | search_menu.py:243-245 | the library takes the longest keyed prefix of the results |
| Menu.InsertableLengthUnique | search_menu.py:243-245 | that prefix length is the only keyed one that cannot be extended |
| Menu.KeyedInsertsAll | search_menu.py:243-245 | results with distinct first values are inserted whole |
| Menu.UniqueFirstColumnOrderedDistinct | search_menu.py:255-281 | a table with unique first values gives an ordered result without repeated rows |
| Menu.UniqueFirstColumnShowsWholePage | search_menu.py:237-281 | when the first column is unique the library shows the whole page |
| Menu.SearchMenu.constructor | search_menu.py:15-41 | both tables start empty, the Search button enabled (created without a state at line 66) and the descending box disabled (line 137) |
| Menu.SearchMenu.CheckEnableSearch | search_menu.py:173-183 | the Search button's state becomes the enable rule for the current criteria |
| Menu.SearchMenu.ToggleDescendingState | search_menu.py:147-154 | the descending box is enabled exactly when a sort attribute other than "None" is chosen |
| Menu.SearchMenu.InsertSearchResult | search_menu.py:237-245 | the library is replaced by the longest keyed prefix of the results; the tables stay keyed |
| Menu.SearchMenu.Search | search_menu.py:247-281 | the library holds the longest keyed prefix of the page for the criteria |
| Menu.SearchMenu.CheckDuplicate | search_menu.py:303-315 | the answer is true iff some selected row has the game's first value |
| Menu.SearchMenu.InsertSelectedGame | search_menu.py:283-291 | with no focus nothing changes; a game already listed is rejected and nothing changes; otherwise it is appended; no two selected rows share a first value |
| Menu.SearchMenu.DeselectGame | search_menu.py:293-301 | removes exactly the chosen row, or nothing when none is chosen; the table stays keyed |
| Menu.SearchMenu.CompareGames | search_menu.py:156-171 | nothing with an empty selection; otherwise a table with the data's columns and one row per selected game, in order, with the same values |

## Left out

- The tkinter widgets: construction, layout, colours, message boxes, the
  search bar's focus handling and the switch to the dashboard. Of the search
  bar only the placeholder rule is kept.
- Threads and their joins. Loading and searching are modelled as direct
  calls.
- `pd.read_csv`. The parsed tables of the files that exist are a parameter.
  A read error other than a missing file is not modelled.
- The `print` of the missing-file message.
- The regular-expression reading of the category, genre and tag values.
  They are matched as plain text, so a value with regex metacharacters may
  behave differently in the application.
- Case folding beyond ASCII letters.
- Tk's conversion of item values to strings and back, and the string form
  of `iid`. Cells are compared as values.
- The float conversion in `compare_games`, and the hand-over of the
  comparison table to the dashboard. The comparison table keeps the cells
  it was given.
- The pass-through getters of `SearchController` (`get_data`,
  `get_data_columns`, `get_unique_*`, `get_sorting_attributes`) and
  `DataLoader.get_instance`, `data` and `data_columns`. Each returns a
  loader field unchanged.
- Menu.SortRows: ties are kept in input order, like a stable sort. pandas'
  default sort is not guaranteed stable, so only the ordering and the
  permutation are stated, not the order of ties. A cell that is not a number
  is treated as missing. pandas would compare strings among themselves and
  fail on mixed types.
- Loader.CellTokens: a non-string cell that is not missing yields one
  missing token. pandas' `.str` accessor would raise on a column without
  strings.
- Controller.SearchData: a platform column is expected to hold booleans.
  Other values in a boolean mask are not modelled.
- The option lists keep a "None" token from the data next to the leading
  "None", as the source does. Choosing it means no filter.
- Menu.SearchMenu.Valid: the column names are unique, as `read_csv` makes
  them.
