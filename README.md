# Ad-creative dashboard filters, in Dafny

This project models the filtering core of a dashboard that lists ad creatives in a table.
The model covers four pieces:

- **The tag parser** (`TagParser`, `parseFilters`). It turns the fixed definition string
  `category:value;category:value;…` into a two-level option tree. There is one node per
  category, in the order the categories first appear. Each node has one leaf per entry of
  its category, and each leaf stores the full `category:value` token.
- **The filter dropdown** (`FilterBox`, `FilterDropdown`). The component's seven
  `useState` hooks become the fields of a class. Each event handler becomes a method:
  open/close, tab click, search typing, picking a category (with the effect that loads
  its options), "Select all", a value checkbox, Apply, Clear all and the trash button. The
  case-insensitive search over category and value labels is a generic `Narrow` function.
- **The table predicates and cells** (`DataTable`):
  - `tagFilter`, the substring rule registered in the table's `filterFns`;
  - `globalFilterFn`, with its exact-segment branch for the tags column and its
    case-insensitive text search elsewhere;
  - the creative-id cell and the tags cell;
  - the state `handleFilterChange` and the search bar update.
- **The preview panel's text** (`Preview`): the truncated id, which fields the
  "Additional Details" list shows, each field's label, and the format each number is
  shown in (percentage, currency or locale).

`Strings` models the JavaScript string built-ins the code relies on: `split` (with
JavaScript's semantics for empty pieces), `trim`, `toLowerCase`, `includes`,
`slice(-n)` and `String(n)`. `Types` models the `AdData` row record.

Some behaviours of the code that are easy to miss:

- Parsing the empty definition gives one category named `""` (not an empty list). That
  category holds one leaf, which has no label and whose token is `":undefined"`
  (`TagParser.ParseEmpty`).
- Picking a category does not clear the pending selection. The selection is cleared by
  the trash button, by "Clear all" and by unchecking "Select all"
  (`FilterBox.FilterDropdown.PickCategory`, `SelectAll`, `ClearAll`, `Trash`).
- Nothing resets the dropdown when it is reopened. `ToggleOpen` only flips `isOpen`.
- `tagFilter` is registered in the table's `filterFns` but no column names it as its
  filter function. `handleFilterChange` passes the emitted list to the tags column's
  `setFilterValue`, and the table library's default column filter receives it. The
  model states what `tagFilter` itself accepts: tokens matched as substrings. The global
  filter's tag branch matches whole `;`-segments exactly. The two rules differ, and
  `DataTable.SubstringDoesNotImplyExact` shows an input on which they disagree.
- The options are loaded only when the picked name is non-empty, because the code tests
  `selectedFilter` for JavaScript truthiness.

The source's `label` field is named `text` in the Dafny datatypes (and `title` in
`Preview.Detail`), because `label` is a Dafny keyword. The dropdown class takes the
definition string as a constructor argument. `FilterBox.NewFilterDropdown` builds the
dashboard's dropdown from the constant `TagParser.FilterDefinition`, as the component does.

## Model

The table leaves out specification helpers that carry no contract of their own: `TagParser.OptionTree`, `Groups`, `MakeCategory`, `ParseAll` and `ValuesOf`, and `DataTable.TableState.CellPasses`. Their meaning is stated by the rows for `TreeShape`, `LeafCountGroups`, `MakeCategoryOfOne`/`MakeCategoryOfTwo`, `EntriesAt`/`ParseAllOfThree`, the `ValuesOf*` lemmas and `ClearedFiltersPassAllTags`.

| member | source | states |
|---|---|---|
| TagParser.ParseFilters | src/components/dashboard/filterbox.tsx:13-36 | The split/trim step, the reduce into an accumulator keyed by category, and the final map build exactly the option tree `OptionTree(Entries(definition))`. That tree has one node per distinct category in first-seen order, and each node has its entries' values in entry order. |
| TagParser.GroupEntries | src/components/dashboard/filterbox.tsx:20-26 | The reduce ends with the distinct categories in first-seen order as keys, each keyed to its entries' values in entry order. |
| TagParser.AccumulatedTree | src/components/dashboard/filterbox.tsx:28-35 | Mapping the accumulator's entries to nodes, with one leaf per value, gives the specified tree. |
| TagParser.ParseEntry | src/components/dashboard/filterbox.tsx:15-16 | Neither the category nor the value of an entry contains a colon. The value is absent (`undefined`) exactly when the entry has no colon. |
| TagParser.ParseEntrySingleColon | src/components/dashboard/filterbox.tsx:15-16 | An entry `a:b` with colon-free `a` and `b` becomes the category `a` trimmed and the value `b` trimmed. |
| TagParser.ParseEntryNoColon | src/components/dashboard/filterbox.tsx:15 | An entry without a colon becomes its trimmed text as category, with no value. |
| TagParser.ParseEntryDropsRest | src/components/dashboard/filterbox.tsx:15 | Text after a second colon is dropped; only the first two pieces are kept, each trimmed. |
| TagParser.Entries | src/components/dashboard/filterbox.tsx:14-17 | One entry per `;`-piece, so every definition, the empty one included, has at least one entry. |
| TagParser.EntriesAt | src/components/dashboard/filterbox.tsx:14-17 | Entry `i` of a definition is the parse of its `i`-th `;`-piece. |
| TagParser.Categories | src/components/dashboard/filterbox.tsx:14-17 | One category per entry, in entry order. |
| TagParser.FirstSeen | src/components/dashboard/filterbox.tsx:20-28 | The accumulator's keys are distinct, and a name is a key exactly when it is the category of some entry. |
| TagParser.FirstSeenOrder | src/components/dashboard/filterbox.tsx:20-28 | Categories appear in the order of their first occurrence among the entries. |
| TagParser.ValuesOfAppend | src/components/dashboard/filterbox.tsx:24 | A category's value list over concatenated entries is the concatenation of its value lists, so values keep entry order. |
| TagParser.ValuesOfAbsent | src/components/dashboard/filterbox.tsx:21-24 | A name that is no entry's category collects no values. |
| TagParser.ValueSource | src/components/dashboard/filterbox.tsx:24 | Every collected value comes from an entry of that category. |
| TagParser.AccumulateStep | src/components/dashboard/filterbox.tsx:21-25 | One reduce step (create the key if missing, then push) keeps the accumulator equal to the specification of the entries read so far. |
| TagParser.AccumulateKnown | src/components/dashboard/filterbox.tsx:21-25 | For an entry whose category is already a key, pushing its value onto that key keeps the accumulator exact and the key order unchanged. |
| TagParser.AccumulateNew | src/components/dashboard/filterbox.tsx:21-25 | For an entry whose category is not yet a key, creating the key with the one value keeps the accumulator exact and appends the category to the key order. |
| TagParser.FirstSeenExtend | src/components/dashboard/filterbox.tsx:21-23 | Reading an entry adds its category at the end exactly when the category is new. |
| TagParser.ValuesOfExtendAt | src/components/dashboard/filterbox.tsx:24 | Reading one more entry appends its value to the list of the category it names, and leaves the list of any other category as it was. |
| TagParser.ValuesOfExtend | src/components/dashboard/filterbox.tsx:24 | The same for every category at once. |
| TagParser.FirstIndex | src/components/dashboard/filterbox.tsx:28 | The first position of a name: a position holding it with none earlier. |
| TagParser.FirstIndexExtend | src/components/dashboard/filterbox.tsx:21-23 | Appending a name leaves earlier first positions unchanged and puts a new name last. |
| TagParser.CountInExtend | src/components/dashboard/filterbox.tsx:24 | Reading an entry adds one to the count of a distinct name set exactly when the set holds its category. |
| TagParser.CountInFirstSeen | src/components/dashboard/filterbox.tsx:20-26 | Every entry is counted under exactly one category. |
| TagParser.LeafCountGroups | src/components/dashboard/filterbox.tsx:28-35 | The leaves of the built nodes are as many as the entries of their categories. |
| TagParser.LeafCountIsEntryCount | src/components/dashboard/filterbox.tsx:13-36 | The tree has exactly one leaf per `;`-separated entry: nothing is lost or duplicated. |
| TagParser.Token | src/components/dashboard/filterbox.tsx:33 | A leaf token starts with its category followed by a colon. |
| TagParser.TreeShape | src/components/dashboard/filterbox.tsx:28-35 | Every node's label equals its value. Every leaf's token is `category:value`, with "undefined" for an absent value, and comes from an entry of that category. |
| TagParser.EntriesColonFree | src/components/dashboard/filterbox.tsx:14-17 | No parsed entry has a colon in its category or its value. |
| TagParser.TokenShape | src/components/dashboard/filterbox.tsx:28-35 | For colon-free entries, every node name and leaf label of the tree is colon-free, and every leaf token is the node name, a colon, and the leaf label (or "undefined"). |
| TagParser.ParsedTokenShape | src/components/dashboard/filterbox.tsx:13-36 | In a parsed tree, node names and leaf labels are colon-free, and each leaf token is the node name, a colon, and the leaf label (or "undefined"). |
| TagParser.ParseOneEntry | src/components/dashboard/filterbox.tsx:15-16 | A one-letter `c:v` entry parses to category `c` and value `v`. |
| TagParser.EntriesOfThree | src/components/dashboard/filterbox.tsx:14-17 | A definition with three `;`-pieces has as entries the parses of those three pieces, in order. |
| TagParser.ParseAllOfThree | src/components/dashboard/filterbox.tsx:14-17 | Mapping the entry parser over three pieces gives their three parses, in order. |
| TagParser.EntriesExample | src/components/dashboard/filterbox.tsx:14-17 | `a:x;a:y;b:z` gives the entries `(a,x)`, `(a,y)`, `(b,z)`. |
| TagParser.FirstSeenOfThree | src/components/dashboard/filterbox.tsx:20-28 | Two entries of one category followed by one of another give those two categories as keys, in that order. |
| TagParser.ValuesOfThree | src/components/dashboard/filterbox.tsx:21-24 | For the same entries, the first category collects the first two values in order and the second collects the third. |
| TagParser.MakeCategoryOfTwo | src/components/dashboard/filterbox.tsx:29-34 | A node built from two values has the name as label and value and one leaf per value, each with its `category:value` token. |
| TagParser.MakeCategoryOfOne | src/components/dashboard/filterbox.tsx:29-34 | A node built from one value has one leaf with its `category:value` token. |
| TagParser.TreeOfThree | src/components/dashboard/filterbox.tsx:20-35 | Two entries of one category followed by one of another give two nodes, the first with two leaves. |
| TagParser.TreeExample | src/components/dashboard/filterbox.tsx:20-35 | The entries `(a,x)`, `(a,y)`, `(b,z)` give the nodes `a` (leaves `x`, `y` with tokens `a:x`, `a:y`) and `b` (leaf `z`, token `b:z`). |
| TagParser.ParseExample | src/components/dashboard/filterbox.tsx:13-36 | `a:x;a:y;b:z` gives the nodes `a` (leaves `x`, `y` with tokens `a:x`, `a:y`) and `b` (leaf `z`, token `b:z`). |
| TagParser.ParseEmpty | src/components/dashboard/filterbox.tsx:13-36 | The empty definition gives one node `""` holding the leaf with no label and token `":undefined"`. |
| FilterBox.Narrow | src/components/dashboard/filterbox.tsx:55-57 | The case-insensitive `filter` keeps no more options than the list has; `NarrowSound`, `NarrowComplete` and `NarrowAppend` state which ones and in what order. |
| FilterBox.SearchCategories | src/components/dashboard/filterbox.tsx:55-57 | The category search is the order-keeping case-insensitive filter of the tree (`Narrow`), so it keeps exactly the categories whose label contains the query, in tree order. |
| FilterBox.NarrowSound | src/components/dashboard/filterbox.tsx:55-57 | Every option the search keeps is from the list and has a label containing the query, ignoring case. |
| FilterBox.NarrowComplete | src/components/dashboard/filterbox.tsx:55-57 | Every option of the list whose label contains the query, ignoring case, is kept. |
| FilterBox.NarrowAppend | src/components/dashboard/filterbox.tsx:244-247 | The search keeps the original order: it distributes over concatenation. |
| FilterBox.NarrowEmptyQuery | src/components/dashboard/filterbox.tsx:55-57 | An empty query keeps every option. |
| FilterBox.LabelMatchesIgnoresCase | src/components/dashboard/filterbox.tsx:56 | The search gives the same answer for a lower-cased label or a lower-cased query. |
| FilterBox.SearchValues | src/components/dashboard/filterbox.tsx:244-247 | The value search fails (`toLowerCase` would throw) exactly when some option has no label. Otherwise it is the case-insensitive `filter` of the options, keeping exactly those whose label contains the query. |
| FilterBox.Toggled | src/components/dashboard/filterbox.tsx:253-258 | Checking appends the value at the end of the selection. Unchecking is `RemoveAll`: every copy is removed, the rest keep their order (`RemoveAllAppend`) and every other value keeps its count. |
| FilterBox.RemoveAll | src/components/dashboard/filterbox.tsx:257 | Unchecking removes every copy of the value and keeps the count of every other value. |
| FilterBox.RemoveAllAppend | src/components/dashboard/filterbox.tsx:257 | Removing keeps the order of what remains. |
| FilterBox.RemoveAllAbsent | src/components/dashboard/filterbox.tsx:257 | Removing an unselected value changes nothing. |
| FilterBox.ToggleRoundTrip | src/components/dashboard/filterbox.tsx:253-258 | Checking a value and then unchecking it restores a selection that lacked it. |
| FilterBox.OptionValues | src/components/dashboard/filterbox.tsx:234 | "Select all" selects the option tokens, one per option, in display order. |
| FilterBox.Reformat | src/components/dashboard/filterbox.tsx:72-75 | The re-join keeps the token's first `:`-piece and follows it with a colon. |
| FilterBox.ReformatOneColon | src/components/dashboard/filterbox.tsx:72-75 | Every re-joined token holds exactly one colon. |
| FilterBox.ReformatSingleColon | src/components/dashboard/filterbox.tsx:72-75 | A token with exactly one colon passes the apply handler's re-join unchanged. |
| FilterBox.ReformatDropsRest | src/components/dashboard/filterbox.tsx:73-74 | Text after a second colon is dropped by the re-join. |
| FilterBox.ReformatNoColon | src/components/dashboard/filterbox.tsx:73-74 | A token without a colon gains ":undefined". |
| FilterBox.ReformatIdempotent | src/components/dashboard/filterbox.tsx:72-75 | Re-joining twice is re-joining once. |
| FilterBox.Formatted | src/components/dashboard/filterbox.tsx:72-75 | The emitted list has one re-joined token per selected token, in order. |
| FilterBox.TreeStable | src/components/dashboard/filterbox.tsx:33 | For colon-free entries, every token of the tree survives the apply handler's re-join unchanged. |
| FilterBox.ParsedTreeStable | src/components/dashboard/filterbox.tsx:13-36 | Every token of a parsed tree survives the re-join unchanged. |
| FilterBox.ParsedTokenUnchanged | src/components/dashboard/filterbox.tsx:33 | A token of a parsed tree survives the re-join unchanged. |
| FilterBox.StableSelection | src/components/dashboard/filterbox.tsx:70-76 | When every token of a tree survives the re-join, a selection of its tokens is emitted exactly as it stands. |
| FilterBox.FormattedParsedSelection | src/components/dashboard/filterbox.tsx:70-76 | A selection of parsed tokens is emitted exactly as it stands. |
| FilterBox.FindCategory | src/components/dashboard/filterbox.tsx:62 | `find` gives nothing exactly when no node has the value, otherwise a node of the tree with that value. |
| FilterBox.FindCategoryFirst | src/components/dashboard/filterbox.tsx:62 | `find` gives the first node with the value: the one at position `k` when no earlier node has it. |
| FilterBox.FindParsedCategory | src/components/dashboard/filterbox.tsx:60-67 | In a parsed tree, the node found for a category holds exactly the leaves of that category's entries. |
| FilterBox.FindGroupedCategory | src/components/dashboard/filterbox.tsx:60-67 | For any entries, the node `find` returns for one of their categories is that category's node built from its values in entry order. |
| FilterBox.FilterDropdown.constructor | src/components/dashboard/filterbox.tsx:38-47 | The option tree is the parse of the definition. The initial state is closed, on the "Tags" tab, with no category picked, an empty search, an empty selection, the category list shown and no options loaded. |
| FilterBox.FilterDropdown.FilteredCategories | src/components/dashboard/filterbox.tsx:55-57 | The listed categories are `Narrow` of the tree by the search text: exactly those whose label contains it, ignoring case, in tree order. |
| FilterBox.FilterDropdown.VisibleValues | src/components/dashboard/filterbox.tsx:244-247 | The value list fails exactly when a loaded option has no label. Otherwise it is `Narrow` of the loaded options by the search text: exactly the matching options, in order and with their repeats. |
| FilterBox.FilterDropdown.HasSelectedFilter | src/components/dashboard/filterbox.tsx:61 | JavaScript truthiness of `selectedFilter`: `null` and the empty name are falsy, every other name is truthy. |
| FilterBox.FilterDropdown.SelectAllChecked | src/components/dashboard/filterbox.tsx:239 | With no options loaded, the "Select all" box shows checked exactly when the selection is empty. |
| FilterBox.FilterDropdown.ToggleOpen | src/components/dashboard/filterbox.tsx:95 | The Filter button flips `isOpen`. |
| FilterBox.FilterDropdown.HandleTabClick | src/components/dashboard/filterbox.tsx:49-52 | A tab click sets the tab and unpicks the category. |
| FilterBox.FilterDropdown.SetSearchValue | src/components/dashboard/filterbox.tsx:164 | Typing sets the search text. |
| FilterBox.FilterDropdown.ToggleShowFilters | src/components/dashboard/filterbox.tsx:139 | The picked-category header flips `showFilters`. |
| FilterBox.FilterDropdown.PickCategory | src/components/dashboard/filterbox.tsx:215-219 | Picking sets the category, hides the list and clears the search. A non-empty category that `find` locates loads the options of the node found. Otherwise the previous options stay. The selection is kept. |
| FilterBox.FilterDropdown.SelectAll | src/components/dashboard/filterbox.tsx:232-239 | Checking selects every option token, after which the box shows as checked; unchecking clears the selection. |
| FilterBox.FilterDropdown.Toggle | src/components/dashboard/filterbox.tsx:253-258 | Checking appends the token; unchecking removes every copy of it. Every selected value stays a token of the tree. |
| FilterBox.FilterDropdown.Apply | src/components/dashboard/filterbox.tsx:70-83 | With an empty selection nothing is emitted and nothing changes. Otherwise the handler emits the re-joined selection, which equals the selection itself, closes the dropdown, unpicks the category, shows the list and clears the search. |
| FilterBox.FilterDropdown.ClearAll | src/components/dashboard/filterbox.tsx:86-89 | Clears the selection and emits the empty list. |
| FilterBox.FilterDropdown.Trash | src/components/dashboard/filterbox.tsx:148-152 | Unpicks the category, shows the list and clears the selection. |
| FilterBox.NewFilterDropdown | src/components/dashboard/filterbox.tsx:38-47 | The dashboard's dropdown has the parse of the fixed definition as its tree and starts in the initial state. |
| FilterBox.PickParsedCategory | src/components/dashboard/filterbox.tsx:60-67 | Picking a non-empty category of the parsed definition loads exactly the leaves of its entries, in entry order, sets the category, hides the list and clears the search. |
| FilterBox.ApplyTwice | src/components/dashboard/filterbox.tsx:70-83 | Applying twice with the same selection emits the same list both times, and emits exactly when the selection is non-empty. |
| DataTable.CreativeIdCell | src/components/dashboard/dataTable.tsx:24 | The cell is ".." followed by the id's last four characters, or the whole id when it is shorter. |
| DataTable.CategoryPart | src/components/dashboard/dataTable.tsx:41 | A badge is the longest colon-free prefix of its tag. |
| DataTable.TagsCell | src/components/dashboard/dataTable.tsx:32-47 | Absent tags show nothing. Otherwise the first two `;`-segments show as badges (each its category part), and a "+N" badge appears exactly when there are more than two segments. |
| DataTable.TagsCellAccountsForAll | src/components/dashboard/dataTable.tsx:33-47 | The badges plus the "+N" count account for every segment. |
| DataTable.SomeContained | src/components/dashboard/dataTable.tsx:117 | `some(includes)`: some token occurs in the tags. |
| DataTable.TagFilter | src/components/dashboard/dataTable.tsx:114-118 | The registered `tagFilter`: an empty filter passes every row. Otherwise a row passes exactly when its tags (absent read as "") contain some token as a substring. |
| DataTable.SomeSegmentIn | src/components/dashboard/dataTable.tsx:125 | Some segment is one of the tokens. |
| DataTable.GlobalFilterFn | src/components/dashboard/dataTable.tsx:120-132 | On the tags column with active filters, a row passes exactly when it has tags and one `;`-segment is an active token. Elsewhere an absent value passes, and a present one passes exactly when its lower-cased text contains the lower-cased query. |
| DataTable.ExactSegmentImpliesSubstring | src/components/dashboard/dataTable.tsx:114-126 | A row the exact-segment rule accepts is also accepted by the substring rule. |
| DataTable.SubstringDoesNotImplyExact | src/components/dashboard/dataTable.tsx:114-126 | A token that is a proper prefix of a row's only tag passes the substring rule but not the exact rule. |
| DataTable.TagsBranchExample | src/components/dashboard/dataTable.tsx:122-126 | With the active token `t`, a row tagged `t;u` passes and a row tagged only with a different `u` fails. |
| DataTable.EmptyQueryMatchesEverything | src/components/dashboard/dataTable.tsx:128-131 | Outside the tags branch, an empty query matches every value. |
| DataTable.SearchIgnoresQueryCase | src/components/dashboard/dataTable.tsx:130 | The text search gives the same answer for a query and its lower-cased form. |
| DataTable.SearchExample | src/components/dashboard/dataTable.tsx:128-131 | The query "us" matches the country "US". |
| DataTable.TableState.constructor | src/components/dashboard/dataTable.tsx:97-99 | The table starts with an empty search and no active filters. |
| DataTable.TableState.HandleFilterChange | src/components/dashboard/dataTable.tsx:135-139 | The emitted list becomes both the active filters and the value passed to the tags column's `setFilterValue`. |
| DataTable.TableState.SetGlobalFilter | src/components/dashboard/dataTable.tsx:146 | The search bar sets the global filter. |
| DataTable.ClearedFiltersPassAllTags | src/components/dashboard/dataTable.tsx:114-139 | After `[]` is emitted, the tag branch of the global filter is off and `tagFilter` on the stored value passes every row. The tags cell then goes through the plain text search. |
| Preview.TruncatedId | src/components/dashboard/preview.tsx:13 | The preview id is ".." followed by the id's last four characters, or the whole id when it is shorter. |
| Preview.Label | src/components/dashboard/preview.tsx:64 | A label has the key's length. Every underscore of the key becomes a space, and every other character stays in place. |
| Preview.FormatOf | src/components/dashboard/preview.tsx:67-72 | `ctr` is shown as a percentage, and only `ctr`. A key other than `ctr` is currency exactly when it contains "cost" or is `spend`. Every other key uses the locale format. |
| Preview.Listed | src/components/dashboard/preview.tsx:60 | A field is listed exactly when its key is neither `creative_id` nor `creative_name`. |
| Preview.MakeDetail | src/components/dashboard/preview.tsx:61-73 | A detail keeps the key. Its title is `Label(key)`: the key's length, no underscores. Its shown value is `ShownValue(key, value)`, formatted exactly when the value is a number. |
| Preview.Details | src/components/dashboard/preview.tsx:59-79 | The list has at most one detail per field, and every detail is of a listed field. |
| Preview.ShownValue | src/components/dashboard/preview.tsx:67-73 | A number is shown with its own value in its key's format (`FormatOf`); anything else is shown as `String(value)`. |
| Preview.DetailsAppend | src/components/dashboard/preview.tsx:59-79 | The details keep the order of the entries. |
| Preview.DetailsListed | src/components/dashboard/preview.tsx:59-60 | Every detail comes from a field other than the id and the name, and every such field has its detail. |
| Preview.DetailsAllListed | src/components/dashboard/preview.tsx:59-79 | When every field is listed, the details are the fields' details in order. |
| Preview.RowNumberFormats | src/components/dashboard/preview.tsx:67-72 | `ctr` is a percentage; `spend`, `cost_per_click` and `cost_per_install` are currency; `ipm`, `impressions`, `clicks` and `cpm` use the locale format. |
| Preview.RowDetails | src/components/dashboard/preview.tsx:59-79 | A row's preview lists its fourteen fields other than the id and the name, in declaration order: tags as text, ctr as a percentage, spend and the cost fields as currency, ipm in the locale format. |
| Preview.DetailsSkipHeader | src/components/dashboard/preview.tsx:60 | A field list that starts with the id and the name gives the same details as the list without them. |
| Strings.Split | src/components/dashboard/filterbox.tsx:14-15 | `split` gives at least one piece, and no piece contains the separator. |
| Strings.JoinSplit | src/components/dashboard/filterbox.tsx:14 | Joining the pieces with the separator gives back the string. |
| Strings.SplitJoin | src/components/dashboard/filterbox.tsx:14 | Splitting a join of separator-free pieces gives back the pieces. |
| Strings.SplitFirstPiece | src/components/dashboard/dataTable.tsx:41 | The first piece is a prefix, followed by the separator when it is not the whole string. |
| Strings.SplitNoSeparator | src/components/dashboard/filterbox.tsx:15 | A string without the separator is one piece. |
| Strings.SplitSeparator | src/components/dashboard/filterbox.tsx:15 | A string with the separator has at least two pieces. |
| Strings.SplitAfterPiece | src/components/dashboard/filterbox.tsx:15 | A separator-free prefix followed by the separator is the first piece. |
| Strings.PieceOccursInJoin | src/components/dashboard/dataTable.tsx:123-125 | Every piece occurs in the joined string. |
| Strings.SplitPieceContained | src/components/dashboard/dataTable.tsx:123-125 | Every `split` piece is contained in the string. |
| Strings.Contains | src/components/dashboard/dataTable.tsx:117 | `includes`: the query occurs as a contiguous block, so a contained string is no longer than the string. |
| Strings.ContainsEmpty | src/components/dashboard/dataTable.tsx:130 | Every string contains the empty string. |
| Strings.NotContainsMissingChar | src/components/dashboard/preview.tsx:70 | A string lacking one of the query's characters does not contain the query. |
| Strings.TrimStart | src/components/dashboard/filterbox.tsx:15 | Removes exactly the leading white space. |
| Strings.TrimEnd | src/components/dashboard/filterbox.tsx:15 | Removes exactly the trailing white space. |
| Strings.Trim | src/components/dashboard/filterbox.tsx:15 | The result is no longer than the string, neither starts nor ends with white space, and uses only the string's characters. |
| Strings.TrimIsBlock | src/components/dashboard/filterbox.tsx:15 | The result is a block of the string, and everything before and after that block is white space. |
| Strings.TrimmedBlock | src/components/dashboard/filterbox.tsx:15 | Removing leading and then trailing white space leaves a block with only white space around it. |
| Strings.TrimUnchanged | src/components/dashboard/filterbox.tsx:15 | A string that neither starts nor ends with white space is its own trim. |
| Strings.Lower | src/components/dashboard/filterbox.tsx:56 | Lower-cases character by character, keeping the length. |
| Strings.LowerIdempotent | src/components/dashboard/filterbox.tsx:56 | Lower-casing twice is lower-casing once. |
| Strings.SliceLast | src/components/dashboard/dataTable.tsx:24 | `slice(-n)` is the last `n` characters, or all of a shorter string, and is a suffix. |
| Strings.NatToString | src/components/dashboard/dataTable.tsx:130 | `String(n)` for a natural number is decimal digits without a leading zero, and those digits denote `n`. |
| Types.StringOf | src/components/dashboard/dataTable.tsx:130 | `String(value)`: null is `"null"` and undefined is `"undefined"`. A string is itself. A number's text starts with a minus sign exactly when the number is negative, and the text after the sign has the magnitude as its decimal value (`DigitsValue`). |
| Strings.IntToString | src/components/dashboard/dataTable.tsx:130 | `String(n)` starts with a minus sign exactly when `n` is negative. The characters after the sign are decimal digits without a leading zero, and they denote the magnitude of `n`. |

## Left out

- Numbers are integers. The source's numbers are floating point. `toFixed(2)`, the
  percentage's multiplication by 100 and `toLocaleString` are left out, because Dafny has
  no floating point and locale formats depend on the host. The preview records which
  format a number gets, not the text, and `String(value)` of a number is taken to be its
  decimal digits.
- The numeric cells of the table (`ipm`, `ctr`, `spend`, `impressions`, `clicks`) are left
  out for the same reason.
- `Strings.Lower`: lower-cases ASCII letters only. JavaScript's `toLowerCase` applies the
  full Unicode case mapping, which has no model here.
- `Strings.IsWhitespace`: covers the ASCII white space and the commonly used Unicode
  spaces, not every code point of Unicode's space separator class that `trim` removes.
- The accumulator in `parseFilters` is an object. A category named like an
  `Object.prototype` member (such as `constructor`) would collide with the inherited
  member. Integer-like keys are listed in ascending numeric order by `Object.entries`.
  The model has a plain map with first-seen key order and covers neither effect.
- The `table.getColumn("tags")?.setFilterValue(filters)` call belongs to the table
  library: the model stores the value, and the library's row model (sorting, when and in
  which cells the filters run, how the global filter combines the columns) is not part
  of it.
- `tagFilter` is registered in `filterFns` but attached to no column, so which function
  filters the tags column by the value given to `setFilterValue` is decided by the table
  library's defaults, which are not part of this model. `DataTable.TagFilter` models the
  registered function on its own.
- `TagParser.ValuesOf`: has no contract of its own. What it collects and in which order is
  stated by `ValuesOfAppend`, `ValuesOfExtend`, `ValuesOfExtendAt`, `ValuesOfAbsent` and
  `ValueSource`, because a contract on the function itself is brought in at every key of the
  grouping loop's invariant and makes that proof too expensive.
- `Types.FieldsOf`: lists a row's fields in `AdData`'s declaration order. The rows come from
  `Papa.parse` with `header: true` (src/app/(dashboard)/page.tsx:16-19), so `Object.entries` follows
  the CSV header. The model assumes the header lists exactly `AdData`'s fields in that
  order.
- `Strings.SliceLast`: counts characters. JavaScript's `slice(-4)` counts UTF-16 code
  units, so on an id ending in a character outside the Basic Multilingual Plane the cell
  can show half of a surrogate pair. Ids are taken to be made of such single-unit
  characters.
- The `globalFilterFn` tag branch is specified for text-valued tag cells. The row type
  declares `tags` a string, so a number in the tags column is excluded by a precondition.
- Rendering, the CSS (for example the `capitalize` class on preview labels) and the
  preview's expand/collapse toggle are left out: they decide appearance, not content.
- The row preview opening on a click in the first column (`setPreviewData`) and closing
  are left out. They only hold the row.
- The slider, header, search bar and table header components and the CSV loading of
  the page only display or pass data through. They are not part of this model.
- `TagParser.ParseFilters` is proved equal to its specification for every definition,
  and the specification is proved on small symbolic definitions. It is not evaluated on
  the fixed `FilterDefinition` constant, whose thirteen entries are too long for the
  verifier to unfold.
