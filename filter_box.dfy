/** The filter dropdown: the case-insensitive search over category and value labels,
    the bookkeeping of the pending selection, and the dropdown's state with one method
    per event handler. */
module FilterBox {
  import opened Wrappers
  import opened Strings
  import opened TagParser

  /** The search test both lists use: the lower-cased label contains the lower-cased query. */
  predicate LabelMatches(text: string, query: string)
  {
    Contains(Lower(text), Lower(query))
  }

  /** `xs.filter(x => text(x).toLowerCase().includes(query.toLowerCase()))`. */
  function Narrow<T>(xs: seq<T>, text: T -> string, query: string): (r: seq<T>)
    ensures |r| <= |xs|
  {
    if |xs| == 0 then []
    else
      var last := xs[|xs| - 1];
      Narrow(xs[..|xs| - 1], text, query) + (if LabelMatches(text(last), query) then [last] else [])
  }

  /** Everything the search keeps is from the list and matches the query. */
  lemma {:induction false} NarrowSound<T>(xs: seq<T>, text: T -> string, query: string)
    ensures forall y :: y in Narrow(xs, text, query) ==> y in xs && LabelMatches(text(y), query)
  {
    if |xs| > 0 {
      NarrowSound(xs[..|xs| - 1], text, query);
      assert xs == xs[..|xs| - 1] + [xs[|xs| - 1]];
    }
  }

  /** Everything in the list that matches the query is kept. */
  lemma {:induction false} NarrowComplete<T>(xs: seq<T>, text: T -> string, query: string)
    ensures forall y :: y in xs && LabelMatches(text(y), query) ==> y in Narrow(xs, text, query)
  {
    if |xs| > 0 {
      NarrowComplete(xs[..|xs| - 1], text, query);
      assert xs == xs[..|xs| - 1] + [xs[|xs| - 1]];
    }
  }

  /** The search keeps the original order: it distributes over concatenation. */
  lemma {:induction false} NarrowAppend<T>(a: seq<T>, b: seq<T>, text: T -> string, query: string)
    ensures Narrow(a + b, text, query) == Narrow(a, text, query) + Narrow(b, text, query)
    decreases |b|
  {
    if |b| == 0 {
      assert a + b == a;
    } else {
      assert (a + b)[..|a + b| - 1] == a + b[..|b| - 1];
      NarrowAppend(a, b[..|b| - 1], text, query);
    }
  }

  /** An empty query keeps every option. */
  lemma {:induction false} NarrowEmptyQuery<T>(xs: seq<T>, text: T -> string)
    ensures Narrow(xs, text, "") == xs
  {
    if |xs| > 0 {
      NarrowEmptyQuery(xs[..|xs| - 1], text);
      ContainsEmpty(Lower(text(xs[|xs| - 1])));
      assert Lower("") == "";
      assert xs == xs[..|xs| - 1] + [xs[|xs| - 1]];
    }
  }

  /** The search ignores the case of both the label and the query. */
  lemma LabelMatchesIgnoresCase(text: string, query: string)
    ensures LabelMatches(text, query) == LabelMatches(Lower(text), query)
    ensures LabelMatches(text, query) == LabelMatches(text, Lower(query))
  {
    LowerIdempotent(text);
    LowerIdempotent(query);
  }

  function CategoryText(c: Category): string
  {
    c.text
  }

  function LeafText(l: Leaf): string
  {
    l.text.GetOr("")
  }

  /** The category list under the "Search filters" box. */
  function SearchCategories(tree: seq<Category>, query: string): (r: seq<Category>)
    ensures r == Narrow(tree, CategoryText, query)
    ensures forall c :: c in r <==> c in tree && LabelMatches(c.text, query)
  {
    NarrowSound(tree, CategoryText, query);
    NarrowComplete(tree, CategoryText, query);
    Narrow(tree, CategoryText, query)
  }

  predicate AllLabelled(options: seq<Leaf>)
  {
    forall i :: 0 <= i < |options| ==> options[i].text.Some?
  }

  /** The value list under the "Search values" box; `None` when some option has an
      absent label, on which `toLowerCase` would throw. */
  function SearchValues(options: seq<Leaf>, query: string): (r: Option<seq<Leaf>>)
    ensures r.None? <==> exists i :: 0 <= i < |options| && options[i].text.None?
    ensures r.Some? ==> r.value == Narrow(options, LeafText, query)
    ensures r.Some? ==> forall o :: o in r.value <==> o in options && LabelMatches(LeafText(o), query)
  {
    if AllLabelled(options) then
      NarrowSound(options, LeafText, query);
      NarrowComplete(options, LeafText, query);
      Some(Narrow(options, LeafText, query))
    else None
  }

  /** `selectedValues.filter(v => v !== value)`. */
  function RemoveAll(selection: seq<string>, value: string): (r: seq<string>)
    ensures value !in r
    ensures forall x :: x != value ==> multiset(r)[x] == multiset(selection)[x]
  {
    if |selection| == 0 then []
    else
      var init := selection[..|selection| - 1];
      var last := selection[|selection| - 1];
      assert selection == init + [last];
      RemoveAll(init, value) + (if last == value then [] else [last])
  }

  /** Removing keeps the order of what remains: it distributes over concatenation. */
  lemma {:induction false} RemoveAllAppend(a: seq<string>, b: seq<string>, value: string)
    ensures RemoveAll(a + b, value) == RemoveAll(a, value) + RemoveAll(b, value)
    decreases |b|
  {
    if |b| == 0 {
      assert a + b == a;
    } else {
      assert (a + b)[..|a + b| - 1] == a + b[..|b| - 1];
      RemoveAllAppend(a, b[..|b| - 1], value);
    }
  }

  /** Removing a value that is not selected changes nothing. */
  lemma {:induction false} RemoveAllAbsent(selection: seq<string>, value: string)
    requires value !in selection
    ensures RemoveAll(selection, value) == selection
  {
    if |selection| > 0 {
      RemoveAllAbsent(selection[..|selection| - 1], value);
      assert selection == selection[..|selection| - 1] + [selection[|selection| - 1]];
    }
  }

  /** A value checkbox's change handler: checking appends, unchecking removes every copy. */
  function Toggled(selection: seq<string>, value: string, checked: bool): (r: seq<string>)
    ensures checked ==> |r| == |selection| + 1 && r[..|selection|] == selection && r[|selection|] == value
    ensures !checked ==> r == RemoveAll(selection, value)
    ensures !checked ==> value !in r && forall x :: x != value ==> multiset(r)[x] == multiset(selection)[x]
  {
    if checked then selection + [value] else RemoveAll(selection, value)
  }

  /** Checking a value and unchecking it again restores a selection that lacked it. */
  lemma ToggleRoundTrip(selection: seq<string>, value: string)
    requires value !in selection
    ensures Toggled(Toggled(selection, value, true), value, false) == selection
  {
    RemoveAllAppend(selection, [value], value);
    RemoveAllAbsent(selection, value);
    assert RemoveAll([value], value) == [] by {
      assert [value][..0] == [];
    }
  }

  /** The tokens of the options, in display order (the "Select all" checkbox). */
  function OptionValues(options: seq<Leaf>): (r: seq<string>)
    ensures |r| == |options|
    ensures forall i :: 0 <= i < |options| ==> r[i] == options[i].value
  {
    seq(|options|, i requires 0 <= i < |options| => options[i].value)
  }

  /** The apply handler's re-join of a token: the first two `:`-pieces joined by a
      colon; a token without a colon gains ":undefined". */
  function Reformat(token: string): (r: string)
    ensures var category := Split(token, ':')[0];
            |r| > |category| && r[..|category|] == category && r[|category|] == ':'
  {
    var pieces := Split(token, ':');
    pieces[0] + ":" + (if |pieces| >= 2 then pieces[1] else "undefined")
  }

  /** The re-joined token holds exactly one colon. */
  lemma ReformatOneColon(token: string)
    ensures multiset(Reformat(token))[':'] == 1
  {
    var pieces := Split(token, ':');
    var value := if |pieces| >= 2 then pieces[1] else "undefined";
    assert ':' !in pieces[0] && ':' !in value;
    assert Reformat(token) == pieces[0] + [':'] + value;
    assert multiset(pieces[0] + [':'] + value) == multiset(pieces[0]) + multiset{':'} + multiset(value);
  }

  /** A token with exactly one colon passes through unchanged. */
  lemma ReformatSingleColon(category: string, value: string)
    requires ':' !in category && ':' !in value
    ensures Reformat(category + ":" + value) == category + ":" + value
  {
    assert category + ":" + value == category + [':'] + value;
    SplitAfterPiece(category, ':', value);
    SplitNoSeparator(value, ':');
  }

  /** Text after a second colon is dropped. */
  lemma ReformatDropsRest(category: string, value: string, rest: string)
    requires ':' !in category && ':' !in value
    ensures Reformat(category + ":" + value + ":" + rest) == category + ":" + value
  {
    assert category + ":" + value + ":" + rest == category + [':'] + (value + [':'] + rest);
    SplitAfterPiece(category, ':', value + [':'] + rest);
    SplitAfterPiece(value, ':', rest);
  }

  /** A token without a colon comes back with ":undefined" appended. */
  lemma ReformatNoColon(token: string)
    requires ':' !in token
    ensures Reformat(token) == token + ":undefined"
  {
    SplitNoSeparator(token, ':');
  }

  /** Re-joining is idempotent, so emitting twice emits the same list. */
  lemma ReformatIdempotent(token: string)
    ensures Reformat(Reformat(token)) == Reformat(token)
  {
    var pieces := Split(token, ':');
    var second := if |pieces| >= 2 then pieces[1] else "undefined";
    assert ':' !in "undefined";
    ReformatSingleColon(pieces[0], second);
  }

  /** The list the apply handler passes to `onFilterChange`. */
  function Formatted(selection: seq<string>): (r: seq<string>)
    ensures |r| == |selection|
    ensures forall i :: 0 <= i < |selection| ==> r[i] == Reformat(selection[i])
  {
    seq(|selection|, i requires 0 <= i < |selection| => Reformat(selection[i]))
  }

  /** `token` is the value of some leaf of `tree`. */
  ghost predicate IsLeafToken(tree: seq<Category>, token: string)
  {
    exists k, j :: 0 <= k < |tree| && 0 <= j < |tree[k].options| && tree[k].options[j].value == token
  }

  /** Every leaf token of `tree` survives the apply handler's re-join unchanged. */
  ghost predicate StableTokens(tree: seq<Category>)
  {
    forall k, j :: 0 <= k < |tree| && 0 <= j < |tree[k].options| ==>
      Reformat(tree[k].options[j].value) == tree[k].options[j].value
  }

  /** Every token of a tree built from colon-free entries survives the re-join. */
  lemma TreeStable(es: seq<Entry>)
    requires ColonFree(es)
    ensures StableTokens(OptionTree(es))
  {
    var tree := OptionTree(es);
    forall k, j | 0 <= k < |tree| && 0 <= j < |tree[k].options|
      ensures Reformat(tree[k].options[j].value) == tree[k].options[j].value
    {
      TokenShape(es, k, j);
      assert ':' !in "undefined";
      ReformatSingleColon(tree[k].text, tree[k].options[j].text.GetOr("undefined"));
    }
  }

  /** Every token of a parsed tree survives the re-join unchanged. */
  lemma ParsedTreeStable(definition: string)
    ensures StableTokens(OptionTree(Entries(definition)))
  {
    EntriesColonFree(definition);
    TreeStable(Entries(definition));
  }

  /** A single token of a parsed tree survives the re-join unchanged. */
  lemma ParsedTokenUnchanged(definition: string, token: string)
    requires IsLeafToken(OptionTree(Entries(definition)), token)
    ensures Reformat(token) == token
  {
    ParsedTreeStable(definition);
  }

  /** A selection of tokens of a tree with stable tokens is emitted as it stands. */
  lemma StableSelection(tree: seq<Category>, selection: seq<string>)
    requires StableTokens(tree)
    requires forall i :: 0 <= i < |selection| ==> IsLeafToken(tree, selection[i])
    ensures Formatted(selection) == selection
  {
    forall i | 0 <= i < |selection|
      ensures Formatted(selection)[i] == selection[i]
    {
      var k, j :| 0 <= k < |tree| && 0 <= j < |tree[k].options| && tree[k].options[j].value == selection[i];
    }
  }

  /** A selection of parsed tokens is emitted exactly as it stands. */
  lemma FormattedParsedSelection(definition: string, selection: seq<string>)
    requires forall i :: 0 <= i < |selection| ==> IsLeafToken(OptionTree(Entries(definition)), selection[i])
    ensures Formatted(selection) == selection
  {
    ParsedTreeStable(definition);
    StableSelection(OptionTree(Entries(definition)), selection);
  }

  /** `FILTER_OPTIONS.find(f => f.value === value)`: the first node with that value. */
  function FindCategory(tree: seq<Category>, value: string): (r: Option<Category>)
    ensures r.None? <==> forall k :: 0 <= k < |tree| ==> tree[k].value != value
    ensures r.Some? ==> exists k :: 0 <= k < |tree| && tree[k] == r.value && tree[k].value == value
  {
    if |tree| == 0 then None
    else if tree[0].value == value then Some(tree[0])
    else
      var r := FindCategory(tree[1..], value);
      assert forall k :: 1 <= k < |tree| ==> tree[k] == tree[1..][k - 1];
      r
  }

  /** `find` returns the first node with the value, not any later one. */
  lemma {:induction false} FindCategoryFirst(tree: seq<Category>, value: string, k: nat)
    requires k < |tree| && tree[k].value == value
    requires forall q :: 0 <= q < k ==> tree[q].value != value
    ensures FindCategory(tree, value) == Some(tree[k])
  {
    if k > 0 {
      assert tree[0].value != value;
      assert tree[1..][k - 1] == tree[k];
      FindCategoryFirst(tree[1..], value, k - 1);
    }
  }

  /** In a parsed tree, the node found for a category name holds exactly the leaves of
      that category's entries. */
  lemma FindParsedCategory(definition: string, category: string)
    requires category in Categories(Entries(definition))
    ensures var es := Entries(definition);
            FindCategory(OptionTree(es), category) == Some(MakeCategory(category, ValuesOf(es, category)))
  {
    FindGroupedCategory(Entries(definition), category);
  }

  /** In the tree of any entries, the node found for one of their categories holds
      exactly the leaves of that category's entries. */
  lemma FindGroupedCategory(es: seq<Entry>, category: string)
    requires category in Categories(es)
    ensures FindCategory(OptionTree(es), category) == Some(MakeCategory(category, ValuesOf(es, category)))
  {
    var tree := OptionTree(es);
    var cs := FirstSeen(es);
    var k0 :| 0 <= k0 < |cs| && cs[k0] == category;
    assert tree[k0].value == category;
    var r := FindCategory(tree, category);
    var k :| 0 <= k < |tree| && tree[k] == r.value && tree[k].value == category;
    assert cs[k] == category;
  }

  /** The dropdown's state: the seven `useState` hooks of the component. */
  class FilterDropdown {
    const definition: string
    const filterOptions: seq<Category>
    var isOpen: bool
    var activeTab: string
    var selectedFilter: Option<string>
    var searchValue: string
    var selectedValues: seq<string>
    var showFilters: bool
    var currentOptions: seq<Leaf>

    /** Every token of the tree survives the re-join; the value list is empty or one
        category's options; every pending token is a token of the tree. That the tree
        is the parse of `definition` is fixed by the constructor, the fields being
        constants. */
    ghost predicate Valid()
      reads this`currentOptions, this`selectedValues
    {
      && StableTokens(filterOptions)
      && (currentOptions == [] ||
          exists k :: 0 <= k < |filterOptions| && currentOptions == filterOptions[k].options)
      && (forall i :: 0 <= i < |selectedValues| ==> IsLeafToken(filterOptions, selectedValues[i]))
    }

    /** The initial state, with the options parsed once from `definition`. */
    constructor(definition: string)
      ensures Valid()
      ensures this.definition == definition && filterOptions == OptionTree(Entries(definition))
      ensures !isOpen && activeTab == "Tags" && selectedFilter == None && searchValue == ""
      ensures selectedValues == [] && showFilters && currentOptions == []
    {
      this.definition := definition;
      var tree := ParseFilters(definition);
      filterOptions := tree;
      isOpen := false;
      activeTab := "Tags";
      selectedFilter := None;
      searchValue := "";
      selectedValues := [];
      showFilters := true;
      currentOptions := [];
      new;
      ParsedTreeStable(definition);
    }

    /** The categories listed while no category is picked. */
    function FilteredCategories(): (r: seq<Category>)
      reads this
      ensures r == Narrow(filterOptions, CategoryText, searchValue)
      ensures forall c :: c in r <==> c in filterOptions && LabelMatches(c.text, searchValue)
    {
      SearchCategories(filterOptions, searchValue)
    }

    /** The values listed once a category is picked. */
    function VisibleValues(): (r: Option<seq<Leaf>>)
      reads this
      ensures r.None? <==> exists i :: 0 <= i < |currentOptions| && currentOptions[i].text.None?
      ensures r.Some? ==> r.value == Narrow(currentOptions, LeafText, searchValue)
      ensures r.Some? ==> forall o :: o in r.value <==> o in currentOptions && LabelMatches(LeafText(o), searchValue)
    {
      SearchValues(currentOptions, searchValue)
    }

    /** JavaScript truthiness of `selectedFilter`: a non-empty category name. */
    predicate HasSelectedFilter()
      reads this
      ensures selectedFilter == None ==> !HasSelectedFilter()
      ensures selectedFilter == Some("") ==> !HasSelectedFilter()
      ensures selectedFilter.Some? && selectedFilter.value != "" ==> HasSelectedFilter()
    {
      selectedFilter.Some? && selectedFilter.value != ""
    }

    /** The "Select all" box is shown checked exactly when the counts agree. */
    predicate SelectAllChecked()
      reads this
      ensures currentOptions == [] ==> (SelectAllChecked() <==> selectedValues == [])
    {
      |selectedValues| == |currentOptions|
    }

    /** The Filter button flips the dropdown open or closed. */
    method ToggleOpen()
      modifies this`isOpen
      ensures isOpen == !old(isOpen)
    {
      isOpen := !isOpen;
    }

    /** `handleTabClick`. */
    method HandleTabClick(tab: string)
      modifies this`activeTab, this`selectedFilter
      ensures activeTab == tab && selectedFilter == None
    {
      activeTab := tab;
      selectedFilter := None;
    }

    /** Typing in either search box. */
    method SetSearchValue(query: string)
      modifies this`searchValue
      ensures searchValue == query
    {
      searchValue := query;
    }

    /** The header button of the picked category shows or hides the category list. */
    method ToggleShowFilters()
      modifies this`showFilters
      ensures showFilters == !old(showFilters)
    {
      showFilters := !showFilters;
    }

    /** Clicking a category, followed by the effect that loads its options when the
        picked name is non-empty and found. The pending selection is kept. */
    method PickCategory(category: string)
      requires Valid()
      modifies this`selectedFilter, this`showFilters, this`searchValue, this`currentOptions
      ensures Valid()
      ensures selectedFilter == Some(category) && !showFilters && searchValue == ""
      ensures currentOptions ==
        if category != "" && FindCategory(filterOptions, category).Some?
        then FindCategory(filterOptions, category).value.options
        else old(currentOptions)
    {
      selectedFilter := Some(category);
      showFilters := false;
      searchValue := "";
      if HasSelectedFilter() {
        var filterData := FindCategory(filterOptions, category);
        if filterData.Some? {
          var k :| 0 <= k < |filterOptions| && filterOptions[k] == filterData.value;
          currentOptions := filterData.value.options;
        }
      }
    }

    /** The "Select all" checkbox; `checked` is the box's new state. The rendered box
        is controlled by `SelectAllChecked()`, so the UI only ever passes its negation;
        the model also allows the calls the UI cannot make. */
    method SelectAll(checked: bool)
      requires Valid()
      modifies this`selectedValues
      ensures Valid()
      ensures selectedValues == if checked then OptionValues(currentOptions) else []
      ensures checked ==> SelectAllChecked()
    {
      if checked {
        selectedValues := OptionValues(currentOptions);
        forall i | 0 <= i < |selectedValues|
          ensures IsLeafToken(filterOptions, selectedValues[i])
        {
          var k :| 0 <= k < |filterOptions| && currentOptions == filterOptions[k].options;
          assert filterOptions[k].options[i].value == selectedValues[i];
        }
      } else {
        selectedValues := [];
      }
    }

    /** A value checkbox; `checked` is the box's new state. The rendered box is
        controlled by `option.value in selectedValues`, so the UI only ever passes its
        negation; the model also allows the calls the UI cannot make. */
    method Toggle(option: Leaf, checked: bool)
      requires Valid() && option in currentOptions
      modifies this`selectedValues
      ensures Valid()
      ensures selectedValues == Toggled(old(selectedValues), option.value, checked)
    {
      var k :| 0 <= k < |filterOptions| && currentOptions == filterOptions[k].options;
      var j :| 0 <= j < |currentOptions| && currentOptions[j] == option;
      assert IsLeafToken(filterOptions, option.value) by {
        assert filterOptions[k].options[j].value == option.value;
      }
      ghost var before := selectedValues;
      if checked {
        selectedValues := selectedValues + [option.value];
      } else {
        selectedValues := RemoveAll(selectedValues, option.value);
        forall i | 0 <= i < |selectedValues|
          ensures IsLeafToken(filterOptions, selectedValues[i])
        {
          var x := selectedValues[i];
          assert multiset(selectedValues)[x] > 0;
          assert multiset(before)[x] > 0;
          assert x in before;
        }
      }
    }

    /** `handleApplyFilters`: with a non-empty selection, emits it re-joined (which for
        parsed tokens is the selection itself) and closes the dropdown; with an empty
        one, emits nothing and changes nothing. */
    method Apply() returns (emitted: Option<seq<string>>)
      requires Valid()
      modifies this`isOpen, this`selectedFilter, this`showFilters, this`searchValue
      ensures Valid()
      ensures |selectedValues| == 0 ==>
        emitted == None && isOpen == old(isOpen) && selectedFilter == old(selectedFilter)
        && showFilters == old(showFilters) && searchValue == old(searchValue)
      ensures |selectedValues| > 0 ==>
        emitted == Some(Formatted(selectedValues)) && emitted == Some(selectedValues)
        && !isOpen && selectedFilter == None && showFilters && searchValue == ""
    {
      if |selectedValues| > 0 {
        var formattedFilters := Formatted(selectedValues);
        StableSelection(filterOptions, selectedValues);
        emitted := Some(formattedFilters);
        isOpen := false;
        selectedFilter := None;
        showFilters := true;
        searchValue := "";
      } else {
        emitted := None;
      }
    }

    /** `clearAllFilters`: empties the selection and emits the empty list. */
    method ClearAll() returns (emitted: seq<string>)
      requires Valid()
      modifies this`selectedValues
      ensures Valid()
      ensures selectedValues == [] && emitted == []
    {
      selectedValues := [];
      emitted := [];
    }

    /** The trash button of the picked category: back to the category list, nothing emitted. */
    method Trash()
      requires Valid()
      modifies this`selectedFilter, this`showFilters, this`selectedValues
      ensures Valid()
      ensures selectedFilter == None && showFilters && selectedValues == []
    {
      selectedFilter := None;
      showFilters := true;
      selectedValues := [];
    }
  }

  /** The dashboard's dropdown: its options are parsed once from the fixed definition. */
  method NewFilterDropdown() returns (d: FilterDropdown)
    ensures fresh(d) && d.Valid()
    ensures d.definition == FilterDefinition && d.filterOptions == OptionTree(Entries(FilterDefinition))
    ensures !d.isOpen && d.activeTab == "Tags" && d.selectedFilter == None && d.searchValue == ""
    ensures d.selectedValues == [] && d.showFilters && d.currentOptions == []
  {
    d := new FilterDropdown(FilterDefinition);
  }

  /** Picking a category of the parsed definition loads exactly the leaves of its
      entries, in entry order. */
  method PickParsedCategory(d: FilterDropdown, category: string)
    requires d.Valid() && d.filterOptions == OptionTree(Entries(d.definition))
    requires category != "" && category in Categories(Entries(d.definition))
    modifies d`selectedFilter, d`showFilters, d`searchValue, d`currentOptions
    ensures d.Valid() && d.selectedFilter == Some(category) && !d.showFilters && d.searchValue == ""
    ensures d.currentOptions == MakeCategory(category, ValuesOf(Entries(d.definition), category)).options
  {
    FindParsedCategory(d.definition, category);
    d.PickCategory(category);
  }

  /** Applying twice with the same pending selection emits the same list both times. */
  method ApplyTwice(d: FilterDropdown) returns (first: Option<seq<string>>, second: Option<seq<string>>)
    requires d.Valid()
    modifies d
    ensures first == second
    ensures first.Some? <==> |d.selectedValues| > 0
  {
    first := d.Apply();
    second := d.Apply();
  }
}
