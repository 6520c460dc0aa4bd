/** The table's row predicates and cell text: the registered `tagFilter` function, the
    global filter with its exact-segment tag branch and its case-insensitive text
    search, the creative-id and tags cells, and the state the filter callback updates. */
module DataTable {
  import opened Wrappers
  import opened Strings
  import opened Types

  /** The creative-id cell: ".." followed by the last four characters of the id, or the
      whole id when it is shorter. */
  function CreativeIdCell(id: string): (r: string)
    ensures |r| == 2 + (if |id| < 4 then |id| else 4)
    ensures r[..2] == ".."
    ensures id == id[..|id| - (|r| - 2)] + r[2..]
  {
    var tail := SliceLast(id, 4);
    assert (".." + tail)[2..] == tail;
    ".." + tail
  }

  /** What the tags cell shows: up to two badges, and a "+N" badge for the rest. */
  datatype TagsView = TagsView(badges: seq<string>, more: Option<nat>)

  /** The part of a tag before its first colon (`tag.split(":")[0]`). */
  function CategoryPart(tag: string): (r: string)
    ensures r <= tag && ':' !in r
    ensures |r| < |tag| ==> tag[|r|] == ':'
  {
    SplitFirstPiece(tag, ':');
    Split(tag, ':')[0]
  }

  function TagsCell(tags: Option<string>): (v: TagsView)
    ensures tags.None? ==> v == TagsView([], None)
    ensures tags.Some? ==>
      var segments := Split(tags.value, ';');
      && |v.badges| == (if |segments| < 2 then |segments| else 2)
      && (forall i :: 0 <= i < |v.badges| ==> v.badges[i] == CategoryPart(segments[i]))
      && (v.more.Some? <==> |segments| > 2)
  {
    var segments := if tags.Some? then Split(tags.value, ';') else [];
    var shown := if |segments| < 2 then |segments| else 2;
    TagsView(seq(shown, i requires 0 <= i < shown => CategoryPart(segments[i])),
             if |segments| > 2 then Some(|segments| - 2) else None)
  }

  /** The badges and the "+N" count together account for every `;`-segment. */
  lemma TagsCellAccountsForAll(tags: string)
    ensures var v := TagsCell(Some(tags));
            |v.badges| + v.more.GetOr(0) == |Split(tags, ';')|
  {
  }

  /** `filters.some(filter => tags.includes(filter))`. */
  function SomeContained(tags: string, filters: seq<string>): (b: bool)
    ensures b <==> exists i :: 0 <= i < |filters| && Contains(tags, filters[i])
  {
    if |filters| == 0 then false
    else
      var rest := SomeContained(tags, filters[1..]);
      assert forall i :: 1 <= i < |filters| ==> filters[i] == filters[1..][i - 1];
      Contains(tags, filters[0]) || rest
  }

  /** `tagFilter`, registered in the table's `filterFns`: every row passes an empty
      filter list; otherwise the row's tags (absent read as "") must contain some filter
      token as a substring. No column names it as its filter. */
  function TagFilter(tags: Option<string>, filterValue: seq<string>): (b: bool)
    ensures |filterValue| == 0 ==> b
    ensures |filterValue| > 0 ==>
      (b <==> exists i :: 0 <= i < |filterValue| && Contains(tags.GetOr(""), filterValue[i]))
  {
    if |filterValue| == 0 then true else SomeContained(tags.GetOr(""), filterValue)
  }

  /** `segments.some(tag => tokens.includes(tag))`. */
  function SomeSegmentIn(segments: seq<string>, tokens: seq<string>): (b: bool)
    ensures b <==> exists i :: 0 <= i < |segments| && segments[i] in tokens
  {
    if |segments| == 0 then false
    else
      var rest := SomeSegmentIn(segments[1..], tokens);
      assert forall i :: 1 <= i < |segments| ==> segments[i] == segments[1..][i - 1];
      segments[0] in tokens || rest
  }

  /** `globalFilterFn` for one cell. On the tags column with active filters, the row
      passes when one of its `;`-segments is exactly an active token, and a row without
      tags fails. Everywhere else an absent value passes and a present one passes when
      its lower-cased text contains the lower-cased query. The tags column holds text,
      as the row type declares. */
  function GlobalFilterFn(columnId: string, value: CellValue, filterValue: string,
                          activeFilters: seq<string>): (r: bool)
    requires columnId == "tags" && |activeFilters| > 0 ==> !value.Number?
    ensures columnId == "tags" && |activeFilters| > 0 ==>
      (r <==> value.Text? &&
              exists i :: 0 <= i < |Split(value.text, ';')| && Split(value.text, ';')[i] in activeFilters)
    ensures !(columnId == "tags" && |activeFilters| > 0) ==>
      (r <==> value.Undefined? || value.Null? || Contains(Lower(StringOf(value)), Lower(filterValue)))
  {
    if columnId == "tags" && |activeFilters| > 0 then
      match value
      case Text(s) =>
        var segments := Split(s, ';');
        var b := SomeSegmentIn(segments, activeFilters);
        assert value.text == s && segments == Split(value.text, ';');
        b
      case _ => false
    else
      match value
      case Undefined => true
      case Null => true
      case _ => Contains(Lower(StringOf(value)), Lower(filterValue))
  }

  /** A row the exact-segment rule accepts is also accepted by `tagFilter`'s substring
      rule for the same tokens. */
  lemma ExactSegmentImpliesSubstring(tags: string, query: string, tokens: seq<string>)
    requires |tokens| > 0
    requires GlobalFilterFn("tags", Text(tags), query, tokens)
    ensures TagFilter(Some(tags), tokens)
  {
    var segments := Split(tags, ';');
    var i :| 0 <= i < |segments| && segments[i] in tokens;
    var j :| 0 <= j < |tokens| && tokens[j] == segments[i];
    SplitPieceContained(tags, ';', i);
  }

  /** The converse fails: a token that is a proper prefix of the row's only tag passes
      the substring rule but not the exact-segment rule. */
  lemma SubstringDoesNotImplyExact(token: string, extra: char, query: string)
    requires ';' !in token && extra != ';'
    ensures TagFilter(Some(token + [extra]), [token])
    ensures !GlobalFilterFn("tags", Text(token + [extra]), query, [token])
  {
    var tags := token + [extra];
    assert tags[0..|token|] == token;
    assert OccursAt(tags, token, 0);
    SplitNoSeparator(tags, ';');
    assert tags != token by {
      assert |tags| != |token|;
    }
  }

  /** Example: with the single active token `t`, a row with tags `t;u`
      passes and a row whose only tag is a different `u` fails. */
  lemma TagsBranchExample(t: string, u: string, query: string)
    requires ';' !in t && ';' !in u && t != u
    ensures GlobalFilterFn("tags", Text(t + ";" + u), query, [t])
    ensures !GlobalFilterFn("tags", Text(u), query, [t])
  {
    assert t + ";" + u == t + [';'] + u;
    SplitAfterPiece(t, ';', u);
    SplitNoSeparator(u, ';');
  }

  /** Outside the tags branch an empty query matches every value. */
  lemma EmptyQueryMatchesEverything(columnId: string, value: CellValue, activeFilters: seq<string>)
    requires !(columnId == "tags" && |activeFilters| > 0)
    ensures GlobalFilterFn(columnId, value, "", activeFilters)
  {
    assert Lower("") == "";
    ContainsEmpty(Lower(StringOf(value)));
  }

  /** The text search ignores the case of the query. */
  lemma SearchIgnoresQueryCase(columnId: string, value: CellValue, query: string,
                               activeFilters: seq<string>)
    requires columnId == "tags" && |activeFilters| > 0 ==> !value.Number?
    ensures GlobalFilterFn(columnId, value, query, activeFilters)
         == GlobalFilterFn(columnId, value, Lower(query), activeFilters)
  {
    LowerIdempotent(query);
  }

  /** Example of case-insensitivity: the query "us" matches the value "US". */
  lemma SearchExample()
    ensures GlobalFilterFn("country", Text("US"), "us", [])
  {
    assert Lower("US") == "us";
    assert Lower("us") == "us";
    assert OccursAt("us", "us", 0);
  }

  /** The table's own filter state. */
  class TableState {
    var globalFilter: string
    var activeFilters: seq<string>
    var tagsFilterValue: seq<string>

    constructor()
      ensures globalFilter == "" && activeFilters == [] && tagsFilterValue == []
    {
      globalFilter := "";
      activeFilters := [];
      tagsFilterValue := [];
    }

    /** `handleFilterChange`: stores the emitted list as the active filters and, through
        `setFilterValue`, as the tags column's filter value, unchanged. */
    method HandleFilterChange(filters: seq<string>)
      modifies this`activeFilters, this`tagsFilterValue
      ensures activeFilters == filters && tagsFilterValue == filters
    {
      activeFilters := filters;
      tagsFilterValue := filters;
    }

    /** The search bar's change handler. */
    method SetGlobalFilter(value: string)
      modifies this`globalFilter
      ensures globalFilter == value
    {
      globalFilter := value;
    }

    /** Whether one cell passes the global filter in the current state. */
    function CellPasses(columnId: string, value: CellValue): bool
      reads this
      requires columnId == "tags" && |activeFilters| > 0 ==> !value.Number?
    {
      GlobalFilterFn(columnId, value, globalFilter, activeFilters)
    }
  }

  /** After the filter box clears its selection and emits `[]`, no row is held back
      by the tag branch: it is off, and `tagFilter` on the stored filter value passes
      every row. The tags cell then goes through the plain text search. */
  method ClearedFiltersPassAllTags(table: TableState, tags: Option<string>)
    modifies table
    ensures table.activeFilters == [] && TagFilter(tags, table.tagsFilterValue)
    ensures forall v: CellValue :: v.Text? ==>
      table.CellPasses("tags", v) == Contains(Lower(v.text), Lower(table.globalFilter))
  {
    table.HandleFilterChange([]);
  }
}
