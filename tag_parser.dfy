/** The tag-definition parser of the filter box (`parseFilters`): a `;`-separated
    list of `category:value` entries becomes a two-level option tree, one node per
    category in first-seen order, each holding one leaf per entry of that category. */
module TagParser {
  import opened Wrappers
  import opened Strings

  /** One parsed entry: the trimmed category and the trimmed raw value, absent
      (JavaScript `undefined`) when the entry has no colon. */
  datatype Entry = Entry(category: string, value: Option<string>)

  /** A selectable option (the source's `label` is `text` here, `label` being a Dafny
      keyword); `value` is the full `category:value` token. */
  datatype Leaf = Leaf(text: Option<string>, value: string)

  /** A category node; its label and value are both the category name. */
  datatype Category = Category(text: string, value: string, options: seq<Leaf>)

  /** The definition string the filter box parses once, at load time. */
  const FilterDefinition: string :=
    "Concept:UGC;Audio - Type:voiceover;Audio - Language:English;"
    + "End card elements - CTA:download it and start crushing those levels!;"
    + "End card elements - Objects:colored bubbles;End card elements - Objects:wand;"
    + "End card elements - Objects:rocks;End card elements - Objects:boots;"
    + "End card elements - Language:English;End card elements - CTA Placement:Middle-Right;"
    + "End card elements - Background Colour:Orange;End card elements - Background setting:fantasy;"
    + "End card elements - CTA background colour:Dark Purple"

  /** One entry: the first two `:`-pieces, both trimmed; later pieces are dropped. */
  function ParseEntry(filter: string): (e: Entry)
    ensures ':' !in e.category
    ensures e.value.Some? ==> ':' !in e.value.value
    ensures e.value.None? <==> ':' !in filter
  {
    var pieces := Split(filter, ':');
    if ':' in filter then
      SplitSeparator(filter, ':');
      Entry(Trim(pieces[0]), Some(Trim(pieces[1])))
    else
      SplitNoSeparator(filter, ':');
      Entry(Trim(pieces[0]), None)
  }

  /** An entry without a colon has an absent value and its whole text, trimmed, as category. */
  lemma ParseEntryNoColon(filter: string)
    requires ':' !in filter
    ensures ParseEntry(filter) == Entry(Trim(filter), None)
  {
    SplitNoSeparator(filter, ':');
  }

  /** An entry with exactly one colon is its trimmed category and its trimmed value. */
  lemma ParseEntrySingleColon(a: string, b: string)
    requires ':' !in a && ':' !in b
    ensures ParseEntry(a + ":" + b) == Entry(Trim(a), Some(Trim(b)))
  {
    var filter := a + ":" + b;
    assert filter == a + [':'] + b;
    assert filter[|a|] == ':';
    SplitAfterPiece(a, ':', b);
    SplitNoSeparator(b, ':');
    assert Split(filter, ':') == [a, b];
  }

  /** Text after a second colon is dropped: only the first two pieces are kept. */
  lemma ParseEntryDropsRest(a: string, b: string, rest: string)
    requires ':' !in a && ':' !in b
    ensures ParseEntry(a + ":" + b + ":" + rest) == Entry(Trim(a), Some(Trim(b)))
  {
    var s := a + ":" + b + ":" + rest;
    assert s == a + [':'] + (b + [':'] + rest);
    SplitAfterPiece(a, ':', b + [':'] + rest);
    SplitAfterPiece(b, ':', rest);
  }

  /** The entries of a definition, one per `;`-piece. */
  function Entries(definition: string): (es: seq<Entry>)
    ensures |es| == |Split(definition, ';')| >= 1
  {
    ParseAll(Split(definition, ';'))
  }

  /** Entry `i` of a definition is the parse of its `i`-th `;`-piece. */
  lemma EntriesAt(definition: string, i: int)
    requires 0 <= i < |Split(definition, ';')|
    ensures Entries(definition)[i] == ParseEntry(Split(definition, ';')[i])
  {
  }

  /** The `map` over the `;`-pieces: one parsed entry per piece, in order. */
  function ParseAll(pieces: seq<string>): seq<Entry>
  {
    seq(|pieces|, i requires 0 <= i < |pieces| => ParseEntry(pieces[i]))
  }

  /** The categories of the entries, one per entry, in order. */
  function Categories(es: seq<Entry>): (cs: seq<string>)
    ensures |cs| == |es|
    ensures forall i :: 0 <= i < |es| ==> cs[i] == es[i].category
  {
    if |es| == 0 then [] else Categories(es[..|es| - 1]) + [es[|es| - 1].category]
  }

  predicate Distinct(cs: seq<string>)
  {
    forall i, j :: 0 <= i < j < |cs| ==> cs[i] != cs[j]
  }

  /** The distinct categories in the order they first occur (the key order of the
      accumulator object). */
  function FirstSeen(es: seq<Entry>): (cs: seq<string>)
    ensures Distinct(cs)
    ensures forall c :: c in cs <==> c in Categories(es)
  {
    if |es| == 0 then []
    else
      var prev := FirstSeen(es[..|es| - 1]);
      var c := es[|es| - 1].category;
      assert Categories(es) == Categories(es[..|es| - 1]) + [c];
      if c in prev then prev else prev + [c]
  }

  /** The raw values of the entries of category `c`, in entry order. */
  function ValuesOf(es: seq<Entry>, c: string): seq<Option<string>>
  {
    if |es| == 0 then []
    else ValuesOf(es[..|es| - 1], c) + (if es[|es| - 1].category == c then [es[|es| - 1].value] else [])
  }

  /** The token a leaf stores: a template literal, so an absent value reads "undefined". */
  function Token(category: string, value: Option<string>): (t: string)
    ensures |t| > |category| && t[..|category|] == category && t[|category|] == ':'
  {
    category + ":" + value.GetOr("undefined")
  }

  function MakeCategory(c: string, values: seq<Option<string>>): Category
  {
    Category(c, c, seq(|values|, j requires 0 <= j < |values| => Leaf(values[j], Token(c, values[j]))))
  }

  /** The category nodes for the names `cs`, each with the values of its entries. */
  function Groups(es: seq<Entry>, cs: seq<string>): seq<Category>
  {
    seq(|cs|, k requires 0 <= k < |cs| => MakeCategory(cs[k], ValuesOf(es, cs[k])))
  }

  /** The option tree the parser is specified to build from its entries. */
  function OptionTree(es: seq<Entry>): seq<Category>
  {
    Groups(es, FirstSeen(es))
  }

  /** `parseFilters`: the split-and-trim step, the reduce that groups the raw values
      in an accumulator keyed by category, and the final map over its entries. */
  method ParseFilters(definition: string) returns (tree: seq<Category>)
    ensures tree == OptionTree(Entries(definition))
  {
    var filters := Entries(definition);
    var order, grouped := GroupEntries(filters);
    tree := seq(|order|, k requires 0 <= k < |order| => MakeCategory(order[k], grouped[order[k]]));
    AccumulatedTree(filters, order, grouped);
  }

  /** The reduce of `parseFilters`: for each entry, create its category's list if it is
      missing, then push the entry's value. `order` is the key order of the accumulator. */
  method GroupEntries(filters: seq<Entry>) returns (order: seq<string>, grouped: map<string, seq<Option<string>>>)
    ensures Accumulated(filters, order, grouped)
  {
    order := [];
    grouped := map[];
    var i := 0;
    while i < |filters|
      invariant 0 <= i <= |filters|
      invariant Accumulated(filters[..i], order, grouped)
    {
      var curr := filters[i];
      assert filters[..i + 1] == filters[..i] + [curr];
      AccumulateStep(filters[..i], curr, order, grouped);
      if curr.category !in grouped {
        grouped := grouped[curr.category := []];
        order := order + [curr.category];
      }
      grouped := grouped[curr.category := grouped[curr.category] + [curr.value]];
      i := i + 1;
    }
    assert filters[..i] == filters;
  }

  /** The final map over the accumulator's entries builds the specified tree. */
  lemma AccumulatedTree(es: seq<Entry>, order: seq<string>, grouped: map<string, seq<Option<string>>>)
    requires Accumulated(es, order, grouped)
    ensures seq(|order|, k requires 0 <= k < |order| => MakeCategory(order[k], grouped[order[k]]))
         == OptionTree(es)
  {
    var tree := seq(|order|, k requires 0 <= k < |order| => MakeCategory(order[k], grouped[order[k]]));
    forall k | 0 <= k < |order|
      ensures tree[k] == OptionTree(es)[k]
    {
      assert grouped[order[k]] == ValuesOf(es, order[k]);
    }
  }

  /** What the reduce's accumulator holds after the entries `es`: the categories in
      first-seen order, each keyed to the values of its entries. */
  ghost predicate Accumulated(es: seq<Entry>, order: seq<string>, grouped: map<string, seq<Option<string>>>)
  {
    && order == FirstSeen(es)
    && (forall c :: c in grouped <==> c in order)
    && (forall c :: c in grouped ==> grouped[c] == ValuesOf(es, c))
  }

  /** One step of the reduce keeps the accumulator in step with the entries seen. */
  lemma AccumulateStep(es: seq<Entry>, e: Entry, order: seq<string>, grouped: map<string, seq<Option<string>>>)
    requires Accumulated(es, order, grouped)
    ensures var g := if e.category in grouped then grouped else grouped[e.category := []];
            var o := if e.category in grouped then order else order + [e.category];
            Accumulated(es + [e], o, g[e.category := g[e.category] + [e.value]])
  {
    if e.category in grouped {
      AccumulateKnown(es, e, order, grouped);
    } else {
      AccumulateNew(es, e, order, grouped);
      assert grouped[e.category := []][e.category := [] + [e.value]] == grouped[e.category := [e.value]];
    }
  }

  /** The step for an entry whose category is already a key: only its list grows. */
  lemma AccumulateKnown(es: seq<Entry>, e: Entry, order: seq<string>, grouped: map<string, seq<Option<string>>>)
    requires Accumulated(es, order, grouped) && e.category in grouped
    ensures Accumulated(es + [e], order, grouped[e.category := grouped[e.category] + [e.value]])
  {
    FirstSeenExtend(es, e);
    var g := grouped[e.category := grouped[e.category] + [e.value]];
    forall c | c in g
      ensures g[c] == ValuesOf(es + [e], c)
    {
      ValuesOfExtendAt(es, e, c);
    }
  }

  /** The step for an entry with a new category: the key is added last, with one value. */
  lemma AccumulateNew(es: seq<Entry>, e: Entry, order: seq<string>, grouped: map<string, seq<Option<string>>>)
    requires Accumulated(es, order, grouped) && e.category !in grouped
    ensures Accumulated(es + [e], order + [e.category], grouped[e.category := [e.value]])
  {
    FirstSeenExtend(es, e);
    ValuesOfAbsent(es, e.category);
    var g := grouped[e.category := [e.value]];
    forall c | c in g
      ensures g[c] == ValuesOf(es + [e], c)
    {
      ValuesOfExtendAt(es, e, c);
    }
  }

  lemma FirstSeenExtend(es: seq<Entry>, e: Entry)
    ensures FirstSeen(es + [e]) ==
      if e.category in FirstSeen(es) then FirstSeen(es) else FirstSeen(es) + [e.category]
  {
    assert (es + [e])[..|es|] == es;
  }

  /** `ValuesOfExtendAt` for every category at once. */
  lemma ValuesOfExtend(es: seq<Entry>, e: Entry)
    ensures forall c ::
      ValuesOf(es + [e], c) == ValuesOf(es, c) + (if e.category == c then [e.value] else [])
  {
    forall c
      ensures ValuesOf(es + [e], c) == ValuesOf(es, c) + (if e.category == c then [e.value] else [])
    {
      ValuesOfExtendAt(es, e, c);
    }
  }

  /** Reading one more entry extends the list of its own category only. */
  lemma ValuesOfExtendAt(es: seq<Entry>, e: Entry, c: string)
    ensures ValuesOf(es + [e], c) == ValuesOf(es, c) + (if e.category == c then [e.value] else [])
  {
    assert (es + [e])[..|es|] == es;
  }

  /** A category that no entry has collects no values. */
  lemma {:induction false} ValuesOfAbsent(es: seq<Entry>, c: string)
    requires c !in Categories(es)
    ensures ValuesOf(es, c) == []
  {
    if |es| > 0 {
      assert Categories(es) == Categories(es[..|es| - 1]) + [es[|es| - 1].category];
      ValuesOfAbsent(es[..|es| - 1], c);
    }
  }

  /** Grouping keeps entry order: the values of `a + b` are those of `a`, then those of `b`. */
  lemma {:induction false} ValuesOfAppend(a: seq<Entry>, b: seq<Entry>, c: string)
    ensures ValuesOf(a + b, c) == ValuesOf(a, c) + ValuesOf(b, c)
    decreases |b|
  {
    if |b| > 0 {
      assert (a + b)[..|a + b| - 1] == a + b[..|b| - 1];
      ValuesOfAppend(a, b[..|b| - 1], c);
    } else {
      assert a + b == a;
    }
  }

  /** A single entry contributes its value to its own category and to no other. */
  lemma ValuesOfSingle(e: Entry, c: string)
    ensures ValuesOf([e], c) == if e.category == c then [e.value] else []
  {
    assert [e][..0] == [];
  }

  /** Every collected value comes from an entry of that category. */
  lemma {:induction false} ValueSource(es: seq<Entry>, c: string, j: nat) returns (i: nat)
    requires j < |ValuesOf(es, c)|
    ensures i < |es| && es[i].category == c && es[i].value == ValuesOf(es, c)[j]
  {
    var init := es[..|es| - 1];
    if j < |ValuesOf(init, c)| {
      i := ValueSource(init, c, j);
    } else {
      i := |es| - 1;
    }
  }

  /** The index of the first occurrence of `c` in `xs`. */
  function FirstIndex(xs: seq<string>, c: string): (r: nat)
    requires c in xs
    ensures r < |xs| && xs[r] == c
    ensures forall q :: 0 <= q < r ==> xs[q] != c
  {
    if xs[0] == c then 0 else 1 + FirstIndex(xs[1..], c)
  }

  lemma FirstIndexExtend(xs: seq<string>, x: string, c: string)
    requires c in xs + [x]
    ensures c in xs ==> FirstIndex(xs + [x], c) == FirstIndex(xs, c)
    ensures c !in xs ==> FirstIndex(xs + [x], c) == |xs|
  {
    if c in xs {
      var r0 := FirstIndex(xs, c);
      assert (xs + [x])[r0] == c;
    }
  }

  /** First-seen order: an earlier category node's name occurs earlier among the entries. */
  lemma {:induction false} FirstSeenOrder(es: seq<Entry>, i: nat, j: nat)
    requires i < j < |FirstSeen(es)|
    ensures FirstIndex(Categories(es), FirstSeen(es)[i]) < FirstIndex(Categories(es), FirstSeen(es)[j])
  {
    var init := es[..|es| - 1];
    var prev := FirstSeen(init);
    var c := es[|es| - 1].category;
    assert Categories(es) == Categories(init) + [c];
    var ci, cj := FirstSeen(es)[i], FirstSeen(es)[j];
    FirstIndexExtend(Categories(init), c, ci);
    FirstIndexExtend(Categories(init), c, cj);
    if j < |prev| {
      FirstSeenOrder(init, i, j);
    } else {
      assert cj == c && c !in prev;
    }
  }

  /** The sum, over the names `cs`, of the number of values each collects. */
  function CountIn(es: seq<Entry>, cs: seq<string>): nat
  {
    if |cs| == 0 then 0 else CountIn(es, cs[..|cs| - 1]) + |ValuesOf(es, cs[|cs| - 1])|
  }

  /** Adding one entry adds one to the count of a distinct name list holding its category. */
  lemma {:induction false} CountInExtend(es: seq<Entry>, e: Entry, cs: seq<string>)
    requires Distinct(cs)
    ensures CountIn(es + [e], cs) == CountIn(es, cs) + (if e.category in cs then 1 else 0)
  {
    if |cs| > 0 {
      var init := cs[..|cs| - 1];
      var last := cs[|cs| - 1];
      assert Distinct(init);
      assert last !in init;
      assert cs == init + [last];
      CountInExtend(es, e, init);
      ValuesOfAppend(es, [e], last);
      ValuesOfSingle(e, last);
    }
  }

  lemma {:induction false} CountInFirstSeen(es: seq<Entry>)
    ensures CountIn(es, FirstSeen(es)) == |es|
  {
    if |es| > 0 {
      var init := es[..|es| - 1];
      var e := es[|es| - 1];
      var prev := FirstSeen(init);
      assert init + [e] == es;
      CountInFirstSeen(init);
      CountInExtend(init, e, prev);
      if e.category !in prev {
        assert FirstSeen(es) == prev + [e.category];
        assert (prev + [e.category])[..|prev|] == prev;
        ValuesOfAbsent(init, e.category);
        ValuesOfAppend(init, [e], e.category);
        ValuesOfSingle(e, e.category);
      }
    }
  }

  /** The total number of leaves under the category nodes. */
  function LeafCount(tree: seq<Category>): nat
  {
    if |tree| == 0 then 0 else LeafCount(tree[..|tree| - 1]) + |tree[|tree| - 1].options|
  }

  lemma {:induction false} LeafCountGroups(es: seq<Entry>, cs: seq<string>)
    ensures LeafCount(Groups(es, cs)) == CountIn(es, cs)
  {
    if |cs| > 0 {
      var init := cs[..|cs| - 1];
      assert Groups(es, cs)[..|cs| - 1] == Groups(es, init);
      LeafCountGroups(es, init);
    }
  }

  /** No deduplication: the tree has exactly one leaf per `;`-separated entry. */
  lemma LeafCountIsEntryCount(definition: string)
    ensures LeafCount(OptionTree(Entries(definition))) == |Split(definition, ';')|
  {
    var es := Entries(definition);
    LeafCountGroups(es, FirstSeen(es));
    CountInFirstSeen(es);
  }

  /** The shape of every node and leaf of a tree built from entries: a node's label
      and value are its category name; a leaf's label is the raw value of an entry of
      that category and its value is `category:label`. */
  lemma TreeShape(es: seq<Entry>, k: nat, j: nat) returns (i: nat)
    requires k < |OptionTree(es)| && j < |OptionTree(es)[k].options|
    ensures var node := OptionTree(es)[k];
            var leaf := node.options[j];
            && node.text == node.value
            && leaf.value == node.text + ":" + leaf.text.GetOr("undefined")
            && i < |es| && es[i] == Entry(node.text, leaf.text)
  {
    var c := FirstSeen(es)[k];
    i := ValueSource(es, c, j);
  }

  /** No category and no raw value of the entries holds a colon. */
  predicate ColonFree(es: seq<Entry>)
  {
    forall i :: 0 <= i < |es| ==> ':' !in es[i].category && (es[i].value.Some? ==> ':' !in es[i].value.value)
  }

  /** Parsed entries are colon-free. */
  lemma EntriesColonFree(definition: string)
    ensures ColonFree(Entries(definition))
  {
    var es := Entries(definition);
    var pieces := Split(definition, ';');
    forall i | 0 <= i < |es|
      ensures ':' !in es[i].category && (es[i].value.Some? ==> ':' !in es[i].value.value)
    {
      assert es[i] == ParseEntry(pieces[i]);
    }
  }

  /** In a tree built from colon-free entries no node name and no leaf label has a
      colon, so every token has exactly the one colon between them. */
  lemma TokenShape(es: seq<Entry>, k: nat, j: nat)
    requires ColonFree(es)
    requires k < |OptionTree(es)| && j < |OptionTree(es)[k].options|
    ensures var node := OptionTree(es)[k];
            var leaf := node.options[j];
            && ':' !in node.text
            && (leaf.text.Some? ==> ':' !in leaf.text.value)
            && leaf.value == node.text + ":" + leaf.text.GetOr("undefined")
  {
    var i := TreeShape(es, k, j);
  }

  /** In a parsed tree no category name and no raw value has a colon, so every token
      has exactly the one colon between them. */
  lemma ParsedTokenShape(definition: string, k: nat, j: nat)
    requires k < |OptionTree(Entries(definition))|
    requires j < |OptionTree(Entries(definition))[k].options|
    ensures var node := OptionTree(Entries(definition))[k];
            var leaf := node.options[j];
            && ':' !in node.text
            && (leaf.text.Some? ==> ':' !in leaf.text.value)
            && leaf.value == node.text + ":" + leaf.text.GetOr("undefined")
  {
    EntriesColonFree(definition);
    TokenShape(Entries(definition), k, j);
  }

  /** A character that is neither separator nor white space. */
  predicate PlainChar(c: char)
  {
    c != ':' && c != ';' && !IsWhitespace(c)
  }

  lemma ParseOneEntry(c: char, v: char)
    requires PlainChar(c) && PlainChar(v)
    ensures ParseEntry([c, ':', v]) == Entry([c], Some([v]))
  {
    assert [c, ':', v] == [c] + ":" + [v];
    ParseEntrySingleColon([c], [v]);
    TrimUnchanged([c]);
    TrimUnchanged([v]);
  }

  lemma EntriesOfThree(definition: string, p0: string, p1: string, p2: string)
    requires Split(definition, ';') == [p0, p1, p2]
    ensures Entries(definition) == [ParseEntry(p0), ParseEntry(p1), ParseEntry(p2)]
  {
    ParseAllOfThree(p0, p1, p2);
  }

  /** Three pieces parse to their three entries, in order. */
  lemma ParseAllOfThree(p0: string, p1: string, p2: string)
    ensures ParseAll([p0, p1, p2]) == [ParseEntry(p0), ParseEntry(p1), ParseEntry(p2)]
  {
    var es := ParseAll([p0, p1, p2]);
    assert es[0] == ParseEntry(p0);
    assert es[1] == ParseEntry(p1);
    assert es[2] == ParseEntry(p2);
    SameThree(es, [ParseEntry(p0), ParseEntry(p1), ParseEntry(p2)]);
  }

  /** Two three-element lists that agree at each position are equal; stated apart so
      that the comparison is made without the parser's definitions in view. */
  lemma SameThree<T>(xs: seq<T>, ys: seq<T>)
    requires |xs| == 3 == |ys| && xs[0] == ys[0] && xs[1] == ys[1] && xs[2] == ys[2]
    ensures xs == ys
  {
  }

  /** The entries of the definition `a:x;a:y;b:z`. */
  lemma EntriesExample(a: char, b: char, x: char, y: char, z: char)
    requires PlainChar(a) && PlainChar(b) && PlainChar(x) && PlainChar(y) && PlainChar(z)
    ensures Entries([a, ':', x, ';', a, ':', y, ';', b, ':', z]) ==
      [Entry([a], Some([x])), Entry([a], Some([y])), Entry([b], Some([z]))]
  {
    var d := [a, ':', x, ';', a, ':', y, ';', b, ':', z];
    var p0, p1, p2 := [a, ':', x], [a, ':', y], [b, ':', z];
    assert d == p0 + [';'] + (p1 + [';'] + p2);
    SplitAfterPiece(p0, ';', p1 + [';'] + p2);
    SplitAfterPiece(p1, ';', p2);
    SplitNoSeparator(p2, ';');
    EntriesOfThree(d, p0, p1, p2);
    ParseOneEntry(a, x);
    ParseOneEntry(a, y);
    ParseOneEntry(b, z);
  }

  /** The first-seen categories of three entries whose first two share a category. */
  lemma FirstSeenOfThree(ea: Entry, eb: Entry, ec: Entry)
    requires ea.category == eb.category != ec.category
    ensures FirstSeen([ea, eb, ec]) == [ea.category, ec.category]
  {
    assert [] + [ea] == [ea];
    assert [ea] + [eb] == [ea, eb];
    assert [ea, eb] + [ec] == [ea, eb, ec];
    FirstSeenExtend([], ea);
    FirstSeenExtend([ea], eb);
    FirstSeenExtend([ea, eb], ec);
  }

  /** The value lists of three entries whose first two share a category. */
  lemma ValuesOfThree(ea: Entry, eb: Entry, ec: Entry)
    requires ea.category == eb.category != ec.category
    ensures ValuesOf([ea, eb, ec], ea.category) == [ea.value, eb.value]
    ensures ValuesOf([ea, eb, ec], ec.category) == [ec.value]
  {
    assert [] + [ea] == [ea];
    assert [ea] + [eb] == [ea, eb];
    assert [ea, eb] + [ec] == [ea, eb, ec];
    ValuesOfExtend([], ea);
    ValuesOfExtend([ea], eb);
    ValuesOfExtend([ea, eb], ec);
  }

  /** Three entries whose first two share a category group into two nodes. */
  lemma TreeOfThree(ea: Entry, eb: Entry, ec: Entry)
    requires ea.category == eb.category != ec.category
    ensures OptionTree([ea, eb, ec]) ==
      [MakeCategory(ea.category, [ea.value, eb.value]), MakeCategory(ec.category, [ec.value])]
  {
    var es := [ea, eb, ec];
    FirstSeenOfThree(ea, eb, ec);
    ValuesOfThree(ea, eb, ec);
    var t := OptionTree(es);
    assert t[0] == MakeCategory(ea.category, [ea.value, eb.value]);
    assert t[1] == MakeCategory(ec.category, [ec.value]);
  }

  /** A node with two values, leaf by leaf. */
  lemma MakeCategoryOfTwo(c: string, v0: Option<string>, v1: Option<string>)
    ensures MakeCategory(c, [v0, v1]) == Category(c, c, [Leaf(v0, Token(c, v0)), Leaf(v1, Token(c, v1))])
  {
    var options := MakeCategory(c, [v0, v1]).options;
    assert options[0] == Leaf(v0, Token(c, v0)) && options[1] == Leaf(v1, Token(c, v1));
  }

  /** A node with one value. */
  lemma MakeCategoryOfOne(c: string, v: Option<string>)
    ensures MakeCategory(c, [v]) == Category(c, c, [Leaf(v, Token(c, v))])
  {
    assert MakeCategory(c, [v]).options[0] == Leaf(v, Token(c, v));
  }

  /** Example: `A:1;A:2;B:3`, for any plain characters in place of the
      letters and digits: two categories in first-seen order, the first holding two
      leaves in entry order. */
  lemma ParseExample(a: char, b: char, x: char, y: char, z: char)
    requires PlainChar(a) && PlainChar(b) && PlainChar(x) && PlainChar(y) && PlainChar(z)
    requires a != b
    ensures OptionTree(Entries([a, ':', x, ';', a, ':', y, ';', b, ':', z])) ==
      [ Category([a], [a], [Leaf(Some([x]), [a, ':', x]), Leaf(Some([y]), [a, ':', y])]),
        Category([b], [b], [Leaf(Some([z]), [b, ':', z])]) ]
  {
    EntriesExample(a, b, x, y, z);
    TreeExample(a, b, x, y, z);
  }

  /** The tree of the entries `(a,x)`, `(a,y)`, `(b,z)`. */
  lemma TreeExample(a: char, b: char, x: char, y: char, z: char)
    requires a != b
    ensures OptionTree([Entry([a], Some([x])), Entry([a], Some([y])), Entry([b], Some([z]))]) ==
      [ Category([a], [a], [Leaf(Some([x]), [a, ':', x]), Leaf(Some([y]), [a, ':', y])]),
        Category([b], [b], [Leaf(Some([z]), [b, ':', z])]) ]
  {
    TreeOfThree(Entry([a], Some([x])), Entry([a], Some([y])), Entry([b], Some([z])));
    MakeCategoryOfTwo([a], Some([x]), Some([y]));
    MakeCategoryOfOne([b], Some([z]));
    assert Token([a], Some([x])) == [a, ':', x];
    assert Token([a], Some([y])) == [a, ':', y];
    assert Token([b], Some([z])) == [b, ':', z];
  }

  /** The empty definition is one empty entry, so the tree holds one category named
      "" whose single leaf has an absent label and the token ":undefined". */
  lemma ParseEmpty()
    ensures OptionTree(Entries("")) == [Category("", "", [Leaf(None, ":undefined")])]
  {
    ParseEntryNoColon("");
    var e := Entry("", None);
    assert Entries("") == [e];
    FirstSeenExtend([], e);
    ValuesOfExtend([], e);
    assert [] + [e] == [e];
    assert FirstSeen([e]) == [""];
    assert ValuesOf([e], "") == [None];
    assert Token("", None) == ":undefined";
    assert MakeCategory("", [None]).options[0] == Leaf(None, ":undefined");
    assert MakeCategory("", [None]).options == [Leaf(None, ":undefined")];
  }
}
