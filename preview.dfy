/** The preview panel's text: the truncated id, and the "Additional Details" list with
    its labels and the format each numeric value is shown in. */
module Preview {
  import opened Strings
  import opened Types
  import DataTable

  /** The preview's id line, the same text as the table's creative-id cell. */
  function TruncatedId(data: AdData): (r: string)
    ensures |r| == 2 + (if |data.creative_id| < 4 then |data.creative_id| else 4)
    ensures r[..2] == ".."
    ensures data.creative_id == data.creative_id[..|data.creative_id| - (|r| - 2)] + r[2..]
  {
    DataTable.CreativeIdCell(data.creative_id)
  }

  /** The three ways a number is shown: `(v * 100).toFixed(2) + "%"`,
      `"$" + v.toFixed(2)` and `v.toLocaleString()`. */
  datatype NumberFormat = Percent | Currency | Locale

  /** A detail's value: a number with its format, or the text `String(value)`. */
  datatype Shown = Formatted(format: NumberFormat, number: int) | Plain(text: string)

  datatype Detail = Detail(key: string, title: string, shown: Shown)

  /** `key.replace(/_/g, " ")`. */
  function Label(key: string): (r: string)
    ensures |r| == |key| && '_' !in r
    ensures forall i :: 0 <= i < |key| && key[i] != '_' ==> r[i] == key[i]
    ensures forall i :: 0 <= i < |key| && key[i] == '_' ==> r[i] == ' '
  {
    seq(|key|, i requires 0 <= i < |key| => if key[i] == '_' then ' ' else key[i])
  }

  /** The number format for a key: `ctr` first, then keys containing "cost" or equal
      to "spend", then the rest. */
  function FormatOf(key: string): (f: NumberFormat)
    ensures f == Percent <==> key == "ctr"
    ensures f == Currency <==> key != "ctr" && (Contains(key, "cost") || key == "spend")
  {
    if key == "ctr" then Percent
    else if Contains(key, "cost") || key == "spend" then Currency
    else Locale
  }

  function ShownValue(key: string, value: CellValue): (r: Shown)
    ensures r.Formatted? <==> value.Number?
    ensures r.Formatted? ==> r.number == value.number && r.format == FormatOf(key)
    ensures r.Plain? ==> r.text == StringOf(value)
  {
    match value
    case Number(n) => Formatted(FormatOf(key), n)
    case _ => Plain(StringOf(value))
  }

  /** Every field is listed except the id and the name, shown above the list. */
  predicate Listed(key: string)
    ensures Listed(key) <==> key !in ["creative_id", "creative_name"]
  {
    key != "creative_id" && key != "creative_name"
  }

  function MakeDetail(field: (string, CellValue)): (d: Detail)
    ensures d.key == field.0 && |d.title| == |field.0| && '_' !in d.title
    ensures d.title == Label(field.0) && d.shown == ShownValue(field.0, field.1)
    ensures d.shown.Formatted? <==> field.1.Number?
  {
    Detail(field.0, Label(field.0), ShownValue(field.0, field.1))
  }

  /** The details list over `Object.entries(data)`, in entry order. */
  function Details(fields: seq<(string, CellValue)>): (ds: seq<Detail>)
    ensures |ds| <= |fields|
    ensures forall i :: 0 <= i < |ds| ==> Listed(ds[i].key)
  {
    if |fields| == 0 then []
    else
      var last := fields[|fields| - 1];
      Details(fields[..|fields| - 1]) + (if Listed(last.0) then [MakeDetail(last)] else [])
  }

  /** The list keeps the field order: it distributes over concatenation. */
  lemma {:induction false} DetailsAppend(a: seq<(string, CellValue)>, b: seq<(string, CellValue)>)
    ensures Details(a + b) == Details(a) + Details(b)
    decreases |b|
  {
    if |b| == 0 {
      assert a + b == a;
    } else {
      assert (a + b)[..|a + b| - 1] == a + b[..|b| - 1];
      DetailsAppend(a, b[..|b| - 1]);
    }
  }

  /** Exactly the listed fields appear: every detail is made from a listed field, and
      every listed field has its detail. */
  lemma {:induction false} DetailsListed(fields: seq<(string, CellValue)>)
    ensures forall d :: d in Details(fields) ==> Listed(d.key) && exists f :: f in fields && d == MakeDetail(f)
    ensures forall f :: f in fields && Listed(f.0) ==> MakeDetail(f) in Details(fields)
  {
    if |fields| > 0 {
      DetailsListed(fields[..|fields| - 1]);
      assert fields == fields[..|fields| - 1] + [fields[|fields| - 1]];
    }
  }

  /** The format of every numeric field of a row: `ctr` is a percentage, `spend` and the
      two cost fields are currency, and `ipm`, `impressions`, `clicks` and `cpm` use
      the locale format. */
  lemma RowNumberFormats()
    ensures FormatOf("ctr") == Percent
    ensures FormatOf("spend") == Currency
    ensures FormatOf("cost_per_click") == Currency && FormatOf("cost_per_install") == Currency
    ensures FormatOf("ipm") == Locale && FormatOf("impressions") == Locale
    ensures FormatOf("clicks") == Locale && FormatOf("cpm") == Locale
  {
    assert OccursAt("cost_per_click", "cost", 0);
    assert OccursAt("cost_per_install", "cost", 0);
    NotContainsMissingChar("ipm", "cost", 0);
    NotContainsMissingChar("impressions", "cost", 0);
    NotContainsMissingChar("clicks", "cost", 3);
    NotContainsMissingChar("cpm", "cost", 1);
  }

  /** When every field is listed, the details are the fields' details in order. */
  lemma {:induction false} DetailsAllListed(fields: seq<(string, CellValue)>)
    requires forall i :: 0 <= i < |fields| ==> Listed(fields[i].0)
    ensures Details(fields) == seq(|fields|, i requires 0 <= i < |fields| => MakeDetail(fields[i]))
  {
    if |fields| > 0 {
      DetailsAllListed(fields[..|fields| - 1]);
    }
  }

  /** The preview of a row lists its fourteen fields other than the id and the name,
      in declaration order, with `ctr` as a percentage, `spend` and the cost fields as
      currency and the other numbers in the locale format. */
  lemma RowDetails(row: AdData)
    ensures var ds := Details(FieldsOf(row));
            && |ds| == 14
            && (forall i :: 0 <= i < 14 ==> ds[i] == MakeDetail(FieldsOf(row)[i + 2]))
            && ds[0].key == "tags" && ds[0].shown == Plain(row.tags)
            && ds[7].shown == Formatted(Percent, row.ctr)
            && ds[8].shown == Formatted(Currency, row.spend)
            && ds[12].shown == Formatted(Currency, row.cost_per_click)
            && ds[13].shown == Formatted(Currency, row.cost_per_install)
            && ds[6].shown == Formatted(Locale, row.ipm)
  {
    var fs := FieldsOf(row);
    DetailsSkipHeader(fs);
    DetailsAllListed(fs[2..]);
    var ds := Details(fs);
    assert ds[0] == MakeDetail(fs[2]) && ds[6] == MakeDetail(fs[8]) && ds[7] == MakeDetail(fs[9]);
    assert ds[8] == MakeDetail(fs[10]) && ds[12] == MakeDetail(fs[14]) && ds[13] == MakeDetail(fs[15]);
    RowNumberFormats();
  }

  /** The two fields shown above the list contribute no detail. */
  lemma DetailsSkipHeader(fs: seq<(string, CellValue)>)
    requires |fs| >= 2 && fs[0].0 == "creative_id" && fs[1].0 == "creative_name"
    ensures Details(fs) == Details(fs[2..])
  {
    assert fs == fs[..2] + fs[2..];
    DetailsAppend(fs[..2], fs[2..]);
    assert fs[..2] == [fs[0]] + [fs[1]];
    DetailsAppend([fs[0]], [fs[1]]);
  }
}
