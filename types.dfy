/** The row record the table and the preview display (`AdData`), and the dynamic value
    a cell holds at run time. */
module Types {
  import opened Strings

  /** One advertising-creative row. Numbers are modelled as integers. */
  datatype AdData = AdData(
    creative_id: string,
    creative_name: string,
    tags: string,
    country: string,
    ad_network: string,
    os: string,
    campaign: string,
    ad_group: string,
    ipm: int,
    ctr: int,
    spend: int,
    impressions: int,
    clicks: int,
    cpm: int,
    cost_per_click: int,
    cost_per_install: int)

  /** What `row.getValue(column)` or `Object.entries(row)` yields for one field: a row
      parsed from CSV may lack a field (`undefined`) or hold `null`. */
  datatype CellValue = Undefined | Null | Text(text: string) | Number(number: int)

  /** `Object.entries(row)` for a row whose keys are in declaration order. */
  function FieldsOf(row: AdData): seq<(string, CellValue)>
  {
    [ ("creative_id", Text(row.creative_id)), ("creative_name", Text(row.creative_name)),
      ("tags", Text(row.tags)), ("country", Text(row.country)),
      ("ad_network", Text(row.ad_network)), ("os", Text(row.os)),
      ("campaign", Text(row.campaign)), ("ad_group", Text(row.ad_group)),
      ("ipm", Number(row.ipm)), ("ctr", Number(row.ctr)), ("spend", Number(row.spend)),
      ("impressions", Number(row.impressions)), ("clicks", Number(row.clicks)),
      ("cpm", Number(row.cpm)), ("cost_per_click", Number(row.cost_per_click)),
      ("cost_per_install", Number(row.cost_per_install)) ]
  }

  /** JavaScript's `String(value)`. */
  function StringOf(v: CellValue): (r: string)
    ensures v.Null? ==> r == "null"
    ensures v.Undefined? ==> r == "undefined"
    ensures v.Text? ==> r == v.text
    ensures v.Number? ==> |r| >= 1 && (r[0] == '-' <==> v.number < 0)
    ensures v.Number? && v.number >= 0 ==> DigitsValue(r) == v.number
    ensures v.Number? && v.number < 0 ==> DigitsValue(r[1..]) == -v.number
  {
    match v
    case Undefined => "undefined"
    case Null => "null"
    case Text(s) => s
    case Number(n) => IntToString(n)
  }
}
