/**
 * The query parameters of a badge request and their normalisation by
 * `getLabel` and `getBadgeData` in server.js.
 */
module Params {
  import opened Wrappers
  import opened Colors

  /** The `link` parameter: absent, given once (a string) or repeated (an array). */
  datatype Link = NoLink | OneLink(url: string) | ManyLinks(urls: seq<string>)

  /** The parsed query string: `undefined` fields are `None`. */
  datatype Query = Query(
    labelParam: Option<string>,
    style: Option<string>,
    logo: Option<string>,
    logoWidth: Option<string>,
    link: Link,
    colorA: Option<string>,
    colorB: Option<string>,
    maxAge: Option<string>)

  /** The badge description handed to the renderer; `text` is `[subject, status]`. */
  datatype BadgeData = BadgeData(
    subject: string,
    status: string,
    colorscheme: string,
    template: string,
    logo: Option<string>,
    logoWidth: Option<string>,
    links: seq<string>,
    colorA: Option<string>,
    colorB: Option<string>)

  const ValidTemplates: seq<string> := ["default", "plastic", "flat", "flat-square", "social"]

  /** JavaScript truthiness of an optional string: `undefined` and `''` are falsy. */
  predicate Truthy(o: Option<string>) { o.Some? && o.value != "" }

  predicate StartsWith(s: string, prefix: string) { |prefix| <= |s| && s[..|prefix|] == prefix }

  /** `getLabel(label, data)`: `data.label || label`. */
  function GetLabel(defaultLabel: string, data: Query): (r: string)
    ensures Truthy(data.labelParam) ==> r == data.labelParam.value
    ensures !Truthy(data.labelParam) ==> r == defaultLabel
  {
    if Truthy(data.labelParam) then data.labelParam.value else defaultLabel
  }

  /** The `template` of `getBadgeData`: `data.style || 'default'`, then replaced by
      `data.style` when it is a valid template. */
  function Template(style: Option<string>): (r: string)
    ensures Truthy(style) ==> r == style.value
    ensures !Truthy(style) ==> r == "default"
  {
    var template := if Truthy(style) then style.value else "default";
    if Truthy(style) && style.value in ValidTemplates then style.value else template
  }

  /** `data.link` after `getBadgeData`: always an array, keeping the given links in order. */
  function WrapLink(l: Link): (r: Link)
    ensures r.ManyLinks?
    ensures l.NoLink? ==> r.urls == []
    ensures l.OneLink? ==> r.urls == [l.url]
    ensures l.ManyLinks? ==> r == l
  {
    match l
    case NoLink => ManyLinks([])
    case OneLink(u) => ManyLinks([u])
    case ManyLinks(_) => l
  }

  /** `data.logo` after `getBadgeData`: a given logo always starts with `data:`. */
  function DataLogo(logo: Option<string>): (r: Option<string>)
    ensures r.Some? <==> logo.Some?
    ensures r.Some? ==> StartsWith(r.value, "data:")
    ensures logo.Some? && StartsWith(logo.value, "data:") ==> r == logo
    ensures logo.Some? && !StartsWith(logo.value, "data:") ==> r == Some("data:" + logo.value)
  {
    match logo
    case None => None
    case Some(s) => if StartsWith(s, "data:") then logo else Some("data:" + s)
  }

  /** `data.colorA` / `data.colorB` after `getBadgeData`. */
  function ColorOption(c: Option<string>): (r: Option<string>)
    ensures r.Some? <==> c.Some?
    ensures r.Some? ==> !SixHex(r.value)
    ensures c.Some? ==> r.value == ColorParam(c.value)
  {
    match c
    case None => None
    case Some(s) => Some(ColorParam(s))
  }

  /** The query as `getBadgeData` leaves it: the four fields it rewrites in place. */
  function Normalised(q: Query): (r: Query)
    ensures r.link.ManyLinks?
    ensures r.labelParam == q.labelParam && r.style == q.style && r.logoWidth == q.logoWidth && r.maxAge == q.maxAge
  {
    q.(link := WrapLink(q.link), logo := DataLogo(q.logo),
       colorA := ColorOption(q.colorA), colorB := ColorOption(q.colorB))
  }

  /** The badge `getBadgeData(defaultLabel, data)` returns. */
  function BadgeDataOf(defaultLabel: string, q: Query): (b: BadgeData)
    ensures b.subject == GetLabel(defaultLabel, q) && b.status == "n/a" && b.colorscheme == "lightgrey"
    ensures b.template == Template(q.style) && b.logoWidth == q.logoWidth
    ensures b.links == WrapLink(q.link).urls && b.logo == DataLogo(q.logo)
    ensures b.colorA == ColorOption(q.colorA) && b.colorB == ColorOption(q.colorB)
  {
    var n := Normalised(q);
    BadgeData(GetLabel(defaultLabel, q), "n/a", "lightgrey", Template(q.style),
              n.logo, q.logoWidth, n.link.urls, n.colorA, n.colorB)
  }

  /** Normalising twice is normalising once, so every later `getBadgeData` call on
      the same query object (the vendor's, then the timeout's) sees the same data. */
  lemma NormaliseIdempotent(q: Query)
    ensures Normalised(Normalised(q)) == Normalised(q)
  {
    if q.logo.Some? {
      assert StartsWith(DataLogo(q.logo).value, "data:");
    }
    if q.colorA.Some? { ColorParamIdempotent(q.colorA.value); }
    if q.colorB.Some? { ColorParamIdempotent(q.colorB.value); }
  }

  /** `getBadgeData` gives the same badge on a query it has already normalised. */
  lemma BadgeDataStable(defaultLabel: string, q: Query)
    ensures BadgeDataOf(defaultLabel, Normalised(q)) == BadgeDataOf(defaultLabel, q)
  {
    NormaliseIdempotent(q);
  }

  /** Every style that is given is used as the template, valid or not: the
      `validTemplates` test in `getBadgeData` never changes the result. */
  lemma TemplateKeepsUnknownStyle(s: string)
    requires s != "" && s !in ValidTemplates
    ensures Template(Some(s)) == s
  {
  }

  /** The mutable `data` object of a request (the parsed query string). */
  class QueryData {
    var labelParam: Option<string>
    var style: Option<string>
    var logo: Option<string>
    var logoWidth: Option<string>
    var link: Link
    var colorA: Option<string>
    var colorB: Option<string>
    var maxAge: Option<string>

    /** The current field values as one query value. */
    function Snapshot(): Query
      reads this
    {
      Query(labelParam, style, logo, logoWidth, link, colorA, colorB, maxAge)
    }

    constructor (q: Query)
      ensures Snapshot() == q
    {
      labelParam, style, logo, logoWidth := q.labelParam, q.style, q.logo, q.logoWidth;
      link, colorA, colorB, maxAge := q.link, q.colorA, q.colorB, q.maxAge;
    }
  }

  /** `getBadgeData(defaultLabel, data)`: builds the default badge (label, `n/a`,
      `lightgrey`) and rewrites `data.link`, `data.logo`, `data.colorA` and
      `data.colorB` in place. */
  method GetBadgeData(defaultLabel: string, data: QueryData) returns (b: BadgeData)
    modifies data
    ensures data.Snapshot() == Normalised(old(data.Snapshot()))
    ensures b == BadgeDataOf(defaultLabel, old(data.Snapshot()))
    ensures b.subject == GetLabel(defaultLabel, old(data.Snapshot())) && b.status == "n/a"
    ensures b.colorscheme == "lightgrey"
  {
    var subject := GetLabel(defaultLabel, data.Snapshot());
    var template := if Truthy(data.style) then data.style.value else "default";
    if Truthy(data.style) && data.style.value in ValidTemplates {
      template := data.style.value;
    }
    if !data.link.ManyLinks? {
      if data.link.NoLink? {
        data.link := ManyLinks([]);
      } else {
        data.link := ManyLinks([data.link.url]);
      }
    }
    if data.logo.Some? && !StartsWith(data.logo.value, "data:") {
      data.logo := Some("data:" + data.logo.value);
    }
    if data.colorA.Some? {
      data.colorA := Some(ColorParam(data.colorA.value));
    }
    if data.colorB.Some? {
      data.colorB := Some(ColorParam(data.colorB.value));
    }
    b := BadgeData(subject, "n/a", "lightgrey", template,
                   data.logo, data.logoWidth, data.link.urls, data.colorA, data.colorB);
  }
}
