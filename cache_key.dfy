/**
 * The cache index of server.js's `cache()` wrapper: the route match followed by
 * the presentation parameters, each concatenated as JavaScript concatenates it.
 */
module CacheKey {
  import opened Wrappers
  import opened Params

  /** `'' + v` for a query parameter: an absent parameter prints as `undefined`. */
  function Render(o: Option<string>): string
  {
    match o
    case None => "undefined"
    case Some(s) => s
  }

  function HexLower(d: nat): (c: char)
    requires d < 16
  {
    if d < 10 then ('0' as int + d) as char else ('a' as int + d - 10) as char
  }

  /** One character inside a JSON string literal, as `JSON.stringify` writes it. */
  function JsonChar(c: char): (r: string)
    ensures r != []
    ensures c != '"' && c != '\\' && c as int >= 0x20 ==> r == [c]
    ensures c == '"' || c == '\\' || c as int < 0x20 ==> |r| >= 2 && r[0] == '\\'
    ensures forall k | 0 <= k < |r| :: r[k] as int >= 0x20
    ensures forall k | 0 <= k < |r| && r[k] == '"' :: k > 0 && r[k - 1] == '\\'
  {
    if c == '"' then "\\\""
    else if c == '\\' then "\\\\"
    else if c as int == 8 then "\\b"
    else if c == '\t' then "\\t"
    else if c == '\n' then "\\n"
    else if c as int == 12 then "\\f"
    else if c == '\r' then "\\r"
    else if c as int < 0x20 then "\\u00" + [HexLower(c as int / 16), HexLower(c as int % 16)]
    else [c]
  }

  function JsonChars(s: string): string
  {
    if s == [] then [] else JsonChar(s[0]) + JsonChars(s[1..])
  }

  /** `JSON.stringify(s)` for a string. */
  function JsonString(s: string): (r: string)
    ensures |r| >= 2 && r[0] == '"' && r[|r| - 1] == '"'
  {
    "\"" + JsonChars(s) + "\""
  }

  function JsonElements(us: seq<string>): string
  {
    if us == [] then []
    else if |us| == 1 then JsonString(us[0])
    else JsonString(us[0]) + "," + JsonElements(us[1..])
  }

  /** `'' + JSON.stringify(data.link)`: `undefined`, a string literal, or an array of them. */
  function RenderLink(l: Link): string
  {
    match l
    case NoLink => "undefined"
    case OneLink(u) => JsonString(u)
    case ManyLinks(us) => "[" + JsonElements(us) + "]"
  }

  /** `cacheIndex`: the route match, then `label`, `style`, `logo`, `logoWidth`,
      `link`, `colorA` and `colorB`; `maxAge` is not part of it. */
  function CacheIndex(match0: string, q: Query): (r: string)
    ensures |r| > |match0| + 7 && r[..|match0|] == match0 && r[|match0|..|match0| + 7] == "?label="
  {
    match0 + "?label=" + Render(q.labelParam) + AfterLabel(q)
  }

  /** What follows the label in the cache index. */
  function AfterLabel(q: Query): string
  {
    "&style=" + Render(q.style) + AfterStyle(q)
  }

  /** What follows the style in the cache index. */
  function AfterStyle(q: Query): string
  {
    "&logo=" + Render(q.logo) + "&logoWidth=" + Render(q.logoWidth)
      + "&link=" + RenderLink(q.link) + "&colorA=" + Render(q.colorA)
      + "&colorB=" + Render(q.colorB)
  }

  /** Requests that differ only in parameters left out of the index (`maxAge`)
      share one cache entry. */
  lemma IndexIgnoresMaxAge(match0: string, q: Query, maxAge: Option<string>)
    ensures CacheIndex(match0, q.(maxAge := maxAge)) == CacheIndex(match0, q)
  {
  }

  /** With everything else equal, labels that print differently give different indexes. */
  lemma IndexSeparatesLabels(match0: string, q: Query, other: Option<string>)
    requires Render(other) != Render(q.labelParam)
    ensures CacheIndex(match0, q.(labelParam := other)) != CacheIndex(match0, q)
  {
    var q' := q.(labelParam := other);
    var p := match0 + "?label=";
    var a, b, t := Render(q.labelParam), Render(other), AfterLabel(q);
    assert AfterLabel(q') == t;
    if |a| == |b| {
      assert (p + b + t)[|p|..|p| + |b|] == b;
      assert (p + a + t)[|p|..|p| + |a|] == a;
    }
  }

  /** An absent label and the literal label `undefined` share one cache entry,
      although `getLabel` treats them differently. */
  lemma IndexUndefinedLabelCollision(match0: string, q: Query)
    ensures CacheIndex(match0, q.(labelParam := None)) == CacheIndex(match0, q.(labelParam := Some("undefined")))
    ensures GetLabel("build", q.(labelParam := None)) != GetLabel("build", q.(labelParam := Some("undefined")))
  {
  }

  /** Parameters are not escaped: a label holding `&style=` collides with a style
      that carries the rest of the text. */
  lemma IndexSeparatorInjection(match0: string, q: Query)
    ensures CacheIndex(match0, q.(labelParam := Some("x&style=y"), style := None))
         == CacheIndex(match0, q.(labelParam := Some("x"), style := Some("y&style=undefined")))
  {
    var q1 := q.(labelParam := Some("x&style=y"), style := None);
    var q2 := q.(labelParam := Some("x"), style := Some("y&style=undefined"));
    var p, r := match0 + "?label=", AfterStyle(q);
    assert AfterStyle(q1) == r && AfterStyle(q2) == r;
    calc {
      CacheIndex(match0, q1);
      p + "x&style=y" + ("&style=" + "undefined" + r);
      p + "x&style=y&style=undefined" + r;
      p + "x" + ("&style=" + "y&style=undefined" + r);
      CacheIndex(match0, q2);
    }
  }
}
