/**
 * The badge-text escaping of server.js (`escapeFormat`): five regular-expression
 * replacements applied left to right. Each replacement is written as the scan the
 * regular-expression engine performs: a global (`/g`) replacement tries a match at
 * every position from the left and, after a match, resumes right after it, so
 * matches never overlap.
 */
module Escape {

  /** `.replace(/([^_])_([^_])/g, '$1 $2')`: an underscore between two
      non-underscores becomes a space. */
  function InlineUnderscores(s: string): (r: string)
    ensures |r| == |s|
    ensures forall i | 0 <= i < |s| :: r[i] == s[i] || (s[i] == '_' && r[i] == ' ')
  {
    if |s| < 3 then s
    else if s[0] != '_' && s[1] == '_' && s[2] != '_' then [s[0], ' ', s[2]] + InlineUnderscores(s[3..])
    else [s[0]] + InlineUnderscores(s[1..])
  }

  /** `.replace(/([^_])_$/, '$1 ')`: a single trailing underscore becomes a space. */
  function TrailingUnderscore(s: string): (r: string)
    ensures |r| == |s|
    ensures forall i | 0 <= i < |s| - 1 :: r[i] == s[i]
    ensures r != s <==> |s| >= 2 && s[|s| - 1] == '_' && s[|s| - 2] != '_'
    ensures r != s ==> r[|s| - 1] == ' '
  {
    if |s| >= 2 && s[|s| - 1] == '_' && s[|s| - 2] != '_' then s[..|s| - 1] + " " else s
  }

  /** `.replace(/^_([^_])/, ' $1')`: a single leading underscore becomes a space. */
  function LeadingUnderscore(s: string): (r: string)
    ensures |r| == |s|
    ensures forall i | 1 <= i < |s| :: r[i] == s[i]
    ensures r != s <==> |s| >= 2 && s[0] == '_' && s[1] != '_'
    ensures r != s ==> r[0] == ' '
  {
    if |s| >= 2 && s[0] == '_' && s[1] != '_' then " " + s[1..] else s
  }

  /** `.replace(/cc/g, 'c')` for the character `c`: each non-overlapping pair of
      `c`, taken from the left, becomes one `c`. */
  function CollapsePairs(c: char, s: string): (r: string)
    ensures |r| <= |s|
    ensures c !in s ==> r == s
  {
    if |s| >= 2 && s[0] == c && s[1] == c then [c] + CollapsePairs(c, s[2..])
    else if s == [] then []
    else [s[0]] + CollapsePairs(c, s[1..])
  }

  /** `escapeFormat(t)`: the five replacements in the order the source applies them. */
  function EscapeFormat(t: string): (r: string)
    ensures |r| <= |t|
  {
    CollapsePairs('-', CollapsePairs('_', LeadingUnderscore(TrailingUnderscore(InlineUnderscores(t)))))
  }

  /** The badge-URL encoding that `EscapeFormat` undoes: every `c` written twice. */
  function DoubleChar(c: char, t: string): (r: string)
    ensures |r| >= |t|
  {
    if t == [] then []
    else if t[0] == c then [c, c] + DoubleChar(c, t[1..])
    else [t[0]] + DoubleChar(c, t[1..])
  }

  /** A literal text written in badge-URL form: `_` as `__` and `-` as `--`. */
  function EncodeLiteral(t: string): (r: string)
  {
    DoubleChar('_', DoubleChar('-', t))
  }

  // ---- CollapsePairs undoes DoubleChar ----

  lemma {:induction false} CollapseDouble(c: char, t: string)
    ensures CollapsePairs(c, DoubleChar(c, t)) == t
  {
    if t != [] {
      CollapseDouble(c, t[1..]);
      if t[0] == c {
        assert DoubleChar(c, t)[2..] == DoubleChar(c, t[1..]);
      } else {
        assert DoubleChar(c, t)[1..] == DoubleChar(c, t[1..]);
      }
    }
  }

  // ---- in a doubled text no underscore stands alone ----

  /** The first two characters of a doubled text that starts with an underscore
      are both underscores. */
  lemma DoubledHead(t: string)
    requires t != []
    ensures |DoubleChar('_', t)| >= 1
    ensures DoubleChar('_', t)[0] == '_' <==> t[0] == '_'
    ensures t[0] == '_' ==> |DoubleChar('_', t)| >= 2 && DoubleChar('_', t)[1] == '_'
  {
  }

  lemma {:induction false} DoubleAppend(c: char, a: string, b: string)
    ensures DoubleChar(c, a + b) == DoubleChar(c, a) + DoubleChar(c, b)
  {
    if a == [] {
      assert a + b == b;
    } else {
      var h := if a[0] == c then [c, c] else [a[0]];
      var ab := a + b;
      assert ab != [] && ab[0] == a[0];
      assert ab[1..] == a[1..] + b;
      DoubleAppend(c, a[1..], b);
      calc {
        DoubleChar(c, ab);
        h + DoubleChar(c, ab[1..]);
        h + DoubleChar(c, a[1..] + b);
        h + (DoubleChar(c, a[1..]) + DoubleChar(c, b));
        (h + DoubleChar(c, a[1..])) + DoubleChar(c, b);
        DoubleChar(c, a) + DoubleChar(c, b);
      }
    }
  }

  /** Scanning `[x] + DoubleChar('_', t)` with `x` not an underscore finds no match at `x`. */
  lemma {:induction false} InlineAfterPlain(x: char, t: string)
    requires x != '_'
    ensures InlineUnderscores([x] + DoubleChar('_', t)) == [x] + InlineUnderscores(DoubleChar('_', t))
  {
    var d := DoubleChar('_', t);
    assert ([x] + d)[1..] == d;
    if |d| >= 2 {
      DoubledHead(t);
    }
  }

  lemma {:induction false} InlineFixesDoubled(t: string)
    ensures InlineUnderscores(DoubleChar('_', t)) == DoubleChar('_', t)
  {
    if t != [] {
      var d' := DoubleChar('_', t[1..]);
      InlineFixesDoubled(t[1..]);
      if t[0] == '_' {
        var u := ['_'] + d';
        assert DoubleChar('_', t) == ['_'] + u;
        assert (['_'] + u)[1..] == u;
        assert u[1..] == d';
      } else {
        assert DoubleChar('_', t) == [t[0]] + d';
        InlineAfterPlain(t[0], t[1..]);
      }
    }
  }

  lemma TrailingFixesDoubled(t: string)
    ensures TrailingUnderscore(DoubleChar('_', t)) == DoubleChar('_', t)
  {
    if t != [] {
      var n := |t|;
      assert t == t[..n - 1] + [t[n - 1]];
      DoubleAppend('_', t[..n - 1], [t[n - 1]]);
    }
  }

  lemma LeadingFixesDoubled(t: string)
    ensures LeadingUnderscore(DoubleChar('_', t)) == DoubleChar('_', t)
  {
    if t != [] {
      DoubledHead(t);
    }
  }

  /** Round trip: escaping a text written in badge-URL form gives the text back. */
  lemma EscapeRoundTrip(t: string)
    ensures EscapeFormat(EncodeLiteral(t)) == t
  {
    var d := DoubleChar('-', t);
    InlineFixesDoubled(d);
    TrailingFixesDoubled(d);
    LeadingFixesDoubled(d);
    CollapseDouble('_', d);
    CollapseDouble('-', t);
  }

  /** A text with no underscore and no dash is left unchanged. */
  lemma EscapeKeepsPlainText(t: string)
    requires '_' !in t && '-' !in t
    ensures EscapeFormat(t) == t
  {
    DoubleCharAbsent('-', t);
    DoubleCharAbsent('_', t);
    EscapeRoundTrip(t);
  }

  lemma {:induction false} DoubleCharAbsent(c: char, t: string)
    requires c !in t
    ensures DoubleChar(c, t) == t
  {
    if t != [] {
      assert t[0] != c;
      assert c !in t[1..] by {
        forall k | 0 <= k < |t[1..]| ensures t[1..][k] != c { assert t[1..][k] == t[k + 1]; }
      }
      DoubleCharAbsent(c, t[1..]);
      assert [t[0]] + t[1..] == t;
    }
  }

  /** `__` stands for `_` and `--` for `-`. */
  lemma EscapeDoubledSeparators()
    ensures EscapeFormat("__") == "_"
    ensures EscapeFormat("--") == "-"
  {
    EscapeRoundTrip("_");
    EscapeRoundTrip("-");
  }

  /** The first replacement alone on `a_b_c`. */
  lemma InlineSkipsConsumed()
    ensures InlineUnderscores("a_b_c") == "a b_c"
  {
    var s := "a_b_c";
    assert s[0] == 'a' && s[1] == '_' && s[2] == 'b' && s[3..] == "_c";
    assert InlineUnderscores("_c") == "_c";
    assert InlineUnderscores(s) == ['a', ' ', 'b'] + "_c";
    assert ['a', ' ', 'b'] + "_c" == "a b_c";
  }

  /** Global matches do not overlap: in `a_b_c` the `b` is consumed by the first
      match, so the second underscore is not replaced. */
  lemma EscapeNonOverlapping()
    ensures EscapeFormat("a_b_c") == "a b_c"
  {
    var t := "a b_c";
    InlineSkipsConsumed();
    assert t[4] == 'c' && t[0] == 'a';
    assert TrailingUnderscore(t) == t;
    assert LeadingUnderscore(t) == t;
    assert t[1..] == " b_c" && " b_c"[1..] == "b_c" && "b_c"[1..] == "_c" && "_c"[1..] == "c";
    assert CollapsePairs('_', "c") == "c";
    assert CollapsePairs('_', "_c") == "_c";
    assert CollapsePairs('_', "b_c") == "b_c";
    assert CollapsePairs('_', " b_c") == " b_c";
    assert CollapsePairs('_', t) == t;
    assert '-' !in t;
  }

  /** A lone underscore at either end becomes a space. */
  lemma EscapeLoneEnds()
    ensures EscapeFormat("_a_") == " a "
  {
    var u := "_a_";
    assert u[0] == '_' && u[1] == 'a' && u[2] == '_';
    assert InlineUnderscores(u) == [u[0]] + InlineUnderscores(u[1..]);
    assert InlineUnderscores(u[1..]) == u[1..];
    assert InlineUnderscores(u) == u;
    assert TrailingUnderscore(u) == "_a ";
    assert LeadingUnderscore("_a ") == " a ";
    assert '_' !in " a " && '-' !in " a ";
  }
}
