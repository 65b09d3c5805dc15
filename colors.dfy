/** Colour parameters of server.js: `sixHex` and `colorParam`. */
module Colors {

  predicate IsHexDigit(c: char) { '0' <= c <= '9' || 'a' <= c <= 'f' || 'A' <= c <= 'F' }

  /** `/^[0-9a-fA-F]{6}$/.test(s)`: exactly six hexadecimal digits. */
  predicate SixHex(s: string)
  {
    |s| == 6 && forall i | 0 <= i < 6 :: IsHexDigit(s[i])
  }

  /** `colorParam(c)`: a six-digit hexadecimal colour gets a `#`, anything else is kept. */
  function ColorParam(c: string): (r: string)
    ensures SixHex(c) ==> r == "#" + c
    ensures !SixHex(c) ==> r == c
    ensures !SixHex(r)
  {
    (if SixHex(c) then "#" else "") + c
  }

  /** Applying `colorParam` to its own result changes nothing. */
  lemma ColorParamIdempotent(c: string)
    ensures ColorParam(ColorParam(c)) == ColorParam(c)
  {
  }
}
