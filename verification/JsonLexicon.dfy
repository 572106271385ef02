/** The characters of JSON text, by their tables. */
module JsonLexicon {
  // The lexical functions of the grammar against the tables of RFC 8259, and the spelling the writer chooses
  // among all that mean the same.

  import opened Utf16
  import opened JsonValue
  import opened JsonGrammar
  import opened JsonPrint

  const BLANKS := " \t\n\r"

  const LOWER := "0123456789abcdef"

  const UPPER := "0123456789ABCDEF"

  /** Section 7: the character after the backslash, and the four digits of the same unit. */
  const SHORTS: seq<(char, string)> := [
    ('\"', "0022"), ('\\', "005C"), ('/', "002F"), ('b', "0008"), ('f', "000C"), ('n', "000A"), ('r', "000D"), ('t', "0009")]

  /** Section 2. */
  lemma BlankIff(c: char)
    ensures IsBlank(c) <==> c in BLANKS
  {
    assert BLANKS[0] == ' ' && BLANKS[1] == '\t' && BLANKS[2] == '\n' && BLANKS[3] == '\r';
  }

  lemma HexIff(c: char, d: int)
    ensures HexValue(c) == Some(d) <==> 0 <= d < 16 && (LOWER[d] == c || UPPER[d] == c)
  {
  }

  lemma HexForm(h: string, a: int, b: int, c: int, d: int)
    requires |h| == 4 && 0 <= a < 16 && 0 <= b < 16 && 0 <= c < 16 && 0 <= d < 16
    requires UPPER[a] == h[0] && UPPER[b] == h[1] && UPPER[c] == h[2] && UPPER[d] == h[3]
    ensures Hex4(h) && HexUnit(h) == 0x1000 * a + 0x100 * b + 0x10 * c + d
  {
    HexIff(h[0], a);
    HexIff(h[1], b);
    HexIff(h[2], c);
    HexIff(h[3], d);
  }

  lemma ShortUnits()
    ensures Hex4("0022") && HexUnit("0022") == 0x22 && Hex4("005C") && HexUnit("005C") == 0x5C
    ensures Hex4("002F") && HexUnit("002F") == 0x2F && Hex4("0008") && HexUnit("0008") == 8
    ensures Hex4("000C") && HexUnit("000C") == 12 && Hex4("000A") && HexUnit("000A") == 10
    ensures Hex4("000D") && HexUnit("000D") == 13 && Hex4("0009") && HexUnit("0009") == 9
  {
    hide Hex4, HexUnit;
    HexForm("0022", 0, 0, 2, 2);
    HexForm("005C", 0, 0, 5, 12);
    HexForm("002F", 0, 0, 2, 15);
    HexForm("0008", 0, 0, 0, 8);
    HexForm("000C", 0, 0, 0, 12);
    HexForm("000A", 0, 0, 0, 10);
    HexForm("000D", 0, 0, 0, 13);
    HexForm("0009", 0, 0, 0, 9);
  }

  /** A short escape denotes what its four digits denote. */
  predicate ShortRow(k: int, c: char, u: Unit) {
    0 <= k < |SHORTS| && SHORTS[k].0 == c && Hex4(SHORTS[k].1) && HexUnit(SHORTS[k].1) == u
  }

  /** The short escapes are those of the table and no others. */
  lemma ShortIff(c: char, u: Unit)
    ensures ShortEscape(c) == Some(u) <==> exists k :: ShortRow(k, c, u)
  {
    ShortUnits();
    hide Hex4, HexUnit;
    if ShortEscape(c) == Some(u) {
      var k := if c == '\"' then 0 else if c == '\\' then 1 else if c == '/' then 2 else if c == 'b' then 3
               else if c == 'f' then 4 else if c == 'n' then 5 else if c == 'r' then 6 else 7;
      assert ShortRow(k, c, u);
    }
  }

  predicate LowerHex(h: string) { forall i :: 0 <= i < |h| ==> h[i] in LOWER }

  lemma HexTextLower(u: Unit)
    ensures LowerHex(HexText(u))
  {
    forall d | 0 <= d < 16 ensures HexDigit(d) in LOWER { DigitLower(d); }
    hide HexDigit;
  }

  lemma DigitLower(d: int)
    requires 0 <= d < 16
    ensures HexDigit(d) in LOWER
  {
    assert LOWER[d] == HexDigit(d);
  }

  /** The writer leaves alone exactly what may stand for itself: no control character, quote or backslash. */
  lemma PlainIff(c: char)
    ensures CharToken(c) == Plain(c) <==> Unescaped(c)
    ensures Unescaped(c) <==> c as int >= 0x20 && c !in "\"\\"
  {
    hide HexText;
    var s := "\"\\";
    assert s[0] == '\"' && s[1] == '\\';
  }

  lemma ShortToken(c: char, e: char)
    requires ShortEscape(e).Some? && EncodeChar(c) == [ShortEscape(e).value]
    ensures CharToken(c).Short? || CharToken(c).Plain?
  {
    hide HexText;
    assert EncodeChar(c)[0] == c as int;
  }

  lemma TokenBound(c: char)
    ensures |TokenText(CharToken(c))| <= 6
    ensures !CharToken(c).Unicode? ==> |TokenText(CharToken(c))| <= 2
    ensures CharToken(c).Unicode? ==> CharToken(c).h == HexText(c as int)
  {
    hide HexText, HexUnit;
  }

  /** Of all tokens for a character the writer takes a shortest, with lower-case digits. */
  lemma TokenShortest(c: char, t: Token)
    requires GoodToken(t) && TokenUnits(t) == EncodeChar(c)
    ensures |TokenText(CharToken(c))| <= |TokenText(t)|
    ensures CharToken(c).Unicode? ==> LowerHex(CharToken(c).h)
  {
    hide LowerHex, HexUnit, HexText, CharToken, ShortEscape, EncodeChar, HexValue;
    TokenBound(c);
    if CharToken(c).Unicode? { HexTextLower(c as int); }
    match t
    case Plain(d) => PlainToken(c, d);
    case Short(e) => ShortToken(c, e);
    case Unicode(h) =>
  }

  lemma PlainToken(c: char, d: char)
    requires Unescaped(d) && EncodeChar(d) == EncodeChar(c)
    ensures CharToken(c) == Plain(c)
  {
    if |EncodeChar(d)| == 2 {
      assert c as int >= 0x1_0000;
    } else {
      assert EncodeChar(d)[0] == d as int;
    }
  }
}
