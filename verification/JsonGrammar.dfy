/** The grammar of sections 2 to 7 of RFC 8259 as derivation trees.  A text is JSON exactly when
    it is the yield of a derivation; the derivation also fixes the value the text denotes. */
module JsonGrammar {
  import opened Utf16
  import opened JsonValue

  predicate IsBlank(c: char) { c == ' ' || c == '\t' || c == '\r' || c == '\n' }

  predicate Blanks(s: string) { s == [] || (IsBlank(s[0]) && Blanks(s[1..])) }

  predicate IsDigit(c: char) { '0' <= c <= '9' }

  predicate AllDigits(s: string) { s == [] || (IsDigit(s[0]) && AllDigits(s[1..])) }

  predicate Digits1(s: string) { s != [] && AllDigits(s) }

  function HexValue(c: char): (r: Option<int>)
    ensures r.Some? ==> 0 <= r.value < 16
  {
    if '0' <= c <= '9' then Some(c as int - '0' as int)
    else if 'a' <= c <= 'f' then Some(c as int - 'a' as int + 10)
    else if 'A' <= c <= 'F' then Some(c as int - 'A' as int + 10)
    else None
  }

  predicate Hex4(h: string) {
    |h| == 4 && forall i :: 0 <= i < 4 ==> HexValue(h[i]).Some?
  }

  function HexUnit(h: string): Unit
    requires Hex4(h)
  {
    ((HexValue(h[0]).value * 16 + HexValue(h[1]).value) * 16 + HexValue(h[2]).value) * 16 + HexValue(h[3]).value
  }

  /** The two-character escapes and the unit each one denotes. */
  function ShortEscape(c: char): Option<Unit> {
    if c == '\"' then Some(0x22)
    else if c == '\\' then Some(0x5C)
    else if c == '/' then Some(0x2F)
    else if c == 'b' then Some(0x08)
    else if c == 'f' then Some(0x0C)
    else if c == 'n' then Some(0x0A)
    else if c == 'r' then Some(0x0D)
    else if c == 't' then Some(0x09)
    else None
  }

  predicate Unescaped(c: char) { c as int >= 0x20 && c != '\"' && c != '\\' }

  /** section 7: one character of a string */
  datatype Token = Plain(c: char) | Short(e: char) | Unicode(h: string)

  predicate GoodToken(t: Token) {
    match t
    case Plain(c) => Unescaped(c)
    case Short(e) => ShortEscape(e).Some?
    case Unicode(h) => Hex4(h)
  }

  predicate GoodTokens(ts: seq<Token>) { forall i :: 0 <= i < |ts| ==> GoodToken(ts[i]) }

  function TokenText(t: Token): (s: string)
    ensures s != []
  {
    match t
    case Plain(c) => [c]
    case Short(e) => ['\\', e]
    case Unicode(h) => ['\\', 'u'] + h
  }

  function TokenUnits(t: Token): seq<Unit>
    requires GoodToken(t)
  {
    match t
    case Plain(c) => EncodeChar(c)
    case Short(e) => [ShortEscape(e).value]
    case Unicode(h) => [HexUnit(h)]
  }

  function TokensText(ts: seq<Token>): string {
    if ts == [] then [] else TokenText(ts[0]) + TokensText(ts[1..])
  }

  function TokensUnits(ts: seq<Token>): seq<Unit>
    requires GoodTokens(ts)
  {
    if ts == [] then [] else TokenUnits(ts[0]) + TokensUnits(ts[1..])
  }

  /** sections 2 to 6; `before` and `after` are the blanks around a value or a separator */
  datatype Value =
    | Literal(word: string)
    | Number(minus: string, whole: string, frac: string, exp: string)
    | Text(tokens: seq<Token>)
    | EmptyArray(blank: string)
    | Array(elems: Elems)
    | EmptyObject(blank: string)
    | Object(members: Members)

  datatype Elems =
    | LastElem(before: string, value: Value, after: string)
    | MoreElems(before: string, value: Value, after: string, rest: Elems)

  datatype Members =
    | LastMember(member: Member)
    | MoreMembers(member: Member, rest: Members)

  datatype Member =
    Member(beforeKey: string, key: seq<Token>, afterKey: string, before: string, value: Value, after: string)

  predicate GoodWhole(s: string) { s == "0" || (Digits1(s) && s[0] != '0') }

  predicate GoodFrac(s: string) { s == "" || (s[0] == '.' && Digits1(s[1..])) }

  predicate GoodExp(s: string) {
    s == "" ||
    ((s[0] == 'e' || s[0] == 'E') &&
     (Digits1(s[1..]) || (|s| > 1 && (s[1] == '+' || s[1] == '-') && Digits1(s[2..]))))
  }

  predicate Good(v: Value) {
    match v
    case Literal(word) => word == "null" || word == "true" || word == "false"
    case Number(minus, whole, frac, exp) =>
      (minus == "" || minus == "-") && GoodWhole(whole) && GoodFrac(frac) && GoodExp(exp)
    case Text(tokens) => GoodTokens(tokens)
    case EmptyArray(blank) => Blanks(blank)
    case Array(elems) => GoodElems(elems)
    case EmptyObject(blank) => Blanks(blank)
    case Object(members) => GoodMembers(members)
  }

  predicate GoodElems(es: Elems) {
    Blanks(es.before) && Good(es.value) && Blanks(es.after) && (es.MoreElems? ==> GoodElems(es.rest))
  }

  predicate GoodMembers(ms: Members) {
    GoodMember(ms.member) && (ms.MoreMembers? ==> GoodMembers(ms.rest))
  }

  predicate GoodMember(m: Member) {
    Blanks(m.beforeKey) && GoodTokens(m.key) && Blanks(m.afterKey) &&
    Blanks(m.before) && Good(m.value) && Blanks(m.after)
  }

  function Quoted(ts: seq<Token>): string { "\"" + TokensText(ts) + "\"" }

  /** The text a derivation yields. */
  function Yield(v: Value): string {
    match v
    case Literal(word) => word
    case Number(minus, whole, frac, exp) => minus + whole + frac + exp
    case Text(tokens) => Quoted(tokens)
    case EmptyArray(blank) => "[" + blank + "]"
    case Array(elems) => "[" + YieldElems(elems)
    case EmptyObject(blank) => "{" + blank + "}"
    case Object(members) => "{" + YieldMembers(members)
  }

  /** from the first element up to and including the closing bracket */
  function YieldElems(es: Elems): string {
    es.before + Yield(es.value) + es.after + if es.LastElem? then "]" else "," + YieldElems(es.rest)
  }

  function YieldMembers(ms: Members): string {
    YieldMember(ms.member) + if ms.LastMember? then "}" else "," + YieldMembers(ms.rest)
  }

  function YieldMember(m: Member): string {
    m.beforeKey + Quoted(m.key) + m.afterKey + ":" + m.before + Yield(m.value) + m.after
  }

  /** The value a derivation denotes. */
  function Meaning(v: Value): Json
    requires Good(v)
  {
    match v
    case Literal(word) => Prim(word)
    case Number(minus, whole, frac, exp) => Prim(minus + whole + frac + exp)
    case Text(tokens) => Str(TokensUnits(tokens))
    case EmptyArray(_) => Arr([])
    case Array(elems) => Arr(MeaningElems(elems))
    case EmptyObject(_) => Obj([])
    case Object(members) => Obj(MeaningMembers(members, []))
  }

  function MeaningElems(es: Elems): seq<Json>
    requires GoodElems(es)
  {
    [Meaning(es.value)] + if es.LastElem? then [] else MeaningElems(es.rest)
  }

  /** Members take effect in text order, on top of the fields already read. */
  function MeaningMembers(ms: Members, done: seq<Field>): seq<Field>
    requires GoodMembers(ms)
  {
    assert GoodMember(ms.member);
    var next := Put(done, TokensUnits(ms.member.key), Meaning(ms.member.value));
    if ms.LastMember? then next else MeaningMembers(ms.rest, next)
  }

  /** `s` is a JSON text (section 2) derived by `v` between blanks. */
  predicate Derives(s: string, before: string, v: Value, after: string) {
    Blanks(before) && Good(v) && Blanks(after) && s == before + Yield(v) + after
  }

  ghost predicate IsJsonText(s: string) {
    exists before, v, after :: Derives(s, before, v, after)
  }
}
