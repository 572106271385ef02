/** JSON text read by recursive descent. */
module JsonDescent {
  // A recursive-descent reading of JSON text by position: the specification of the iterative parser.
  // It is sound and complete for the grammar.

  import opened Utf16
  import opened JsonValue
  import opened JsonGrammar

  datatype Parse<+T> = Fail | Ok(value: T, next: nat)

  predicate At(s: string, i: nat, c: char) { i < |s| && s[i] == c }

  function SkipBlanks(s: string, i: nat): (j: nat)
    requires i <= |s|
    ensures i <= j <= |s|
    decreases |s| - i
  {
    if i < |s| && IsBlank(s[i]) then SkipBlanks(s, i + 1) else i
  }

  lemma {:induction false} SkipBlanksStops(s: string, i: nat)
    requires i <= |s|
    ensures var j := SkipBlanks(s, i); Blanks(s[i..j]) && (j < |s| ==> !IsBlank(s[j]))
    decreases |s| - i
  {
    if i < |s| && IsBlank(s[i]) {
      SkipBlanksStops(s, i + 1);
      var j := SkipBlanks(s, i);
      assert s[i..j] == [s[i]] + s[i + 1..j];
    }
  }

  function SkipDigits(s: string, i: nat): (j: nat)
    requires i <= |s|
    ensures i <= j <= |s|
    decreases |s| - i
  {
    if i < |s| && IsDigit(s[i]) then SkipDigits(s, i + 1) else i
  }

  lemma {:induction false} SkipDigitsStops(s: string, i: nat)
    requires i <= |s|
    ensures var j := SkipDigits(s, i); AllDigits(s[i..j]) && (j < |s| ==> !IsDigit(s[j]))
    decreases |s| - i
  {
    if i < |s| && IsDigit(s[i]) {
      SkipDigitsStops(s, i + 1);
      var j := SkipDigits(s, i);
      assert s[i..j] == [s[i]] + s[i + 1..j];
    }
  }

  // ----- tokens -----

  function ScanWhole(s: string, i: nat): (r: Option<nat>)
    requires i <= |s|
    ensures r.Some? ==> i < r.value <= |s|
  {
    if At(s, i, '0') then Some(i + 1)
    else if i < |s| && IsDigit(s[i]) then Some(SkipDigits(s, i))
    else None
  }

  function ScanFrac(s: string, i: nat): (r: Option<nat>)
    requires i <= |s|
    ensures r.Some? ==> i <= r.value <= |s|
  {
    if !At(s, i, '.') then Some(i)
    else
      var j := SkipDigits(s, i + 1);
      if j == i + 1 then None else Some(j)
  }

  function ScanExp(s: string, i: nat): (r: Option<nat>)
    requires i <= |s|
    ensures r.Some? ==> i <= r.value <= |s|
  {
    if !At(s, i, 'e') && !At(s, i, 'E') then Some(i)
    else
      var k := if At(s, i + 1, '+') || At(s, i + 1, '-') then i + 2 else i + 1;
      var j := SkipDigits(s, k);
      if j == k then None else Some(j)
  }

  function ScanNumber(s: string, i: nat): (r: Option<nat>)
    requires i <= |s|
    ensures r.Some? ==> i < r.value <= |s|
  {
    var a := if At(s, i, '-') then i + 1 else i;
    match ScanWhole(s, a)
    case None => None
    case Some(b) =>
      match ScanFrac(s, b)
      case None => None
      case Some(c) => ScanExp(s, c)
  }

  /** `s` holds `t` at position `i`. */
  predicate Has(s: string, i: nat, t: string)
    decreases |t|
  {
    if t == [] then i <= |s| else At(s, i, t[0]) && Has(s, i + 1, t[1..])
  }

  lemma {:induction false} HasIsSlice(s: string, i: nat, t: string)
    ensures Has(s, i, t) <==> i + |t| <= |s| && s[i..i + |t|] == t
    decreases |t|
  {
    if t != [] {
      HasIsSlice(s, i + 1, t[1..]);
      if i + |t| <= |s| {
        assert s[i..i + |t|] == [s[i]] + s[i + 1..i + |t|];
        assert t == [t[0]] + t[1..];
      }
    }
  }

  function ParsePrimitive(s: string, i: nat): (r: Parse<Json>)
    requires i <= |s|
    ensures r.Ok? ==> i < r.next <= |s| && r.value == Prim(s[i..r.next])
  {
    if At(s, i, 'n') then ParseLiteral(s, i, "null")
    else if At(s, i, 't') then ParseLiteral(s, i, "true")
    else if At(s, i, 'f') then ParseLiteral(s, i, "false")
    else if At(s, i, '-') || (i < |s| && IsDigit(s[i])) then
      match ScanNumber(s, i)
      case None => Fail
      case Some(j) => Ok(Prim(s[i..j]), j)
    else Fail
  }

  function ParseLiteral(s: string, i: nat, word: string): (r: Parse<Json>)
    requires i <= |s|
    ensures r.Ok? ==> r.next == i + |word| <= |s| && r.value == Prim(s[i..r.next])
  {
    HasIsSlice(s, i, word);
    if Has(s, i, word) then Ok(Prim(word), i + |word|) else Fail
  }

  function Prepend(us: seq<Unit>, r: Parse<seq<Unit>>): Parse<seq<Unit>> {
    if r.Ok? then Ok(us + r.value, r.next) else Fail
  }

  lemma PrependTwice(us: seq<Unit>, vs: seq<Unit>, r: Parse<seq<Unit>>)
    ensures Prepend(us, Prepend(vs, r)) == Prepend(us + vs, r)
    ensures Prepend([], r) == r
  {
    if r.Ok? {
      assert us + (vs + r.value) == (us + vs) + r.value;
      assert [] + r.value == r.value;
    }
  }

  /** The rest of a string after its opening quote. */
  function ParseString(s: string, i: nat): (r: Parse<seq<Unit>>)
    requires i <= |s|
    ensures r.Ok? ==> i < r.next <= |s|
    decreases |s| - i
  {
    if i == |s| then Fail
    else if s[i] == '\"' then Ok([], i + 1)
    else if s[i] == '\\' then
      if i + 1 == |s| then Fail
      else if s[i + 1] == 'u' then
        if i + 6 <= |s| && Hex4(s[i + 2..i + 6]) then Prepend([HexUnit(s[i + 2..i + 6])], ParseString(s, i + 6))
        else Fail
      else if ShortEscape(s[i + 1]).Some? then Prepend([ShortEscape(s[i + 1]).value], ParseString(s, i + 2))
      else Fail
    else if s[i] as int < 0x20 then Fail
    else Prepend(EncodeChar(s[i]), ParseString(s, i + 1))
  }

  // ----- values; one function per state of a container frame -----

  function ParseValue(s: string, i: nat): (r: Parse<Json>)
    requires i <= |s|
    ensures r.Ok? ==> i < r.next <= |s|
    decreases |s| - i, 5
  {
    if At(s, i, '{') then ObjectFirst(s, i + 1)
    else if At(s, i, '[') then ArrayFirst(s, i + 1)
    else if At(s, i, '\"') then
      match ParseString(s, i + 1)
      case Fail => Fail
      case Ok(units, k) => Ok(Str(units), k)
    else ParsePrimitive(s, i)
  }

  function ArrayFirst(s: string, i: nat): (r: Parse<Json>)
    requires i <= |s|
    ensures r.Ok? ==> i < r.next <= |s|
    decreases |s| - i, 7
  {
    var j := SkipBlanks(s, i);
    if At(s, j, ']') then Ok(Arr([]), j + 1) else ArrayNext(s, j, [])
  }

  /** An element is due. */
  function ArrayNext(s: string, i: nat, done: seq<Json>): (r: Parse<Json>)
    requires i <= |s|
    ensures r.Ok? ==> i < r.next <= |s|
    decreases |s| - i, 6
  {
    match ParseValue(s, SkipBlanks(s, i))
    case Fail => Fail
    case Ok(v, k) => ArrayComma(s, k, done + [v])
  }

  function ArrayComma(s: string, i: nat, done: seq<Json>): (r: Parse<Json>)
    requires i <= |s|
    ensures r.Ok? ==> i < r.next <= |s|
    decreases |s| - i, 0
  {
    var j := SkipBlanks(s, i);
    if At(s, j, ']') then Ok(Arr(done), j + 1)
    else if At(s, j, ',') then ArrayNext(s, j + 1, done)
    else Fail
  }

  function ObjectFirst(s: string, i: nat): (r: Parse<Json>)
    requires i <= |s|
    ensures r.Ok? ==> i < r.next <= |s|
    decreases |s| - i, 8
  {
    var j := SkipBlanks(s, i);
    if At(s, j, '}') then Ok(Obj([]), j + 1) else ObjectKey(s, j, [])
  }

  function ObjectKey(s: string, i: nat, done: seq<Field>): (r: Parse<Json>)
    requires i <= |s|
    ensures r.Ok? ==> i < r.next <= |s|
    decreases |s| - i, 7
  {
    var j := SkipBlanks(s, i);
    if !At(s, j, '\"') then Fail
    else
      match ParseString(s, j + 1)
      case Fail => Fail
      case Ok(key, k) => ObjectColon(s, k, done, key)
  }

  function ObjectColon(s: string, i: nat, done: seq<Field>, key: seq<Unit>): (r: Parse<Json>)
    requires i <= |s|
    ensures r.Ok? ==> i < r.next <= |s|
    decreases |s| - i, 0
  {
    var j := SkipBlanks(s, i);
    if At(s, j, ':') then ObjectNext(s, j + 1, done, key) else Fail
  }

  /** A member's value is due. */
  function ObjectNext(s: string, i: nat, done: seq<Field>, key: seq<Unit>): (r: Parse<Json>)
    requires i <= |s|
    ensures r.Ok? ==> i < r.next <= |s|
    decreases |s| - i, 6
  {
    match ParseValue(s, SkipBlanks(s, i))
    case Fail => Fail
    case Ok(v, k) => ObjectComma(s, k, Put(done, key, v))
  }

  function ObjectComma(s: string, i: nat, done: seq<Field>): (r: Parse<Json>)
    requires i <= |s|
    ensures r.Ok? ==> i < r.next <= |s|
    decreases |s| - i, 0
  {
    var j := SkipBlanks(s, i);
    if At(s, j, '}') then Ok(Obj(done), j + 1)
    else if At(s, j, ',') then ObjectKey(s, j + 1, done)
    else Fail
  }

  /** A whole text: one value between blanks and nothing more. */
  function ParseText(s: string): Option<Json> {
    match ParseValue(s, SkipBlanks(s, 0))
    case Fail => None
    case Ok(v, k) => if SkipBlanks(s, k) == |s| then Some(v) else None
  }

  // ----- derivations laid out in a text by position -----

  function Len(v: Value): nat {
    match v
    case Literal(word) => |word|
    case Number(minus, whole, frac, exp) => |minus| + |whole| + |frac| + |exp|
    case Text(tokens) => |TokensText(tokens)| + 2
    case EmptyArray(blank) => |blank| + 2
    case Array(elems) => 1 + LenElems(elems)
    case EmptyObject(blank) => |blank| + 2
    case Object(members) => 1 + LenMembers(members)
  }

  function LenElems(es: Elems): nat {
    |es.before| + Len(es.value) + |es.after| + 1 + if es.LastElem? then 0 else LenElems(es.rest)
  }

  function LenMembers(ms: Members): nat {
    LenMember(ms.member) + 1 + if ms.LastMember? then 0 else LenMembers(ms.rest)
  }

  function LenMember(m: Member): nat {
    |m.beforeKey| + |TokensText(m.key)| + 2 + |m.afterKey| + 1 + |m.before| + Len(m.value) + |m.after|
  }

  /** The yield of `v` occurs in `s` at position `i`, said piece by piece. */
  predicate Occurs(s: string, i: nat, v: Value)
    decreases v, 0
  {
    match v
    case Literal(word) => Has(s, i, word)
    case Number(minus, whole, frac, exp) =>
      Has(s, i, minus) && Has(s, i + |minus|, whole) && Has(s, i + |minus| + |whole|, frac) &&
      Has(s, i + |minus| + |whole| + |frac|, exp)
    case Text(tokens) => OccursQuoted(s, i, tokens)
    case EmptyArray(blank) => At(s, i, '[') && Has(s, i + 1, blank) && At(s, i + 1 + |blank|, ']')
    case Array(elems) => At(s, i, '[') && OccursElems(s, i + 1, elems)
    case EmptyObject(blank) => At(s, i, '{') && Has(s, i + 1, blank) && At(s, i + 1 + |blank|, '}')
    case Object(members) => At(s, i, '{') && OccursMembers(s, i + 1, members)
  }

  predicate OccursQuoted(s: string, i: nat, ts: seq<Token>) {
    At(s, i, '\"') && Has(s, i + 1, TokensText(ts)) && At(s, i + 1 + |TokensText(ts)|, '\"')
  }

  predicate OccursElems(s: string, i: nat, es: Elems)
    decreases es, 0
  {
    var j := i + |es.before|;
    var k := j + Len(es.value);
    var c := k + |es.after|;
    && Has(s, i, es.before) && Occurs(s, j, es.value) && Has(s, k, es.after)
    && if es.LastElem? then At(s, c, ']') else At(s, c, ',') && OccursElems(s, c + 1, es.rest)
  }

  predicate OccursMembers(s: string, i: nat, ms: Members)
    decreases ms, 0
  {
    var d := i + LenMember(ms.member);
    && OccursMember(s, i, ms.member)
    && if ms.LastMember? then At(s, d, '}') else At(s, d, ',') && OccursMembers(s, d + 1, ms.rest)
  }

  predicate OccursMember(s: string, i: nat, m: Member)
    decreases m, 0
  {
    var j := i + |m.beforeKey|;
    var k := j + |TokensText(m.key)| + 2;
    var c := k + |m.afterKey|;
    var b := c + 1 + |m.before|;
    && Has(s, i, m.beforeKey) && OccursQuoted(s, j, m.key) && Has(s, k, m.afterKey) && At(s, c, ':')
    && Has(s, c + 1, m.before) && Occurs(s, b, m.value) && Has(s, b + Len(m.value), m.after)
  }

  lemma {:induction false} HasConcat(s: string, i: nat, t: string, u: string)
    ensures Has(s, i, t + u) <==> Has(s, i, t) && Has(s, i + |t|, u)
    decreases |t|
  {
    if t == [] {
      assert t + u == u;
      HasIsSlice(s, i, u);
    } else {
      assert (t + u)[1..] == t[1..] + u;
      HasConcat(s, i + 1, t[1..], u);
    }
  }

  lemma HasChar(s: string, i: nat, c: char)
    ensures Has(s, i, [c]) <==> At(s, i, c)
  {
    assert [c][1..] == [];
  }

  lemma HasQuoted(s: string, i: nat, ts: seq<Token>)
    ensures Has(s, i, Quoted(ts)) <==> OccursQuoted(s, i, ts)
  {
    HasConcat(s, i, "\"" + TokensText(ts), "\"");
    HasConcat(s, i, "\"", TokensText(ts));
    HasChar(s, i, '\"');
    HasChar(s, i + 1 + |TokensText(ts)|, '\"');
  }

  lemma {:induction false} HasYield(s: string, i: nat, v: Value)
    ensures Has(s, i, Yield(v)) <==> Occurs(s, i, v)
    ensures |Yield(v)| == Len(v)
    decreases v, 1
  {
    hide Has, TokensText, YieldElems, YieldMembers, OccursElems, OccursMembers, LenElems, LenMembers;
    match v
    case Literal(_) =>
    case Number(minus, whole, frac, exp) =>
      HasConcat(s, i, minus + whole + frac, exp);
      HasConcat(s, i, minus + whole, frac);
      HasConcat(s, i, minus, whole);
    case Text(tokens) => HasQuoted(s, i, tokens);
    case EmptyArray(blank) =>
      HasThree(s, i, "[", blank, "]");
      HasChar(s, i, '[');
      HasChar(s, i + 1 + |blank|, ']');
    case EmptyObject(blank) =>
      HasThree(s, i, "{", blank, "}");
      HasChar(s, i, '{');
      HasChar(s, i + 1 + |blank|, '}');
    case Array(elems) =>
      HasConcat(s, i, "[", YieldElems(elems));
      HasChar(s, i, '[');
      HasYieldElems(s, i + 1, elems);
    case Object(members) =>
      HasConcat(s, i, "{", YieldMembers(members));
      HasChar(s, i, '{');
      HasYieldMembers(s, i + 1, members);
  }

  lemma HasThree(s: string, i: nat, t: string, u: string, w: string)
    ensures Has(s, i, t + u + w) <==> Has(s, i, t) && Has(s, i + |t|, u) && Has(s, i + |t| + |u|, w)
  {
    HasConcat(s, i, t + u, w);
    HasConcat(s, i, t, u);
  }

  lemma {:induction false} HasYieldElems(s: string, i: nat, es: Elems)
    ensures Has(s, i, YieldElems(es)) <==> OccursElems(s, i, es)
    ensures |YieldElems(es)| == LenElems(es)
    decreases es, 1
  {
    hide Has, Occurs, Yield, Len;
    var tail := if es.LastElem? then "]" else "," + YieldElems(es.rest);
    var c := i + |es.before| + Len(es.value) + |es.after|;
    HasConcat(s, i, es.before + Yield(es.value) + es.after, tail);
    HasConcat(s, i, es.before + Yield(es.value), es.after);
    HasConcat(s, i, es.before, Yield(es.value));
    HasYield(s, i + |es.before|, es.value);
    if es.LastElem? {
      HasChar(s, c, ']');
    } else {
      HasConcat(s, c, ",", YieldElems(es.rest));
      HasChar(s, c, ',');
      HasYieldElems(s, c + 1, es.rest);
    }
  }

  lemma {:induction false} HasYieldMembers(s: string, i: nat, ms: Members)
    ensures Has(s, i, YieldMembers(ms)) <==> OccursMembers(s, i, ms)
    ensures |YieldMembers(ms)| == LenMembers(ms)
    decreases ms, 1
  {
    hide Has, YieldMember, OccursMember, LenMember;
    var tail := if ms.LastMember? then "}" else "," + YieldMembers(ms.rest);
    var d := i + LenMember(ms.member);
    HasConcat(s, i, YieldMember(ms.member), tail);
    HasYieldMember(s, i, ms.member);
    if ms.LastMember? {
      HasChar(s, d, '}');
    } else {
      HasConcat(s, d, ",", YieldMembers(ms.rest));
      HasChar(s, d, ',');
      HasYieldMembers(s, d + 1, ms.rest);
    }
  }

  lemma {:induction false} HasYieldMember(s: string, i: nat, m: Member)
    ensures Has(s, i, YieldMember(m)) <==> OccursMember(s, i, m)
    ensures |YieldMember(m)| == LenMember(m)
    decreases m, 1
  {
    hide Has, Occurs, OccursQuoted, Len, Yield;
    var p2 := m.beforeKey + Quoted(m.key);
    var p3 := p2 + m.afterKey;
    var p4 := p3 + ":";
    var p5 := p4 + m.before;
    HasConcat(s, i, p5 + Yield(m.value), m.after);
    HasConcat(s, i, p5, Yield(m.value));
    HasConcat(s, i, p4, m.before);
    HasConcat(s, i, p3, ":");
    HasConcat(s, i, p2, m.afterKey);
    HasConcat(s, i, m.beforeKey, Quoted(m.key));
    HasQuoted(s, i + |m.beforeKey|, m.key);
    HasChar(s, i + |p3|, ':');
    HasYield(s, i + |p5|, m.value);
  }

  // ----- soundness: whatever is accepted has a derivation -----

  lemma HasSlice(s: string, i: nat, j: nat)
    requires i <= j <= |s|
    ensures Has(s, i, s[i..j])
  {
    HasIsSlice(s, i, s[i..j]);
  }

  lemma WholeSound(s: string, a: nat)
    requires a <= |s| && ScanWhole(s, a).Some?
    ensures GoodWhole(s[a..ScanWhole(s, a).value])
  {
    SkipDigitsStops(s, a);
    assert s[a..ScanWhole(s, a).value][0] == s[a];
  }

  lemma FracSound(s: string, b: nat)
    requires b <= |s| && ScanFrac(s, b).Some?
    ensures GoodFrac(s[b..ScanFrac(s, b).value])
  {
    var c := ScanFrac(s, b).value;
    if c > b {
      SkipDigitsStops(s, b + 1);
      assert s[b..c][0] == '.' && s[b..c][1..] == s[b + 1..c];
    }
  }

  lemma ExpSound(s: string, c: nat)
    requires c <= |s| && ScanExp(s, c).Some?
    ensures GoodExp(s[c..ScanExp(s, c).value])
  {
    var d := ScanExp(s, c).value;
    if d > c {
      assert s[c..d][0] == s[c];
      if At(s, c + 1, '+') || At(s, c + 1, '-') {
        SkipDigitsStops(s, c + 2);
        assert s[c..d][1] == s[c + 1] && s[c..d][2..] == s[c + 2..d];
      } else {
        SkipDigitsStops(s, c + 1);
        assert s[c..d][1..] == s[c + 1..d];
      }
    }
  }

  lemma NumberSound(s: string, i: nat) returns (v: Value)
    requires i <= |s| && ScanNumber(s, i).Some?
    ensures Good(v) && v.Number? && Occurs(s, i, v) && i + Len(v) == ScanNumber(s, i).value
  {
    hide ScanWhole, ScanFrac, ScanExp, Has, GoodWhole, GoodFrac, GoodExp;
    var a := if At(s, i, '-') then i + 1 else i;
    var b := ScanWhole(s, a).value;
    var c := ScanFrac(s, b).value;
    var d := ScanExp(s, c).value;
    v := Number(s[i..a], s[a..b], s[b..c], s[c..d]);
    WholeSound(s, a);
    FracSound(s, b);
    ExpSound(s, c);
    assert a > i ==> s[i..a] == "-";
    HasSlice(s, i, a);
    HasSlice(s, a, b);
    HasSlice(s, b, c);
    HasSlice(s, c, d);
  }

  lemma TokensCons(t: Token, rest: seq<Token>)
    requires GoodToken(t) && GoodTokens(rest)
    ensures GoodTokens([t] + rest)
    ensures TokensUnits([t] + rest) == TokenUnits(t) + TokensUnits(rest)
    ensures TokensText([t] + rest) == TokenText(t) + TokensText(rest)
  {
    assert ([t] + rest)[1..] == rest;
  }

  /** The token a string continues with. */
  lemma TokenAt(s: string, i: nat) returns (t: Token)
    requires i <= |s| && ParseString(s, i).Ok? && s[i] != '\"'
    ensures GoodToken(t) && Has(s, i, TokenText(t)) && i + |TokenText(t)| <= |s|
    ensures ParseString(s, i) == Prepend(TokenUnits(t), ParseString(s, i + |TokenText(t)|))
  {
    hide EncodeChar, HexUnit;
    if s[i] != '\\' {
      t := Plain(s[i]);
      assert s[i..i + 1] == [s[i]];
    } else if s[i + 1] == 'u' {
      t := Unicode(s[i + 2..i + 6]);
      assert s[i..i + 6] == ['\\', 'u'] + s[i + 2..i + 6];
    } else {
      t := Short(s[i + 1]);
      assert s[i..i + 2] == ['\\', s[i + 1]];
    }
    HasIsSlice(s, i, TokenText(t));
  }

  lemma ClosingQuote(s: string, i: nat)
    requires At(s, i, '\"')
    ensures ParseString(s, i) == Ok([], i + 1)
    ensures TokensText([]) == "" && TokensUnits([]) == [] && GoodTokens([]) && Has(s, i, "")
  {
  }

  lemma {:induction false} StringSound(s: string, i: nat) returns (ts: seq<Token>)
    requires i <= |s| && ParseString(s, i).Ok?
    ensures GoodTokens(ts) && TokensUnits(ts) == ParseString(s, i).value
    ensures Has(s, i, TokensText(ts)) && At(s, i + |TokensText(ts)|, '\"')
    ensures i + |TokensText(ts)| + 1 == ParseString(s, i).next
    decreases |s| - i
  {
    hide Has, TokensText, TokensUnits, TokenUnits, GoodTokens, ParseString;
    if At(s, i, '\"') {
      ts := [];
      ClosingQuote(s, i);
    } else {
      var t := TokenAt(s, i);
      var rest := StringSound(s, i + |TokenText(t)|);
      ts := [t] + rest;
      TokensCons(t, rest);
      HasConcat(s, i, TokenText(t), TokensText(rest));
    }
  }

  lemma {:induction false} ValueSound(s: string, i: nat) returns (v: Value)
    requires i <= |s| && ParseValue(s, i).Ok?
    ensures Good(v) && Meaning(v) == ParseValue(s, i).value
    ensures Occurs(s, i, v) && i + Len(v) == ParseValue(s, i).next
    decreases |s| - i, 5
  {
    hide Has, ObjectFirst, ArrayFirst, ParseString, ScanNumber, TokensText, TokensUnits, GoodElems, GoodMembers, OccursElems, OccursMembers;
    if At(s, i, '{') {
      v := ObjectFirstSound(s, i + 1);
    } else if At(s, i, '[') {
      v := ArrayFirstSound(s, i + 1);
    } else if At(s, i, '\"') {
      var ts := StringSound(s, i + 1);
      v := Text(ts);
    } else if s[i] == 'n' || s[i] == 't' || s[i] == 'f' {
      HasSlice(s, i, ParseValue(s, i).next);
      v := Literal(s[i..ParseValue(s, i).next]);
    } else {
      v := NumberSound(s, i);
      HasYield(s, i, v);
      HasIsSlice(s, i, Yield(v));
    }
  }

  lemma FirstIsNext(s: string, i: nat)
    requires i <= |s| && !At(s, SkipBlanks(s, i), ']')
    ensures ArrayFirst(s, i) == ArrayNext(s, i, [])
  {
    hide ParseValue, ArrayComma, SkipBlanks;
    SkipTwice(s, i);
  }

  lemma {:induction false} ArrayFirstSound(s: string, i: nat) returns (v: Value)
    requires 0 < i <= |s| && s[i - 1] == '[' && ArrayFirst(s, i).Ok?
    ensures Good(v) && Meaning(v) == ArrayFirst(s, i).value
    ensures Occurs(s, i - 1, v) && i - 1 + Len(v) == ArrayFirst(s, i).next
    decreases |s| - i, 8
  {
    hide ParseValue, Has, Blanks, SkipBlanks, GoodElems, OccursElems, MeaningElems, LenElems, ArrayNext;
    var j := SkipBlanks(s, i);
    if At(s, j, ']') {
      SkipBlanksStops(s, i);
      HasSlice(s, i, j);
      v := EmptyArray(s[i..j]);
    } else {
      FirstIsNext(s, i);
      var es := ArrayNextSound(s, i, []);
      v := Array(es);
      assert [] + MeaningElems(es) == MeaningElems(es);
    }
  }

  /** The elements read so far, one more, and the rest. */
  lemma ElemsAppend(done: seq<Json>, es: Elems)
    requires GoodElems(es)
    ensures es.LastElem? ==> done + MeaningElems(es) == done + [Meaning(es.value)]
    ensures es.MoreElems? ==> done + MeaningElems(es) == done + [Meaning(es.value)] + MeaningElems(es.rest)
  {
  }

  lemma ArrayNextSteps(s: string, i: nat, done: seq<Json>)
    requires i <= |s| && ParseValue(s, SkipBlanks(s, i)).Ok?
    ensures var r := ParseValue(s, SkipBlanks(s, i));
            var c := SkipBlanks(s, r.next);
            ArrayNext(s, i, done) ==
              if At(s, c, ']') then Ok(Arr(done + [r.value]), c + 1)
              else if At(s, c, ',') then ArrayNext(s, c + 1, done + [r.value])
              else Fail
  {
    var r := ParseValue(s, SkipBlanks(s, i));
    assert ArrayNext(s, i, done) == ArrayComma(s, r.next, done + [r.value]);
  }

  lemma {:induction false} PaddedSound(s: string, i: nat) returns (before: string, v: Value, after: string)
    requires i <= |s| && ParseValue(s, SkipBlanks(s, i)).Ok?
    ensures Blanks(before) && Good(v) && Blanks(after)
    ensures Has(s, i, before) && Occurs(s, i + |before|, v) && Has(s, i + |before| + Len(v), after)
    ensures i + |before| == SkipBlanks(s, i) && ParseValue(s, i + |before|) == Ok(Meaning(v), i + |before| + Len(v))
    ensures i + |before| + Len(v) + |after| == SkipBlanks(s, i + |before| + Len(v))
    decreases |s| - i, 6
  {
    hide ParseValue, Good, Occurs, Meaning, Len, SkipBlanks, Has, Blanks;
    var j := SkipBlanks(s, i);
    v := ValueSound(s, j);
    before, after := BlankSlice(s, i), BlankSlice(s, ParseValue(s, j).next);
  }

  lemma ArrayNextOk(s: string, i: nat, done: seq<Json>)
    requires i <= |s| && ArrayNext(s, i, done).Ok?
    ensures ParseValue(s, SkipBlanks(s, i)).Ok?
  {
    hide ParseValue, SkipBlanks, ArrayComma;
  }

  lemma {:induction false} ArrayNextSound(s: string, i: nat, done: seq<Json>) returns (es: Elems)
    requires i <= |s| && ArrayNext(s, i, done).Ok?
    ensures GoodElems(es) && Arr(done + MeaningElems(es)) == ArrayNext(s, i, done).value
    ensures OccursElems(s, i, es) && i + LenElems(es) == ArrayNext(s, i, done).next
    decreases |s| - i, 7
  {
    hide Good, Occurs, Meaning, ParseValue, Has, Blanks, Len, SkipBlanks, ArrayNext, MeaningElems;
    ArrayNextOk(s, i, done);
    var before, v, after := PaddedSound(s, i);
    var c := i + |before| + Len(v) + |after|;
    var done' := done + [Meaning(v)];
    ArrayNextSteps(s, i, done);
    if At(s, c, ']') {
      es := LastElem(before, v, after);
    } else {
      var rest := ArrayNextSound(s, c + 1, done');
      es := MoreElems(before, v, after, rest);
    }
    ElemsAppend(done, es);
  }

  function BlankSlice(s: string, i: nat): (b: string)
    requires i <= |s|
    ensures Blanks(b) && Has(s, i, b) && i + |b| == SkipBlanks(s, i)
  {
    SkipBlanksStops(s, i);
    HasSlice(s, i, SkipBlanks(s, i));
    s[i..SkipBlanks(s, i)]
  }

  lemma {:induction false} ObjectFirstSound(s: string, i: nat) returns (v: Value)
    requires 0 < i <= |s| && s[i - 1] == '{' && ObjectFirst(s, i).Ok?
    ensures Good(v) && Meaning(v) == ObjectFirst(s, i).value
    ensures Occurs(s, i - 1, v) && i - 1 + Len(v) == ObjectFirst(s, i).next
    decreases |s| - i, 9
  {
    var j := SkipBlanks(s, i);
    if At(s, j, '}') {
      SkipBlanksStops(s, i);
      HasSlice(s, i, j);
      v := EmptyObject(s[i..j]);
    } else {
      SkipTwice(s, i);
      assert ObjectFirst(s, i) == ObjectKey(s, i, []);
      var ms := ObjectKeySound(s, i, []);
      v := Object(ms);
    }
  }

  /** The positions reading one member passes: key, colon, value, separator. */
  datatype Path = Path(quote: nat, key: seq<Unit>, keyEnd: nat, colon: nat, start: nat, value: Json, end: nat, sep: nat)

  predicate Follows(s: string, i: nat, p: Path)
    requires i <= |s|
  {
    && p.quote == SkipBlanks(s, i) && At(s, p.quote, '\"')
    && ParseString(s, p.quote + 1) == Ok(p.key, p.keyEnd)
    && p.colon == SkipBlanks(s, p.keyEnd) && At(s, p.colon, ':')
    && p.start == SkipBlanks(s, p.colon + 1)
    && ParseValue(s, p.start) == Ok(p.value, p.end)
    && p.sep == SkipBlanks(s, p.end)
  }

  lemma ObjectKeyPath(s: string, i: nat, done: seq<Field>) returns (p: Path)
    requires i <= |s| && ObjectKey(s, i, done).Ok?
    ensures Follows(s, i, p) && (At(s, p.sep, '}') || At(s, p.sep, ','))
  {
    var j := SkipBlanks(s, i);
    var key, k := ParseString(s, j + 1).value, ParseString(s, j + 1).next;
    assert ObjectKey(s, i, done) == ObjectColon(s, k, done, key);
    var c := SkipBlanks(s, k);
    assert ObjectColon(s, k, done, key) == ObjectNext(s, c + 1, done, key);
    var b := SkipBlanks(s, c + 1);
    var v, a := ParseValue(s, b).value, ParseValue(s, b).next;
    assert ObjectNext(s, c + 1, done, key) == ObjectComma(s, a, Put(done, key, v));
    p := Path(j, key, k, c, b, v, a, SkipBlanks(s, a));
  }

  lemma PathResult(s: string, i: nat, done: seq<Field>, p: Path)
    requires i <= |s| && Follows(s, i, p)
    ensures var done' := Put(done, p.key, p.value);
            ObjectKey(s, i, done) ==
              if At(s, p.sep, '}') then Ok(Obj(done'), p.sep + 1)
              else if At(s, p.sep, ',') then ObjectKey(s, p.sep + 1, done')
              else Fail
  {
    assert ObjectKey(s, i, done) == ObjectColon(s, p.keyEnd, done, p.key);
    assert ObjectColon(s, p.keyEnd, done, p.key) == ObjectNext(s, p.colon + 1, done, p.key);
    assert ObjectNext(s, p.colon + 1, done, p.key) == ObjectComma(s, p.end, Put(done, p.key, p.value));
  }

  lemma {:induction false} ObjectKeySound(s: string, i: nat, done: seq<Field>) returns (ms: Members)
    requires i <= |s| && ObjectKey(s, i, done).Ok?
    ensures GoodMembers(ms) && Obj(MeaningMembers(ms, done)) == ObjectKey(s, i, done).value
    ensures OccursMembers(s, i, ms) && i + LenMembers(ms) == ObjectKey(s, i, done).next
    decreases |s| - i, 8
  {
    hide Good, Occurs, Meaning, ParseValue, ParseString, Has, Blanks, Len, SkipBlanks, Put, TokensText, TokensUnits, OccursMember, LenMember, ObjectKey;
    var p := ObjectKeyPath(s, i, done);
    PathResult(s, i, done, p);
    var m := MemberSound(s, i, p);
    var done' := Put(done, TokensUnits(m.key), Meaning(m.value));
    if At(s, p.sep, '}') {
      ms := LastMember(m);
    } else {
      var rest := ObjectKeySound(s, p.sep + 1, done');
      ms := MoreMembers(m, rest);
    }
  }

  lemma {:induction false} MemberSound(s: string, i: nat, p: Path) returns (m: Member)
    requires i <= |s| && Follows(s, i, p)
    ensures GoodMember(m) && OccursMember(s, i, m) && i + LenMember(m) == p.sep
    ensures TokensUnits(m.key) == p.key && Meaning(m.value) == p.value
    decreases |s| - i, 7
  {
    hide Good, Occurs, Meaning, ParseValue, ParseString, Has, Blanks, Len, SkipBlanks, TokensText, TokensUnits;
    var key := StringSound(s, p.quote + 1);
    var before, v, after := PaddedSound(s, p.colon + 1);
    m := Member(BlankSlice(s, i), key, BlankSlice(s, p.keyEnd), before, v, after);
  }

  // ----- completeness: every derivation is read back -----

  lemma {:induction false} SkipBlanksExact(s: string, i: nat, b: string)
    requires Blanks(b) && Has(s, i, b) && (i + |b| < |s| ==> !IsBlank(s[i + |b|]))
    ensures SkipBlanks(s, i) == i + |b|
    decreases |b|
  {
    if b != [] {
      SkipBlanksExact(s, i + 1, b[1..]);
    }
  }

  lemma {:induction false} SkipDigitsExact(s: string, i: nat, b: string)
    requires AllDigits(b) && Has(s, i, b) && (i + |b| < |s| ==> !IsDigit(s[i + |b|]))
    ensures SkipDigits(s, i) == i + |b|
    decreases |b|
  {
    if b != [] {
      SkipDigitsExact(s, i + 1, b[1..]);
    }
  }

  /** Skipping blanks twice changes nothing. */
  lemma SkipTwice(s: string, i: nat)
    requires i <= |s|
    ensures SkipBlanks(s, SkipBlanks(s, i)) == SkipBlanks(s, i)
  {
    SkipBlanksStops(s, i);
  }

  /** A number token would not stop before this character. */
  predicate Continues(s: string, i: nat) {
    i < |s| && (IsDigit(s[i]) || s[i] == '.' || s[i] == 'e' || s[i] == 'E')
  }

  lemma HasTail(s: string, i: nat, t: string, n: nat)
    requires Has(s, i, t) && n <= |t|
    ensures Has(s, i + n, t[n..])
    ensures n < |t| ==> s[i + n] == t[n]
  {
    assert t == t[..n] + t[n..];
    HasConcat(s, i, t[..n], t[n..]);
  }

  lemma WholeComplete(s: string, a: nat, w: string)
    requires GoodWhole(w) && Has(s, a, w) && (a + |w| < |s| ==> !IsDigit(s[a + |w|]))
    ensures ScanWhole(s, a) == Some(a + |w|) && IsDigit(s[a])
  {
    HasTail(s, a, w, 0);
    if w[0] != '0' { SkipDigitsExact(s, a, w); }
  }

  lemma FracComplete(s: string, b: nat, f: string)
    requires GoodFrac(f) && Has(s, b, f)
    requires b + |f| < |s| ==> !IsDigit(s[b + |f|]) && s[b + |f|] != '.'
    ensures ScanFrac(s, b) == Some(b + |f|)
  {
    if f != [] {
      HasTail(s, b, f, 0);
      HasTail(s, b, f, 1);
      SkipDigitsExact(s, b + 1, f[1..]);
    }
  }

  lemma ExpComplete(s: string, c: nat, e: string)
    requires GoodExp(e) && Has(s, c, e) && !Continues(s, c + |e|)
    ensures ScanExp(s, c) == Some(c + |e|)
  {
    if e != [] {
      HasTail(s, c, e, 0);
      HasTail(s, c, e, 1);
      if e[1] == '+' || e[1] == '-' {
        assert e[1..][0] == e[1] && !IsDigit(e[1]);
        HasTail(s, c, e, 2);
        SkipDigitsExact(s, c + 2, e[2..]);
      } else {
        assert e[1..][0] == e[1];
        SkipDigitsExact(s, c + 1, e[1..]);
      }
    }
  }

  lemma NumberComplete(s: string, i: nat, v: Value)
    requires v.Number? && Good(v) && Occurs(s, i, v) && !Continues(s, i + Len(v))
    ensures ScanNumber(s, i) == Some(i + Len(v))
    ensures i < |s| && (s[i] == '-' || IsDigit(s[i]))
  {
    hide Has, ScanWhole, ScanFrac, ScanExp, AllDigits;
    var a := i + |v.minus|;
    var b := a + |v.whole|;
    var c := b + |v.frac|;
    ExpComplete(s, c, v.exp);
    if v.exp != [] { HasTail(s, c, v.exp, 0); }
    FracComplete(s, b, v.frac);
    if v.frac != [] { HasTail(s, b, v.frac, 0); }
    WholeComplete(s, a, v.whole);
    if v.minus != [] { HasTail(s, i, v.minus, 0); }
  }

  lemma TokenRead(s: string, i: nat, t: Token)
    requires GoodToken(t) && Has(s, i, TokenText(t))
    ensures i + |TokenText(t)| <= |s|
    ensures ParseString(s, i) == Prepend(TokenUnits(t), ParseString(s, i + |TokenText(t)|))
  {
    hide EncodeChar, HexUnit;
    HasIsSlice(s, i, TokenText(t));
    var w := s[i..i + |TokenText(t)|];
    assert w[0] == s[i] && (|w| > 1 ==> w[1] == s[i + 1]);
    if t.Unicode? {
      assert s[i + 2..i + 6] == w[2..] == t.h;
    }
  }

  lemma StringEnd(s: string, i: nat)
    requires At(s, i, '\"')
    ensures ParseString(s, i) == Ok([], i + 1)
  {
  }

  lemma {:induction false} StringComplete(s: string, i: nat, ts: seq<Token>)
    requires GoodTokens(ts) && Has(s, i, TokensText(ts)) && At(s, i + |TokensText(ts)|, '\"')
    ensures ParseString(s, i) == Ok(TokensUnits(ts), i + |TokensText(ts)| + 1)
    decreases |ts|
  {
    hide Has, TokenText, TokenUnits, ParseString, GoodToken;
    if ts == [] {
      StringEnd(s, i);
    } else {
      var t := TokenText(ts[0]);
      HasConcat(s, i, t, TokensText(ts[1..]));
      TokenRead(s, i, ts[0]);
      StringComplete(s, i + |t|, ts[1..]);
    }
  }

  lemma YieldStart(s: string, i: nat, v: Value)
    requires Good(v) && Occurs(s, i, v)
    ensures Yield(v) != [] && i < |s| && s[i] == Yield(v)[0]
    ensures !IsBlank(s[i]) && s[i] != ']' && s[i] != '}'
  {
    HasYield(s, i, v);
    assert Yield(v) != [];
    HasTail(s, i, Yield(v), 0);
  }

  lemma ScalarComplete(s: string, i: nat, v: Value)
    requires Good(v) && Occurs(s, i, v) && (v.Number? ==> !Continues(s, i + Len(v))) && (v.Number? || v.Literal? || v.Text?)
    ensures ParseValue(s, i) == Ok(Meaning(v), i + Len(v))
  {
    hide Has, ParseString, ScanNumber, TokensText, TokensUnits;
    match v
    case Number(_, _, _, _) =>
      NumberComplete(s, i, v);
      HasYield(s, i, v);
      HasIsSlice(s, i, Yield(v));
    case Literal(word) => HasTail(s, i, word, 0);
    case Text(tokens) => StringComplete(s, i + 1, tokens);
  }

  lemma {:induction false} ValueComplete(s: string, i: nat, v: Value)
    requires Good(v) && Occurs(s, i, v) && (v.Number? ==> !Continues(s, i + Len(v)))
    ensures ParseValue(s, i) == Ok(Meaning(v), i + Len(v))
    decreases v, 0
  {
    hide Has, ParseString, ScanNumber, TokensText, TokensUnits, GoodElems, GoodMembers, OccursElems, OccursMembers, MeaningElems, MeaningMembers, LenElems, LenMembers;
    match v
    case Number(_, _, _, _) => ScalarComplete(s, i, v);
    case Literal(_) => ScalarComplete(s, i, v);
    case Text(_) => ScalarComplete(s, i, v);
    case EmptyArray(blank) => SkipBlanksExact(s, i + 1, blank);
    case EmptyObject(blank) => SkipBlanksExact(s, i + 1, blank);
    case Array(elems) =>
      ElemsComplete(s, i + 1, elems, []);
      ArrayFirstIsNext(s, i + 1, elems);
      assert [] + MeaningElems(elems) == MeaningElems(elems);
    case Object(members) =>
      MembersComplete(s, i + 1, members, []);
      ObjectFirstIsKey(s, i + 1, members);
  }

  lemma ArrayFirstIsNext(s: string, i: nat, es: Elems)
    requires GoodElems(es) && OccursElems(s, i, es)
    ensures ArrayFirst(s, i) == ArrayNext(s, i, [])
  {
    YieldStart(s, i + |es.before|, es.value);
    SkipBlanksExact(s, i, es.before);
    SkipTwice(s, i);
  }

  lemma ObjectFirstIsKey(s: string, i: nat, ms: Members)
    requires GoodMembers(ms) && OccursMembers(s, i, ms)
    ensures ObjectFirst(s, i) == ObjectKey(s, i, [])
  {
    hide Has, ParseString, ParseValue, ObjectColon, SkipBlanks, Good, Occurs, GoodTokens;
    assert GoodMember(ms.member) && OccursMember(s, i, ms.member);
    SkipBlanksExact(s, i, ms.member.beforeKey);
    SkipTwice(s, i);
  }

  lemma BlanksStop(s: string, i: nat, b: string)
    requires Blanks(b) && Has(s, i, b) && !Continues(s, i + |b|)
    ensures !Continues(s, i)
  {
    if b != [] { HasTail(s, i, b, 0); }
  }

  /** A value between blanks, up to a separator or the end of the text. */
  lemma {:induction false} PaddedComplete(s: string, i: nat, before: string, v: Value, after: string)
    requires Blanks(before) && Good(v) && Blanks(after)
    requires Has(s, i, before) && Occurs(s, i + |before|, v) && Has(s, i + |before| + Len(v), after)
    requires var e := i + |before| + Len(v) + |after|; !Continues(s, e) && (e < |s| ==> !IsBlank(s[e]))
    ensures i <= |s| && SkipBlanks(s, i) == i + |before|
    ensures ParseValue(s, i + |before|) == Ok(Meaning(v), i + |before| + Len(v))
    ensures SkipBlanks(s, i + |before| + Len(v)) == i + |before| + Len(v) + |after|
    decreases v, 1
  {
    hide Good, Occurs, Meaning, ParseValue, Has, Len, SkipBlanks;
    YieldStart(s, i + |before|, v);
    SkipBlanksExact(s, i, before);
    BlanksStop(s, i + |before| + Len(v), after);
    ValueComplete(s, i + |before|, v);
    SkipBlanksExact(s, i + |before| + Len(v), after);
  }

  lemma {:induction false} ElemsComplete(s: string, i: nat, es: Elems, done: seq<Json>)
    requires GoodElems(es) && OccursElems(s, i, es)
    ensures ArrayNext(s, i, done) == Ok(Arr(done + MeaningElems(es)), i + LenElems(es))
    decreases es, 0
  {
    var j := i + |es.before|;
    var k := j + Len(es.value);
    var c := k + |es.after|;
    hide Good, Occurs, Meaning, ParseValue, Has, Blanks, Len, SkipBlanks;
    PaddedComplete(s, i, es.before, es.value, es.after);
    var done' := done + [Meaning(es.value)];
    ArrayNextSteps(s, i, done);
    ElemsAppend(done, es);
    if es.MoreElems? {
      ElemsComplete(s, c + 1, es.rest, done');
    }
  }

  lemma {:induction false} MembersComplete(s: string, i: nat, ms: Members, done: seq<Field>)
    requires GoodMembers(ms) && OccursMembers(s, i, ms)
    ensures ObjectKey(s, i, done) == Ok(Obj(MeaningMembers(ms, done)), i + LenMembers(ms))
    decreases ms, 0
  {
    hide Good, Occurs, Meaning, ParseValue, ParseString, Has, Blanks, Len, SkipBlanks, Put, TokensText, TokensUnits, Follows, GoodMember, OccursMember, LenMember, ObjectKey;
    var m := ms.member;
    assert GoodMember(m) && OccursMember(s, i, m);
    var p := MemberComplete(s, i, m);
    PathResult(s, i, done, p);
    if ms.MoreMembers? {
      MembersComplete(s, p.sep + 1, ms.rest, Put(done, p.key, p.value));
    }
  }

  lemma {:induction false} MemberComplete(s: string, i: nat, m: Member) returns (p: Path)
    requires GoodMember(m) && OccursMember(s, i, m)
    requires At(s, i + LenMember(m), '}') || At(s, i + LenMember(m), ',')
    ensures i <= |s| && Follows(s, i, p) && p.sep == i + LenMember(m)
    ensures TokensUnits(m.key) == p.key && Meaning(m.value) == p.value
    decreases m, 0
  {
    hide Good, Occurs, Meaning, ParseValue, ParseString, Has, Blanks, Len, SkipBlanks, TokensText, TokensUnits;
    var j := i + |m.beforeKey|;
    var k := j + |TokensText(m.key)| + 2;
    var c := k + |m.afterKey|;
    var b := c + 1 + |m.before|;
    var a := b + Len(m.value);
    SkipBlanksExact(s, i, m.beforeKey);
    StringComplete(s, j + 1, m.key);
    SkipBlanksExact(s, k, m.afterKey);
    PaddedComplete(s, c + 1, m.before, m.value, m.after);
    p := Path(j, TokensUnits(m.key), k, c, b, Meaning(m.value), a, a + |m.after|);
  }

  // ----- the two together -----

  /** A derivation of the whole text is read as exactly what it denotes. */
  lemma TextComplete(s: string, before: string, v: Value, after: string)
    requires Derives(s, before, v, after)
    ensures ParseText(s) == Some(Meaning(v))
  {
    hide Good, Occurs, Meaning, ParseValue, Has, Len, SkipBlanks;
    assert s == s[0..|s|];
    HasSlice(s, 0, |s|);
    HasThree(s, 0, before, Yield(v), after);
    HasYield(s, |before|, v);
    PaddedComplete(s, 0, before, v, after);
  }

  lemma TextSound(s: string) returns (before: string, v: Value, after: string)
    requires ParseText(s).Some?
    ensures Derives(s, before, v, after) && ParseText(s) == Some(Meaning(v))
  {
    hide Good, Occurs, Meaning, ParseValue, Has, Len, SkipBlanks;
    before, v, after := PaddedSound(s, 0);
    HasYield(s, |before|, v);
    HasThree(s, 0, before, Yield(v), after);
    HasIsSlice(s, 0, before + Yield(v) + after);
    assert s[0..|s|] == s;
  }

  /** Acceptance is exactly membership in the grammar, and a text denotes one value only. */
  lemma AcceptsExactlyJson(s: string)
    ensures ParseText(s).Some? <==> IsJsonText(s)
    ensures forall before, v, after :: Derives(s, before, v, after) ==> ParseText(s) == Some(Meaning(v))
  {
    forall before, v, after | Derives(s, before, v, after)
      ensures ParseText(s) == Some(Meaning(v))
    {
      TextComplete(s, before, v, after);
    }
    if ParseText(s).Some? {
      var before, v, after := TextSound(s);
    }
  }

  /** A value cut out of its text reads the same alone. */
  lemma CutOut(s: string, i: nat)
    requires i <= |s| && ParseValue(s, i).Ok?
    ensures ParseText(s[i..ParseValue(s, i).next]) == Some(ParseValue(s, i).value)
  {
    var v := ValueSound(s, i);
    HasYield(s, i, v);
    HasIsSlice(s, i, Yield(v));
    var t := s[i..ParseValue(s, i).next];
    assert t == "" + Yield(v) + "";
    assert Derives(t, "", v, "");
    TextComplete(t, "", v, "");
  }
}
