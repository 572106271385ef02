/** JSON pointers (sections 3 and 4 of RFC 6901) as the parser builds them. */
module JsonPointer {
  import opened Sequences
  import opened JsonValue
  import opened JsonGrammar
  import opened DecimalText

  function EscapeChar(c: char): (s: string)
    ensures s != [] && '/' !in s
  {
    if c == '~' then "~0" else if c == '/' then "~1" else [c]
  }

  function Escape(segment: string): string {
    if segment == [] then [] else EscapeChar(segment[0]) + Escape(segment[1..])
  }

  /** `push_pointer_segment` applied segment by segment. */
  function Pointer(path: seq<string>): string {
    if path == [] then [] else Pointer(path[..|path| - 1]) + "/" + Escape(path[|path| - 1])
  }

  predicate StartsWith(s: string, p: string) { |p| <= |s| && s[..|p|] == p }

  /** `pointer_is_within` */
  predicate Within(candidate: string, pointer: string) {
    || pointer == ""
    || candidate == pointer
    || (StartsWith(candidate, pointer) && |candidate| > |pointer| && candidate[|pointer|] == '/')
  }

  lemma {:induction false} EscapeNoSlash(s: string)
    ensures '/' !in Escape(s)
  {
    if s != [] { EscapeNoSlash(s[1..]); }
  }

  // ----- the escaped text determines the segment -----

  /** `str::replace` of a two-character pattern by one character. */
  function Replace2(s: string, a: char, b: char, sub: char): string
    decreases |s|
  {
    if |s| < 2 then s
    else if s[0] == a && s[1] == b then [sub] + Replace2(s[2..], a, b, sub)
    else [s[0]] + Replace2(s[1..], a, b, sub)
  }

  /** The decoding of one segment by the slow walk: first `~1`, then `~0`. */
  function Unescape(s: string): string { Replace2(Replace2(s, '~', '1', '/'), '~', '0', '~') }

  /** What is left between the two replacements: slashes restored, tildes still escaped. */
  function HalfEscape(s: string): string {
    if s == [] then [] else (if s[0] == '~' then "~0" else [s[0]]) + HalfEscape(s[1..])
  }

  lemma {:induction false} FirstReplacement(s: string)
    ensures Replace2(Escape(s), '~', '1', '/') == HalfEscape(s)
  {
    if s == [] {
    } else {
      FirstReplacement(s[1..]);
      var e, rest := Escape(s), Escape(s[1..]);
      if s[0] == '~' {
        ReplaceTilde(e, rest, '0', '1');
        ReplaceKeeps('0', rest, '~', '1', '/');
      } else if s[0] == '/' {
        ReplaceTilde(e, rest, '1', '1');
      } else {
        assert e == [s[0]] + rest;
        ReplaceKeeps(s[0], rest, '~', '1', '/');
      }
    }
  }

  lemma ReplaceTilde(e: string, rest: string, c: char, b: char)
    requires e == ['~', c] + rest
    ensures c != b ==> Replace2(e, '~', b, '/') == "~" + Replace2([c] + rest, '~', b, '/')
    ensures c == b ==> Replace2(e, '~', b, '/') == "/" + Replace2(rest, '~', b, '/')
  {
    assert e[1..] == [c] + rest && e[2..] == rest;
  }

  lemma ReplaceKeeps(c: char, rest: string, a: char, b: char, sub: char)
    requires c != a
    ensures Replace2([c] + rest, a, b, sub) == [c] + Replace2(rest, a, b, sub)
  {
    assert ([c] + rest)[1..] == rest;
  }

  lemma {:induction false} SecondReplacement(s: string)
    ensures Replace2(HalfEscape(s), '~', '0', '~') == s
  {
    if s == [] {
    } else {
      SecondReplacement(s[1..]);
      var h, rest := HalfEscape(s), HalfEscape(s[1..]);
      if s[0] == '~' {
        assert h[0] == '~' && h[1] == '0' && h[2..] == rest;
      } else {
        assert h == [s[0]] + rest;
        ReplaceKeeps(s[0], rest, '~', '0', '~');
      }
    }
  }

  lemma UnescapeEscape(s: string)
    ensures Unescape(Escape(s)) == s
  {
    FirstReplacement(s);
    SecondReplacement(s);
  }

  lemma EscapeInjective(s: string, t: string)
    requires Escape(s) == Escape(t)
    ensures s == t
  {
    UnescapeEscape(s);
    UnescapeEscape(t);
  }

  // ----- pointers and paths -----

  lemma PointerSnoc(path: seq<string>, segment: string)
    ensures Pointer(path + [segment]) == Pointer(path) + "/" + Escape(segment)
  {
    assert (path + [segment])[..|path|] == path;
  }

  lemma PointerEmpty()
    ensures Pointer([]) == []
  {
  }

  lemma {:induction false} PointerConcat(p: seq<string>, q: seq<string>)
    ensures Pointer(p + q) == Pointer(p) + Pointer(q)
    decreases |q|
  {
    hide Pointer, Escape;
    if q == [] {
      PointerEmpty();
      assert p + q == p && Pointer(p) + [] == Pointer(p);
    } else {
      var q0, s := q[..|q| - 1], q[|q| - 1];
      PointerConcat(p, q0);
      assert p + q == (p + q0) + [s] && q == q0 + [s];
      PointerSnoc(p + q0, s);
      PointerSnoc(q0, s);
      Regroup(Pointer(p), Pointer(q0), "/");
      Regroup(Pointer(p), Pointer(q0) + "/", Escape(s));
    }
  }

  /** The first segment and the rest of a pointer are recoverable. */
  lemma {:induction false} PointerCons(path: seq<string>)
    requires path != []
    ensures Pointer(path) == "/" + Escape(path[0]) + Pointer(path[1..])
  {
    assert path == [path[0]] + path[1..];
    PointerConcat([path[0]], path[1..]);
    PointerSnoc([], path[0]);
    assert [] + [path[0]] == [path[0]];
    assert Pointer([path[0]]) == "/" + Escape(path[0]);
  }

  lemma PointerStart(path: seq<string>)
    ensures path == [] <==> Pointer(path) == []
    ensures path != [] ==> Pointer(path)[0] == '/'
  {
    if path != [] { PointerCons(path); }
  }

  /** Two slash-free heads followed by nothing or a slash split in only one way. */
  lemma HeadUnique(a: string, x: string, b: string, y: string)
    requires '/' !in a && '/' !in b
    requires (x == [] || x[0] == '/') && (y == [] || y[0] == '/')
    requires a + x == b + y
    ensures a == b && x == y
  {
    var w := a + x;
    assert forall k :: 0 <= k < |a| ==> w[k] in a;
    assert forall k :: 0 <= k < |b| ==> w[k] in b;
    assert |a| < |w| ==> w[|a|] == x[0];
    assert |b| < |w| ==> w[|b|] == y[0];
    assert |a| == |b|;
    assert a == w[..|a|] == b && x == w[|a|..] == y;
  }

  lemma DropSlash(s: string, e: string, x: string)
    requires s == "/" + e + x
    ensures s[1..] == e + x
  {
  }

  lemma ConsPrefix(p: seq<string>, q: seq<string>)
    requires p != [] && q != [] && p[0] == q[0] && q[1..] <= p[1..]
    ensures q <= p
  {
    assert p == [p[0]] + p[1..] && q == [q[0]] + q[1..];
  }

  /** The text of one pointer continues the text of another exactly when the path does. */
  lemma {:induction false} PrefixIff(p: seq<string>, q: seq<string>, tail: string)
    requires tail == [] || tail[0] == '/'
    requires Pointer(p) == Pointer(q) + tail
    ensures q <= p
    decreases |q|
  {
    hide Pointer, Escape;
    if q != [] {
      PointerCons(q);
      PointerStart(p);
      PointerCons(p);
      PointerStart(p[1..]);
      PointerStart(q[1..]);
      EscapeNoSlash(p[0]);
      EscapeNoSlash(q[0]);
      var x, y := Pointer(p[1..]), Pointer(q[1..]) + tail;
      DropSlash(Pointer(p), Escape(p[0]), x);
      Regroup("/" + Escape(q[0]), Pointer(q[1..]), tail);
      DropSlash(Pointer(p), Escape(q[0]), y);
      HeadUnique(Escape(p[0]), x, Escape(q[0]), y);
      EscapeInjective(p[0], q[0]);
      PrefixIff(p[1..], q[1..], tail);
      ConsPrefix(p, q);
    }
  }

  lemma PointerInjective(p: seq<string>, q: seq<string>)
    requires Pointer(p) == Pointer(q)
    ensures p == q
  {
    assert Pointer(p) == Pointer(q) + "" && Pointer(q) == Pointer(p) + "";
    PrefixIff(p, q, "");
    PrefixIff(q, p, "");
  }

  /** `pointer_is_within` on rendered pointers is the prefix order on paths. */
  lemma WithinIsPrefix(p: seq<string>, q: seq<string>)
    ensures Within(Pointer(p), Pointer(q)) <==> q <= p
  {
    var c, d := Pointer(p), Pointer(q);
    if q <= p {
      assert p == q + p[|q|..];
      PointerConcat(q, p[|q|..]);
      PointerStart(p[|q|..]);
      if p[|q|..] == [] { assert p == q; }
    } else if Within(c, d) {
      PointerStart(q);
      assert c == d + c[|d|..];
      PrefixIff(p, q, c[|d|..]);
      assert false;
    }
  }

  // ----- array index segments -----

  /** The index a segment names in the slow walk: digits only, no sign, no needless zero. */
  function ParseIndex(segment: string): Option<nat> {
    if segment == "" || segment[0] == '+' || (|segment| > 1 && segment[0] == '0') || !AllDigits(segment) then None
    else Some(ValueOf(segment))
  }

  lemma IndexText(segment: string)
    ensures ParseIndex(segment).Some? <==> GoodWhole(segment)
    ensures ParseIndex(segment).Some? ==> ToText(ParseIndex(segment).value) == segment
  {
    if |segment| == 1 {
      assert segment == [segment[0]] && segment[1..] == [] && AllDigits([]);
    }
    if ParseIndex(segment).Some? { TextUnique(segment); }
  }

  lemma IndexOfText(n: nat)
    ensures ParseIndex(ToText(n)) == Some(n)
  {
    TextRoundTrip(n);
    IndexText(ToText(n));
  }

  // ----- splitting -----

  function UnescapeAll(parts: seq<string>): seq<string> {
    if parts == [] then [] else [Unescape(parts[0])] + UnescapeAll(parts[1..])
  }

  /** Splitting and decoding a rendered pointer gives its path back. */
  lemma {:induction false} SplitPointer(path: seq<string>)
    requires path != []
    ensures Pointer(path)[0] == '/'
    ensures UnescapeAll(Split(Pointer(path)[1..], '/')) == path
    decreases |path|
  {
    hide Pointer, Escape, Unescape, Split;
    PointerCons(path);
    var e, x := Escape(path[0]), Pointer(path[1..]);
    DropSlash(Pointer(path), e, x);
    EscapeNoSlash(path[0]);
    UnescapeEscape(path[0]);
    PointerStart(path[1..]);
    SplitHead(e, x, '/');
    var parts := Split(e + x, '/');
    if path[1..] == [] {
      assert parts[1..] == [] && path == [path[0]];
    } else {
      SplitPointer(path[1..]);
      assert parts[1..] == Split(x[1..], '/');
      assert path == [path[0]] + path[1..];
    }
  }
}
