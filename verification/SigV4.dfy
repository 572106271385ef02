/** Canonical encodings of AWS Signature Version 4: percent encoding, query strings and paths.
    Encoding is undone by decoding, and canonical forms are fixed points that do not depend on
    the order of the pairs. */
module SigV4 {
  import opened Sequences
  import opened JsonValue
  import opened Utf8

  // ----- percent encoding -----

  predicate Unreserved(c: char) {
    'A' <= c <= 'Z' || 'a' <= c <= 'z' || '0' <= c <= '9' || c == '-' || c == '_' || c == '.' || c == '~'
  }

  function HexUpper(d: int): (c: char)
    requires 0 <= d < 16
    ensures HexDigit(c as int) == Some(d) && Unreserved(c)
  {
    if d < 10 then ('0' as int + d) as char else ('A' as int + d - 10) as char
  }

  function HexDigit(b: int): (r: Option<int>)
    ensures r.Some? ==> 0 <= r.value < 16
  {
    if '0' as int <= b <= '9' as int then Some(b - '0' as int)
    else if 'a' as int <= b <= 'f' as int then Some(b - 'a' as int + 10)
    else if 'A' as int <= b <= 'F' as int then Some(b - 'A' as int + 10)
    else None
  }

  /** `%XX` for each byte. */
  function PercentText(bs: seq<Byte>): string {
    if bs == [] then "" else ['%', HexUpper(bs[0] / 16), HexUpper(bs[0] % 16)] + PercentText(bs[1..])
  }

  function UriChar(c: char): string { if Unreserved(c) then [c] else PercentText(CharBytes(c)) }

  /** `uri_encode_component` */
  function UriEncode(s: string): string { if s == "" then "" else UriChar(s[0]) + UriEncode(s[1..]) }

  /** The bytes behind a percent-encoded byte sequence; a `%` that starts no triplet stands for itself. */
  function PercentBytes(bs: seq<Byte>): seq<Byte>
    decreases |bs|
  {
    if bs == [] then []
    else if Triplet(bs) then [HexDigit(bs[1]).value * 16 + HexDigit(bs[2]).value] + PercentBytes(bs[3..])
    else [bs[0]] + PercentBytes(bs[1..])
  }

  predicate Triplet(bs: seq<Byte>) {
    |bs| > 2 && bs[0] == '%' as int && HexDigit(bs[1]).Some? && HexDigit(bs[2]).Some?
  }

  function PercentDecode(s: string): string { Lossy(PercentBytes(Bytes(s))) }

  /** `percent_decode_raw` */
  method PercentDecodeRaw(s: string) returns (r: string)
    ensures r == PercentDecode(s)
  {
    var bytes: seq<Byte>, decoded: seq<Byte>, i := Bytes(s), [], 0;
    assert bytes[0..] == bytes;
    while i < |bytes|
      invariant i <= |bytes|
      invariant decoded + PercentBytes(bytes[i..]) == PercentBytes(bytes)
    {
      assert Triplet(bytes[i..]) ==> bytes[i..][3..] == bytes[i + 3..];
      assert bytes[i..][1..] == bytes[i + 1..];
      if bytes[i] == '%' as int && i + 2 < |bytes| {
        var h, l := HexDigit(bytes[i + 1]), HexDigit(bytes[i + 2]);
        if h.Some? && l.Some? {
          Regroup(decoded, [h.value * 16 + l.value], PercentBytes(bytes[i + 3..]));
          decoded := decoded + [h.value * 16 + l.value];
          i := i + 3;
          continue;
        }
      }
      Regroup(decoded, [bytes[i]], PercentBytes(bytes[i + 1..]));
      decoded := decoded + [bytes[i]];
      i := i + 1;
    }
    assert bytes[i..] == [] && decoded + PercentBytes([]) == decoded;
    r := Lossy(decoded);
  }

  lemma NoBytes() ensures Bytes("") == [] { }

  lemma Utf8Ascii(c: char, s: string)
    requires c as int < 0x80
    ensures Bytes([c] + s) == [c as int] + Bytes(s)
  {
    assert ([c] + s)[1..] == s;
  }

  lemma AsciiDigits(b: Byte)
    ensures (HexUpper(b / 16) as int) < 0x80 && (HexUpper(b % 16) as int) < 0x80
  {
  }

  lemma TripletFirst(bs: seq<Byte>)
    requires Triplet(bs)
    ensures PercentBytes(bs) == [HexDigit(bs[1]).value * 16 + HexDigit(bs[2]).value] + PercentBytes(bs[3..])
  {
  }

  /** A triplet is three ASCII bytes and decodes to its byte. */
  lemma TripletDecodes(b: Byte, s: string, rest: seq<Byte>)
    ensures var t := ['%', HexUpper(b / 16), HexUpper(b % 16)];
            PercentBytes(Bytes(t + s) + rest) == [b] + PercentBytes(Bytes(s) + rest)
  {
    hide Bytes, PercentBytes, HexUpper, HexDigit, Unreserved;
    AsciiDigits(b);
    var h, l := HexUpper(b / 16), HexUpper(b % 16);
    Utf8Ascii('%', [h, l] + s);
    Utf8Ascii(h, [l] + s);
    Utf8Ascii(l, s);
    assert ['%', h, l] + s == ['%'] + ([h, l] + s) && [h, l] + s == [h] + ([l] + s);
    var bs := Bytes(['%', h, l] + s) + rest;
    assert bs == ['%' as int, h as int, l as int] + (Bytes(s) + rest);
    assert bs[3..] == Bytes(s) + rest;
    TripletFirst(bs);
  }

  lemma {:induction false} TextDecodes(bs: seq<Byte>, rest: seq<Byte>)
    ensures PercentBytes(Bytes(PercentText(bs)) + rest) == bs + PercentBytes(rest)
    decreases |bs|
  {
    hide PercentBytes, Bytes, HexUpper;
    if bs == [] {
      NoBytes();
      assert Bytes("") + rest == rest;
    } else {
      TripletDecodes(bs[0], PercentText(bs[1..]), rest);
      TextDecodes(bs[1..], rest);
      assert bs == [bs[0]] + bs[1..];
      Regroup([bs[0]], bs[1..], PercentBytes(rest));
    }
  }

  lemma CharDecodes(c: char, rest: seq<Byte>)
    ensures PercentBytes(Bytes(UriChar(c)) + rest) == CharBytes(c) + PercentBytes(rest)
  {
    if Unreserved(c) {
      Utf8Ascii(c, "");
      assert [c] + "" == [c];
      assert ([c as int] + rest)[1..] == rest;
    } else {
      TextDecodes(CharBytes(c), rest);
    }
  }

  lemma {:induction false} EncodedBytes(s: string)
    ensures PercentBytes(Bytes(UriEncode(s))) == Bytes(s)
    decreases |s|
  {
    if s != "" {
      EncodedBytes(s[1..]);
      BytesConcat(UriChar(s[0]), UriEncode(s[1..]));
      CharDecodes(s[0], Bytes(UriEncode(s[1..])));
    }
  }

  /** Decoding undoes encoding on every string. */
  lemma DecodeEncode(s: string)
    ensures PercentDecode(UriEncode(s)) == s
  {
    EncodedBytes(s);
    LossyUtf8(s);
  }

  // ----- what is decoded -----

  /** Everything up to the first `%` stands for itself, a plus sign included. */
  lemma {:induction false} DecodeFree(bs: seq<Byte>, rest: seq<Byte>)
    requires '%' as int !in bs
    ensures PercentBytes(bs + rest) == bs + PercentBytes(rest)
    decreases |bs|
  {
    if bs == [] {
      assert bs + rest == rest;
    } else {
      DecodeFree(bs[1..], rest);
      assert (bs + rest)[1..] == bs[1..] + rest && bs == [bs[0]] + bs[1..];
      assert bs[0] in bs;
    }
  }

  /** A `%` and two hexadecimal digits of either case stand for one byte. */
  lemma DecodePercent(bs: seq<Byte>, h: int, l: int)
    requires |bs| > 2 && bs[0] == '%' as int && 0 <= h < 16 && 0 <= l < 16 && HexByte(bs[1], h) && HexByte(bs[2], l)
    ensures PercentBytes(bs) == [16 * h + l] + PercentBytes(bs[3..])
  {
    HexDigitIff(bs[1], h);
    HexDigitIff(bs[2], l);
    hide HexDigit, HexByte;
  }

  /** Any other `%` stands for itself. */
  lemma DecodeBroken(bs: seq<Byte>)
    requires bs != [] && bs[0] == '%' as int
    requires |bs| > 2 ==> !((exists h :: 0 <= h < 16 && HexByte(bs[1], h)) && (exists l :: 0 <= l < 16 && HexByte(bs[2], l)))
    ensures PercentBytes(bs) == ['%' as int] + PercentBytes(bs[1..])
  {
    if Triplet(bs) {
      HexDigitIff(bs[1], HexDigit(bs[1]).value);
      HexDigitIff(bs[2], HexDigit(bs[2]).value);
      hide HexDigit, HexByte;
      assert false;
    }
  }

  /** The byte is the digit's lower- or upper-case letter. */
  predicate HexByte(b: Byte, d: int)
    requires 0 <= d < 16
  {
    b == "0123456789abcdef"[d] as int || b == "0123456789ABCDEF"[d] as int
  }

  /** The digits of a triplet: both cases are read, as the values they stand for. */
  lemma HexDigitIff(b: Byte, d: int)
    requires 0 <= d < 16
    ensures HexDigit(b) == Some(d) <==> HexByte(b, d)
  {
  }

  /** Encoded text is made of unreserved characters and percent signs. */
  predicate Clean(s: string) { forall k :: 0 <= k < |s| ==> Unreserved(s[k]) || s[k] == '%' }

  lemma {:induction false} PercentTextClean(bs: seq<Byte>)
    ensures Clean(PercentText(bs))
    decreases |bs|
  {
    if bs != [] { PercentTextClean(bs[1..]); }
  }

  lemma {:induction false} EncodedClean(s: string)
    ensures Clean(UriEncode(s))
    decreases |s|
  {
    if s != "" {
      EncodedClean(s[1..]);
      if !Unreserved(s[0]) { PercentTextClean(CharBytes(s[0])); }
      hide PercentText, CharBytes;
    }
  }

  // ----- what is encoded, and how -----

  lemma {:induction false} TripletAt(bs: seq<Byte>, k: nat)
    requires k < |bs|
    ensures |PercentText(bs)| == 3 * |bs|
    ensures PercentText(bs)[3 * k..3 * k + 3] == ['%', "0123456789ABCDEF"[bs[k] / 16], "0123456789ABCDEF"[bs[k] % 16]]
    decreases |bs|
  {
    var first, rest := ['%', HexUpper(bs[0] / 16), HexUpper(bs[0] % 16)], PercentText(bs[1..]);
    HexUpperIs(bs[k] / 16);
    HexUpperIs(bs[k] % 16);
    hide HexUpper, HexDigit, Unreserved;
    if k > 0 {
      TripletAt(bs[1..], k - 1);
      assert (first + rest)[3 * k..3 * k + 3] == rest[3 * (k - 1)..3 * (k - 1) + 3];
    } else {
      assert (first + rest)[..3] == first;
      if |bs| > 1 { TripletAt(bs[1..], 0); } else { assert rest == ""; }
    }
  }

  lemma HexUpperIs(d: int)
    requires 0 <= d < 16
    ensures HexUpper(d) == "0123456789ABCDEF"[d]
  {
  }

  /** Letters, digits, `-`, `_`, `.` and `~` stand for themselves; any other character is its UTF-8 bytes,
      each a percent sign and two upper-case digits. */
  lemma EncodeChar(c: char)
    ensures var safe := 'A' <= c <= 'Z' || 'a' <= c <= 'z' || '0' <= c <= '9' || c in "-_.~";
            var bs := CharBytes(c);
            && (safe ==> UriEncode([c]) == [c])
            && (!safe ==>
                  && |UriEncode([c])| == 3 * |bs|
                  && forall k :: 0 <= k < |bs| ==>
                       UriEncode([c])[3 * k..3 * k + 3] == ['%', "0123456789ABCDEF"[bs[k] / 16], "0123456789ABCDEF"[bs[k] % 16]])
  {
    var bs := CharBytes(c);
    assert [c][1..] == "" && UriEncode([c]) == UriChar(c) + "" == UriChar(c);
    assert c in "-_.~" <==> c == '-' || c == '_' || c == '.' || c == '~';
    forall k | 0 <= k < |bs| ensures
        |PercentText(bs)| == 3 * |bs| && PercentText(bs)[3 * k..3 * k + 3] == ['%', "0123456789ABCDEF"[bs[k] / 16], "0123456789ABCDEF"[bs[k] % 16]]
    {
      TripletAt(bs, k);
    }
    hide CharBytes, PercentText;
    assert |bs| > 0;
  }

  /** A text is encoded character by character. */
  lemma {:induction false} EncodeConcat(s: string, t: string)
    ensures UriEncode(s + t) == UriEncode(s) + UriEncode(t)
    decreases |s|
  {
    hide UriChar;
    if s == "" {
      assert s + t == t;
    } else {
      EncodeConcat(s[1..], t);
      assert (s + t)[1..] == s[1..] + t;
    }
  }

  // ----- ordering -----

  predicate LexLeq(a: string, b: string) {
    a == "" || (b != "" && (a[0] < b[0] || (a[0] == b[0] && LexLeq(a[1..], b[1..]))))
  }

  lemma {:induction false} LexTotal(a: string, b: string)
    ensures LexLeq(a, b) || LexLeq(b, a)
    ensures LexLeq(a, b) && LexLeq(b, a) ==> a == b
    decreases |a|
  {
    if a != "" && b != "" {
      LexTotal(a[1..], b[1..]);
      assert a == [a[0]] + a[1..] && b == [b[0]] + b[1..];
    }
  }

  lemma {:induction false} LexTransitive(a: string, b: string, c: string)
    requires LexLeq(a, b) && LexLeq(b, c)
    ensures LexLeq(a, c)
    decreases |a|
  {
    if a != "" && b[0] == a[0] && c[0] == b[0] { LexTransitive(a[1..], b[1..], c[1..]); }
  }

  datatype Pair = Pair(key: string, value: string)

  /** Keys first, then values. */
  predicate Leq(a: Pair, b: Pair) {
    if a.key == b.key then LexLeq(a.value, b.value) else LexLeq(a.key, b.key)
  }

  lemma LeqTotal(a: Pair, b: Pair)
    ensures Leq(a, b) || Leq(b, a)
    ensures Leq(a, b) && Leq(b, a) ==> a == b
  {
    LexTotal(a.key, b.key);
    LexTotal(a.value, b.value);
  }

  lemma LeqTransitive(a: Pair, b: Pair, c: Pair)
    requires Leq(a, b) && Leq(b, c)
    ensures Leq(a, c)
  {
    if a.key == b.key == c.key {
      LexTransitive(a.value, b.value, c.value);
    } else if a.key != b.key && b.key != c.key {
      LexTransitive(a.key, b.key, c.key);
      LexTotal(a.key, b.key);
    }
  }

  function Insert(x: Pair, s: seq<Pair>): (r: seq<Pair>)
    ensures multiset(r) == multiset{x} + multiset(s)
  {
    if s == [] || Leq(x, s[0]) then [x] + s
    else
      assert s == [s[0]] + s[1..];
      [s[0]] + Insert(x, s[1..])
  }

  function Sort(s: seq<Pair>): (r: seq<Pair>)
    ensures multiset(r) == multiset(s)
  {
    if s == [] then []
    else
      assert s == [s[0]] + s[1..];
      Insert(s[0], Sort(s[1..]))
  }

  predicate Sorted(s: seq<Pair>) { |s| < 2 || (Leq(s[0], s[1]) && Sorted(s[1..])) }

  lemma {:induction false} InsertSorted(x: Pair, s: seq<Pair>)
    requires Sorted(s)
    ensures Sorted(Insert(x, s))
    decreases |s|
  {
    hide Leq;
    if s == [] {
    } else if Leq(x, s[0]) {
      assert ([x] + s)[1..] == s;
    } else {
      LeqTotal(x, s[0]);
      InsertSorted(x, s[1..]);
      var r := Insert(x, s[1..]);
      assert ([s[0]] + r)[1..] == r;
    }
  }

  lemma {:induction false} SortSorted(s: seq<Pair>)
    ensures Sorted(Sort(s))
    decreases |s|
  {
    if s != [] {
      SortSorted(s[1..]);
      InsertSorted(s[0], Sort(s[1..]));
    }
  }

  lemma {:induction false} SortedHead(s: seq<Pair>, x: Pair)
    requires Sorted(s) && x in s
    ensures Leq(s[0], x)
    decreases |s|
  {
    hide Leq;
    LeqTotal(x, x);
    if |s| > 1 && x != s[0] {
      assert x in s[1..];
      SortedHead(s[1..], x);
      LeqTransitive(s[0], s[1], x);
    }
  }

  lemma SortedTail(s: seq<Pair>)
    requires Sorted(s) && s != []
    ensures Sorted(s[1..])
  {
    hide Leq;
  }

  lemma TailElements(s: seq<Pair>)
    requires s != []
    ensures multiset(s[1..]) == multiset(s) - multiset{s[0]}
  {
    assert s == [s[0]] + s[1..];
  }

  /** Two sorted lists with the same elements are the same list. */
  lemma {:induction false} SortedUnique(s: seq<Pair>, t: seq<Pair>)
    requires Sorted(s) && Sorted(t) && multiset(s) == multiset(t)
    ensures s == t
    decreases |s|
  {
    hide Leq, Sorted;
    assert |s| == |multiset(s)| && |t| == |multiset(t)|;
    if s != [] {
      assert s[0] in multiset(t) && t[0] in multiset(s);
      SortedHead(s, t[0]);
      SortedHead(t, s[0]);
      LeqTotal(s[0], t[0]);
      TailElements(s);
      TailElements(t);
      SortedTail(s);
      SortedTail(t);
      SortedUnique(s[1..], t[1..]);
      assert s == [s[0]] + s[1..] && t == [t[0]] + t[1..];
    }
  }

  // ----- query strings -----

  function Recode(s: string): string { UriEncode(PercentDecode(s)) }

  /** The first `=`, or the length. */
  function EqualsAt(s: string): (k: nat)
    ensures k <= |s|
  {
    if s == "" || s[0] == '=' then 0 else 1 + EqualsAt(s[1..])
  }

  function ToPair(piece: string): Pair {
    var k := EqualsAt(piece);
    if k < |piece| then Pair(Recode(piece[..k]), Recode(piece[k + 1..])) else Pair(Recode(piece), "")
  }

  function Pairs(pieces: seq<string>): seq<Pair> {
    if pieces == [] then []
    else (if pieces[0] == "" then [] else [ToPair(pieces[0])]) + Pairs(pieces[1..])
  }

  function PairText(p: Pair): string { p.key + "=" + p.value }

  function PairTexts(ps: seq<Pair>): (r: seq<string>)
    ensures |r| == |ps| && forall k :: 0 <= k < |r| ==> r[k] == PairText(ps[k])
  {
    seq(|ps|, k requires 0 <= k < |ps| => PairText(ps[k]))
  }

  /** `canonical_query_string` */
  function CanonicalQuery(raw: string): string {
    if raw == "" then "" else Join(PairTexts(Sort(Pairs(Split(raw, '&')))), '&')
  }

  /** A pair as the canonical form writes it. */
  ghost predicate Encoded(p: Pair) {
    Clean(p.key) && Clean(p.value) && Recode(p.key) == p.key && Recode(p.value) == p.value
  }

  lemma RecodeEncoded(s: string)
    ensures Clean(Recode(s)) && Recode(Recode(s)) == Recode(s)
  {
    EncodedClean(PercentDecode(s));
    DecodeEncode(PercentDecode(s));
  }

  lemma ToPairEncoded(piece: string)
    ensures Encoded(ToPair(piece))
  {
    hide Recode;
    var k := EqualsAt(piece);
    RecodeEncoded(piece);
    RecodeEncoded(piece[..k]);
    if k < |piece| { RecodeEncoded(piece[k + 1..]); }
    EmptyEncoded();
  }

  lemma EmptyEncoded()
    ensures Recode("") == ""
  {
    assert Bytes("") == [] && PercentBytes([]) == [];
  }

  lemma {:induction false} PairsEncoded(pieces: seq<string>)
    ensures forall k :: 0 <= k < |Pairs(pieces)| ==> Encoded(Pairs(pieces)[k])
    decreases |pieces|
  {
    hide Encoded, ToPair;
    if pieces != [] {
      PairsEncoded(pieces[1..]);
      ToPairEncoded(pieces[0]);
    }
  }

  lemma {:induction false} EqualsAfter(s: string, rest: string)
    requires Clean(s)
    ensures EqualsAt(s + "=" + rest) == |s|
    decreases |s|
  {
    var all := s + "=" + rest;
    if s == "" {
      assert all == "=" + rest;
    } else {
      assert Clean(s[1..]);
      EqualsAfter(s[1..], rest);
      assert all[1..] == s[1..] + "=" + rest;
    }
  }

  lemma PairReads(p: Pair)
    requires Encoded(p)
    ensures ToPair(PairText(p)) == p && PairText(p) != "" && '&' !in PairText(p)
  {
    hide Recode;
    EqualsAfter(p.key, p.value);
    assert PairText(p)[..|p.key|] == p.key && PairText(p)[|p.key| + 1..] == p.value;
  }

  lemma {:induction false} PairsRead(ps: seq<Pair>)
    requires forall k :: 0 <= k < |ps| ==> Encoded(ps[k])
    ensures Pairs(PairTexts(ps)) == ps
    decreases |ps|
  {
    hide Encoded, ToPair, PairText;
    if ps != [] {
      PairReads(ps[0]);
      assert PairTexts(ps)[1..] == PairTexts(ps[1..]);
      PairsRead(ps[1..]);
      assert ps == [ps[0]] + ps[1..];
    }
  }

  lemma SortOfSorted(s: seq<Pair>)
    requires Sorted(s)
    ensures Sort(s) == s
  {
    SortSorted(s);
    SortedUnique(Sort(s), s);
  }

  // ----- the canonical query, pair by pair -----

  /** At the first place two texts differ, the first has ended or has the smaller character. */
  ghost predicate Earlier(a: string, b: string) {
    exists i: nat :: i <= |a| && i < |b| && a[..i] == b[..i] && (i == |a| || a[i] < b[i])
  }

  /** The earlier key first, and under one key the earlier value, unless the pairs are the same. */
  ghost predicate Ascends(a: Pair, b: Pair) {
    a == b || if a.key == b.key then Earlier(a.value, b.value) else Earlier(a.key, b.key)
  }

  lemma {:induction false} LexEarlier(a: string, b: string)
    requires LexLeq(a, b) && a != b
    ensures Earlier(a, b)
    decreases |a|
  {
    if a == "" || a[0] < b[0] {
      assert a[..0] == b[..0];
    } else {
      assert a == [a[0]] + a[1..] && b == [b[0]] + b[1..];
      LexEarlier(a[1..], b[1..]);
      var i: nat :| i <= |a[1..]| && i < |b[1..]| && a[1..][..i] == b[1..][..i] && (i == |a[1..]| || a[1..][i] < b[1..][i]);
      assert a[..i + 1] == [a[0]] + a[1..][..i] && b[..i + 1] == [b[0]] + b[1..][..i];
    }
  }

  lemma {:induction false} SortedAscends(s: seq<Pair>, k: nat)
    requires Sorted(s) && k + 1 < |s|
    ensures Ascends(s[k], s[k + 1])
    decreases |s|
  {
    if k > 0 {
      SortedAscends(s[1..], k - 1);
    } else if s[0] != s[1] {
      if s[0].key == s[1].key { LexEarlier(s[0].value, s[1].value); } else { LexEarlier(s[0].key, s[1].key); }
    }
  }

  /** A piece up to its first `=` and after it, each decoded and encoded again; without one it is all key. */
  ghost predicate RecodesTo(piece: string, p: Pair) {
    if '=' in piece then
      exists k: nat :: k < |piece| && piece[k] == '=' && '=' !in piece[..k] &&
        p == Pair(UriEncode(PercentDecode(piece[..k])), UriEncode(PercentDecode(piece[k + 1..])))
    else p == Pair(UriEncode(PercentDecode(piece)), "")
  }

  lemma {:induction false} FirstEquals(s: string)
    ensures EqualsAt(s) < |s| <==> '=' in s
    ensures '=' !in s[..EqualsAt(s)] && (EqualsAt(s) < |s| ==> s[EqualsAt(s)] == '=')
    decreases |s|
  {
    if s != "" && s[0] != '=' {
      FirstEquals(s[1..]);
      var k := EqualsAt(s[1..]);
      assert s[..k + 1] == [s[0]] + s[1..][..k];
      assert s == [s[0]] + s[1..];
    }
  }

  lemma PieceRecodes(piece: string)
    ensures RecodesTo(piece, ToPair(piece))
  {
    hide UriEncode, PercentDecode;
    FirstEquals(piece);
  }

  lemma {:induction false} PairsOfPieces(pieces: seq<string>) returns (kept: seq<string>)
    ensures multiset(kept) == multiset(pieces)["" := 0]
    ensures |Pairs(pieces)| == |kept| && forall k :: 0 <= k < |kept| ==> RecodesTo(kept[k], Pairs(pieces)[k])
    decreases |pieces|
  {
    hide ToPair, RecodesTo, Pairs;
    if pieces == [] {
      kept := [];
      NoPairs();
    } else {
      var rest := PairsOfPieces(pieces[1..]);
      var first := if pieces[0] == "" then [] else [pieces[0]];
      kept := first + rest;
      PairsFirst(pieces);
      PieceRecodes(pieces[0]);
      KeptCounts(pieces, rest);
    }
  }

  lemma KeptCounts(pieces: seq<string>, rest: seq<string>)
    requires pieces != [] && multiset(rest) == multiset(pieces[1..])["" := 0]
    ensures multiset((if pieces[0] == "" then [] else [pieces[0]]) + rest) == multiset(pieces)["" := 0]
  {
    assert pieces == [pieces[0]] + pieces[1..];
    assert [] + rest == rest;
  }

  /** The canonical query: its pairs are, as a multiset, exactly the recoded non-empty pieces of the input,
      and they ascend by key and then by value. */
  lemma QueryIs(raw: string) returns (kept: seq<string>, pairs: seq<Pair>, sorted: seq<Pair>, texts: seq<string>)
    requires raw != ""
    ensures multiset(kept) == multiset(Split(raw, '&'))["" := 0]
    ensures |pairs| == |kept| && forall k :: 0 <= k < |kept| ==> RecodesTo(kept[k], pairs[k])
    ensures multiset(sorted) == multiset(pairs) && forall k :: 0 <= k < |sorted| - 1 ==> Ascends(sorted[k], sorted[k + 1])
    ensures |texts| == |sorted| && forall k :: 0 <= k < |texts| ==> texts[k] == sorted[k].key + "=" + sorted[k].value
    ensures CanonicalQuery(raw) == Join(texts, '&')
  {
    var pieces := Split(raw, '&');
    kept := PairsOfPieces(pieces);
    pairs := Pairs(pieces);
    sorted := Sort(pairs);
    texts := PairTexts(sorted);
    SortSorted(pairs);
    hide Pairs, Sort, Sorted, Ascends, RecodesTo;
    forall k | 0 <= k < |sorted| - 1 ensures Ascends(sorted[k], sorted[k + 1]) { SortedAscends(sorted, k); }
  }

  /** Canonicalising a canonical query changes nothing. */
  lemma QueryIdempotent(raw: string)
    ensures CanonicalQuery(CanonicalQuery(raw)) == CanonicalQuery(raw)
  {
    if raw != "" {
      var ps := Sort(Pairs(Split(raw, '&')));
      PairsEncoded(Split(raw, '&'));
      SortSorted(Pairs(Split(raw, '&')));
      hide Pairs, Sort, Encoded, Sorted;
      forall k | 0 <= k < |ps| ensures Encoded(ps[k]) {
        assert ps[k] in multiset(ps) && ps[k] in multiset(Pairs(Split(raw, '&')));
      }
      if ps != [] {
        var texts := PairTexts(ps);
        forall k | 0 <= k < |texts| ensures '&' !in texts[k] && texts[k] != "" { PairReads(ps[k]); }
        SplitJoin(texts, '&');
        JoinNonEmpty(texts);
        PairsRead(ps);
        SortOfSorted(ps);
      }
    }
  }

  lemma JoinNonEmpty(texts: seq<string>)
    requires texts != [] && texts[0] != ""
    ensures Join(texts, '&') != ""
  {
  }

  lemma NoPairs()
    ensures Pairs([]) == []
  {
  }

  lemma PairsFirst(ps: seq<string>)
    requires ps != []
    ensures Pairs(ps) == (if ps[0] == "" then [] else [ToPair(ps[0])]) + Pairs(ps[1..])
  {
    hide ToPair;
  }

  lemma {:induction false} PairsConcat(ps: seq<string>, qs: seq<string>)
    ensures Pairs(ps + qs) == Pairs(ps) + Pairs(qs)
    decreases |ps|
  {
    hide Pairs;
    if ps == [] {
      assert ps + qs == qs;
      NoPairs();
      assert [] + Pairs(qs) == Pairs(qs);
    } else {
      PairsConcat(ps[1..], qs);
      assert (ps + qs)[1..] == ps[1..] + qs;
      PairsFirst(ps);
      PairsFirst(ps + qs);
    }
  }

  /** One piece taken out takes its pair out. */
  lemma PairsRemove(pieces: seq<string>, i: nat)
    requires i < |pieces|
    ensures multiset(Pairs(pieces)) == multiset(Pairs([pieces[i]])) + multiset(Pairs(pieces[..i] + pieces[i + 1..]))
  {
    hide Pairs;
    var before, x, after := pieces[..i], [pieces[i]], pieces[i + 1..];
    assert pieces == before + (x + after);
    PairsConcat(before, x + after);
    PairsConcat(x, after);
    PairsConcat(before, after);
  }

  lemma Without(pieces: seq<string>, i: nat)
    requires i < |pieces|
    ensures multiset(pieces[..i] + pieces[i + 1..]) == multiset(pieces) - multiset{pieces[i]}
  {
    assert pieces == pieces[..i] + [pieces[i]] + pieces[i + 1..];
  }

  lemma {:induction false} PairsPermute(ps: seq<string>, qs: seq<string>)
    requires multiset(ps) == multiset(qs)
    ensures multiset(Pairs(ps)) == multiset(Pairs(qs))
    decreases |ps|
  {
    hide Pairs;
    if ps == [] {
      assert |multiset(qs)| == 0;
      assert qs == [];
    } else {
      var x := ps[0];
      assert x in multiset(qs);
      var i :| 0 <= i < |qs| && qs[i] == x;
      var ps', qs' := ps[..0] + ps[1..], qs[..i] + qs[i + 1..];
      Without(ps, 0);
      Without(qs, i);
      PairsPermute(ps', qs');
      PairsRemove(ps, 0);
      PairsRemove(qs, i);
    }
  }

  /** The order of the pairs of a query does not matter. */
  lemma QueryPermutation(ps: seq<string>, qs: seq<string>)
    requires ps != [] && multiset(ps) == multiset(qs) && forall k :: 0 <= k < |ps| ==> '&' !in ps[k]
    ensures CanonicalQuery(Join(ps, '&')) == CanonicalQuery(Join(qs, '&'))
  {
    assert |ps| == |multiset(ps)| == |qs|;
    forall k | 0 <= k < |qs| ensures '&' !in qs[k] { assert qs[k] in multiset(ps); }
    QueryOfPieces(ps);
    QueryOfPieces(qs);
    PairsPermute(ps, qs);
    SortSorted(Pairs(ps));
    SortSorted(Pairs(qs));
    hide Pairs, Sorted, CanonicalQuery;
    SortedUnique(Sort(Pairs(ps)), Sort(Pairs(qs)));
  }

  lemma QueryOfPieces(ps: seq<string>)
    requires ps != [] && forall k :: 0 <= k < |ps| ==> '&' !in ps[k]
    ensures CanonicalQuery(Join(ps, '&')) == Join(PairTexts(Sort(Pairs(ps))), '&')
  {
    SplitJoin(ps, '&');
    if Join(ps, '&') == "" {
      assert ps == [""] by { assert Split("", '&') == [""]; }
      assert Pairs([""]) == [] by { assert [""][1..] == []; }
    }
  }

  // ----- paths -----

  /** Segments against the stack: empty and `.` are skipped, `..` pops. */
  function Resolve(stack: seq<string>, segments: seq<string>): seq<string>
    decreases |segments|
  {
    if segments == [] then stack
    else
      var seg := segments[0];
      var next := if seg == "" || seg == "." then stack
                  else if seg == ".." then (if stack == [] then [] else stack[..|stack| - 1])
                  else stack + [seg];
      Resolve(next, segments[1..])
  }

  function Rendered(stack: seq<string>, trailing: bool): string {
    if stack == [] then "/" else "/" + Join(stack, '/') + (if trailing then "/" else "")
  }

  function Normalized(path: string): string {
    if path == "" || path == "/" then "/" else Rendered(Resolve([], Split(path, '/')), path[|path| - 1] == '/')
  }

  /** `normalize_path` */
  method NormalizePath(path: string) returns (r: string)
    ensures r == Normalized(path)
  {
    if path == "" || path == "/" {
      return "/";
    }
    var trailing := path[|path| - 1] == '/';
    var segments := Split(path, '/');
    var stack: seq<string>, i := [], 0;
    assert segments[0..] == segments;
    while i < |segments|
      invariant i <= |segments|
      invariant Resolve(stack, segments[i..]) == Resolve([], segments)
    {
      var seg := segments[i];
      assert segments[i..][0] == seg && segments[i..][1..] == segments[i + 1..];
      if seg == "" || seg == "." {
      } else if seg == ".." {
        if stack != [] {
          stack := stack[..|stack| - 1];
        }
      } else {
        stack := stack + [seg];
      }
      i := i + 1;
    }
    assert segments[i..] == [];
    r := Rendered(stack, trailing);
  }

  predicate Plain(seg: string) { seg != "" && seg != "." && seg != ".." && '/' !in seg }

  predicate AllPlain(stack: seq<string>) { forall k :: 0 <= k < |stack| ==> Plain(stack[k]) }

  lemma {:induction false} ResolvePlain(stack: seq<string>, segments: seq<string>)
    requires AllPlain(stack) && forall k :: 0 <= k < |segments| ==> '/' !in segments[k]
    ensures AllPlain(Resolve(stack, segments))
    decreases |segments|
  {
    if segments != [] {
      var seg := segments[0];
      var next := if seg == "" || seg == "." then stack
                  else if seg == ".." then (if stack == [] then [] else stack[..|stack| - 1])
                  else stack + [seg];
      assert AllPlain(next);
      ResolvePlain(next, segments[1..]);
    }
  }

  /** Plain segments pile up. */
  lemma {:induction false} ResolveAll(stack: seq<string>, segments: seq<string>, tail: seq<string>)
    requires AllPlain(segments)
    ensures Resolve(stack, segments + tail) == Resolve(stack + segments, tail)
    decreases |segments|
  {
    if segments == [] {
      assert segments + tail == tail && stack + segments == stack;
    } else {
      assert Plain(segments[0]);
      assert (segments + tail)[1..] == segments[1..] + tail;
      ResolveAll(stack + [segments[0]], segments[1..], tail);
      assert stack + [segments[0]] + segments[1..] == stack + segments;
    }
  }

  lemma RenderedSplits(stack: seq<string>, trailing: bool)
    requires stack != [] && AllPlain(stack)
    ensures Split(Rendered(stack, trailing), '/') == [""] + stack + (if trailing then [""] else [])
  {
    var parts := [""] + stack + (if trailing then [""] else []);
    forall k | 0 <= k < |parts| ensures '/' !in parts[k] { if 1 <= k <= |stack| { assert Plain(stack[k - 1]); } }
    SplitJoin(parts, '/');
    assert parts[1..] == stack + (if trailing then [""] else []);
    assert Join(parts, '/') == "/" + Join(parts[1..], '/');
    if trailing {
      JoinTrailing(stack);
      Regroup("/", Join(stack, '/'), "/");
    } else {
      assert parts[1..] == stack && "/" + Join(stack, '/') + "" == "/" + Join(stack, '/');
    }
  }

  lemma {:induction false} JoinTrailing(stack: seq<string>)
    requires stack != []
    ensures Join(stack + [""], '/') == Join(stack, '/') + "/"
    decreases |stack|
  {
    var all := stack + [""];
    if |stack| == 1 {
      assert all[1..] == [""];
    } else {
      assert all[1..] == stack[1..] + [""];
      JoinTrailing(stack[1..]);
    }
  }

  lemma LastOfJoin(stack: seq<string>)
    requires stack != [] && AllPlain(stack)
    ensures Join(stack, '/') != "" && Join(stack, '/')[|Join(stack, '/')| - 1] != '/'
    decreases |stack|
  {
    assert Plain(stack[0]);
    if |stack| > 1 {
      assert AllPlain(stack[1..]) by { forall k | 0 <= k < |stack[1..]| ensures Plain(stack[1..][k]) { assert Plain(stack[k + 1]); } }
      LastOfJoin(stack[1..]);
    } else {
      assert stack[0][|stack[0]| - 1] in stack[0];
    }
  }

  /** Normalising a normalised path changes nothing. */
  lemma PathIdempotent(path: string)
    ensures Normalized(Normalized(path)) == Normalized(path)
  {
    if path != "" && path != "/" {
      var stack, trailing := Resolve([], Split(path, '/')), path[|path| - 1] == '/';
      ResolvePlain([], Split(path, '/'));
      if stack != [] {
        var r := Rendered(stack, trailing);
        RenderedSplits(stack, trailing);
        LastOfJoin(stack);
        hide Resolve, AllPlain, Plain, Join;
        assert r[|r| - 1] == '/' <==> trailing;
        var tail := if trailing then [""] else [];
        assert [""] + stack + tail == [""] + (stack + tail);
        ResolveSkips(stack + tail);
        ResolveAll([], stack, tail);
        assert [] + stack == stack;
        ResolveEnd(stack);
      }
    }
  }

  lemma ResolveSkips(segments: seq<string>)
    ensures Resolve([], [""] + segments) == Resolve([], segments)
  {
    assert ([""] + segments)[1..] == segments;
  }

  lemma ResolveEnd(stack: seq<string>)
    ensures Resolve(stack, []) == stack && Resolve(stack, [""]) == stack
  {
    assert [""][1..] == [];
  }

  // ----- what the segments of a path mean -----

  lemma {:induction false} ResolveSplit(stack: seq<string>, a: seq<string>, b: seq<string>)
    ensures Resolve(stack, a + b) == Resolve(Resolve(stack, a), b)
    decreases |a|
  {
    if a == [] {
      assert a + b == b;
    } else {
      assert (a + b)[0] == a[0] && (a + b)[1..] == a[1..] + b;
      var seg := a[0];
      var next := if seg == "" || seg == "." then stack
                  else if seg == ".." then (if stack == [] then [] else stack[..|stack| - 1])
                  else stack + [seg];
      ResolveSplit(next, a[1..], b);
    }
  }

  /** Segments that change nothing wherever they stand. */
  ghost predicate Idle(segments: seq<string>) { forall stack: seq<string> :: Resolve(stack, segments) == stack }

  lemma IdleSegment(seg: string)
    requires seg == "" || seg == "."
    ensures Idle([seg])
  {
    assert [seg][1..] == [];
  }

  lemma IdleStep(seg: string)
    requires Plain(seg)
    ensures Idle([seg, ".."])
  {
    assert [seg, ".."][1..] == [".."] && [".."][1..] == [];
    forall stack: seq<string> ensures Resolve(stack, [seg, ".."]) == stack {
      assert Resolve(stack, [seg, ".."]) == Resolve(stack + [seg], [".."]);
      assert (stack + [seg])[..|stack|] == stack;
    }
  }

  predicate Segments(parts: seq<string>) { forall k :: 0 <= k < |parts| ==> '/' !in parts[k] }

  lemma {:induction false} JoinEnd(parts: seq<string>)
    requires parts != [] && Segments(parts)
    ensures Join(parts, '/') != "" && |parts| > 1 ==> (Join(parts, '/')[|Join(parts, '/')| - 1] == '/' <==> parts[|parts| - 1] == "")
    ensures |parts| > 1 ==> Join(parts, '/') != ""
    decreases |parts|
  {
    if |parts| > 2 {
      JoinEnd(parts[1..]);
    } else if |parts| == 2 {
      assert parts[1..] == [parts[1]] && Join(parts, '/') == parts[0] + "/" + parts[1];
      if parts[1] != "" { assert parts[1][|parts[1]| - 1] in parts[1]; }
    }
  }

  /** A joined path, by its segments. */
  lemma NormalizedJoin(parts: seq<string>)
    requires parts != [] && Segments(parts)
    ensures Normalized(Join(parts, '/')) == Rendered(Resolve([], parts), parts[|parts| - 1] == "")
  {
    hide Join, Split, Resolve, Rendered;
    SplitJoin(parts, '/');
    JoinEnd(parts);
    var path := Join(parts, '/');
    RootSplits();
    if |parts| == 1 {
      assert parts == [parts[0]];
      JoinOne(parts[0]);
      if path != "" { assert path[|path| - 1] in path; }
    }
  }

  lemma JoinOne(part: string)
    ensures Join([part], '/') == part
  {
  }

  lemma RootSplits()
    ensures Split("", '/') == [""] && Split("/", '/') == ["", ""]
    ensures Rendered(Resolve([], [""]), true) == "/" && Rendered(Resolve([], ["", ""]), true) == "/"
    ensures Rendered(Resolve([], [""]), false) == "/" && Rendered(Resolve([], ["", ""]), false) == "/"
  {
    assert "/"[1..] == "";
    assert Resolve([], [""]) == [] by { ResolveEnd([]); }
    assert Resolve([], ["", ""]) == [] by { ResolveSkips([""]); assert [""] + [""] == ["", ""]; ResolveEnd([]); }
  }

  lemma IdleErased(a: seq<string>, idle: seq<string>, b: seq<string>)
    requires Segments(a) && Segments(idle) && Segments(b) && b != [] && Idle(idle)
    ensures Normalized(Join(a + idle + b, '/')) == Normalized(Join(a + b, '/'))
  {
    hide Resolve, Join, Normalized, Rendered, Idle;
    NormalizedJoin(a + idle + b);
    NormalizedJoin(a + b);
    ResolveSplit([], a + idle, b);
    ResolveSplit([], a, idle);
    ResolveSplit([], a, b);
    IdleMeans(idle, Resolve([], a));
  }

  lemma IdleMeans(idle: seq<string>, stack: seq<string>)
    requires Idle(idle)
    ensures Resolve(stack, idle) == stack
  {
  }

  /** An empty segment or `.` can be left out before any other. */
  lemma DotErased(a: seq<string>, seg: string, b: seq<string>)
    requires Segments(a) && Segments(b) && b != [] && (seg == "" || seg == ".")
    ensures Normalized(Join(a + [seg] + b, '/')) == Normalized(Join(a + b, '/'))
  {
    IdleSegment(seg);
    IdleErased(a, [seg], b);
  }

  /** A segment and the `..` after it cancel out. */
  lemma ParentCancels(a: seq<string>, seg: string, b: seq<string>)
    requires Segments(a) && Segments(b) && b != [] && Plain(seg)
    ensures Normalized(Join(a + [seg, ".."] + b, '/')) == Normalized(Join(a + b, '/'))
  {
    IdleStep(seg);
    IdleErased(a, [seg, ".."], b);
  }

  /** A `..` with nothing before it goes nowhere. */
  lemma ParentOfRoot(b: seq<string>)
    requires Segments(b) && b != []
    ensures Normalized(Join([".."] + b, '/')) == Normalized(Join(b, '/'))
  {
    NormalizedJoin([".."] + b);
    NormalizedJoin(b);
    assert ([".."] + b)[1..] == b;
  }

  /** A path of plain segments is its own normal form, trailing slash included. */
  lemma PlainStays(stack: seq<string>, trailing: bool)
    requires stack != [] && AllPlain(stack)
    ensures var path := "/" + Join(stack, '/') + (if trailing then "/" else ""); Normalized(path) == path
  {
    var tail := if trailing then [""] else [];
    var parts := [""] + stack + tail;
    RenderedSplits(stack, trailing);
    LastOfJoin(stack);
    hide Resolve, AllPlain, Plain, Join;
    assert [""] + stack + tail == [""] + (stack + tail);
    ResolveSkips(stack + tail);
    ResolveAll([], stack, tail);
    assert [] + stack == stack;
    ResolveEnd(stack);
  }
}
