/** Compact JSON text of a value, and its reading back. */
module JsonPrint {
  import opened Sequences
  import opened Utf16
  import opened JsonValue
  import opened JsonGrammar
  import opened DecimalText
  import D = JsonDescent

  // ----- strings -----

  function HexDigit(d: int): (c: char)
    requires 0 <= d < 16
    ensures HexValue(c) == Some(d)
  {
    if d < 10 then ('0' as int + d) as char else ('a' as int + d - 10) as char
  }

  /** `{unit:04x}` */
  function HexText(u: Unit): (h: string)
    ensures Hex4(h) && HexUnit(h) == u
  {
    var x := u / 0x10;
    var y := x / 0x10;
    [HexDigit(y / 0x10), HexDigit(y % 0x10), HexDigit(x % 0x10), HexDigit(u % 0x10)]
  }

  /** `write_json_char` */
  function CharToken(c: char): (t: Token)
    ensures GoodToken(t) && TokenUnits(t) == EncodeChar(c)
  {
    if c == '\"' then Short('\"')
    else if c == '\\' then Short('\\')
    else if c as int == 0x08 then Short('b')
    else if c as int == 0x0C then Short('f')
    else if c == '\n' then Short('n')
    else if c == '\r' then Short('r')
    else if c == '\t' then Short('t')
    else if c as int <= 0x1F then Unicode(HexText(c as int))
    else Plain(c)
  }

  /** One character of output: a paired surrogate as its scalar, a lone one as an escape. */
  function NextToken(us: seq<Unit>): Token
    requires us != []
  {
    if StartsWithPair(us) then CharToken(PairScalar(us[0], us[1]))
    else if Surrogate(us[0]) then Unicode(HexText(us[0]))
    else CharToken(UnitScalar(us[0]))
  }

  function Width(us: seq<Unit>): (w: nat)
    requires us != []
    ensures 1 <= w <= |us|
  {
    if StartsWithPair(us) then 2 else 1
  }

  function UnitTokens(us: seq<Unit>): seq<Token>
    decreases |us|
  {
    if us == [] then [] else [NextToken(us)] + UnitTokens(us[Width(us)..])
  }

  function Quote(us: seq<Unit>): string { Quoted(UnitTokens(us)) }

  /** What is quoted reads back unit for unit, lone surrogates included. */
  lemma {:induction false} QuoteReads(us: seq<Unit>)
    ensures GoodTokens(UnitTokens(us)) && TokensUnits(UnitTokens(us)) == us
    decreases |us|
  {
    if us != [] {
      var rest := us[Width(us)..];
      QuoteReads(rest);
      D.TokensCons(NextToken(us), UnitTokens(rest));
      assert us == us[..Width(us)] + rest;
      assert TokenUnits(NextToken(us)) == us[..Width(us)];
    }
  }

  lemma TokensSnoc(us: seq<Unit>, i: nat)
    requires i < |us|
    ensures var rest := us[i..];
            TokensText(UnitTokens(rest)) == TokenText(NextToken(rest)) + TokensText(UnitTokens(us[i + Width(rest)..]))
  {
    var rest := us[i..];
    assert rest[Width(rest)..] == us[i + Width(rest)..];
    var ts := UnitTokens(rest);
    assert ts[1..] == UnitTokens(us[i + Width(rest)..]);
  }

  /** `write_json_string_from_utf16` */
  method WriteString(out: string, units: seq<Unit>) returns (r: string)
    ensures r == out + Quote(units)
  {
    hide TokensText, UnitTokens, TokenText, CharToken, HexText;
    r := out + "\"";
    var idx := 0;
    assert units[0..] == units;
    ghost var goal := out + "\"" + TokensText(UnitTokens(units));
    while idx < |units|
      invariant idx <= |units|
      invariant r + TokensText(UnitTokens(units[idx..])) == goal
    {
      WriteStep(r, units, idx);
      var unit := units[idx];
      if High(unit) && idx + 1 < |units| && Low(units[idx + 1]) {
        r := r + TokenText(CharToken(PairScalar(unit, units[idx + 1])));
        idx := idx + 2;
      } else if Surrogate(unit) {
        r := r + TokenText(Unicode(HexText(unit)));
        idx := idx + 1;
      } else {
        r := r + TokenText(CharToken(UnitScalar(unit)));
        idx := idx + 1;
      }
    }
    WriteEnd(units, idx);
    assert r + [] == r;
    r := r + "\"";
    QuoteParts(out, units);
  }

  /** What the next token adds is what the rest loses. */
  lemma WriteStep(r: string, units: seq<Unit>, idx: nat)
    requires idx < |units|
    ensures var rest := units[idx..];
            r + TokensText(UnitTokens(rest)) == r + TokenText(NextToken(rest)) + TokensText(UnitTokens(units[idx + Width(rest)..]))
  {
    hide TokensText, UnitTokens, TokenText, NextToken;
    TokensSnoc(units, idx);
    Regroup(r, TokenText(NextToken(units[idx..])), TokensText(UnitTokens(units[idx + Width(units[idx..])..])));
  }

  lemma WriteEnd(units: seq<Unit>, idx: nat)
    requires idx == |units|
    ensures TokensText(UnitTokens(units[idx..])) == []
  {
    assert units[idx..] == [];
  }

  lemma QuoteParts(out: string, units: seq<Unit>)
    ensures out + Quote(units) == out + "\"" + TokensText(UnitTokens(units)) + "\""
  {
  }

  // ----- values -----

  /** A literal or number token. */
  ghost predicate IsToken(raw: string) {
    exists v: Value :: (v.Literal? || v.Number?) && Good(v) && Yield(v) == raw
  }

  /** Every leaf is a token and no object repeats a key: what parsing can produce. */
  ghost predicate Regular(j: Json) {
    match j
    case Prim(raw) => IsToken(raw)
    case Str(_) => true
    case Arr(items) => forall k :: 0 <= k < |items| ==> Regular(items[k])
    case Obj(fields) => DistinctKeys(fields) && forall k :: 0 <= k < |fields| ==> Regular(fields[k].value)
  }

  function Print(j: Json): string {
    match j
    case Prim(raw) => raw
    case Str(us) => Quote(us)
    case Arr(items) => "[" + JoinItems(seq(|items|, k requires 0 <= k < |items| => Print(items[k])))
    case Obj(fields) =>
      "{" + JoinFields(seq(|fields|, k requires 0 <= k < |fields| => Slot(fields[k].key, Print(fields[k].value))))
  }

  /** A key with the text of its value. */
  datatype Slot = Slot(key: seq<Unit>, text: string)

  /** Texts with commas between them, up to and including the closing bracket. */
  function JoinItems(texts: seq<string>): string {
    if texts == [] then "]"
    else if |texts| == 1 then texts[0] + "]"
    else texts[0] + "," + JoinItems(texts[1..])
  }

  function JoinFields(slots: seq<Slot>): string {
    if slots == [] then "}"
    else if |slots| == 1 then SlotText(slots[0]) + "}"
    else SlotText(slots[0]) + "," + JoinFields(slots[1..])
  }

  function SlotText(s: Slot): string { Quote(s.key) + ":" + s.text }

  // ----- joined texts read back piece by piece -----

  /** Each text is a JSON text for the value beside it. */
  ghost predicate Reads(text: string, v: Json) { D.ParseText(text) == Some(v) }

  lemma OneElem(text: string, before: string, v: Value, after: string)
    requires Derives(text, before, v, after)
    ensures var es := LastElem(before, v, after); GoodElems(es) && YieldElems(es) == text + "]" && MeaningElems(es) == [Meaning(v)]
  {
    hide Good, Yield, Meaning, Blanks;
    assert [Meaning(v)] + [] == [Meaning(v)];
  }

  lemma OneMoreElem(text: string, before: string, v: Value, after: string, rest: Elems)
    requires Derives(text, before, v, after) && GoodElems(rest)
    ensures var es := MoreElems(before, v, after, rest);
            GoodElems(es) && YieldElems(es) == text + "," + YieldElems(rest) && MeaningElems(es) == [Meaning(v)] + MeaningElems(rest)
  {
    hide Good, Yield, Meaning, Blanks;
    Regroup(text, ",", YieldElems(rest));
  }

  lemma {:induction false} ItemsRead(texts: seq<string>, vals: seq<Json>) returns (es: Elems)
    requires |texts| == |vals| > 0 && forall k :: 0 <= k < |texts| ==> Reads(texts[k], vals[k])
    ensures GoodElems(es) && YieldElems(es) == JoinItems(texts) && MeaningElems(es) == vals
    decreases |texts|
  {
    hide D.ParseText, Good, GoodElems, YieldElems, MeaningElems, Derives, Meaning;
    assert Reads(texts[0], vals[0]);
    var before, v, after := D.TextSound(texts[0]);
    if |texts| == 1 {
      OneElem(texts[0], before, v, after);
      es := LastElem(before, v, after);
      assert vals == [vals[0]];
    } else {
      assert forall k :: 0 <= k < |texts| - 1 ==> Reads(texts[1..][k], vals[1..][k]);
      hide Reads;
      var rest := ItemsRead(texts[1..], vals[1..]);
      OneMoreElem(texts[0], before, v, after, rest);
      es := MoreElems(before, v, after, rest);
      assert vals == [vals[0]] + vals[1..];
    }
  }

  /** Fields in order, each one put on top of the ones before. */
  function PutAll(done: seq<Field>, fields: seq<Field>): seq<Field>
    decreases |fields|
  {
    if fields == [] then done else PutAll(Put(done, fields[0].key, fields[0].value), fields[1..])
  }

  lemma {:induction false} FieldsRead(slots: seq<Slot>, fields: seq<Field>, done: seq<Field>) returns (ms: Members)
    requires |slots| == |fields| > 0
    requires forall k :: 0 <= k < |slots| ==> slots[k].key == fields[k].key && Reads(slots[k].text, fields[k].value)
    ensures GoodMembers(ms) && YieldMembers(ms) == JoinFields(slots) && MeaningMembers(ms, done) == PutAll(done, fields)
    decreases |slots|
  {
    var before, v, after := D.TextSound(slots[0].text);
    hide D.ParseText, Good, Yield, Meaning, Put;
    QuoteReads(slots[0].key);
    var m := Member("", UnitTokens(slots[0].key), "", before, v, after);
    MemberSlot(slots[0], m);
    var done' := Put(done, fields[0].key, fields[0].value);
    if |slots| == 1 {
      ms := LastMember(m);
      assert PutAll(done', fields[1..]) == done' by { assert fields[1..] == []; }
    } else {
      var rest := FieldsRead(slots[1..], fields[1..], done');
      ms := MoreMembers(m, rest);
      Regroup(SlotText(slots[0]), ",", JoinFields(slots[1..]));
    }
  }

  lemma MemberSlot(s: Slot, m: Member)
    requires m.beforeKey == "" && m.key == UnitTokens(s.key) && m.afterKey == "" && s.text == m.before + Yield(m.value) + m.after
    ensures YieldMember(m) == SlotText(s)
  {
    hide Quoted, UnitTokens, Yield;
    var q := Quoted(m.key);
    assert "" + q + "" + ":" == q + ":";
    Regroup(q + ":", m.before + Yield(m.value), m.after);
    Regroup(q + ":", m.before, Yield(m.value));
  }

  lemma ArrayReads(texts: seq<string>, vals: seq<Json>)
    requires |texts| == |vals| && forall k :: 0 <= k < |texts| ==> Reads(texts[k], vals[k])
    ensures Reads("[" + JoinItems(texts), Arr(vals))
  {
    var s := "[" + JoinItems(texts);
    if texts == [] {
      ReadsDerived(s, EmptyArray(""));
    } else {
      var es := ItemsRead(texts, vals);
      ReadsDerived(s, Array(es));
    }
  }

  lemma ObjectReads(slots: seq<Slot>, fields: seq<Field>)
    requires |slots| == |fields|
    requires forall k :: 0 <= k < |slots| ==> slots[k].key == fields[k].key && Reads(slots[k].text, fields[k].value)
    ensures Reads("{" + JoinFields(slots), Obj(PutAll([], fields)))
  {
    var s := "{" + JoinFields(slots);
    if slots == [] {
      ReadsDerived(s, EmptyObject(""));
    } else {
      var ms := FieldsRead(slots, fields, []);
      ReadsDerived(s, Object(ms));
    }
  }

  lemma ReadsDerived(s: string, v: Value)
    requires Good(v) && Yield(v) == s
    ensures Reads(s, Meaning(v))
  {
    assert s == "" + Yield(v) + "";
    assert Blanks("");
    D.TextComplete(s, "", v, "");
  }

  lemma {:induction false} PutAllFresh(done: seq<Field>, fields: seq<Field>)
    requires DistinctKeys(done + fields)
    ensures PutAll(done, fields) == done + fields
    decreases |fields|
  {
    if fields == [] {
      assert done + fields == done;
    } else {
      var f := fields[0];
      var all := done + fields;
      assert all[|done|] == f;
      assert forall i :: 0 <= i < |done| ==> all[i] == done[i];
      assert !HasKey(done, f.key);
      PutFresh(done, f.key, f.value);
      assert (done + [f]) + fields[1..] == all;
      PutAllFresh(done + [f], fields[1..]);
      assert Field(f.key, f.value) == f;
    }
  }

  /** Printing and parsing undo each other on every regular value. */
  lemma {:induction false} PrintReads(j: Json)
    requires Regular(j)
    ensures Reads(Print(j), j)
    decreases j
  {
    match j
    case Prim(raw) =>
      var v: Value :| (v.Literal? || v.Number?) && Good(v) && Yield(v) == raw;
      ReadsDerived(raw, v);
    case Str(us) =>
      QuoteReads(us);
      ReadsDerived(Quote(us), Text(UnitTokens(us)));
    case Arr(items) =>
      var texts := seq(|items|, k requires 0 <= k < |items| => Print(items[k]));
      forall k | 0 <= k < |items| ensures Reads(texts[k], items[k]) { PrintReads(items[k]); }
      ArrayReads(texts, items);
    case Obj(fields) =>
      var slots := seq(|fields|, k requires 0 <= k < |fields| => Slot(fields[k].key, Print(fields[k].value)));
      forall k | 0 <= k < |fields| ensures slots[k].key == fields[k].key && Reads(slots[k].text, fields[k].value) {
        PrintReads(fields[k].value);
      }
      ObjectReads(slots, fields);
      assert [] + fields == fields;
      PutAllFresh([], fields);
  }

  // ----- what parsing produces is regular -----

  lemma {:induction false} MeaningRegular(v: Value)
    requires Good(v)
    ensures Regular(Meaning(v))
    decreases v, 0
  {
    match v
    case Literal(_) => assert IsToken(Yield(v));
    case Number(_, _, _, _) => assert IsToken(Yield(v));
    case Array(es) => ElemsRegular(es);
    case Object(ms) => MembersRegular(ms, []);
    case _ =>
  }

  lemma {:induction false} ElemsRegular(es: Elems)
    requires GoodElems(es)
    ensures forall k :: 0 <= k < |MeaningElems(es)| ==> Regular(MeaningElems(es)[k])
    decreases es, 0
  {
    MeaningRegular(es.value);
    if es.MoreElems? { ElemsRegular(es.rest); }
  }

  ghost predicate RegularFields(fields: seq<Field>) {
    DistinctKeys(fields) && forall k :: 0 <= k < |fields| ==> Regular(fields[k].value)
  }

  lemma PutRegular(fields: seq<Field>, key: seq<Unit>, value: Json)
    requires RegularFields(fields) && Regular(value)
    ensures RegularFields(Put(fields, key, value))
  {
    PutDistinct(fields, key, value);
    if HasKey(fields, key) {
      var p := FirstExists(fields, key);
      PutExisting(fields, key, value, p);
    } else {
      PutFresh(fields, key, value);
    }
  }

  lemma {:induction false} MembersRegular(ms: Members, done: seq<Field>)
    requires GoodMembers(ms) && RegularFields(done)
    ensures RegularFields(MeaningMembers(ms, done))
    decreases ms, 0
  {
    assert GoodMember(ms.member);
    MeaningRegular(ms.member.value);
    PutRegular(done, TokensUnits(ms.member.key), Meaning(ms.member.value));
    if ms.MoreMembers? {
      MembersRegular(ms.rest, Put(done, TokensUnits(ms.member.key), Meaning(ms.member.value)));
    }
  }

  lemma ParsedIsRegular(s: string)
    requires D.ParseText(s).Some?
    ensures Regular(D.ParseText(s).value)
  {
    var before, v, after := D.TextSound(s);
    MeaningRegular(v);
  }
}
