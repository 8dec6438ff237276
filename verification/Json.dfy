/** Flat JSON objects with integer, boolean and plain text members, as the token payload uses them:
    compact printing, and reading that gives back what was printed. */
module Json {
  import opened Wrappers
  import Decimal

  datatype Value = Number(i: int) | Boolean(b: bool) | Text(s: string)

  type Object = seq<(string, Value)>

  /** Text that needs no escape. */
  predicate Plain(s: string) { '"' !in s && '\\' !in s }

  // ----- printing -----

  function Quoted(s: string): string { "\"" + s + "\"" }

  function ValueText(v: Value): string {
    match v
    case Number(i) => Decimal.OfInt(i)
    case Boolean(b) => if b then "true" else "false"
    case Text(s) => Quoted(s)
  }

  function MembersText(o: Object): string {
    if o == [] then ""
    else Quoted(o[0].0) + ":" + ValueText(o[0].1) + (if |o| > 1 then "," else "") + MembersText(o[1..])
  }

  function ObjectText(o: Object): string { "{" + MembersText(o) + "}" }

  // ----- reading -----

  /** The length of the longest prefix of characters that satisfy p. */
  function Span(p: char -> bool, s: string): (n: nat)
    ensures n <= |s|
  {
    if s == "" || !p(s[0]) then 0 else 1 + Span(p, s[1..])
  }

  predicate NotQuote(c: char) { c != '"' }

  predicate InNumber(c: char) { Decimal.IsDigit(c) || c == '-' }

  /** Reads a quoted plain text: its content and what follows. */
  function ReadQuoted(s: string): Option<(string, string)> {
    if s == "" || s[0] != '"' then None
    else
      var n := Span(NotQuote, s[1..]);
      if n < |s| - 1 && Plain(s[1..][..n]) then Some((s[1..][..n], s[1..][n + 1..])) else None
  }

  function ReadValue(s: string): Option<(Value, string)> {
    if |s| >= 4 && s[..4] == "true" then Some((Boolean(true), s[4..]))
    else if |s| >= 5 && s[..5] == "false" then Some((Boolean(false), s[5..]))
    else if s != "" && s[0] == '"' then
      var (text, rest) :- ReadQuoted(s);
      Some((Text(text), rest))
    else
      var n := Span(InNumber, s);
      var i :- Decimal.ParseInt(s[..n]);
      Some((Number(i), s[n..]))
  }

  /** Reads members up to the closing brace. */
  function ReadMembers(s: string): Option<(Object, string)>
    decreases |s|
  {
    var (name, afterName) :- ReadQuoted(s);
    if afterName == "" || afterName[0] != ':' then None
    else
      var (v, rest) :- ReadValue(afterName[1..]);
      if rest == "" || |rest| >= |s| then None
      else if rest[0] == ',' then
        var (more, final) :- ReadMembers(rest[1..]);
        Some(([(name, v)] + more, final))
      else if rest[0] == '}' then Some(([(name, v)], rest[1..]))
      else None
  }

  function ReadObject(s: string): Option<Object> {
    if s == "" || s[0] != '{' then None
    else
      var (o, rest) :- ReadMembers(s[1..]);
      if rest == "" then Some(o) else None
  }

  function Member(o: Object, name: string): Option<Value> {
    if o == [] then None
    else if o[0].0 == name then Some(o[0].1)
    else Member(o[1..], name)
  }

  // ----- reading what was printed -----

  lemma {:induction false} SpanStops(p: char -> bool, a: string, b: string)
    requires forall i :: 0 <= i < |a| ==> p(a[i])
    requires b == "" || !p(b[0])
    ensures Span(p, a + b) == |a|
  {
    if a == "" {
      assert a + b == b;
    } else {
      assert (a + b)[1..] == a[1..] + b;
      SpanStops(p, a[1..], b);
    }
  }

  lemma ReadQuotedText(s: string, rest: string)
    requires Plain(s)
    ensures ReadQuoted(Quoted(s) + rest) == Some((s, rest))
  {
    var t := Quoted(s) + rest;
    var b := "\"" + rest;
    assert t[1..] == s + b;
    SpanStops(NotQuote, s, b);
    assert (s + b)[..|s|] == s && (s + b)[|s| + 1..] == rest;
  }

  lemma NumberChars(i: int)
    ensures Decimal.OfInt(i) != "" && forall k :: 0 <= k < |Decimal.OfInt(i)| ==> InNumber(Decimal.OfInt(i)[k])
  {
    var n := if i < 0 then -i else i;
    assert forall k :: 0 <= k < |Decimal.OfNat(n)| ==> Decimal.IsDigit(Decimal.OfNat(n)[k]);
  }

  predicate Readable(v: Value) { v.Text? ==> Plain(v.s) }

  lemma ReadValueText(v: Value, rest: string)
    requires Readable(v) && rest != "" && !InNumber(rest[0])
    ensures ReadValue(ValueText(v) + rest) == Some((v, rest))
  {
    var t := ValueText(v) + rest;
    match v
    case Number(i) =>
      var d := Decimal.OfInt(i);
      NumberChars(i);
      assert t[0] == d[0] && InNumber(t[0]);
      assert |t| >= 4 ==> t[..4][0] == t[0];
      assert |t| >= 5 ==> t[..5][0] == t[0];
      SpanStops(InNumber, d, rest);
      Decimal.ParseIntOfInt(i);
      assert t[..|d|] == d && t[|d|..] == rest;
    case Boolean(b) =>
      if b {
        assert t[..4] == "true" && t[4..] == rest;
      } else {
        assert t[..5] == "false" && t[5..] == rest && t[..4][0] == 'f';
      }
    case Text(s) =>
      ReadQuotedText(s, rest);
      assert t[0] == '"';
      assert |t| >= 4 ==> t[..4][0] == '"';
      assert |t| >= 5 ==> t[..5][0] == '"';
  }

  predicate ReadableObject(o: Object) {
    forall i :: 0 <= i < |o| ==> Plain(o[i].0) && Readable(o[i].1)
  }

  lemma {:induction false} ReadMembersText(o: Object, rest: string)
    requires o != [] && ReadableObject(o)
    ensures ReadMembers(MembersText(o) + "}" + rest) == Some((o, rest))
  {
    hide ValueText, ReadValue, ReadQuoted, Quoted;
    var name, v := o[0].0, o[0].1;
    var tail := (if |o| > 1 then "," else "") + MembersText(o[1..]) + "}" + rest;
    var t := MembersText(o) + "}" + rest;
    MemberPieces(Quoted(name), ValueText(v), if |o| > 1 then "," else "", MembersText(o[1..]), rest);
    assert t == Quoted(name) + (":" + (ValueText(v) + tail));
    ReadQuotedText(name, ":" + (ValueText(v) + tail));
    assert (":" + (ValueText(v) + tail))[1..] == ValueText(v) + tail;
    if |o| == 1 {
      assert tail == "}" + rest;
      ReadValueText(v, tail);
      assert tail[1..] == rest;
      assert o == [(name, v)];
    } else {
      var more := MembersText(o[1..]) + "}" + rest;
      assert tail == "," + more;
      ReadValueText(v, tail);
      assert tail[1..] == more;
      ReadMembersText(o[1..], rest);
      assert o == [(name, v)] + o[1..];
    }
  }

  lemma MemberPieces(q: string, v: string, comma: string, more: string, rest: string)
    ensures q + ":" + v + comma + more + "}" + rest == q + (":" + (v + (comma + more + "}" + rest)))
  {
  }

  /** Reading a printed object gives the object back. */
  lemma ReadObjectText(o: Object)
    requires o != [] && ReadableObject(o)
    ensures ReadObject(ObjectText(o)) == Some(o)
  {
    hide MembersText, ReadMembers;
    assert ObjectText(o)[1..] == MembersText(o) + "}" + "";
    ReadMembersText(o, "");
  }

  /** How an object is written: braces, members parted by commas, quoted names, colons. */
  lemma Written(x: (string, Value), y: (string, Value))
    ensures ObjectText([]) == "{}" && MembersText([("a", Text("b"))]) == "\"a\":\"b\""
    ensures MembersText([x, y]) == MembersText([x]) + "," + MembersText([y])
    ensures ValueText(Boolean(true)) == "true" && ValueText(Boolean(false)) == "false"
  {
    hide Decimal.OfInt;
    assert [x, y][1..] == [y] && [x][1..] == [] && [y][1..] == [] && [("a", Text("b"))][1..] == [];
    assert MembersText([x]) == Quoted(x.0) + ":" + ValueText(x.1);
    assert MembersText([y]) == Quoted(y.0) + ":" + ValueText(y.1);
  }
}
