/** The SQL fragments the query builder writes: their syntax trees, the text each tree prints to,
    and a reader for that text. Printing and reading are inverse. */
module SqlText {
  import opened Wrappers
  import Decimal

  datatype Comparison = Equal | NotEqual | Greater | Less | GreaterOrEqual | LessOrEqual

  /** One condition; `parameter` is the number after the dollar sign. A column is any trusted SQL
      expression. */
  datatype SqlCondition =
    | Compare(column: string, comparison: Comparison, parameter: nat)
    | Contains(column: string, parameter: nat)
    | AnyOf(column: string, parameter: nat)

  datatype SortKey = SortKey(column: string, ascending: bool)

  datatype Clause = Clause(
    conditions: seq<SqlCondition>,
    sortKeys: seq<SortKey>,
    limit: Option<nat>,
    offset: Option<nat>)

  // ----- printing -----

  function ParameterWord(k: nat): string { "$" + Decimal.OfNat(k) }

  function AnyWord(k: nat): string { "ANY(" + ParameterWord(k) + ")" }

  function ComparisonText(c: Comparison): string {
    match c
    case Equal => "="
    case NotEqual => "!="
    case Greater => ">"
    case Less => "<"
    case GreaterOrEqual => ">="
    case LessOrEqual => "<="
  }

  function ConditionText(c: SqlCondition): string {
    match c
    case Compare(column, comparison, k) =>
      column + " " + ComparisonText(comparison) + " " + ParameterWord(k)
    case Contains(column, k) =>
      column + " ILIKE '%' || " + ParameterWord(k) + " || '%' ESCAPE '\\'"
    case AnyOf(column, k) =>
      column + " " + "=" + " " + AnyWord(k)
  }

  function SortKeyText(key: SortKey): string {
    key.column + " " + if key.ascending then "ASC" else "DESC"
  }

  /** The conditions from some point on, AND-joined. */
  function ConditionsText(cs: seq<SqlCondition>): string {
    if cs == [] then ""
    else ConditionText(cs[0]) + (if |cs| > 1 then " AND " else "") + ConditionsText(cs[1..])
  }

  function SortKeysText(keys: seq<SortKey>): string {
    if keys == [] then ""
    else SortKeyText(keys[0]) + (if |keys| > 1 then ", " else "") + SortKeysText(keys[1..])
  }

  function WhereText(cs: seq<SqlCondition>): string {
    if cs == [] then "" else " WHERE " + ConditionsText(cs)
  }

  function OrderByText(keys: seq<SortKey>): string {
    if keys == [] then "" else " ORDER BY " + SortKeysText(keys)
  }

  function LimitText(limit: Option<nat>): string {
    if limit.Some? then " LIMIT " + ParameterWord(limit.value) else ""
  }

  function OffsetText(offset: Option<nat>): string {
    if offset.Some? then " OFFSET " + ParameterWord(offset.value) else ""
  }

  function ClauseText(c: Clause): string {
    WhereText(c.conditions) + OrderByText(c.sortKeys) + LimitText(c.limit) + OffsetText(c.offset)
  }

  lemma OperatorGlue(column: string, operator: string, digits: string)
    ensures column + " " + operator + " " + ("$" + digits) == column + (" " + operator + " $") + digits
  {
    assert column + " " + operator + " " + ("$" + digits) == column + (" " + operator + " " + "$") + digits;
    assert " " + operator + " " + "$" == " " + operator + " $";
  }

  lemma ConditionSpelling(column: string, k: nat)
    ensures ConditionText(Compare(column, Equal, k)) == column + " = $" + Decimal.OfNat(k)
    ensures ConditionText(Compare(column, NotEqual, k)) == column + " != $" + Decimal.OfNat(k)
    ensures ConditionText(Compare(column, Greater, k)) == column + " > $" + Decimal.OfNat(k)
    ensures ConditionText(Compare(column, Less, k)) == column + " < $" + Decimal.OfNat(k)
    ensures ConditionText(Compare(column, GreaterOrEqual, k)) == column + " >= $" + Decimal.OfNat(k)
    ensures ConditionText(Compare(column, LessOrEqual, k)) == column + " <= $" + Decimal.OfNat(k)
  {
    var d := Decimal.OfNat(k);
    hide Decimal.OfNat;
    OperatorGlue(column, "=", d);
    OperatorGlue(column, "!=", d);
    OperatorGlue(column, ">", d);
    OperatorGlue(column, "<", d);
    OperatorGlue(column, ">=", d);
    OperatorGlue(column, "<=", d);
    OperatorsSpelled();
  }

  lemma OperatorsSpelled()
    ensures " " + "=" + " $" == " = $" && " " + "!=" + " $" == " != $" && " " + ">" + " $" == " > $"
    ensures " " + "<" + " $" == " < $" && " " + ">=" + " $" == " >= $" && " " + "<=" + " $" == " <= $"
  {
  }

  lemma OtherSpelling(column: string, k: nat)
    ensures ConditionText(AnyOf(column, k)) == column + " = ANY($" + Decimal.OfNat(k) + ")"
    ensures ConditionText(Contains(column, k)) == column + " ILIKE '%' || $" + Decimal.OfNat(k) + " || '%' ESCAPE '\\'"
    ensures SortKeyText(SortKey(column, true)) == column + " ASC"
    ensures SortKeyText(SortKey(column, false)) == column + " DESC"
  {
    var d := Decimal.OfNat(k);
    hide Decimal.OfNat;
    assert column + " " + "=" + " " + ("ANY(" + ("$" + d) + ")") == column + (" " + "=" + " " + "ANY(" + "$") + d + ")";
    assert " " + "=" + " " + "ANY(" + "$" == " = ANY($";
    var rest := " || '%' ESCAPE '\\'";
    assert column + " ILIKE '%' || " + ("$" + d) + rest == column + (" ILIKE '%' || " + "$") + d + rest;
    assert " ILIKE '%' || " + "$" == " ILIKE '%' || $";
    assert " " + "ASC" == " ASC" && " " + "DESC" == " DESC";
    assert column + " " + "ASC" == column + (" " + "ASC") && column + " " + "DESC" == column + (" " + "DESC");
  }

  /** Every fragment is spelled the way PostgreSQL reads it. */
  lemma Spelling(column: string, k: nat, a: SqlCondition, b: SqlCondition, key: SortKey, next: SortKey)
    ensures ConditionText(Compare(column, Equal, k)) == column + " = $" + Decimal.OfNat(k)
    ensures ConditionText(Compare(column, NotEqual, k)) == column + " != $" + Decimal.OfNat(k)
    ensures ConditionText(Compare(column, Greater, k)) == column + " > $" + Decimal.OfNat(k)
    ensures ConditionText(Compare(column, Less, k)) == column + " < $" + Decimal.OfNat(k)
    ensures ConditionText(Compare(column, GreaterOrEqual, k)) == column + " >= $" + Decimal.OfNat(k)
    ensures ConditionText(Compare(column, LessOrEqual, k)) == column + " <= $" + Decimal.OfNat(k)
    ensures ConditionText(AnyOf(column, k)) == column + " = ANY($" + Decimal.OfNat(k) + ")"
    ensures ConditionText(Contains(column, k)) == column + " ILIKE '%' || $" + Decimal.OfNat(k) + " || '%' ESCAPE '\\'"
    ensures SortKeyText(SortKey(column, true)) == column + " ASC"
    ensures SortKeyText(SortKey(column, false)) == column + " DESC"
    ensures WhereText([a, b]) == " WHERE " + ConditionText(a) + " AND " + ConditionText(b)
    ensures OrderByText([key, next]) == " ORDER BY " + SortKeyText(key) + ", " + SortKeyText(next)
    ensures LimitText(Some(k)) == " LIMIT $" + Decimal.OfNat(k)
    ensures OffsetText(Some(k)) == " OFFSET $" + Decimal.OfNat(k)
  {
    ConditionSpelling(column, k);
    OtherSpelling(column, k);
    var d := Decimal.OfNat(k);
    hide ConditionText, SortKeyText, Decimal.OfNat;
    assert [a, b][1..] == [b] && [b][1..] == [] && [key, next][1..] == [next] && [next][1..] == [];
    assert ConditionsText([b]) == ConditionText(b) && SortKeysText([next]) == SortKeyText(next);
    assert " LIMIT " + ("$" + d) == " LIMIT " + "$" + d && " LIMIT " + "$" == " LIMIT $";
    assert " OFFSET " + ("$" + d) == " OFFSET " + "$" + d && " OFFSET " + "$" == " OFFSET $";
  }

  // ----- words -----

  /** The text cut at every space. */
  function Words(s: string): (ws: seq<string>)
    ensures |ws| > 0
  {
    if s == "" then [""]
    else
      var ws := Words(s[1..]);
      if s[0] == ' ' then [""] + ws else [[s[0]] + ws[0]] + ws[1..]
  }

  function Unwords(ws: seq<string>): string {
    if ws == [] then "" else " " + ws[0] + Unwords(ws[1..])
  }

  predicate OneWord(w: string) { ' ' !in w }

  lemma {:induction false} WordsOfWordThen(w: string, rest: string)
    requires OneWord(w)
    ensures Words(w + rest) == [w + Words(rest)[0]] + Words(rest)[1..]
  {
    if w == "" {
      assert w + rest == rest;
      assert w + Words(rest)[0] == Words(rest)[0];
    } else {
      assert (w + rest)[1..] == w[1..] + rest;
      WordsOfWordThen(w[1..], rest);
      assert (w + rest)[0] == w[0] && w[0] in w;
      assert [w[0]] + (w[1..] + Words(rest)[0]) == w + Words(rest)[0];
    }
  }

  lemma {:induction false} WordsOfUnwords(ws: seq<string>)
    requires forall w :: w in ws ==> OneWord(w)
    ensures Words(Unwords(ws)) == [""] + ws
  {
    if ws != [] {
      WordsOfUnwords(ws[1..]);
      WordsOfWordThen(ws[0], Unwords(ws[1..]));
      assert Unwords(ws)[1..] == ws[0] + Unwords(ws[1..]);
      assert ws[0] + "" == ws[0];
      assert ws == [ws[0]] + ws[1..];
    }
  }

  lemma {:induction false} UnwordsAppend(a: seq<string>, b: seq<string>)
    ensures Unwords(a + b) == Unwords(a) + Unwords(b)
  {
    if a == [] {
      assert a + b == b;
    } else {
      assert (a + b)[1..] == a[1..] + b;
      UnwordsAppend(a[1..], b);
    }
  }

  /** Cutting a text into words loses nothing. */
  lemma {:induction false} UnwordsOfWords(s: string)
    ensures Unwords(Words(s)) == " " + s
  {
    if s == "" {
      UnwordsOfOne("");
    } else {
      var ws, rest := Words(s[1..]), s[1..];
      UnwordsOfWords(rest);
      assert s == [s[0]] + rest;
      if s[0] == ' ' {
        assert ([""] + ws)[1..] == ws;
        assert " " + "" + (" " + rest) == " " + ([s[0]] + rest);
      } else {
        var tail := Unwords(ws[1..]);
        assert (" " + rest)[1..] == rest && (" " + ws[0] + tail)[1..] == ws[0] + tail;
        assert " " + ([s[0]] + ws[0]) + tail == " " + ([s[0]] + (ws[0] + tail));
      }
    }
  }

  lemma {:induction false} WordsAreOneWord(s: string)
    ensures forall w :: w in Words(s) ==> OneWord(w)
  {
    if s != "" {
      var ws := Words(s[1..]);
      WordsAreOneWord(s[1..]);
      assert OneWord(ws[0]);
      assert forall w :: w in ws[1..] ==> w in ws;
    }
  }

  // ----- the words of a clause -----

  /** A condition with its column as one part. */
  function ConditionParts(c: SqlCondition): (r: seq<string>)
    ensures r != [] && r[0] == c.column
  {
    match c
    case Compare(column, comparison, k) => [column, ComparisonText(comparison), ParameterWord(k)]
    case Contains(column, k) =>
      [column, "ILIKE", "'%'", "||", ParameterWord(k), "||", "'%'", "ESCAPE", "'\\'"]
    case AnyOf(column, k) => [column, "=", AnyWord(k)]
  }

  function ConditionWords(c: SqlCondition): seq<string> { Words(c.column) + ConditionParts(c)[1..] }

  function ConditionsWords(cs: seq<SqlCondition>): seq<string> {
    if cs == [] then []
    else ConditionWords(cs[0]) + (if |cs| > 1 then ["AND"] else []) + ConditionsWords(cs[1..])
  }

  function DirectionWord(key: SortKey, last: bool): string {
    if last then (if key.ascending then "ASC" else "DESC")
    else if key.ascending then "ASC," else "DESC,"
  }

  function SortKeysWords(keys: seq<SortKey>): seq<string> {
    if keys == [] then []
    else Words(keys[0].column) + [DirectionWord(keys[0], |keys| == 1)] + SortKeysWords(keys[1..])
  }

  function WhereWords(cs: seq<SqlCondition>): seq<string> {
    if cs == [] then [] else ["WHERE"] + ConditionsWords(cs)
  }

  function OrderByWords(keys: seq<SortKey>): seq<string> {
    if keys == [] then [] else ["ORDER", "BY"] + SortKeysWords(keys)
  }

  function LimitWords(limit: Option<nat>): seq<string> {
    if limit.Some? then ["LIMIT", ParameterWord(limit.value)] else []
  }

  function OffsetWords(offset: Option<nat>): seq<string> {
    if offset.Some? then ["OFFSET", ParameterWord(offset.value)] else []
  }

  function ClauseWords(c: Clause): seq<string> {
    WhereWords(c.conditions) + OrderByWords(c.sortKeys) + LimitWords(c.limit) + OffsetWords(c.offset)
  }

  lemma {:induction false} UnwordsOfThree(a: string, b: string, c: string)
    ensures Unwords([a, b, c]) == " " + a + " " + b + " " + c
  {
    UnwordsOfTwo(b, c);
    assert [a, b, c][1..] == [b, c];
  }

  lemma {:induction false} UnwordsOfTwo(a: string, b: string)
    ensures Unwords([a, b]) == " " + a + " " + b
  {
    UnwordsOfOne(b);
    assert [a, b][1..] == [b];
  }

  lemma {:induction false} UnwordsOfOne(a: string)
    ensures Unwords([a]) == " " + a
  {
    assert Unwords([a][1..]) == "";
  }

  lemma UnwordsOfNine(w: seq<string>)
    requires |w| == 9
    ensures Unwords(w)
         == Unwords(w[..3]) + Unwords(w[3..6]) + Unwords(w[6..])
  {
    UnwordsAppend(w[..3], w[3..6]);
    UnwordsAppend(w[..3] + w[3..6], w[6..]);
    assert w == w[..3] + w[3..6] + w[6..];
  }

  lemma RegroupNine(x: string, a: string, b: string, c: string, p: string,
                    d: string, e: string, f: string, g: string)
    ensures x + a + b + (c + p + d) + (e + f + g) == x + (a + b + c) + p + (d + e + f + g)
  {
    assert x + a + b + (c + p + d) == x + (a + b + c) + p + d;
    var y := x + (a + b + c) + p;
    assert y + d + (e + f + g) == y + (d + e + f + g);
  }

  lemma ContainsTextWords(column: string, k: nat)
    ensures Unwords(ConditionParts(Contains(column, k))) == " " + ConditionText(Contains(column, k))
  {
    var w := ConditionParts(Contains(column, k));
    UnwordsOfNine(w);
    assert w[..3] == [w[0], w[1], w[2]] && w[3..6] == [w[3], w[4], w[5]] && w[6..] == [w[6], w[7], w[8]];
    UnwordsOfThree(w[0], w[1], w[2]);
    UnwordsOfThree(w[3], w[4], w[5]);
    UnwordsOfThree(w[6], w[7], w[8]);
    LikeLiterals();
    NineText(w);
  }

  lemma NineText(w: seq<string>)
    requires |w| == 9
    ensures (" " + w[0] + " " + w[1] + " " + w[2]) + (" " + w[3] + " " + w[4] + " " + w[5])
            + (" " + w[6] + " " + w[7] + " " + w[8])
         == " " + (w[0] + (" " + w[1] + " " + w[2] + " " + w[3] + " ") + w[4]
                   + (" " + w[5] + " " + w[6] + " " + w[7] + " " + w[8]))
  {
    var x := " " + w[0];
    var a, b, c := " " + w[1], " " + w[2], " " + w[3] + " ";
    var d, e, f, g := " " + w[5], " " + w[6], " " + w[7], " " + w[8];
    RegroupNine(x, a, b, c, w[4], d, e, f, g);
    assert " " + w[0] + " " + w[1] + " " + w[2] == x + a + b;
    assert " " + w[3] + " " + w[4] + " " + w[5] == c + w[4] + d;
    assert " " + w[6] + " " + w[7] + " " + w[8] == e + f + g;
    assert " " + w[1] + " " + w[2] + " " + w[3] + " " == a + b + c;
    assert " " + w[5] + " " + w[6] + " " + w[7] + " " + w[8] == d + e + f + g;
    var l, m := a + b + c, d + e + f + g;
    assert x + l + w[4] + m == " " + (w[0] + l + w[4] + m);
  }

  lemma LikeLiterals()
    ensures " ILIKE '%' || " == " " + "ILIKE" + " " + "'%'" + " " + "||" + " "
    ensures " || '%' ESCAPE '\\'" == " " + "||" + " " + "'%'" + " " + "ESCAPE" + " " + "'\\'"
  {
    hide *;
  }

  lemma ConditionTextWords(c: SqlCondition)
    ensures Unwords(ConditionWords(c)) == " " + ConditionText(c)
  {
    hide ConditionText, ConditionParts, Unwords, Words;
    var parts := ConditionParts(c);
    ConditionTextParts(c);
    UnwordsOfWords(c.column);
    UnwordsOfOne(c.column);
    UnwordsAppend([c.column], parts[1..]);
    UnwordsAppend(Words(c.column), parts[1..]);
    assert parts == [c.column] + parts[1..];
  }

  lemma ConditionTextParts(c: SqlCondition)
    ensures Unwords(ConditionParts(c)) == " " + ConditionText(c)
  {
    var p := ParameterWord(c.parameter);
    match c
    case Compare(column, comparison, k) =>
      UnwordsOfThree(column, ComparisonText(comparison), p);
    case AnyOf(column, k) =>
      UnwordsOfThree(column, "=", AnyWord(k));
    case Contains(column, k) =>
      ContainsTextWords(column, k);
  }

  lemma Regroup(a: string, b: string, c: string, d: string, e: string)
    ensures a + b + c + d + e == a + b + c + (d + e) == a + (b + c + d) + e
  {
  }

  /** Two texts with a separator between them, read as words. */
  lemma Glue(a: string, separator: string, b: string)
    ensures " " + (a + (separator + " ") + b) == (" " + a) + separator + (" " + b)
  {
  }

  lemma {:induction false} ConditionsTextWords(cs: seq<SqlCondition>)
    requires cs != []
    ensures Unwords(ConditionsWords(cs)) == " " + ConditionsText(cs)
  {
    hide ConditionWords, ConditionText, Unwords;
    var first := ConditionWords(cs[0]);
    ConditionTextWords(cs[0]);
    if |cs| == 1 {
      assert ConditionsWords(cs) == first;
    } else {
      var rest := ConditionsWords(cs[1..]);
      ConditionsTextWords(cs[1..]);
      assert ConditionsWords(cs) == first + (["AND"] + rest);
      UnwordsAppend(first, ["AND"] + rest);
      UnwordsAppend(["AND"], rest);
      UnwordsOfOne("AND");
      Glue(ConditionText(cs[0]), " " + "AND", ConditionsText(cs[1..]));
      assert " " + "AND" + " " == " AND ";
    }
  }

  lemma {:induction false} SortKeysTextWords(keys: seq<SortKey>)
    requires keys != []
    ensures Unwords(SortKeysWords(keys)) == " " + SortKeysText(keys)
  {
    hide Unwords, Words;
    var column, direction := keys[0].column, DirectionWord(keys[0], |keys| == 1);
    var first := Words(column) + [direction];
    UnwordsAppend(Words(column), [direction]);
    UnwordsOfWords(column);
    UnwordsOfOne(direction);
    assert " " + column + (" " + direction) == " " + column + " " + direction == Unwords(first);
    if |keys| == 1 {
      assert SortKeysWords(keys) == first + [] == first;
      assert " " + column + " " + direction == " " + (column + " " + direction) == " " + SortKeyText(keys[0]);
      assert SortKeyText(keys[0]) + "" + "" == SortKeyText(keys[0]);
    } else {
      SortKeysTextWords(keys[1..]);
      UnwordsAppend(first, SortKeysWords(keys[1..]));
      Regroup(" ", keys[0].column, " ", DirectionWord(keys[0], true), ",");
      assert DirectionWord(keys[0], false) == DirectionWord(keys[0], true) + ",";
      Glue(SortKeyText(keys[0]), ",", SortKeysText(keys[1..]));
      assert "," + " " == ", ";
      hide SortKeyText, DirectionWord;
    }
  }

  lemma WhereTextWords(cs: seq<SqlCondition>)
    ensures Unwords(WhereWords(cs)) == WhereText(cs)
  {
    hide ConditionsWords, ConditionsText;
    if cs != [] {
      ConditionsTextWords(cs);
      UnwordsAppend(["WHERE"], ConditionsWords(cs));
      UnwordsOfOne("WHERE");
      assert " WHERE " == " " + "WHERE" + " ";
    }
  }

  lemma OrderByTextWords(keys: seq<SortKey>)
    ensures Unwords(OrderByWords(keys)) == OrderByText(keys)
  {
    hide SortKeysWords, SortKeysText;
    if keys != [] {
      SortKeysTextWords(keys);
      UnwordsAppend(["ORDER", "BY"], SortKeysWords(keys));
      UnwordsOfTwo("ORDER", "BY");
      assert " ORDER BY " == " " + "ORDER" + " " + "BY" + " ";
    }
  }

  lemma LimitOffsetTextWords(limit: Option<nat>, offset: Option<nat>)
    ensures Unwords(LimitWords(limit)) == LimitText(limit)
    ensures Unwords(OffsetWords(offset)) == OffsetText(offset)
  {
    if limit.Some? {
      UnwordsOfTwo("LIMIT", ParameterWord(limit.value));
      assert " LIMIT " == " " + "LIMIT" + " ";
    }
    if offset.Some? {
      UnwordsOfTwo("OFFSET", ParameterWord(offset.value));
      assert " OFFSET " == " " + "OFFSET" + " ";
    }
  }

  /** The text of a clause is its words, each with a space in front. */
  lemma ClauseTextWords(c: Clause)
    ensures ClauseText(c) == Unwords(ClauseWords(c))
  {
    var a, b := WhereWords(c.conditions), OrderByWords(c.sortKeys);
    var l, o := LimitWords(c.limit), OffsetWords(c.offset);
    UnwordsAppend(a + b + l, o);
    UnwordsAppend(a + b, l);
    UnwordsAppend(a, b);
    WhereTextWords(c.conditions);
    OrderByTextWords(c.sortKeys);
    LimitOffsetTextWords(c.limit, c.offset);
  }

  // ----- reading -----

  function ReadParameter(w: string): Option<nat> {
    if w != "" && w[0] == '$' then Decimal.ParseNat(w[1..]) else None
  }

  function ReadAny(w: string): Option<nat> {
    if |w| > 6 && w[..5] == "ANY($" && w[|w| - 1] == ')' then Decimal.ParseNat(w[5..|w| - 1]) else None
  }

  function ReadComparison(w: string): Option<Comparison> {
    if w == "=" then Some(Equal)
    else if w == "!=" then Some(NotEqual)
    else if w == ">" then Some(Greater)
    else if w == "<" then Some(Less)
    else if w == ">=" then Some(GreaterOrEqual)
    else if w == "<=" then Some(LessOrEqual)
    else None
  }

  /** Words of the clause grammar itself. A column expression with such a word of its own would
      have to be put in parentheses without spaces around it. */
  predicate Reserved(w: string) {
    ReadComparison(w).Some? || w in {"ILIKE", "AND", "ASC", "DESC", "ASC,", "DESC,"}
  }

  /** How many words come before the first reserved one. */
  function ColumnSpan(ws: seq<string>): (n: nat)
    ensures n <= |ws|
  {
    if ws == [] || Reserved(ws[0]) then 0 else 1 + ColumnSpan(ws[1..])
  }

  /** The text of some words; the first is not preceded by a space. */
  function ColumnText(ws: seq<string>): string {
    if ws == [] then "" else Unwords(ws)[1..]
  }

  /** What follows the column: the condition on it, and how many words it took. */
  function ReadTail(column: string, ws: seq<string>): (r: Option<(SqlCondition, nat)>)
    ensures r.Some? ==> 0 < r.value.1 <= |ws|
  {
    if |ws| < 2 then None
    else if ws[0] == "ILIKE" then
      if |ws| >= 8 && ws[1..3] == ["'%'", "||"] && ws[4..8] == ["||", "'%'", "ESCAPE", "'\\'"] then
        var k :- ReadParameter(ws[3]);
        Some((Contains(column, k), 8))
      else None
    else if ws[0] == "=" && ReadAny(ws[1]).Some? then Some((AnyOf(column, ReadAny(ws[1]).value), 2))
    else
      var comparison :- ReadComparison(ws[0]);
      var k :- ReadParameter(ws[1]);
      Some((Compare(column, comparison, k), 2))
  }

  /** Reads one condition; the result says how many words it took. */
  function ReadCondition(ws: seq<string>): (r: Option<(SqlCondition, nat)>)
    ensures r.Some? ==> 0 < r.value.1 <= |ws|
  {
    var n := ColumnSpan(ws);
    var (c, taken) :- ReadTail(ColumnText(ws[..n]), ws[n..]);
    Some((c, n + taken))
  }

  function ReadConditions(ws: seq<string>): (r: Option<(seq<SqlCondition>, seq<string>)>)
    decreases |ws|
  {
    var (c, n) :- ReadCondition(ws);
    if n < |ws| && ws[n] == "AND" then
      var (cs, rest) :- ReadConditions(ws[n + 1..]);
      Some(([c] + cs, rest))
    else Some(([c], ws[n..]))
  }

  /** A direction word: ascending or not, and whether it ends the list. */
  function ReadDirection(w: string): Option<(bool, bool)> {
    if w == "ASC" then Some((true, true))
    else if w == "DESC" then Some((false, true))
    else if w == "ASC," then Some((true, false))
    else if w == "DESC," then Some((false, false))
    else None
  }

  function ReadSortKeys(ws: seq<string>): Option<(seq<SortKey>, seq<string>)>
    decreases |ws|
  {
    var n := ColumnSpan(ws);
    if n == |ws| then None
    else
      var (ascending, last) :- ReadDirection(ws[n]);
      var key := SortKey(ColumnText(ws[..n]), ascending);
      if last then Some(([key], ws[n + 1..]))
      else
        var (keys, rest) :- ReadSortKeys(ws[n + 1..]);
        Some(([key] + keys, rest))
  }

  function ReadWhere(ws: seq<string>): Option<(seq<SqlCondition>, seq<string>)> {
    if ws != [] && ws[0] == "WHERE" then ReadConditions(ws[1..]) else Some(([], ws))
  }

  function ReadOrderBy(ws: seq<string>): Option<(seq<SortKey>, seq<string>)> {
    if |ws| >= 2 && ws[0] == "ORDER" && ws[1] == "BY" then ReadSortKeys(ws[2..]) else Some(([], ws))
  }

  function ReadNumbered(keyword: string, ws: seq<string>): Option<(Option<nat>, seq<string>)> {
    if |ws| >= 2 && ws[0] == keyword then
      var k :- ReadParameter(ws[1]);
      Some((Some(k), ws[2..]))
    else Some((None, ws))
  }

  function ReadClause(text: string): Option<Clause> {
    var ws := Words(text);
    if ws[0] != "" then None
    else
      var (conditions, afterWhere) :- ReadWhere(ws[1..]);
      var (keys, afterOrder) :- ReadOrderBy(afterWhere);
      var (limit, afterLimit) :- ReadNumbered("LIMIT", afterOrder);
      var (offset, rest) :- ReadNumbered("OFFSET", afterLimit);
      if rest == [] then Some(Clause(conditions, keys, limit, offset)) else None
  }

  // ----- reading what was printed -----

  /** No word of the column expression belongs to the clause grammar. */
  predicate SelfContained(column: string) { forall w :: w in Words(column) ==> !Reserved(w) }

  predicate SelfContainedColumns(c: Clause) {
    && (forall i :: 0 <= i < |c.conditions| ==> SelfContained(c.conditions[i].column))
    && (forall i :: 0 <= i < |c.sortKeys| ==> SelfContained(c.sortKeys[i].column))
  }

  /** A single word is self-contained unless it is reserved. */
  lemma OneWordSelfContained(w: string)
    requires OneWord(w) && !Reserved(w)
    ensures SelfContained(w)
  {
    hide Reserved;
    WordsOfWordThen(w, "");
    assert w + "" == w && Words("") == [""];
  }

  lemma {:induction false} SpanOfWords(ws: seq<string>, rest: seq<string>)
    requires forall w :: w in ws ==> !Reserved(w)
    requires rest == [] || Reserved(rest[0])
    ensures ColumnSpan(ws + rest) == |ws|
  {
    hide Reserved;
    if ws == [] {
      assert ws + rest == rest;
    } else {
      assert (ws + rest)[1..] == ws[1..] + rest;
      SpanOfWords(ws[1..], rest);
    }
  }

  /** The reader finds the end of a self-contained column, and its text. */
  lemma ReadColumn(column: string, rest: seq<string>)
    requires SelfContained(column) && rest != [] && Reserved(rest[0])
    ensures var ws := Words(column) + rest;
      var n := ColumnSpan(ws);
      n == |Words(column)| && ws[n..] == rest && ColumnText(ws[..n]) == column
  {
    hide Reserved, Words, Unwords, ColumnSpan;
    SpanOfWords(Words(column), rest);
    UnwordsOfWords(column);
    var ws := Words(column) + rest;
    assert ws[..|Words(column)|] == Words(column);
    assert (" " + column)[1..] == column;
  }

  lemma DigitsAreOneWord(k: nat)
    ensures OneWord(Decimal.OfNat(k)) && OneWord(ParameterWord(k)) && OneWord(AnyWord(k))
  {
    var s := Decimal.OfNat(k);
    forall c | c in s ensures c != ' ' {
      var i :| 0 <= i < |s| && s[i] == c;
      assert Decimal.IsDigit(s[i]);
    }
  }

  lemma ConditionWordsOneWord(c: SqlCondition)
    ensures forall w :: w in ConditionWords(c) ==> OneWord(w)
  {
    DigitsAreOneWord(c.parameter);
    WordsAreOneWord(c.column);
    hide ParameterWord, Words;
  }

  lemma {:induction false} ConditionsWordsOneWord(cs: seq<SqlCondition>)
    ensures forall w :: w in ConditionsWords(cs) ==> OneWord(w)
  {
    hide ConditionWords;
    if cs != [] {
      ConditionWordsOneWord(cs[0]);
      ConditionsWordsOneWord(cs[1..]);
    }
  }

  lemma {:induction false} SortKeysWordsOneWord(keys: seq<SortKey>)
    ensures forall w :: w in SortKeysWords(keys) ==> OneWord(w)
  {
    hide Words;
    if keys != [] {
      WordsAreOneWord(keys[0].column);
      SortKeysWordsOneWord(keys[1..]);
    }
  }

  lemma ClauseWordsOneWord(c: Clause)
    ensures forall w :: w in ClauseWords(c) ==> OneWord(w)
  {
    hide ParameterWord, ConditionsWords, SortKeysWords;
    ConditionsWordsOneWord(c.conditions);
    SortKeysWordsOneWord(c.sortKeys);
    if c.limit.Some? { DigitsAreOneWord(c.limit.value); }
    if c.offset.Some? { DigitsAreOneWord(c.offset.value); }
  }

  lemma ReadParameterWord(k: nat)
    ensures ReadParameter(ParameterWord(k)) == Some(k)
    ensures ReadAny(ParameterWord(k)) == None
    ensures ReadAny(AnyWord(k)) == Some(k)
  {
    Decimal.ParseNatOfNat(k);
    assert ParameterWord(k)[1..] == Decimal.OfNat(k);
    assert forall w: string :: |w| > 6 && w[..5] == "ANY($" ==> w[0] == w[..5][0] == 'A';
    var w := AnyWord(k);
    assert w[5..|w| - 1] == Decimal.OfNat(k);
  }

  lemma ReadTailParts(c: SqlCondition, rest: seq<string>)
    ensures var parts := ConditionParts(c);
      && |parts| > 1 && Reserved(parts[1])
      && ReadTail(c.column, parts[1..] + rest) == Some((c, |parts| - 1))
  {
    ReadParameterWord(c.parameter);
    var ws := ConditionParts(c)[1..] + rest;
    if c.Contains? {
      assert ws[1..3] == ["'%'", "||"];
      assert ws[4..8] == ["||", "'%'", "ESCAPE", "'\\'"];
    }
  }

  lemma ReadConditionWords(c: SqlCondition, rest: seq<string>)
    requires SelfContained(c.column)
    ensures ReadCondition(ConditionWords(c) + rest) == Some((c, |ConditionWords(c)|))
  {
    hide ConditionParts, ReadTail, Words, Reserved, ColumnSpan, ColumnText, SelfContained;
    var parts := ConditionParts(c);
    ReadTailParts(c, rest);
    assert ConditionWords(c) + rest == Words(c.column) + (parts[1..] + rest);
    ReadColumn(c.column, parts[1..] + rest);
  }

  lemma Pieces(first: seq<string>, w: string, more: seq<string>, rest: seq<string>)
    ensures var ws := first + [w] + more + rest;
      && ws == first + ([w] + (more + rest))
      && |first| < |ws| && ws[|first|] == w && ws[|first| + 1..] == more + rest
  {
  }

  lemma ReadLast(ws: seq<string>, c: SqlCondition, n: nat)
    requires ReadCondition(ws) == Some((c, n)) && (n == |ws| || ws[n] != "AND")
    ensures ReadConditions(ws) == Some(([c], ws[n..]))
  {
    hide ReadCondition;
  }

  lemma ReadMore(ws: seq<string>, c: SqlCondition, n: nat, cs: seq<SqlCondition>, rest: seq<string>)
    requires ReadCondition(ws) == Some((c, n)) && n < |ws| && ws[n] == "AND"
    requires ReadConditions(ws[n + 1..]) == Some((cs, rest))
    ensures ReadConditions(ws) == Some(([c] + cs, rest))
  {
    hide ReadCondition;
  }

  lemma {:induction false} ReadConditionsWords(cs: seq<SqlCondition>, rest: seq<string>)
    requires cs != [] && forall i :: 0 <= i < |cs| ==> SelfContained(cs[i].column)
    requires rest == [] || rest[0] != "AND"
    ensures ReadConditions(ConditionsWords(cs) + rest) == Some((cs, rest))
  {
    hide ConditionWords, ReadCondition, ReadConditions, SelfContained;
    var first := ConditionWords(cs[0]);
    var ws := ConditionsWords(cs) + rest;
    if |cs| == 1 {
      assert ConditionsWords(cs) == first + [] + [];
      assert ws == first + rest && ws[|first|..] == rest;
      ReadConditionWords(cs[0], rest);
      ReadLast(ws, cs[0], |first|);
      assert [cs[0]] == cs;
    } else {
      var more := ConditionsWords(cs[1..]);
      Pieces(first, "AND", more, rest);
      ReadConditionWords(cs[0], ["AND"] + (more + rest));
      ReadConditionsWords(cs[1..], rest);
      ReadMore(ws, cs[0], |first|, cs[1..], rest);
      assert cs == [cs[0]] + cs[1..];
    }
  }

  lemma ReadDirectionWord(key: SortKey, last: bool)
    ensures ReadDirection(DirectionWord(key, last)) == Some((key.ascending, last))
  {
  }

  lemma DirectionReserved(key: SortKey, last: bool)
    ensures Reserved(DirectionWord(key, last))
  {
  }

  lemma ReadLastKey(ws: seq<string>, n: nat, ascending: bool)
    requires ColumnSpan(ws) == n < |ws| && ReadDirection(ws[n]) == Some((ascending, true))
    ensures ReadSortKeys(ws) == Some(([SortKey(ColumnText(ws[..n]), ascending)], ws[n + 1..]))
  {
    hide ColumnSpan, ColumnText, ReadDirection;
  }

  lemma ReadMoreKeys(ws: seq<string>, n: nat, ascending: bool, keys: seq<SortKey>, rest: seq<string>)
    requires ColumnSpan(ws) == n < |ws| && ReadDirection(ws[n]) == Some((ascending, false))
    requires ReadSortKeys(ws[n + 1..]) == Some((keys, rest))
    ensures ReadSortKeys(ws) == Some(([SortKey(ColumnText(ws[..n]), ascending)] + keys, rest))
  {
    hide ColumnSpan, ColumnText, ReadDirection;
  }

  lemma {:induction false} ReadSortKeysWords(keys: seq<SortKey>, rest: seq<string>)
    requires keys != [] && forall i :: 0 <= i < |keys| ==> SelfContained(keys[i].column)
    ensures ReadSortKeys(SortKeysWords(keys) + rest) == Some((keys, rest))
  {
    hide DirectionWord, ReadDirection, Words, ColumnSpan, ColumnText, SelfContained, Reserved, ReadSortKeys;
    var direction := DirectionWord(keys[0], |keys| == 1);
    ReadDirectionWord(keys[0], |keys| == 1);
    DirectionReserved(keys[0], |keys| == 1);
    var more := SortKeysWords(keys[1..]) + rest;
    var ws, n := SortKeysWords(keys) + rest, |Words(keys[0].column)|;
    Pieces(Words(keys[0].column), direction, SortKeysWords(keys[1..]), rest);
    ReadColumn(keys[0].column, [direction] + more);
    if |keys| == 1 {
      assert more == rest;
      ReadLastKey(ws, n, keys[0].ascending);
      assert keys == [keys[0]];
    } else {
      ReadSortKeysWords(keys[1..], rest);
      ReadMoreKeys(ws, n, keys[0].ascending, keys[1..], rest);
      assert keys == [keys[0]] + keys[1..];
    }
  }

  lemma ReadNumberedWords(keyword: string, k: Option<nat>, rest: seq<string>)
    requires rest == [] || rest[0] != keyword
    ensures ReadNumbered(keyword, (if k.Some? then [keyword, ParameterWord(k.value)] else []) + rest) == Some((k, rest))
  {
    if k.Some? {
      ReadParameterWord(k.value);
      assert ([keyword, ParameterWord(k.value)] + rest)[2..] == rest;
    } else {
      assert [] + rest == rest;
    }
  }

  lemma OrderByWordsFirst(keys: seq<SortKey>, rest: seq<string>)
    requires rest == [] || rest[0] == "LIMIT" || rest[0] == "OFFSET"
    ensures var ws := OrderByWords(keys) + rest; ws == [] || (ws[0] != "AND" && ws[0] != "WHERE")
  {
    assert keys != [] ==> (OrderByWords(keys) + rest)[0] == "ORDER";
    assert keys == [] ==> OrderByWords(keys) + rest == rest;
  }

  lemma ReadWhereWords(cs: seq<SqlCondition>, rest: seq<string>)
    requires forall i :: 0 <= i < |cs| ==> SelfContained(cs[i].column)
    requires rest == [] || (rest[0] != "AND" && rest[0] != "WHERE")
    ensures ReadWhere(WhereWords(cs) + rest) == Some((cs, rest))
  {
    hide ReadConditions, ConditionsWords;
    var ws := WhereWords(cs) + rest;
    if cs == [] {
      assert ws == rest;
    } else {
      ReadConditionsWords(cs, rest);
      assert ws[1..] == ConditionsWords(cs) + rest;
    }
  }

  lemma AfterTwo(a: string, b: string, more: seq<string>, rest: seq<string>)
    ensures var ws := [a, b] + more + rest;
      |ws| >= 2 && ws[0] == a && ws[1] == b && ws[2..] == more + rest
  {
  }

  lemma ReadOrderByWords(keys: seq<SortKey>, rest: seq<string>)
    requires forall i :: 0 <= i < |keys| ==> SelfContained(keys[i].column)
    requires rest == [] || rest[0] != "ORDER"
    ensures ReadOrderBy(OrderByWords(keys) + rest) == Some((keys, rest))
  {
    var ws := OrderByWords(keys) + rest;
    if keys == [] {
      assert ws == rest;
    } else {
      hide SortKeysWords, ReadSortKeys;
      ReadSortKeysWords(keys, rest);
      AfterTwo("ORDER", "BY", SortKeysWords(keys), rest);
    }
  }

  lemma ReadSelfContained(c: Clause)
    requires SelfContainedColumns(c)
    ensures ReadClause(ClauseText(c)) == Some(c)
  {
    hide WhereWords, OrderByWords, ReadWhere, ReadOrderBy, ReadNumbered, Words, Unwords, ClauseText, SelfContained;
    ClauseTextWords(c);
    ClauseWordsOneWord(c);
    WordsOfUnwords(ClauseWords(c));
    var o := OffsetWords(c.offset);
    var lo := LimitWords(c.limit) + o;
    var blo := OrderByWords(c.sortKeys) + lo;
    assert ClauseWords(c) == WhereWords(c.conditions) + blo;
    OrderByWordsFirst(c.sortKeys, lo);
    ReadWhereWords(c.conditions, blo);
    ReadOrderByWords(c.sortKeys, lo);
    ReadNumberedWords("LIMIT", c.limit, o);
    ReadNumberedWords("OFFSET", c.offset, []);
    assert o + [] == o;
  }

  // ----- reading gives self-contained columns only -----

  lemma {:induction false} SpanNotReserved(ws: seq<string>)
    ensures forall i :: 0 <= i < ColumnSpan(ws) ==> !Reserved(ws[i])
  {
    hide Reserved;
    if ws != [] && !Reserved(ws[0]) {
      SpanNotReserved(ws[1..]);
      assert forall i :: 1 <= i < |ws| ==> ws[i] == ws[1..][i - 1];
    }
  }

  predicate OneWords(ws: seq<string>) { forall i :: 0 <= i < |ws| ==> OneWord(ws[i]) }

  lemma ColumnReadSelfContained(ws: seq<string>)
    requires OneWords(ws)
    ensures SelfContained(ColumnText(ws[..ColumnSpan(ws)]))
  {
    hide Words, OneWord, Unwords;
    var column := ws[..ColumnSpan(ws)];
    SpanNotReserved(ws);
    hide Reserved, ColumnSpan;
    if column == [] {
      EmptyColumn();
    } else {
      WordsOfUnwords(column);
      UnwordsNotEmpty(column);
      var text := Unwords(column)[1..];
      WordsAfterSpace(text);
      assert Unwords(column) == " " + text;
      assert ([""] + Words(text))[1..] == Words(text) && ([""] + column)[1..] == column;
      assert Words(text) == column && forall i :: 0 <= i < |column| ==> column[i] == ws[i];
    }
  }

  lemma EmptyColumn()
    ensures SelfContained("")
  {
    assert Words("") == [""];
  }

  lemma UnwordsNotEmpty(ws: seq<string>)
    requires ws != []
    ensures Unwords(ws) != "" && Unwords(ws)[0] == ' '
  {
  }

  lemma WordsAfterSpace(s: string)
    ensures Words(" " + s) == [""] + Words(s)
  {
    assert (" " + s)[1..] == s;
  }

  lemma ConditionReadSelfContained(ws: seq<string>)
    requires OneWords(ws)
    ensures ReadCondition(ws).Some? ==> SelfContained(ReadCondition(ws).value.0.column)
  {
    hide SelfContained, ReadTail, OneWord, ColumnText, Reserved, ColumnSpan;
    ColumnReadSelfContained(ws);
    TailKeepsColumn(ColumnText(ws[..ColumnSpan(ws)]), ws[ColumnSpan(ws)..]);
  }

  lemma {:induction false} ConditionsReadSelfContained(ws: seq<string>)
    requires OneWords(ws)
    ensures var r := ReadConditions(ws);
      r.Some? ==> OneWords(r.value.1) && forall i :: 0 <= i < |r.value.0| ==> SelfContained(r.value.0[i].column)
    decreases |ws|
  {
    hide SelfContained, OneWord, ReadCondition;
    ConditionReadSelfContained(ws);
    var first := ReadCondition(ws);
    if first.Some? {
      var m := first.value.1;
      if m < |ws| && ws[m] == "AND" { ConditionsReadSelfContained(ws[m + 1..]); }
    }
  }

  lemma TailKeepsColumn(column: string, ws: seq<string>)
    ensures ReadTail(column, ws).Some? ==> ReadTail(column, ws).value.0.column == column
  {
  }

  lemma {:induction false} SortKeysReadSelfContained(ws: seq<string>)
    requires OneWords(ws)
    ensures var r := ReadSortKeys(ws);
      r.Some? ==> OneWords(r.value.1) && forall i :: 0 <= i < |r.value.0| ==> SelfContained(r.value.0[i].column)
    decreases |ws|
  {
    hide SelfContained, OneWord, ColumnText, Reserved, ReadDirection;
    ColumnReadSelfContained(ws);
    var n := ColumnSpan(ws);
    hide ColumnSpan;
    if n < |ws| && ReadDirection(ws[n]).Some? && !ReadDirection(ws[n]).value.1 {
      SortKeysReadSelfContained(ws[n + 1..]);
    }
  }

  lemma ReadIsSelfContained(text: string)
    ensures ReadClause(text).Some? ==> SelfContainedColumns(ReadClause(text).value)
  {
    hide Words, OneWord, SelfContained, ReadConditions, ReadSortKeys, ReadNumbered;
    WordsAreOneWord(text);
    var ws := Words(text)[1..];
    assert OneWords(ws);
    if ws != [] { ConditionsReadSelfContained(ws[1..]); }
    if ReadWhere(ws).Some? {
      var afterWhere := ReadWhere(ws).value.1;
      if |afterWhere| >= 2 { SortKeysReadSelfContained(afterWhere[2..]); }
    }
  }

  /** Reading the printed text of a clause gives the clause back, whatever columns, parameter
      numbers and parts it has, exactly when no column has a word of the grammar standing alone. */
  lemma ReadClauseText(c: Clause)
    ensures ReadClause(ClauseText(c)) == Some(c) <==> SelfContainedColumns(c)
  {
    hide ReadClause, ClauseText, SelfContainedColumns;
    ReadIsSelfContained(ClauseText(c));
    if SelfContainedColumns(c) { ReadSelfContained(c); }
  }
}
