/** UPDATE statements with a SET list: their text, a reader for it, and their effect on a row. */
module SqlUpdate {
  import Decimal
  import opened Wrappers
  import opened SqlText
  import opened SqlEval

  datatype Assignment = Assignment(column: string, parameter: nat)

  function AssignmentText(a: Assignment): string { a.column + " = " + ParameterWord(a.parameter) }

  function Join(parts: seq<string>, separator: string): string {
    if parts == [] then ""
    else if |parts| == 1 then parts[0]
    else parts[0] + separator + Join(parts[1..], separator)
  }

  function AssignmentTexts(xs: seq<Assignment>): (r: seq<string>)
    ensures |r| == |xs|
  {
    seq(|xs|, i requires 0 <= i < |xs| => AssignmentText(xs[i]))
  }

  /** The statement the repositories format; `returning` is the list after RETURNING. */
  function UpdateText(table: string, setList: string, returning: string): string {
    "UPDATE " + table + " SET " + setList + " WHERE id = $1 RETURNING " + returning
  }

  // ----- words -----

  function SetWords(xs: seq<Assignment>): seq<string> {
    if xs == [] then []
    else [xs[0].column, "=", ParameterWord(xs[0].parameter) + (if |xs| > 1 then "," else "")] + SetWords(xs[1..])
  }

  lemma {:induction false} SetListWords(xs: seq<Assignment>)
    requires xs != []
    ensures Unwords(SetWords(xs)) == " " + Join(AssignmentTexts(xs), ", ")
  {
    hide ParameterWord, Unwords;
    var p := ParameterWord(xs[0].parameter);
    UnwordsOfThree(xs[0].column, "=", p + (if |xs| > 1 then "," else ""));
    if |xs| == 1 {
      assert SetWords(xs) == [xs[0].column, "=", p + ""];
      assert p + "" == p;
      OneAssignment(xs[0].column, p);
    } else {
      SetListWords(xs[1..]);
      UnwordsAppend([xs[0].column, "=", p + ","], SetWords(xs[1..]));
      AssignmentTextsTail(xs);
      OneAssignment(xs[0].column, p);
      Glue(AssignmentText(xs[0]), ",", Join(AssignmentTexts(xs[1..]), ", "));
      assert "," + " " == ", ";
      Comma(" " + xs[0].column + " " + "=" + " ", p);
    }
  }

  lemma OneAssignment(column: string, p: string)
    ensures " " + column + " " + "=" + " " + p == " " + (column + " = " + p)
  {
    assert " = " == " " + "=" + " ";
  }

  lemma Comma(a: string, p: string)
    ensures a + (p + ",") == a + p + ","
  {
  }

  lemma AssignmentTextsTail(xs: seq<Assignment>)
    requires xs != []
    ensures AssignmentTexts(xs)[1..] == AssignmentTexts(xs[1..])
  {
    hide AssignmentText;
  }

  /** The words around the SET list. */
  function UpdateWords(table: string, setWords: seq<string>): seq<string> {
    ["UPDATE", table, "SET"] + setWords + ["WHERE", "id", "=", "$1", "RETURNING"]
  }

  lemma UpdateTextWords(table: string, setWords: seq<string>, setList: string, returning: string)
    requires Unwords(setWords) == " " + setList
    requires OneWord(table) && forall w :: w in setWords ==> OneWord(w)
    ensures Words(UpdateText(table, setList, returning)) == UpdateWords(table, setWords) + Words(returning)
  {
    hide Unwords, Words, UpdateText;
    var tail := ["WHERE", "id", "=", "$1", "RETURNING"];
    UnwordsAppend(["UPDATE", table, "SET"] + setWords, tail);
    UnwordsAppend(["UPDATE", table, "SET"], setWords);
    UnwordsOfThree("UPDATE", table, "SET");
    TailText();
    UpdatePieces(table, setList, returning);
    var before := " " + "UPDATE" + " " + table + " " + "SET" + (" " + setList);
    assert before + " WHERE id = $1 RETURNING " + returning == before + Unwords(tail) + (" " + returning);
    WordsOfLine(UpdateWords(table, setWords), returning);
    DropFirstSpace(UpdateText(table, setList, returning));
    DropHead("", Words(UpdateText(table, setList, returning)), UpdateWords(table, setWords) + Words(returning));
  }

  lemma DropHead(h: string, a: seq<string>, b: seq<string>)
    ensures [h] + a == [h] + b ==> a == b
  {
    assert ([h] + a)[1..] == a && ([h] + b)[1..] == b;
  }

  lemma TailText()
    ensures Unwords(["WHERE", "id", "=", "$1", "RETURNING"]) + " " == " WHERE id = $1 RETURNING "
  {
    hide Unwords;
    UnwordsAppend(["WHERE", "id", "="], ["$1", "RETURNING"]);
    UnwordsOfThree("WHERE", "id", "=");
    UnwordsOfTwo("$1", "RETURNING");
    assert ["WHERE", "id", "="] + ["$1", "RETURNING"] == ["WHERE", "id", "=", "$1", "RETURNING"];
    assert " " + "WHERE" + " " + "id" + " " + "=" == " WHERE id =";
    assert " " + "$1" + " " + "RETURNING" + " " == " $1 RETURNING ";
    assert " WHERE id =" + " $1 RETURNING " == " WHERE id = $1 RETURNING ";
  }

  lemma UpdatePieces(table: string, setList: string, returning: string)
    ensures " " + UpdateText(table, setList, returning)
         == " " + "UPDATE" + " " + table + " " + "SET" + (" " + setList) + " WHERE id = $1 RETURNING " + returning
  {
    assert "UPDATE " == "UPDATE" + " " && " SET " == " " + "SET" + " ";
    var w := " WHERE id = $1 RETURNING ";
    FivePieces("UPDATE", table, "SET", setList, w, returning);
  }

  lemma FivePieces(a: string, t: string, b: string, l: string, w: string, r: string)
    ensures " " + (a + " " + t + (" " + b + " ") + l + w + r) == " " + a + " " + t + " " + b + (" " + l) + w + r
  {
    assert a + " " + t + (" " + b + " ") + l == a + " " + t + " " + b + (" " + l);
    var x := a + " " + t + " " + b + (" " + l);
    assert " " + (x + w + r) == (" " + x) + w + r;
    assert " " + x == " " + a + " " + t + " " + b + (" " + l);
  }

  // ----- reading -----

  function ReadAssignments(ws: seq<string>): Option<(seq<Assignment>, seq<string>)>
    decreases |ws|
  {
    if |ws| < 3 || ws[1] != "=" then None
    else
      var w := ws[2];
      if w != "" && w[|w| - 1] == ',' then
        var k :- ReadParameter(w[..|w| - 1]);
        var (xs, rest) :- ReadAssignments(ws[3..]);
        Some(([Assignment(ws[0], k)] + xs, rest))
      else
        var k :- ReadParameter(w);
        Some(([Assignment(ws[0], k)], ws[3..]))
  }

  /** Reads an UPDATE of one row by id; the row's id is parameter 1. */
  function ReadUpdate(text: string): Option<(string, seq<Assignment>)> {
    var ws := Words(text);
    if |ws| < 3 || ws[0] != "UPDATE" || ws[2] != "SET" then None
    else
      var (xs, rest) :- ReadAssignments(ws[3..]);
      if |rest| >= 5 && rest[..5] == ["WHERE", "id", "=", "$1", "RETURNING"] then Some((ws[1], xs)) else None
  }

  lemma NoTrailingComma(k: nat)
    ensures var w := ParameterWord(k); w != "" && w[|w| - 1] != ',' && (w + ",")[..|w|] == w
  {
    var s := Decimal.OfNat(k);
    assert Decimal.IsDigit(s[|s| - 1]);
  }

  lemma {:induction false} ReadSetWords(xs: seq<Assignment>, rest: seq<string>)
    requires xs != []
    ensures ReadAssignments(SetWords(xs) + rest) == Some((xs, rest))
  {
    hide ParameterWord, ReadParameter;
    var p := ParameterWord(xs[0].parameter);
    NoTrailingComma(xs[0].parameter);
    ReadParameterWord(xs[0].parameter);
    var w := p + (if |xs| > 1 then "," else "");
    AfterThree([xs[0].column, "=", w], SetWords(xs[1..]), rest);
    if |xs| == 1 {
      assert p + "" == p;
      assert SetWords(xs[1..]) + rest == rest;
      assert [xs[0]] == xs;
    } else {
      ReadSetWords(xs[1..], rest);
      assert [xs[0]] + xs[1..] == xs;
    }
  }

  lemma AfterThree(first: seq<string>, more: seq<string>, rest: seq<string>)
    requires |first| == 3
    ensures var ws := first + more + rest; |ws| >= 3 && ws[..3] == first && ws[3..] == more + rest
    ensures first + more + rest == first + (more + rest)
  {
  }

  lemma {:induction false} SetWordsOneWord(xs: seq<Assignment>)
    requires forall i :: 0 <= i < |xs| ==> OneWord(xs[i].column)
    ensures forall w :: w in SetWords(xs) ==> OneWord(w)
  {
    if xs != [] {
      hide ParameterWord;
      DigitsAreOneWord(xs[0].parameter);
      SetWordsOneWord(xs[1..]);
    }
  }

  /** Reading the statement gives its table and its assignments back. */
  lemma ReadUpdateText(table: string, xs: seq<Assignment>, returning: string)
    requires xs != [] && OneWord(table) && forall i :: 0 <= i < |xs| ==> OneWord(xs[i].column)
    ensures ReadUpdate(UpdateText(table, Join(AssignmentTexts(xs), ", "), returning)) == Some((table, xs))
  {
    hide SetWords, Unwords, Words, UpdateText, ReadAssignments;
    var tail := ["WHERE", "id", "=", "$1", "RETURNING"];
    var extra := Words(returning);
    SetWordsOneWord(xs);
    SetListWords(xs);
    UpdateTextWords(table, SetWords(xs), Join(AssignmentTexts(xs), ", "), returning);
    assert UpdateWords(table, SetWords(xs)) + extra == ["UPDATE", table, "SET"] + SetWords(xs) + (tail + extra);
    AfterThree(["UPDATE", table, "SET"], SetWords(xs), tail + extra);
    ReadSetWords(xs, tail + extra);
    assert (tail + extra)[..5] == tail;
  }

  lemma DropFirstSpace(s: string)
    ensures Words(" " + s) == [""] + Words(s)
  {
    assert (" " + s)[1..] == s;
  }

  lemma {:induction false} WordsOfLine(ws: seq<string>, s: string)
    requires forall w :: w in ws ==> OneWord(w)
    ensures Words(Unwords(ws) + (" " + s)) == [""] + ws + Words(s)
  {
    hide Words;
    if ws == [] {
      assert Unwords(ws) + (" " + s) == " " + s;
      DropFirstSpace(s);
    } else {
      var rest := Unwords(ws[1..]) + (" " + s);
      WordsOfLine(ws[1..], s);
      WordsOfWordThen(ws[0], rest);
      assert Unwords(ws) + (" " + s) == " " + (ws[0] + rest);
      DropFirstSpace(ws[0] + rest);
      assert ws[0] + "" == ws[0];
      assert [ws[0]] + ws[1..] == ws;
    }
  }

  /** An empty SET list is a syntax error. */
  lemma EmptySetListRejected(table: string, returning: string)
    requires OneWord(table)
    ensures ReadUpdate(UpdateText(table, "", returning)) == None
  {
    hide Words, UpdateText;
    assert Unwords([""]) == " " + "" by { UnwordsOfOne(""); }
    UpdateTextWords(table, [""], "", returning);
    assert Words(UpdateText(table, "", returning))[3..][1] == "WHERE";
  }

  // ----- effect -----

  /** Applies the assignments to a row. `write` writes one column and refuses unknown columns and
      values of the wrong type. All values are parameters, so the order does not matter for them. */
  function Assign<R>(row: R, xs: seq<Assignment>, params: seq<Value>,
      write: (R, string, Value) -> Option<R>): Option<R> {
    if xs == [] then Some(row)
    else if !(1 <= xs[0].parameter <= |params|) then None
    else
      var next :- write(row, xs[0].column, params[xs[0].parameter - 1]);
      Assign(next, xs[1..], params, write)
  }

  /** What an UPDATE does to the row whose id is the first parameter; None is an SQL error. */
  function ExecuteUpdate<R>(table: string, text: string, params: seq<Value>, row: R,
      write: (R, string, Value) -> Option<R>): Option<R> {
    var read := ReadUpdate(text);
    if read.Some? && read.value.0 == table then Assign(row, read.value.1, params, write) else None
  }
}
