/** A small SQL evaluator over in-memory rows: three-valued conditions, ILIKE, = ANY,
    ORDER BY, LIMIT and OFFSET, run on clause text and a list of parameters. */
module SqlEval {
  import opened Wrappers
  import opened SqlText
  import Like

  /** Column values and bound parameters. Arrays occur only as parameters of `= ANY`. */
  datatype Value = Null | Int(i: int) | Text(s: string) | IntArray(ints: seq<int>) | TextArray(texts: seq<string>)

  // ----- values -----

  /** Lexicographic order by code point. */
  predicate TextLeq(a: string, b: string) {
    a == "" || (b != "" && (a[0] < b[0] || (a[0] == b[0] && TextLeq(a[1..], b[1..]))))
  }

  function Rank(v: Value): nat {
    match v
    case Int(_) => 0
    case Text(_) => 1
    case IntArray(_) => 2
    case TextArray(_) => 3
    case Null => 4
  }

  /** Sorting order of column values. NULL is the greatest: last in ascending order, first in
      descending order. */
  predicate Leq(a: Value, b: Value) {
    if Rank(a) != Rank(b) then Rank(a) < Rank(b)
    else if a.Int? then a.i <= b.i
    else if a.Text? then TextLeq(a.s, b.s)
    else true
  }

  function Holds(c: Comparison, leq: bool, geq: bool): bool {
    match c
    case Equal => leq && geq
    case NotEqual => !(leq && geq)
    case Greater => !leq
    case Less => !geq
    case GreaterOrEqual => geq
    case LessOrEqual => leq
  }

  /** A comparison of two values; None is SQL's UNKNOWN. */
  function CompareValues(c: Comparison, a: Value, b: Value): Option<bool> {
    if (a.Int? && b.Int?) || (a.Text? && b.Text?) then Some(Holds(c, Leq(a, b), Leq(b, a))) else None
  }

  function InArray(a: Value, choices: Value): Option<bool> {
    if a.Int? && choices.IntArray? then Some(a.i in choices.ints)
    else if a.Text? && choices.TextArray? then Some(a.s in choices.texts)
    else None
  }

  function IlikeContains(fold: char -> char, a: Value, p: Value): Option<bool> {
    if a.Text? && p.Text? then Some(Like.Ilike(fold, a.s, Like.ContainsPattern(p.s))) else None
  }

  // ----- conditions -----

  function Parameter(k: nat, params: seq<Value>): Value {
    if 1 <= k <= |params| then params[k - 1] else Null
  }

  function EvalCondition<T>(fold: char -> char, c: SqlCondition, params: seq<Value>,
                            column: (T, string) -> Value, row: T): Option<bool> {
    var v := column(row, c.column);
    var p := Parameter(c.parameter, params);
    match c
    case Compare(_, comparison, _) => CompareValues(comparison, v, p)
    case Contains(_, _) => IlikeContains(fold, v, p)
    case AnyOf(_, _) => InArray(v, p)
  }

  /** SQL's AND. */
  function And(a: Option<bool>, b: Option<bool>): Option<bool> {
    if a == Some(false) || b == Some(false) then Some(false)
    else if a == Some(true) && b == Some(true) then Some(true)
    else None
  }

  function EvalWhere<T>(fold: char -> char, cs: seq<SqlCondition>, params: seq<Value>,
                        column: (T, string) -> Value, row: T): Option<bool> {
    if cs == [] then Some(true)
    else And(EvalCondition(fold, cs[0], params, column, row), EvalWhere(fold, cs[1..], params, column, row))
  }

  function Filter<T>(keep: T -> bool, rows: seq<T>): seq<T> {
    if rows == [] then []
    else (if keep(rows[0]) then [rows[0]] else []) + Filter(keep, rows[1..])
  }

  // ----- order -----

  predicate RowLeq<T>(keys: seq<SortKey>, column: (T, string) -> Value, a: T, b: T) {
    if keys == [] then true
    else
      var x, y := column(a, keys[0].column), column(b, keys[0].column);
      var (low, high) := if keys[0].ascending then (x, y) else (y, x);
      Leq(low, high) && (!Leq(high, low) || RowLeq(keys[1..], column, a, b))
  }

  ghost predicate SortedRows<T>(keys: seq<SortKey>, column: (T, string) -> Value, rows: seq<T>) {
    forall i, j :: 0 <= i < j < |rows| ==> RowLeq(keys, column, rows[i], rows[j])
  }

  function Min(a: nat, b: nat): nat { if a < b then a else b }

  function Slice<T>(rows: seq<T>, offset: nat, limit: nat): seq<T> {
    rows[Min(offset, |rows|)..Min(offset + limit, |rows|)]
  }

  /** LIMIT and OFFSET; an absent limit is no limit. */
  function Window<T>(rows: seq<T>, limit: Option<nat>, offset: Option<nat>): seq<T> {
    var start := offset.GetOr(0);
    if limit.Some? then Slice(rows, start, limit.value) else rows[Min(start, |rows|)..]
  }

  // ----- statements -----

  /** The value of a LIMIT or OFFSET parameter; None is a run-time error (not an integer, or
      negative). */
  function Count(parameter: Option<nat>, params: seq<Value>): Option<Option<nat>> {
    if parameter.None? then Some(None)
    else
      var v := Parameter(parameter.value, params);
      if v.Int? && v.i >= 0 then Some(Some(v.i)) else None
  }

  predicate ParametersBound(c: Clause, n: nat) {
    && (forall i :: 0 <= i < |c.conditions| ==> 1 <= c.conditions[i].parameter <= n)
    && (c.limit.Some? ==> 1 <= c.limit.value <= n)
    && (c.offset.Some? ==> 1 <= c.offset.value <= n)
  }

  /** What a SELECT with this clause text may return: any ordering of the rows that satisfy the
      WHERE part, sorted by the ORDER BY keys and cut by LIMIT and OFFSET. SQL leaves the order
      of ties open, so this is a relation. No result is allowed if the statement is in error. */
  ghost predicate SelectYields<T(!new)>(fold: char -> char, text: string, params: seq<Value>, table: seq<T>,
                                      column: (T, string) -> Value, out: seq<T>) {
    var clause := ReadClause(text);
    && clause.Some?
    && ParametersBound(clause.value, |params|)
    && Count(clause.value.limit, params).Some?
    && Count(clause.value.offset, params).Some?
    && exists sorted: seq<T> ::
         && multiset(sorted) == multiset(Filter(row => EvalWhere(fold, clause.value.conditions, params, column, row)
           == Some(true), table))
         && SortedRows(clause.value.sortKeys, column, sorted)
         && out == Window(sorted, Count(clause.value.limit, params).value, Count(clause.value.offset, params).value)
  }

  /** One engine that runs such a statement; None is a failed statement. */
  method ExecuteSelect<T(!new)>(fold: char -> char, text: string, params: seq<Value>, table: seq<T>,
                                column: (T, string) -> Value) returns (out: Option<seq<T>>)
    ensures out.Some? ==> SelectYields(fold, text, params, table, column, out.value)
    ensures out.None? ==> forall rows :: !SelectYields(fold, text, params, table, column, rows)
  {
    hide ReadClause, Filter, Sort, EvalWhere, SortedRows, Window, ParametersBound, Count;
    var clause := ReadClause(text);
    if clause.None? || !ParametersBound(clause.value, |params|) { return None; }
    var limit, offset := Count(clause.value.limit, params), Count(clause.value.offset, params);
    if limit.None? || offset.None? { return None; }
    var kept := Filter(row => EvalWhere(fold, clause.value.conditions, params, column, row) == Some(true), table);
    SortSorts(clause.value.sortKeys, column, kept);
    out := Some(Window(Sort(clause.value.sortKeys, column, kept), limit.value, offset.value));
  }

  // ----- facts about order and filtering -----

  lemma {:induction false} TextLeqTotal(a: string, b: string)
    ensures TextLeq(a, b) || TextLeq(b, a)
  {
    if a != "" && b != "" && a[0] == b[0] { TextLeqTotal(a[1..], b[1..]); }
  }

  lemma {:induction false} TextLeqTransitive(a: string, b: string, c: string)
    requires TextLeq(a, b) && TextLeq(b, c)
    ensures TextLeq(a, c)
  {
    if a != "" && a[0] == b[0] && b[0] == c[0] { TextLeqTransitive(a[1..], b[1..], c[1..]); }
  }

  lemma LeqTotal(a: Value, b: Value)
    ensures Leq(a, b) || Leq(b, a)
  {
    if a.Text? && b.Text? { TextLeqTotal(a.s, b.s); }
  }

  lemma LeqTransitive(a: Value, b: Value, c: Value)
    requires Leq(a, b) && Leq(b, c)
    ensures Leq(a, c)
  {
    if a.Text? && b.Text? && c.Text? { TextLeqTransitive(a.s, b.s, c.s); }
  }

  lemma {:induction false} TextLeqAntisymmetric(a: string, b: string)
    requires TextLeq(a, b) && TextLeq(b, a)
    ensures a == b
  {
    if a != "" && b != "" { TextLeqAntisymmetric(a[1..], b[1..]); }
  }

  lemma {:induction false} TextLeqReflexive(a: string)
    ensures TextLeq(a, a)
  {
    if a != "" { TextLeqReflexive(a[1..]); }
  }

  /** Values of one column: of one type, or NULL. */
  predicate SameType(a: Value, b: Value) { a.Null? || b.Null? || (a.Int? && b.Int?) || (a.Text? && b.Text?) }

  /** `a` comes strictly before `b` in ascending order: the smaller number, the text that is smaller
      where they first differ, anything before NULL. */
  ghost predicate Precedes(a: Value, b: Value) {
    || (a.Int? && b.Int? && a.i < b.i)
    || (a.Text? && b.Text? && TextPrecedes(a.s, b.s))
    || (!a.Null? && b.Null?)
  }

  ghost predicate TextPrecedes(a: string, b: string) {
    exists n: nat ::
      n <= |a| && n <= |b| && a[..n] == b[..n] && n < |b| && (n == |a| || a[n] < b[n])
  }

  lemma TailPrecedes(a: string, b: string)
    requires a != "" && b != "" && a[0] == b[0]
    ensures TextPrecedes(a, b) <==> TextPrecedes(a[1..], b[1..])
  {
    var x, y := a[1..], b[1..];
    if TextPrecedes(x, y) {
      var n: nat :| n <= |x| && n <= |y| && x[..n] == y[..n] && n < |y| && (n == |x| || x[n] < y[n]);
      assert a[..n + 1] == [a[0]] + x[..n] && b[..n + 1] == [b[0]] + y[..n];
    }
    if TextPrecedes(a, b) {
      var n: nat :| n <= |a| && n <= |b| && a[..n] == b[..n] && n < |b| && (n == |a| || a[n] < b[n]);
      assert x[..n - 1] == a[..n][1..] && y[..n - 1] == b[..n][1..];
    }
  }

  lemma {:induction false} TextLeqExactly(a: string, b: string)
    ensures TextLeq(a, b) <==> a == b || TextPrecedes(a, b)
  {
    if a == "" {
      if b != "" { assert a[..0] == b[..0]; }
    } else if b != "" && a[0] == b[0] {
      TextLeqExactly(a[1..], b[1..]);
      TailPrecedes(a, b);
      assert a == [a[0]] + a[1..] && b == [b[0]] + b[1..];
    } else if b != "" {
      HeadsDiffer(a, b);
    }
  }

  lemma HeadsDiffer(a: string, b: string)
    requires a != "" && b != "" && a[0] != b[0]
    ensures a != b && (TextPrecedes(a, b) <==> a[0] < b[0])
  {
    if a[0] < b[0] { assert a[..0] == b[..0]; }
  }

  lemma LeqExactly(a: Value, b: Value)
    requires SameType(a, b)
    ensures Leq(a, b) <==> a == b || Precedes(a, b)
    ensures Leq(a, b) && Leq(b, a) <==> a == b
  {
    hide TextLeq, TextPrecedes;
    if a.Text? && b.Text? {
      TextLeqExactly(a.s, b.s);
      TextLeqReflexive(a.s);
      if TextLeq(a.s, b.s) && TextLeq(b.s, a.s) { TextLeqAntisymmetric(a.s, b.s); }
    }
  }

  /** A comparison says of numbers and texts what its sign says, and of NULL nothing. */
  lemma ComparesExactly(c: Comparison, a: Value, b: Value)
    requires SameType(a, b)
    ensures CompareValues(c, a, b).Some? <==> !a.Null? && !b.Null?
    ensures CompareValues(c, a, b).Some? ==>
      (CompareValues(c, a, b).value <==>
        match c
        case Equal => a == b
        case NotEqual => a != b
        case Greater => Precedes(b, a)
        case Less => Precedes(a, b)
        case GreaterOrEqual => a == b || Precedes(b, a)
        case LessOrEqual => a == b || Precedes(a, b))
  {
    hide Leq, TextLeq, TextPrecedes;
    LeqExactly(a, b);
    LeqExactly(b, a);
    if !a.Null? && !b.Null? { LeqTotal(a, b); }
    PrecedesStrictly(a, b);
  }

  lemma PrecedesStrictly(a: Value, b: Value)
    requires SameType(a, b)
    ensures !(Precedes(a, b) && a == b) && !(Precedes(a, b) && Precedes(b, a))
  {
  }

  ghost predicate Agree<T>(keys: seq<SortKey>, column: (T, string) -> Value, a: T, b: T) {
    forall i :: 0 <= i < |keys| ==> column(a, keys[i].column) == column(b, keys[i].column)
  }

  /** If the keys before key i do not tell the rows apart, key i does not put `b` before `a`. */
  ghost predicate KeyAllows<T>(keys: seq<SortKey>, column: (T, string) -> Value, a: T, b: T, i: nat)
    requires i < |keys|
  {
    var x, y := column(a, keys[i].column), column(b, keys[i].column);
    Agree(keys[..i], column, a, b) ==> x == y || if keys[i].ascending then Precedes(x, y) else Precedes(y, x)
  }

  lemma KeyAllowsInTail<T>(keys: seq<SortKey>, column: (T, string) -> Value, a: T, b: T, i: nat)
    requires 0 < i < |keys|
    ensures Agree(keys[..i], column, a, b) <==>
      column(a, keys[0].column) == column(b, keys[0].column) && Agree(keys[1..][..i - 1], column, a, b)
  {
    var front, rest := keys[..i], keys[1..][..i - 1];
    assert front[0] == keys[0] && forall j :: 0 <= j < |rest| ==> rest[j] == front[j + 1];
    assert forall j :: 0 < j < |front| ==> front[j] == rest[j - 1];
  }

  /** Two rows are in the order of the keys exactly when they agree on all of them, or the first key
      on which they differ puts the one before the other in its direction. */
  lemma {:induction false} RowLeqExactly<T>(keys: seq<SortKey>, column: (T, string) -> Value, a: T, b: T)
    requires forall i :: 0 <= i < |keys| ==> SameType(column(a, keys[i].column), column(b, keys[i].column))
    ensures RowLeq(keys, column, a, b) <==> forall i :: 0 <= i < |keys| ==> KeyAllows(keys, column, a, b, i)
    decreases |keys|
  {
    hide Leq, Precedes, Agree;
    if keys != [] {
      var x, y, tail := column(a, keys[0].column), column(b, keys[0].column), keys[1..];
      LeqExactly(x, y);
      LeqExactly(y, x);
      RowLeqExactly(tail, column, a, b);
      forall i | 0 < i < |keys|
        ensures Agree(keys[..i], column, a, b) <==> x == y && Agree(tail[..i - 1], column, a, b)
      {
        KeyAllowsInTail(keys, column, a, b, i);
      }
      assert Agree(keys[..0], column, a, b) by { NoKeys(keys[..0], column, a, b); }
      assert KeyAllows(keys, column, a, b, 0)
        <==> x == y || if keys[0].ascending then Precedes(x, y) else Precedes(y, x);
      forall i | 0 < i < |keys|
        ensures KeyAllows(keys, column, a, b, i) <==> x != y || KeyAllows(tail, column, a, b, i - 1)
      {
        assert tail[i - 1] == keys[i];
      }
      if forall i :: 0 <= i < |keys| ==> KeyAllows(keys, column, a, b, i) {
        if x == y {
          forall i | 0 <= i < |tail| ensures KeyAllows(tail, column, a, b, i) {
            assert KeyAllows(keys, column, a, b, i + 1);
          }
        }
      }
    }
  }

  lemma NoKeys<T>(keys: seq<SortKey>, column: (T, string) -> Value, a: T, b: T)
    requires keys == []
    ensures Agree(keys, column, a, b)
  {
  }

  lemma {:induction false} RowLeqTotal<T>(keys: seq<SortKey>, column: (T, string) -> Value, a: T, b: T)
    ensures RowLeq(keys, column, a, b) || RowLeq(keys, column, b, a)
  {
    if keys != [] {
      LeqTotal(column(a, keys[0].column), column(b, keys[0].column));
      RowLeqTotal(keys[1..], column, a, b);
    }
  }

  lemma {:induction false} RowLeqTransitive<T>(keys: seq<SortKey>, column: (T, string) -> Value, a: T, b: T, c: T)
    requires RowLeq(keys, column, a, b) && RowLeq(keys, column, b, c)
    ensures RowLeq(keys, column, a, c)
  {
    if keys != [] {
      var x, y, z := column(a, keys[0].column), column(b, keys[0].column), column(c, keys[0].column);
      if !keys[0].ascending { x, z := z, x; }
      LeqTransitive(x, y, z);
      if Leq(z, x) {
        LeqTransitive(z, x, y);
        LeqTransitive(y, z, x);
        RowLeqTransitive(keys[1..], column, a, b, c);
      }
    }
  }

  function Insert<T>(keys: seq<SortKey>, column: (T, string) -> Value, x: T, rows: seq<T>): seq<T> {
    if rows == [] then [x]
    else if RowLeq(keys, column, x, rows[0]) then [x] + rows
    else [rows[0]] + Insert(keys, column, x, rows[1..])
  }

  /** The stable sort: one admissible order. */
  function Sort<T>(keys: seq<SortKey>, column: (T, string) -> Value, rows: seq<T>): seq<T> {
    if rows == [] then [] else Insert(keys, column, rows[0], Sort(keys, column, rows[1..]))
  }

  lemma {:induction false} InsertSorts<T>(keys: seq<SortKey>, column: (T, string) -> Value, x: T, rows: seq<T>)
    requires SortedRows(keys, column, rows)
    ensures SortedRows(keys, column, Insert(keys, column, x, rows))
    ensures multiset(Insert(keys, column, x, rows)) == multiset{x} + multiset(rows)
  {
    if rows != [] {
      assert rows == [rows[0]] + rows[1..];
      if RowLeq(keys, column, x, rows[0]) {
        forall j | 0 <= j < |rows| ensures RowLeq(keys, column, x, rows[j]) {
          if j > 0 { RowLeqTransitive(keys, column, x, rows[0], rows[j]); }
        }
      } else {
        InsertSorts(keys, column, x, rows[1..]);
        RowLeqTotal(keys, column, x, rows[0]);
        var tail := Insert(keys, column, x, rows[1..]);
        forall j | 0 <= j < |tail| ensures RowLeq(keys, column, rows[0], tail[j]) {
          assert tail[j] in multiset(tail);
          assert tail[j] == x || tail[j] in rows[1..];
        }
      }
    }
  }

  lemma {:induction false} SortSorts<T>(keys: seq<SortKey>, column: (T, string) -> Value, rows: seq<T>)
    ensures SortedRows(keys, column, Sort(keys, column, rows))
    ensures multiset(Sort(keys, column, rows)) == multiset(rows)
  {
    if rows != [] {
      SortSorts(keys, column, rows[1..]);
      InsertSorts(keys, column, rows[0], Sort(keys, column, rows[1..]));
      assert rows == [rows[0]] + rows[1..];
    }
  }

  /** The keys tell any two different rows apart. */
  ghost predicate KeysDistinguish<T(!new)>(keys: seq<SortKey>, column: (T, string) -> Value, rows: multiset<T>) {
    forall a, b :: a in rows && b in rows && RowLeq(keys, column, a, b) && RowLeq(keys, column, b, a) ==> a == b
  }

  /** When the keys distinguish rows, there is only one sorted order. */
  lemma {:induction false} SortedOrderUnique<T(!new)>(keys: seq<SortKey>, column: (T, string) -> Value, a: seq<T>,
      b: seq<T>)
    requires KeysDistinguish(keys, column, multiset(a))
    requires SortedRows(keys, column, a) && SortedRows(keys, column, b)
    requires multiset(a) == multiset(b)
    ensures a == b
    decreases |a|
  {
    hide *;
    SameLength(a, b);
    if a != [] {
      SameHead(keys, column, a, b);
      SortedTail(keys, column, a);
      SortedTail(keys, column, b);
      SortedOrderUnique(keys, column, a[1..], b[1..]);
      SplitHead(a);
      SplitHead(b);
    }
  }

  lemma SameLength<T>(a: seq<T>, b: seq<T>)
    requires multiset(a) == multiset(b)
    ensures |a| == |b|
  {
    assert |multiset(a)| == |a| && |multiset(b)| == |b|;
  }

  lemma SplitHead<T>(a: seq<T>)
    requires a != []
    ensures a == [a[0]] + a[1..]
  {
  }

  lemma SortedTail<T(!new)>(keys: seq<SortKey>, column: (T, string) -> Value, a: seq<T>)
    requires a != [] && SortedRows(keys, column, a)
    ensures SortedRows(keys, column, a[1..])
    ensures multiset(a[1..]) == multiset(a) - multiset{a[0]}
    ensures KeysDistinguish(keys, column, multiset(a)) ==> KeysDistinguish(keys, column, multiset(a[1..]))
  {
    hide RowLeq;
    assert a == [a[0]] + a[1..];
    assert multiset(a) == multiset{a[0]} + multiset(a[1..]);
  }

  lemma SameHead<T(!new)>(keys: seq<SortKey>, column: (T, string) -> Value, a: seq<T>, b: seq<T>)
    requires a != [] && b != []
    requires KeysDistinguish(keys, column, multiset(a))
    requires SortedRows(keys, column, a) && SortedRows(keys, column, b)
    requires multiset(a) == multiset(b)
    ensures a[0] == b[0]
  {
    assert b[0] in multiset(b) && a[0] in multiset(a);
    SortedHeadLeast(keys, column, a, b[0]);
    SortedHeadLeast(keys, column, b, a[0]);
  }

  lemma SortedHeadLeast<T>(keys: seq<SortKey>, column: (T, string) -> Value, rows: seq<T>, x: T)
    requires rows != [] && SortedRows(keys, column, rows) && x in rows
    ensures RowLeq(keys, column, rows[0], x)
  {
    var i :| 0 <= i < |rows| && rows[i] == x;
    if i == 0 { RowLeqTotal(keys, column, x, x); }
  }

  /** WHERE keeps a row exactly when every condition is true of it; an UNKNOWN condition drops it. */
  lemma {:induction false} WhereKeepsExactly<T>(fold: char -> char, cs: seq<SqlCondition>, params: seq<Value>,
                                                column: (T, string) -> Value, row: T)
    ensures EvalWhere(fold, cs, params, column, row) == Some(true)
      <==> forall i :: 0 <= i < |cs| ==> EvalCondition(fold, cs[i], params, column, row) == Some(true)
  {
    if cs != [] {
      WhereKeepsExactly(fold, cs[1..], params, column, row);
      assert forall i :: 1 <= i < |cs| ==> cs[i] == cs[1..][i - 1];
    }
  }

  lemma {:induction false} FilterCongruent<T>(p: T -> bool, q: T -> bool, rows: seq<T>)
    requires forall i :: 0 <= i < |rows| ==> p(rows[i]) == q(rows[i])
    ensures Filter(p, rows) == Filter(q, rows)
  {
    if rows != [] {
      assert forall i :: 0 <= i < |rows[1..]| ==> rows[1..][i] == rows[i + 1];
      FilterCongruent(p, q, rows[1..]);
    }
  }

  lemma {:induction false} FilterMultiset<T>(p: T -> bool, rows: seq<T>, x: T)
    ensures multiset(Filter(p, rows))[x] == if p(x) then multiset(rows)[x] else 0
  {
    if rows != [] {
      FilterMultiset(p, rows[1..], x);
      assert rows == [rows[0]] + rows[1..];
    }
  }
}
