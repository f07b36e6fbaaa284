/**
 * How far the parser of src/frontend/parser.cpp looks ahead: what it reads, or where it stops, depends
 * on the symbols it consumes and on the next one.
 */
module Lookahead {
  import opened Prelude
  import opened Ast
  import opened Tokens
  import opened Numbers
  import opened ParserSpec
  import opened Grammar

  // ----- what is read depends on the symbols consumed and on one more -----

  /** `a` is what is left of `ts` after some symbols. */
  ghost predicate Tail(a: seq<Symbol>, ts: seq<Symbol>)
    decreases |ts|
  {
    a == ts || (ts != [] && Tail(a, ts[1..]))
  }

  /**
   * What is before `a` in `ts` is what is before `b` in `us`, and `a` and `b` start with the same
   * symbol or are both empty.
   */
  ghost predicate Cut(ts: seq<Symbol>, us: seq<Symbol>, a: seq<Symbol>, b: seq<Symbol>)
    decreases |ts|
  {
    if |a| < |ts| then us != [] && ts[0] == us[0] && Cut(ts[1..], us[1..], a, b)
    else ts == a && us == b && (a == [] <==> b == []) && (a != [] ==> a[0] == b[0])
  }

  /** What is left of `us` after as many symbols as `ts` has before `mid`. */
  ghost function After(us: seq<Symbol>, ts: seq<Symbol>, mid: seq<Symbol>): seq<Symbol>
    decreases |ts|
  {
    if |mid| < |ts| && us != [] then After(us[1..], ts[1..], mid) else us
  }

  /** The same outcome with something else left. */
  ghost function WithRest<T>(r: Parsed<T>, rest: seq<Symbol>): Parsed<T> {
    match r
    case Parsed(value, _) => Parsed(value, rest)
    case Stuck(_) => Stuck(rest)
  }

  lemma {:induction false} TailIsSuffix(a: seq<Symbol>, ts: seq<Symbol>)
    requires Tail(a, ts)
    ensures |a| <= |ts| && a == ts[|ts| - |a|..]
    decreases |ts|
  {
    if a != ts {
      TailIsSuffix(a, ts[1..]);
    }
  }

  lemma {:induction false} CutOfFronts(ts: seq<Symbol>, us: seq<Symbol>, n: nat)
    requires n < |ts| && n < |us| && forall i | 0 <= i <= n :: ts[i] == us[i]
    ensures Cut(ts, us, ts[n..], us[n..])
    decreases n
  {
    if n > 0 {
      CutOfFronts(ts[1..], us[1..], n - 1);
      assert ts[n..] == ts[1..][n - 1..] && us[n..] == us[1..][n - 1..];
    }
  }

  lemma {:induction false} Between(ts: seq<Symbol>, us: seq<Symbol>, mid: seq<Symbol>, a: seq<Symbol>, b: seq<Symbol>)
    requires Tail(mid, ts) && Tail(a, mid)
    ensures Tail(a, ts)
    ensures Cut(ts, us, a, b) ==> Cut(ts, us, mid, After(us, ts, mid)) && Cut(mid, After(us, ts, mid), a, b)
    decreases |ts|
  {
    TailIsSuffix(mid, ts);
    TailIsSuffix(a, mid);
    if mid != ts {
      TailIsSuffix(mid, ts[1..]);
      Between(ts[1..], if us != [] then us[1..] else us, mid, a, b);
    } else if Cut(ts, us, a, b) {
      Ahead(ts, us, a, b);
    }
  }

  /** The first symbols are the same. */
  lemma Ahead(ts: seq<Symbol>, us: seq<Symbol>, a: seq<Symbol>, b: seq<Symbol>)
    requires Cut(ts, us, a, b)
    ensures Kind(ts) == Kind(us)
    ensures ts == [] <==> us == []
    ensures ts != [] ==> ts[0] == us[0] && After(us, ts, ts[1..]) == us[1..]
    ensures a == ts ==> b == us
  {
    if ts != [] {
      assert After(us[1..], ts[1..], ts[1..]) == us[1..];
    }
  }

  lemma TailsOf(ts: seq<Symbol>)
    ensures Tail(ts, ts) && (ts != [] ==> Tail(ts[1..], ts))
  {
  }

  lemma OneRead(ts: seq<Symbol>, us: seq<Symbol>, b: seq<Symbol>)
    requires ts != [] && Cut(ts, us, ts[1..], b)
    ensures us != [] && us[0] == ts[0] && b == us[1..]
  {
    assert Cut(ts[1..], us[1..], ts[1..], b);
  }

  lemma {:induction false} OrLocal(ts: seq<Symbol>, us: seq<Symbol>, b: seq<Symbol>)
    ensures Tail(ParseOr(ts).rest, ts)
    ensures Cut(ts, us, ParseOr(ts).rest, b) ==> ParseOr(us) == WithRest(ParseOr(ts), b)
    decreases |ts|, 4
  {
    hide ParseAnd, OrTail, Cut, Tail, After;
    var first := ParseAnd(ts);
    if first.Stuck? {
      AndLocal(ts, us, b);
    } else {
      var mid := After(us, ts, first.rest);
      AndLocal(ts, us, mid);
      OrTailLocal(first.value, first.rest, mid, b);
      Between(ts, us, first.rest, ParseOr(ts).rest, b);
    }
  }

  lemma {:induction false} OrTailLocal(left: Expression, ts: seq<Symbol>, us: seq<Symbol>, b: seq<Symbol>)
    ensures Tail(OrTail(left, ts).rest, ts)
    ensures Cut(ts, us, OrTail(left, ts).rest, b) ==> OrTail(left, us) == WithRest(OrTail(left, ts), b)
    decreases |ts|, 0
  {
    hide ParseAnd, Cut, Tail, After;
    var a := OrTail(left, ts).rest;
    TailsOf(ts);
    if Kind(ts) == TokenKind.Or {
      var ts', us' := ts[1..], After(us, ts, ts[1..]);
      var next := ParseAnd(ts');
      if next.Stuck? {
        AndLocal(ts', us', b);
      } else {
        var mid := After(us', ts', next.rest);
        AndLocal(ts', us', mid);
        OrTailLocal(Binary(BinaryOperator.Or, left, next.value), next.rest, mid, b);
        Between(ts', us', next.rest, a, b);
      }
      Between(ts, us, ts', a, b);
    }
    if Cut(ts, us, a, b) {
      Ahead(ts, us, a, b);
    }
  }

  lemma {:induction false} AndLocal(ts: seq<Symbol>, us: seq<Symbol>, b: seq<Symbol>)
    ensures Tail(ParseAnd(ts).rest, ts)
    ensures Cut(ts, us, ParseAnd(ts).rest, b) ==> ParseAnd(us) == WithRest(ParseAnd(ts), b)
    decreases |ts|, 3
  {
    hide ParseComparison, AndTail, Cut, Tail, After;
    var first := ParseComparison(ts);
    if first.Stuck? {
      ComparisonLocal(ts, us, b);
    } else {
      var mid := After(us, ts, first.rest);
      ComparisonLocal(ts, us, mid);
      AndTailLocal(first.value, first.rest, mid, b);
      Between(ts, us, first.rest, ParseAnd(ts).rest, b);
    }
  }

  lemma {:induction false} AndTailLocal(left: Expression, ts: seq<Symbol>, us: seq<Symbol>, b: seq<Symbol>)
    ensures Tail(AndTail(left, ts).rest, ts)
    ensures Cut(ts, us, AndTail(left, ts).rest, b) ==> AndTail(left, us) == WithRest(AndTail(left, ts), b)
    decreases |ts|, 0
  {
    hide ParseComparison, Cut, Tail, After;
    var a := AndTail(left, ts).rest;
    TailsOf(ts);
    if Kind(ts) == TokenKind.And {
      var ts', us' := ts[1..], After(us, ts, ts[1..]);
      var next := ParseComparison(ts');
      if next.Stuck? {
        ComparisonLocal(ts', us', b);
      } else {
        var mid := After(us', ts', next.rest);
        ComparisonLocal(ts', us', mid);
        AndTailLocal(Binary(BinaryOperator.And, left, next.value), next.rest, mid, b);
        Between(ts', us', next.rest, a, b);
      }
      Between(ts, us, ts', a, b);
    }
    if Cut(ts, us, a, b) {
      Ahead(ts, us, a, b);
    }
  }

  lemma {:induction false} ComparisonLocal(ts: seq<Symbol>, us: seq<Symbol>, b: seq<Symbol>)
    ensures Tail(ParseComparison(ts).rest, ts)
    ensures Cut(ts, us, ParseComparison(ts).rest, b) ==> ParseComparison(us) == WithRest(ParseComparison(ts), b)
    decreases |ts|, 2
  {
    hide ParsePrimary, Cut, Tail, After, ComparisonOperator;
    var first, a := ParsePrimary(ts), ParseComparison(ts).rest;
    if first.Stuck? {
      PrimaryLocal(ts, us, b);
    } else {
      var rest, mid := first.rest, After(us, ts, first.rest);
      PrimaryLocal(ts, us, mid);
      TailsOf(rest);
      if ComparisonOperator(Kind(rest)).Some? {
        OperatorKinds(Kind(rest));
        PrimaryLocal(rest[1..], After(mid, rest, rest[1..]), b);
        Between(rest, mid, rest[1..], a, b);
      }
      Between(ts, us, rest, a, b);
      if Cut(rest, mid, a, b) {
        Ahead(rest, mid, a, b);
      }
    }
  }

  /** What follows the inner expression of a parenthesis. */
  function ParseParenthesis(e: Expression, ts: seq<Symbol>): Parsed<Expression> {
    if Kind(ts) == RParen then Parsed(e, ts[1..]) else Stuck(ts)
  }

  lemma ParenthesisLocal(e: Expression, ts: seq<Symbol>, us: seq<Symbol>, b: seq<Symbol>)
    ensures Tail(ParseParenthesis(e, ts).rest, ts)
    ensures Cut(ts, us, ParseParenthesis(e, ts).rest, b) ==>
      ParseParenthesis(e, us) == WithRest(ParseParenthesis(e, ts), b)
  {
    hide Cut, Tail, After;
    TailsOf(ts);
    if Cut(ts, us, ParseParenthesis(e, ts).rest, b) {
      Ahead(ts, us, ParseParenthesis(e, ts).rest, b);
      if Kind(ts) == RParen {
        OneRead(ts, us, b);
      }
    }
  }

  lemma PrimaryCases(ts: seq<Symbol>)
    ensures Kind(ts) == LParen ==>
      ParsePrimary(ts) ==
        match ParseOr(ts[1..])
        case Stuck(rest) => Stuck(rest)
        case Parsed(e, rest) => ParseParenthesis(e, rest)
    ensures Kind(ts) != LParen ==>
      ParsePrimary(ts).rest == if ParsePrimary(ts).Parsed? then ts[1..] else ts
  {
    hide ParseOr, ReadInt64;
  }

  lemma {:induction false} PrimaryLocal(ts: seq<Symbol>, us: seq<Symbol>, b: seq<Symbol>)
    ensures Tail(ParsePrimary(ts).rest, ts)
    ensures Cut(ts, us, ParsePrimary(ts).rest, b) ==> ParsePrimary(us) == WithRest(ParsePrimary(ts), b)
    decreases |ts|, 1
  {
    hide ParseOr, ReadInt64, Cut, Tail, After;
    PrimaryCases(ts);
    var a := ParsePrimary(ts).rest;
    if Kind(ts) == LParen {
      hide ParsePrimary, ParseParenthesis;
      PrimaryCases(us);
      TailsOf(ts);
      var ts', us' := ts[1..], After(us, ts, ts[1..]);
      var inner := ParseOr(ts');
      if inner.Stuck? {
        OrLocal(ts', us', b);
      } else {
        var mid := After(us', ts', inner.rest);
        OrLocal(ts', us', mid);
        ParenthesisLocal(inner.value, inner.rest, mid, b);
        Between(ts', us', inner.rest, a, b);
      }
      Between(ts, us, ts', a, b);
      if Cut(ts, us, a, b) {
        Ahead(ts, us, a, b);
      }
    } else {
      TokenLocal(ts, us, b);
    }
  }

  lemma TokenLocal(ts: seq<Symbol>, us: seq<Symbol>, b: seq<Symbol>)
    requires Kind(ts) != LParen
    ensures Tail(ParsePrimary(ts).rest, ts)
    ensures Cut(ts, us, ParsePrimary(ts).rest, b) ==> ParsePrimary(us) == WithRest(ParsePrimary(ts), b)
  {
    hide ReadInt64, Cut, Tail, After;
    PrimaryCases(ts);
    TailsOf(ts);
    if Cut(ts, us, ParsePrimary(ts).rest, b) {
      Ahead(ts, us, ParsePrimary(ts).rest, b);
      if ParsePrimary(ts).Parsed? {
        OneRead(ts, us, b);
      }
    }
  }

  // ----- the same for names, lists and statements -----

  lemma NameLocal(ts: seq<Symbol>, us: seq<Symbol>, b: seq<Symbol>)
    ensures Tail(ParseName(ts).rest, ts)
    ensures Cut(ts, us, ParseName(ts).rest, b) ==> ParseName(us) == WithRest(ParseName(ts), b)
    ensures Tail(ParseColumnReference(ts).rest, ts)
    ensures Cut(ts, us, ParseColumnReference(ts).rest, b) ==>
      ParseColumnReference(us) == WithRest(ParseColumnReference(ts), b)
  {
    hide Cut, Tail;
    TailsOf(ts);
    if Cut(ts, us, ParseName(ts).rest, b) {
      Ahead(ts, us, ParseName(ts).rest, b);
      if Kind(ts) == Identifier {
        OneRead(ts, us, b);
      }
    }
  }

  lemma TableReferenceLocal(ts: seq<Symbol>, us: seq<Symbol>, b: seq<Symbol>)
    ensures Tail(ParseTableReference(ts).rest, ts)
    ensures Cut(ts, us, ParseTableReference(ts).rest, b) ==>
      ParseTableReference(us) == WithRest(ParseTableReference(ts), b)
  {
    hide ParseName, Cut, Tail, After;
    var first, a := ParseName(ts), ParseTableReference(ts).rest;
    if first.Stuck? {
      NameLocal(ts, us, b);
    } else {
      var rest, mid := first.rest, After(us, ts, first.rest);
      NameLocal(ts, us, mid);
      TailsOf(rest);
      if Kind(rest) == Dot {
        NameLocal(rest[1..], After(mid, rest, rest[1..]), b);
        Between(rest, mid, rest[1..], a, b);
      }
      Between(ts, us, rest, a, b);
      if Cut(rest, mid, a, b) {
        Ahead(rest, mid, a, b);
      }
    }
  }

  lemma ColumnTypeLocal(ts: seq<Symbol>, us: seq<Symbol>, b: seq<Symbol>)
    ensures Tail(ParseColumnType(ts).rest, ts)
    ensures Cut(ts, us, ParseColumnType(ts).rest, b) ==> ParseColumnType(us) == WithRest(ParseColumnType(ts), b)
  {
    hide Cut, Tail;
    TailsOf(ts);
    if Cut(ts, us, ParseColumnType(ts).rest, b) {
      Ahead(ts, us, ParseColumnType(ts).rest, b);
      if ParseColumnType(ts).Parsed? {
        OneRead(ts, us, b);
      }
    }
  }

  lemma ColumnDefinitionLocal(ts: seq<Symbol>, us: seq<Symbol>, b: seq<Symbol>)
    ensures Tail(ParseColumnDefinition(ts).rest, ts)
    ensures Cut(ts, us, ParseColumnDefinition(ts).rest, b) ==>
      ParseColumnDefinition(us) == WithRest(ParseColumnDefinition(ts), b)
  {
    hide ParseName, ParseColumnType, Cut, Tail, After;
    var first, a := ParseName(ts), ParseColumnDefinition(ts).rest;
    if first.Stuck? {
      NameLocal(ts, us, b);
    } else {
      var mid := After(us, ts, first.rest);
      NameLocal(ts, us, mid);
      ColumnTypeLocal(first.rest, mid, b);
      Between(ts, us, first.rest, a, b);
    }
  }

  ghost predicate LocalItem<T(!new)>(item: ItemParser<T>) {
    && (forall ts :: Tail(item(ts).rest, ts))
    && forall ts, us, b :: Cut(ts, us, item(ts).rest, b) ==> item(us) == WithRest(item(ts), b)
  }

  lemma NamesLocal()
    ensures LocalItem(ParseColumnReference)
  {
    hide Cut, Tail, ParseColumnReference, WithRest;
    forall ts ensures Tail(ParseColumnReference(ts).rest, ts) {
      NameLocal(ts, ts, ts);
    }
    forall ts, us, b | Cut(ts, us, ParseColumnReference(ts).rest, b)
      ensures ParseColumnReference(us) == WithRest(ParseColumnReference(ts), b)
    {
      NameLocal(ts, us, b);
    }
  }

  lemma DefinitionsLocal()
    ensures LocalItem(ParseColumnDefinition)
  {
    hide Cut, Tail, ParseColumnDefinition, WithRest;
    forall ts ensures Tail(ParseColumnDefinition(ts).rest, ts) {
      ColumnDefinitionLocal(ts, ts, ts);
    }
    forall ts, us, b | Cut(ts, us, ParseColumnDefinition(ts).rest, b)
      ensures ParseColumnDefinition(us) == WithRest(ParseColumnDefinition(ts), b)
    {
      ColumnDefinitionLocal(ts, us, b);
    }
  }

  lemma ValuesLocal()
    ensures LocalItem(ParsePrimary)
  {
    hide Cut, Tail, ParsePrimary, WithRest;
    forall ts ensures Tail(ParsePrimary(ts).rest, ts) {
      PrimaryLocal(ts, ts, ts);
    }
    forall ts, us, b | Cut(ts, us, ParsePrimary(ts).rest, b)
      ensures ParsePrimary(us) == WithRest(ParsePrimary(ts), b)
    {
      PrimaryLocal(ts, us, b);
    }
  }

  lemma {:induction false} ListTailLocal<T(!new)>(item: ItemParser<T>, items: seq<T>, ts: seq<Symbol>,
                                                  us: seq<Symbol>, b: seq<Symbol>)
    requires Shrinks(item) && LocalItem(item)
    ensures Tail(ListTail(item, items, ts).rest, ts)
    ensures Cut(ts, us, ListTail(item, items, ts).rest, b) ==>
      ListTail(item, items, us) == WithRest(ListTail(item, items, ts), b)
    decreases |ts|
  {
    hide Cut, Tail, After;
    var a := ListTail(item, items, ts).rest;
    TailsOf(ts);
    if Kind(ts) == Comma {
      var ts', us' := ts[1..], After(us, ts, ts[1..]);
      var next := item(ts');
      if next.Parsed? {
        var mid := After(us', ts', next.rest);
        ListTailLocal(item, items + [next.value], next.rest, mid, b);
        Between(ts', us', next.rest, a, b);
      }
      Between(ts, us, ts', a, b);
    }
    if Cut(ts, us, a, b) {
      Ahead(ts, us, a, b);
    }
  }

  lemma ListLocal<T(!new)>(item: ItemParser<T>, ts: seq<Symbol>, us: seq<Symbol>, b: seq<Symbol>)
    requires Shrinks(item) && LocalItem(item)
    ensures Tail(ParseList(item, ts).rest, ts)
    ensures Cut(ts, us, ParseList(item, ts).rest, b) ==> ParseList(item, us) == WithRest(ParseList(item, ts), b)
  {
    hide Cut, Tail, After, ListTail;
    var first := item(ts);
    if first.Parsed? {
      var mid := After(us, ts, first.rest);
      ListTailLocal(item, [first.value], first.rest, mid, b);
      Between(ts, us, first.rest, ParseList(item, ts).rest, b);
    }
  }

  lemma FinishLocal(s: Statement, ts: seq<Symbol>, us: seq<Symbol>, b: seq<Symbol>)
    ensures Tail(Finish(s, ts).rest, ts)
    ensures Cut(ts, us, Finish(s, ts).rest, b) ==> Finish(s, us) == WithRest(Finish(s, ts), b)
  {
    hide Cut, Tail, After;
    var a := Finish(s, ts).rest;
    TailsOf(ts);
    if Cut(ts, us, a, b) {
      Ahead(ts, us, a, b);
      if Kind(ts) == Semicolon {
        OneRead(ts, us, b);
        Between(ts, us, ts[1..], a, b);
        Ahead(a, b, a, b);
      }
    }
  }

  lemma FromLocal(selectAll: bool, columns: seq<Expression>, ts: seq<Symbol>, us: seq<Symbol>, b: seq<Symbol>)
    ensures Tail(ParseFrom(selectAll, columns, ts).rest, ts)
    ensures Cut(ts, us, ParseFrom(selectAll, columns, ts).rest, b) ==>
      ParseFrom(selectAll, columns, us) == WithRest(ParseFrom(selectAll, columns, ts), b)
  {
    hide ParseTableReference, ParseOr, Finish, Cut, Tail, After;
    var a := ParseFrom(selectAll, columns, ts).rest;
    TailsOf(ts);
    if Kind(ts) == From {
      var ts', us' := ts[1..], After(us, ts, ts[1..]);
      var table := ParseTableReference(ts');
      if table.Stuck? {
        TableReferenceLocal(ts', us', b);
      } else {
        var mid := After(us', ts', table.rest);
        TableReferenceLocal(ts', us', mid);
        ConditionLocal(selectAll, columns, table.value, table.rest, mid, b);
        Between(ts', us', table.rest, a, b);
      }
      Between(ts, us, ts', a, b);
    }
    if Cut(ts, us, a, b) {
      Ahead(ts, us, a, b);
    }
  }

  /** What `ParseFrom` does after the table. */
  function ParseCondition(selectAll: bool, columns: seq<Expression>, table: TableReference, ts: seq<Symbol>)
    : Parsed<Statement>
  {
    if Kind(ts) != Where then Finish(Statement.Select(selectAll, columns, table, None), ts)
    else
      match ParseOr(ts[1..])
      case Stuck(rest) => Stuck(rest)
      case Parsed(e, rest) => Finish(Statement.Select(selectAll, columns, table, Some(e)), rest)
  }

  lemma ConditionLocal(selectAll: bool, columns: seq<Expression>, table: TableReference, ts: seq<Symbol>,
                       us: seq<Symbol>, b: seq<Symbol>)
    ensures Tail(ParseCondition(selectAll, columns, table, ts).rest, ts)
    ensures Cut(ts, us, ParseCondition(selectAll, columns, table, ts).rest, b) ==>
      ParseCondition(selectAll, columns, table, us) == WithRest(ParseCondition(selectAll, columns, table, ts), b)
  {
    hide ParseOr, Finish, Cut, Tail, After;
    var a := ParseCondition(selectAll, columns, table, ts).rest;
    TailsOf(ts);
    if Kind(ts) != Where {
      FinishLocal(Statement.Select(selectAll, columns, table, None), ts, us, b);
    } else {
      var ts', us' := ts[1..], After(us, ts, ts[1..]);
      var e := ParseOr(ts');
      if e.Stuck? {
        OrLocal(ts', us', b);
      } else {
        var mid := After(us', ts', e.rest);
        OrLocal(ts', us', mid);
        FinishLocal(Statement.Select(selectAll, columns, table, Some(e.value)), e.rest, mid, b);
        Between(ts', us', e.rest, a, b);
      }
      Between(ts, us, ts', a, b);
    }
    if Cut(ts, us, a, b) {
      Ahead(ts, us, a, b);
    }
  }

  /** What follows the list of a CREATE TABLE or an INSERT. */
  function ParseClose(s: Statement, ts: seq<Symbol>): Parsed<Statement> {
    if Kind(ts) != RParen then Stuck(ts) else Finish(s, ts[1..])
  }

  lemma CloseLocal(s: Statement, ts: seq<Symbol>, us: seq<Symbol>, b: seq<Symbol>)
    ensures Tail(ParseClose(s, ts).rest, ts)
    ensures Cut(ts, us, ParseClose(s, ts).rest, b) ==> ParseClose(s, us) == WithRest(ParseClose(s, ts), b)
  {
    hide Finish, Cut, Tail, After;
    var a := ParseClose(s, ts).rest;
    TailsOf(ts);
    if Kind(ts) == RParen {
      FinishLocal(s, ts[1..], After(us, ts, ts[1..]), b);
      Between(ts, us, ts[1..], a, b);
    }
    if Cut(ts, us, a, b) {
      Ahead(ts, us, a, b);
    }
  }

  /** The parenthesised columns of a CREATE TABLE. */
  function ParseColumns(table: TableReference, ts: seq<Symbol>): Parsed<Statement> {
    if Kind(ts) != LParen then Stuck(ts)
    else
      match ParseList(ParseColumnDefinition, ts[1..])
      case Stuck(rest) => Stuck(rest)
      case Parsed(definitions, rest) => ParseClose(CreateTable(table, definitions), rest)
  }

  lemma ColumnsLocal(table: TableReference, ts: seq<Symbol>, us: seq<Symbol>, b: seq<Symbol>)
    ensures Tail(ParseColumns(table, ts).rest, ts)
    ensures Cut(ts, us, ParseColumns(table, ts).rest, b) ==>
      ParseColumns(table, us) == WithRest(ParseColumns(table, ts), b)
  {
    hide ParseList, ParseClose, Cut, Tail, After, LocalItem;
    DefinitionsLocal();
    var a := ParseColumns(table, ts).rest;
    TailsOf(ts);
    if Kind(ts) == LParen {
      var ts', us' := ts[1..], After(us, ts, ts[1..]);
      var list := ParseList(ParseColumnDefinition, ts');
      if list.Stuck? {
        ListLocal(ParseColumnDefinition, ts', us', b);
      } else {
        var mid := After(us', ts', list.rest);
        ListLocal(ParseColumnDefinition, ts', us', mid);
        CloseLocal(CreateTable(table, list.value), list.rest, mid, b);
        Between(ts', us', list.rest, a, b);
      }
      Between(ts, us, ts', a, b);
    }
    if Cut(ts, us, a, b) {
      Ahead(ts, us, a, b);
    }
  }

  lemma CreateTableLocal(ts: seq<Symbol>, us: seq<Symbol>, b: seq<Symbol>)
    ensures Tail(ParseCreateTable(ts).rest, ts)
    ensures Cut(ts, us, ParseCreateTable(ts).rest, b) ==> ParseCreateTable(us) == WithRest(ParseCreateTable(ts), b)
  {
    hide ParseTableReference, ParseList, Finish, Cut, Tail, After;
    var table, a := ParseTableReference(ts), ParseCreateTable(ts).rest;
    if table.Stuck? {
      TableReferenceLocal(ts, us, b);
    } else {
      var mid := After(us, ts, table.rest);
      TableReferenceLocal(ts, us, mid);
      ColumnsLocal(table.value, table.rest, mid, b);
      Between(ts, us, table.rest, a, b);
    }
  }

  /** A new schema or database. */
  function ParseNew(database: bool, ts: seq<Symbol>): Parsed<Statement> {
    match ParseName(ts)
    case Stuck(rest) => Stuck(rest)
    case Parsed(name, rest) => Finish(if database then CreateDatabase(name) else CreateSchema(name), rest)
  }

  lemma NewLocal(database: bool, ts: seq<Symbol>, us: seq<Symbol>, b: seq<Symbol>)
    ensures Tail(ParseNew(database, ts).rest, ts)
    ensures Cut(ts, us, ParseNew(database, ts).rest, b) ==>
      ParseNew(database, us) == WithRest(ParseNew(database, ts), b)
  {
    hide ParseName, Finish, Cut, Tail, After;
    var name, a := ParseName(ts), ParseNew(database, ts).rest;
    if name.Stuck? {
      NameLocal(ts, us, b);
    } else {
      var mid := After(us, ts, name.rest);
      NameLocal(ts, us, mid);
      FinishLocal(if database then CreateDatabase(name.value) else CreateSchema(name.value), name.rest, mid, b);
      Between(ts, us, name.rest, a, b);
    }
  }

  lemma CreateCases(ts: seq<Symbol>)
    ensures ParseCreate(ts) ==
      if Kind(ts).Table? then ParseCreateTable(ts[1..])
      else if Kind(ts).Schema? || Kind(ts).Database? then ParseNew(Kind(ts).Database?, ts[1..])
      else Stuck(ts)
  {
    hide ParseCreateTable, ParseName, Finish;
  }

  lemma CreateLocal(ts: seq<Symbol>, us: seq<Symbol>, b: seq<Symbol>)
    ensures Tail(ParseCreate(ts).rest, ts)
    ensures Cut(ts, us, ParseCreate(ts).rest, b) ==> ParseCreate(us) == WithRest(ParseCreate(ts), b)
  {
    hide ParseCreate, ParseCreateTable, ParseNew, Cut, Tail, After;
    CreateCases(ts);
    CreateCases(us);
    var a, kind := ParseCreate(ts).rest, Kind(ts);
    TailsOf(ts);
    if kind.Table? || kind.Schema? || kind.Database? {
      var ts', us' := ts[1..], After(us, ts, ts[1..]);
      if kind.Table? {
        CreateTableLocal(ts', us', b);
      } else {
        NewLocal(kind.Database?, ts', us', b);
      }
      Between(ts, us, ts', a, b);
    }
    if Cut(ts, us, a, b) {
      Ahead(ts, us, a, b);
    }
  }

  /** The parenthesised values of an INSERT. */
  function ParseRow(table: TableReference, ts: seq<Symbol>): Parsed<Statement> {
    if Kind(ts) != LParen then Stuck(ts)
    else
      match ParseList(ParsePrimary, ts[1..])
      case Stuck(rest) => Stuck(rest)
      case Parsed(values, rest) => ParseClose(Statement.Insert(table, values), rest)
  }

  lemma RowLocal(table: TableReference, ts: seq<Symbol>, us: seq<Symbol>, b: seq<Symbol>)
    ensures Tail(ParseRow(table, ts).rest, ts)
    ensures Cut(ts, us, ParseRow(table, ts).rest, b) ==> ParseRow(table, us) == WithRest(ParseRow(table, ts), b)
  {
    hide ParseList, ParseClose, Cut, Tail, After, LocalItem;
    ValuesLocal();
    var a := ParseRow(table, ts).rest;
    TailsOf(ts);
    if Kind(ts) == LParen {
      var ts', us' := ts[1..], After(us, ts, ts[1..]);
      var list := ParseList(ParsePrimary, ts');
      if list.Stuck? {
        ListLocal(ParsePrimary, ts', us', b);
      } else {
        var mid := After(us', ts', list.rest);
        ListLocal(ParsePrimary, ts', us', mid);
        CloseLocal(Statement.Insert(table, list.value), list.rest, mid, b);
        Between(ts', us', list.rest, a, b);
      }
      Between(ts, us, ts', a, b);
    }
    if Cut(ts, us, a, b) {
      Ahead(ts, us, a, b);
    }
  }

  lemma ClauseIsRow(table: TableReference, ts: seq<Symbol>)
    ensures ParseValueClause(table, ts) == if Kind(ts) == TokenKind.Values then ParseRow(table, ts[1..]) else Stuck(ts)
  {
    hide ParseList, Finish;
  }

  lemma ValueClauseLocal(table: TableReference, ts: seq<Symbol>, us: seq<Symbol>, b: seq<Symbol>)
    ensures Tail(ParseValueClause(table, ts).rest, ts)
    ensures Cut(ts, us, ParseValueClause(table, ts).rest, b) ==>
      ParseValueClause(table, us) == WithRest(ParseValueClause(table, ts), b)
  {
    hide ParseValueClause, ParseRow, Cut, Tail, After;
    ClauseIsRow(table, ts);
    ClauseIsRow(table, us);
    var a := ParseValueClause(table, ts).rest;
    TailsOf(ts);
    if Kind(ts) == TokenKind.Values {
      RowLocal(table, ts[1..], After(us, ts, ts[1..]), b);
      Between(ts, us, ts[1..], a, b);
    }
    if Cut(ts, us, a, b) {
      Ahead(ts, us, a, b);
    }
  }

  lemma InsertLocal(ts: seq<Symbol>, us: seq<Symbol>, b: seq<Symbol>)
    ensures Tail(ParseInsert(ts).rest, ts)
    ensures Cut(ts, us, ParseInsert(ts).rest, b) ==> ParseInsert(us) == WithRest(ParseInsert(ts), b)
  {
    hide ParseTableReference, ParseValueClause, Cut, Tail, After;
    var a := ParseInsert(ts).rest;
    TailsOf(ts);
    if Kind(ts) == Into {
      var ts', us' := ts[1..], After(us, ts, ts[1..]);
      var table := ParseTableReference(ts');
      if table.Stuck? {
        TableReferenceLocal(ts', us', b);
      } else {
        var mid := After(us', ts', table.rest);
        TableReferenceLocal(ts', us', mid);
        ValueClauseLocal(table.value, table.rest, mid, b);
        Between(ts', us', table.rest, a, b);
      }
      Between(ts, us, ts', a, b);
    }
    if Cut(ts, us, a, b) {
      Ahead(ts, us, a, b);
    }
  }

  lemma SelectLocal(ts: seq<Symbol>, us: seq<Symbol>, b: seq<Symbol>)
    ensures Tail(ParseSelect(ts).rest, ts)
    ensures Cut(ts, us, ParseSelect(ts).rest, b) ==> ParseSelect(us) == WithRest(ParseSelect(ts), b)
  {
    hide ParseList, ParseFrom, Cut, Tail, After, LocalItem;
    NamesLocal();
    var a := ParseSelect(ts).rest;
    TailsOf(ts);
    if Kind(ts) == Star {
      FromLocal(true, [], ts[1..], After(us, ts, ts[1..]), b);
      Between(ts, us, ts[1..], a, b);
    } else {
      var list := ParseList(ParseColumnReference, ts);
      if list.Stuck? {
        ListLocal(ParseColumnReference, ts, us, b);
      } else {
        var mid := After(us, ts, list.rest);
        ListLocal(ParseColumnReference, ts, us, mid);
        FromLocal(false, list.value, list.rest, mid, b);
        Between(ts, us, list.rest, a, b);
      }
    }
    if Cut(ts, us, a, b) {
      Ahead(ts, us, a, b);
    }
  }

  /** What is read of a statement, or where reading stops, depends on the symbols read and on the next one. */
  lemma StatementLocal(ts: seq<Symbol>, us: seq<Symbol>, b: seq<Symbol>)
    ensures Tail(ParseStatement(ts).rest, ts)
    ensures Cut(ts, us, ParseStatement(ts).rest, b) ==> ParseStatement(us) == WithRest(ParseStatement(ts), b)
  {
    hide ParseSelect, ParseCreate, ParseInsert, Cut, Tail, After;
    var a, kind := ParseStatement(ts).rest, Kind(ts);
    TailsOf(ts);
    if kind.Select? || kind.Create? || kind.Insert? {
      var ts', us' := ts[1..], After(us, ts, ts[1..]);
      if kind.Select? {
        SelectLocal(ts', us', b);
      } else if kind.Create? {
        CreateLocal(ts', us', b);
      } else {
        InsertLocal(ts', us', b);
      }
      Between(ts, us, ts', a, b);
    }
    if Cut(ts, us, a, b) {
      Ahead(ts, us, a, b);
    }
  }
}
