/**
 * Where parsing stops (src/frontend/parser.cpp): an error is reported at the first symbol with which
 * no sentence of the grammar goes on.
 */
module SyntaxErrors {
  import opened Prelude
  import opened Ast
  import opened Tokens
  import opened ParserSpec
  import opened Grammar
  import opened StatementGrammar
  import opened Lookahead

  // ----- what was read before an error begins a sentence -----

  /** `y` begins with what `ts` has before `rest`. */
  ghost predicate Begins(ts: seq<Symbol>, rest: seq<Symbol>, y: seq<Symbol>) {
    |rest| <= |ts| && ts[|ts| - |rest|..] == rest && ts[..|ts| - |rest|] <= y
  }

  lemma NothingBefore(ts: seq<Symbol>, y: seq<Symbol>)
    ensures Begins(ts, ts, y)
  {
  }

  lemma BeginsBehind(front: seq<Symbol>, ts: seq<Symbol>, rest: seq<Symbol>, y: seq<Symbol>)
    requires Begins(ts, rest, y)
    ensures Begins(front + ts, rest, front + y)
  {
    var n := |ts| - |rest|;
    assert (front + ts)[..|front| + n] == front + ts[..n];
    assert (front + ts)[|front| + n..] == ts[n..];
  }

  lemma BeginsLonger(ts: seq<Symbol>, rest: seq<Symbol>, y: seq<Symbol>, more: seq<Symbol>)
    requires Begins(ts, rest, y)
    ensures Begins(ts, rest, y + more)
  {
  }

  lemma Detach(front: seq<Symbol>, k: Symbol, ts: seq<Symbol>)
    requires ts != [] && ts[0] == k
    ensures front + ts == front + [k] + ts[1..]
  {
  }

  /** An inner expression that begins with what is read of it makes a parenthesis that does. */
  lemma ParenthesisBegins(ts: seq<Symbol>, rest: seq<Symbol>, e: OrD)
    requires Erased(ts) && Kind(ts) == LParen && ts != [] && Begins(ts[1..], rest, OrYield(e))
    ensures Begins(ts, rest, PrimaryYield(Parenthesized(e)))
  {
    hide Begins, OrYield;
    assert ts == [Grammar.Keyword(LParen)] + ts[1..];
    BeginsBehind([Grammar.Keyword(LParen)], ts[1..], rest, OrYield(e));
    BeginsLonger(ts, rest, [Grammar.Keyword(LParen)] + OrYield(e), [Grammar.Keyword(RParen)]);
  }

  lemma AllBegins(ts: seq<Symbol>, y: seq<Symbol>, rest: seq<Symbol>)
    requires ts == y + rest
    ensures Begins(ts, rest, y)
  {
  }

  lemma {:induction false} PrimaryBegins(ts: seq<Symbol>) returns (d: PrimaryD)
    requires Erased(ts) && ParsePrimary(ts).Stuck?
    ensures PrimaryOk(d) && Begins(ts, ParsePrimary(ts).rest, PrimaryYield(d))
    decreases |ts|, 1
  {
    hide ParseOr, OrYield, OrTree, OrOk, Begins;
    if Kind(ts) == LParen {
      ErasedCons(ts, LParen);
      var inner := ParseOr(ts[1..]);
      var e: OrD;
      if inner.Stuck? {
        e := OrBegins(ts[1..]);
      } else {
        e := OrSound(ts[1..]);
        AllBegins(ts[1..], OrYield(e), inner.rest);
      }
      hide PrimaryYield, Erased;
      ParenthesisBegins(ts, inner.rest, e);
      d := Parenthesized(e);
    } else {
      d := Name("x");
      NothingBefore(ts, PrimaryYield(d));
    }
  }

  lemma {:induction false} ComparisonBegins(ts: seq<Symbol>) returns (d: ComparisonD)
    requires Erased(ts) && ParseComparison(ts).Stuck?
    ensures ComparisonOk(d) && Begins(ts, ParseComparison(ts).rest, ComparisonYield(d))
    decreases |ts|, 2
  {
    hide ParsePrimary, PrimaryYield, PrimaryOk, PrimaryTree, ComparisonOperator, OperatorKind, CarriesText, Begins;
    var first := ParsePrimary(ts);
    if first.Stuck? {
      var only := PrimaryBegins(ts);
      d := Operand(only);
    } else {
      var left := PrimarySound(ts);
      var rest := first.rest;
      OperatorKinds(Kind(rest));
      var op := ComparisonOperator(Kind(rest)).value;
      var right := PrimaryBegins(rest[1..]);
      assert rest == [Grammar.Keyword(OperatorKind(op))] + rest[1..];
      d := Compare(left, op, right);
      var a := ParseComparison(ts).rest;
      BeginsBehind([Grammar.Keyword(OperatorKind(op))], rest[1..], a, PrimaryYield(right));
      BeginsBehind(PrimaryYield(left), rest, a, [Grammar.Keyword(OperatorKind(op))] + PrimaryYield(right));
      assert ComparisonYield(d) == PrimaryYield(left) + ([Grammar.Keyword(OperatorKind(op))] + PrimaryYield(right));
    }
  }

  lemma {:induction false} AndBegins(ts: seq<Symbol>) returns (d: AndD)
    requires Erased(ts) && ParseAnd(ts).Stuck?
    ensures AndOk(d) && Begins(ts, ParseAnd(ts).rest, AndYield(d))
    decreases |ts|, 3
  {
    hide ParseComparison, AndTail, ComparisonYield, ComparisonOk, ComparisonTree, Begins;
    if ParseComparison(ts).Stuck? {
      var only := ComparisonBegins(ts);
      d := AndBase(only);
    } else {
      var first := ComparisonSound(ts);
      d := AndTailBegins(AndBase(first), ParseComparison(ts).rest);
    }
  }

  lemma {:induction false} AndTailBegins(front: AndD, ts: seq<Symbol>) returns (d: AndD)
    requires AndOk(front) && Erased(ts) && AndTail(AndTree(front), ts).Stuck?
    ensures AndOk(d) && Begins(AndYield(front) + ts, AndTail(AndTree(front), ts).rest, AndYield(d))
    decreases |ts|, 0
  {
    hide ParseComparison, ComparisonYield, ComparisonOk, ComparisonTree, Begins;
    var next, a := ParseComparison(ts[1..]), AndTail(AndTree(front), ts).rest;
    if next.Stuck? {
      var last := ComparisonBegins(ts[1..]);
      d := AndStep(front, last);
      BeginsBehind(AndYield(front) + [Grammar.Keyword(TokenKind.And)], ts[1..], a, ComparisonYield(last));
      Detach(AndYield(front), Grammar.Keyword(TokenKind.And), ts);
    } else {
      var last := ComparisonSound(ts[1..]);
      Regroup(AndYield(front), Grammar.Keyword(TokenKind.And), ComparisonYield(last), next.rest, ts);
      d := AndTailBegins(AndStep(front, last), next.rest);
    }
  }

  lemma {:induction false} OrBegins(ts: seq<Symbol>) returns (d: OrD)
    requires Erased(ts) && ParseOr(ts).Stuck?
    ensures OrOk(d) && Begins(ts, ParseOr(ts).rest, OrYield(d))
    decreases |ts|, 4
  {
    hide ParseAnd, OrTail, AndYield, AndOk, AndTree, Begins;
    if ParseAnd(ts).Stuck? {
      var only := AndBegins(ts);
      d := OrBase(only);
    } else {
      var first := AndSound(ts);
      d := OrTailBegins(OrBase(first), ParseAnd(ts).rest);
    }
  }

  lemma {:induction false} OrTailBegins(front: OrD, ts: seq<Symbol>) returns (d: OrD)
    requires OrOk(front) && Erased(ts) && OrTail(OrTree(front), ts).Stuck?
    ensures OrOk(d) && Begins(OrYield(front) + ts, OrTail(OrTree(front), ts).rest, OrYield(d))
    decreases |ts|, 0
  {
    hide ParseAnd, AndYield, AndOk, AndTree, Begins;
    var next, a := ParseAnd(ts[1..]), OrTail(OrTree(front), ts).rest;
    if next.Stuck? {
      var last := AndBegins(ts[1..]);
      d := OrStep(front, last);
      BeginsBehind(OrYield(front) + [Grammar.Keyword(TokenKind.Or)], ts[1..], a, AndYield(last));
      Detach(OrYield(front), Grammar.Keyword(TokenKind.Or), ts);
    } else {
      var last := AndSound(ts[1..]);
      Regroup(OrYield(front), Grammar.Keyword(TokenKind.Or), AndYield(last), next.rest, ts);
      d := OrTailBegins(OrStep(front, last), next.rest);
    }
  }

  lemma BeginsThen(kind: TokenKind, ts: seq<Symbol>, rest: seq<Symbol>, y: seq<Symbol>)
    requires Erased(ts) && ts != [] && Kind(ts) == kind && !CarriesText(kind) && Begins(ts[1..], rest, y)
    ensures Begins(ts, rest, Then(kind, y))
  {
    hide Erased, Begins;
    ErasedCons(ts, kind);
    BeginsBehind([Grammar.Keyword(kind)], ts[1..], rest, y);
  }

  lemma BeginsBehindWord(kind: TokenKind, ts: seq<Symbol>, rest: seq<Symbol>, y: seq<Symbol>)
    requires Begins(ts, rest, y)
    ensures Begins(Then(kind, ts), rest, Then(kind, y))
  {
    hide Begins;
    BeginsBehind([Grammar.Keyword(kind)], ts, rest, y);
  }

  lemma BeginsNamed(ts: seq<Symbol>, rest: seq<Symbol>, y: seq<Symbol>)
    requires Erased(ts) && ts != [] && Kind(ts) == Identifier && Begins(ts[1..], rest, y)
    ensures Begins(ts, rest, Named(ts[0].text, y))
  {
    hide Erased, Begins;
    ErasedCons(ts, Identifier);
    BeginsBehind([Symbol(Identifier, ts[0].text)], ts[1..], rest, y);
  }

  lemma TableBegins(ts: seq<Symbol>, after: seq<Symbol>) returns (t: TableD)
    requires Erased(ts) && ParseTableReference(ts).Stuck?
    ensures Begins(ts, ParseTableReference(ts).rest, TableYield(t, after))
  {
    hide Erased, Begins, Then, Named;
    if Kind(ts) == Identifier {
      ErasedCons(ts, Identifier);
      t := Qualified(ts[0].text, "x");
      var rest := ts[1..];
      NothingBefore(rest[1..], Named("x", after));
      BeginsThen(Dot, rest, rest[1..], Named("x", after));
      BeginsNamed(ts, rest[1..], Then(Dot, Named("x", after)));
    } else {
      t := Unqualified("x");
      NothingBefore(ts, TableYield(t, after));
    }
  }

  lemma TableBehind(t: TableD, ts: seq<Symbol>, rest: seq<Symbol>, y: seq<Symbol>)
    requires Begins(ts, rest, y)
    ensures Begins(TableYield(t, ts), rest, TableYield(t, y))
  {
    hide Begins;
    match t
    case Unqualified(name) =>
      BeginsBehind([Symbol(Identifier, name)], ts, rest, y);
    case Qualified(schema, name) =>
      BeginsBehind([Symbol(Identifier, name)], ts, rest, y);
      BeginsBehind([Grammar.Keyword(Dot)], Named(name, ts), rest, Named(name, y));
      BeginsBehind([Symbol(Identifier, schema)], Then(Dot, Named(name, ts)), rest, Then(Dot, Named(name, y)));
  }

  lemma FinishBegins(s: Statement, ts: seq<Symbol>) returns (semicolon: bool)
    requires Erased(ts) && Finish(s, ts).Stuck?
    ensures Begins(ts, Finish(s, ts).rest, EndYield(semicolon))
  {
    hide Erased, Begins, Then;
    semicolon := Kind(ts) == Semicolon;
    if semicolon {
      NothingBefore(ts[1..], []);
      BeginsThen(Semicolon, ts, ts[1..], []);
    } else {
      NothingBefore(ts, []);
    }
  }

  lemma ConditionBegins(selectAll: bool, columns: seq<Expression>, table: TableReference, ts: seq<Symbol>)
    returns (condition: Option<OrD>, semicolon: bool)
    requires Erased(ts) && ParseCondition(selectAll, columns, table, ts).Stuck?
    ensures ConditionOk(condition)
    ensures Begins(ts, ParseCondition(selectAll, columns, table, ts).rest,
      ConditionYield(condition, EndYield(semicolon)))
  {
    hide Erased, Begins, Then, ParseOr, OrYield, OrOk, Finish, EndYield;
    var a := ParseCondition(selectAll, columns, table, ts).rest;
    if Kind(ts) != Where {
      condition := None;
      semicolon := FinishBegins(Statement.Select(selectAll, columns, table, None), ts);
    } else {
      ErasedCons(ts, Where);
      var e := ParseOr(ts[1..]);
      var d: OrD;
      if e.Stuck? {
        d := OrBegins(ts[1..]);
        semicolon := false;
        BeginsLonger(ts[1..], a, OrYield(d), EndYield(semicolon));
      } else {
        d := OrSound(ts[1..]);
        semicolon := FinishBegins(Statement.Select(selectAll, columns, table, Some(e.value)), e.rest);
        BeginsBehind(OrYield(d), e.rest, a, EndYield(semicolon));
      }
      condition := Some(d);
      BeginsThen(Where, ts, a, OrYield(d) + EndYield(semicolon));
    }
  }

  lemma FromBegins(selectAll: bool, columns: seq<Expression>, ts: seq<Symbol>)
    returns (t: TableD, condition: Option<OrD>, semicolon: bool)
    requires Erased(ts) && ParseFrom(selectAll, columns, ts).Stuck?
    ensures ConditionOk(condition)
    ensures Begins(ts, ParseFrom(selectAll, columns, ts).rest, FromYield(t, condition, EndYield(semicolon)))
  {
    hide Erased, Begins, Then, ParseTableReference, TableYield, ParseOr, Finish, EndYield, ConditionYield;
    t, condition, semicolon := Unqualified("x"), None, false;
    var a := ParseFrom(selectAll, columns, ts).rest;
    if Kind(ts) != From {
      NothingBefore(ts, FromYield(t, condition, EndYield(semicolon)));
    } else {
      ErasedCons(ts, From);
      var table := ParseTableReference(ts[1..]);
      if table.Stuck? {
        t := TableBegins(ts[1..], ConditionYield(condition, EndYield(semicolon)));
      } else {
        t := TableSound(ts[1..]);
        condition, semicolon := ConditionBegins(selectAll, columns, table.value, table.rest);
        TableBehind(t, table.rest, a, ConditionYield(condition, EndYield(semicolon)));
      }
      BeginsThen(From, ts, a, TableYield(t, ConditionYield(condition, EndYield(semicolon))));
    }
  }

  /**
   * A list that is not read is not read because of an item. The items before it are a list of their
   * own, `front`, and `mid` is what is left for the item.
   */
  ghost predicate StopsAt<T(!new)>(item: ItemParser<T>, front: seq<Symbol>, mid: seq<Symbol>, ts: seq<Symbol>)
    requires Shrinks(item)
  {
    && Erased(front) && Erased(mid) && item(mid).Stuck? && item(mid).rest == ParseList(item, ts).rest
    && if front == [] then ts == mid
       else
         && ParseList(item, front).Parsed? && ParseList(item, front).rest == []
         && ts == front + [Grammar.Keyword(Comma)] + mid
  }

  lemma {:induction false} ListTailStops<T(!new)>(item: ItemParser<T>, ys: seq<seq<Symbol>>, xs: seq<T>,
                                                  ts: seq<Symbol>)
    returns (front: seq<Symbol>, mid: seq<Symbol>)
    requires Shrinks(item) && SoundItem(item) && Erased(ts) && ListTail(item, xs, ts).Stuck?
    requires ys != [] && AllRead(item, ys, xs)
    ensures ParseList(item, front).Parsed? && ParseList(item, front).rest == []
    ensures CommaYield(ys) + ts == front + [Grammar.Keyword(Comma)] + mid && Erased(mid)
    ensures item(mid).Stuck? && item(mid).rest == ListTail(item, xs, ts).rest
    decreases |ts|
  {
    hide Erased, Reads, ParseList;
    ErasedStep(ts);
    var next := item(ts[1..]);
    if next.Stuck? {
      front, mid := CommaYield(ys), ts[1..];
      ListComplete(item, ys, xs, []);
      assert front + [] == front;
      Detach(front, ts[0], ts);
    } else {
      var y := ItemSound(item, ts[1..]);
      ReadSnoc(item, ys, xs, y, next.value);
      Regroup(CommaYield(ys), ts[0], y, next.rest, ts);
      assert (ys + [y])[..|ys|] == ys;
      front, mid := ListTailStops(item, ys + [y], xs + [next.value], next.rest);
    }
  }

  lemma ListStops<T(!new)>(item: ItemParser<T>, ts: seq<Symbol>) returns (front: seq<Symbol>, mid: seq<Symbol>)
    requires Shrinks(item) && SoundItem(item) && !item([]).Parsed? && Erased(ts) && ParseList(item, ts).Stuck?
    ensures StopsAt(item, front, mid, ts)
  {
    hide Erased, Reads, ListTail;
    var first := item(ts);
    if first.Stuck? {
      front, mid := [], ts;
      assert [] + ts == ts;
      ErasedParts([], ts);
    } else {
      var y := ItemSound(item, ts);
      ReadSnoc(item, [], [], y, first.value);
      assert [] + [y] == [y] && [] + [first.value] == [first.value];
      front, mid := ListTailStops(item, [y], [first.value], first.rest);
      assert front + [Grammar.Keyword(Comma)] + mid == front + ([Grammar.Keyword(Comma)] + mid);
      ErasedParts(front, [Grammar.Keyword(Comma)] + mid);
      assert front != [];
    }
  }

  lemma CommaYieldSnoc(ys: seq<seq<Symbol>>, y: seq<Symbol>)
    requires ys != []
    ensures CommaYield(ys + [y]) == CommaYield(ys) + [Grammar.Keyword(Comma)] + y
  {
    assert (ys + [y])[..|ys|] == ys;
  }

  /** `z` begins with what is read of the last item, so the list with it begins with what is read of the list. */
  lemma ListBegins<T(!new)>(item: ItemParser<T>, ts: seq<Symbol>, front: seq<Symbol>, mid: seq<Symbol>,
                            ys: seq<seq<Symbol>>, z: seq<Symbol>)
    requires Shrinks(item) && StopsAt(item, front, mid, ts) && Begins(mid, item(mid).rest, z)
    requires if front == [] then ys == [] else ys != [] && CommaYield(ys) == front
    ensures Begins(ts, ParseList(item, ts).rest, CommaYield(ys + [z]))
  {
    hide Begins, Erased, ParseList;
    if front != [] {
      CommaYieldSnoc(ys, z);
      BeginsBehind(front + [Grammar.Keyword(Comma)], mid, item(mid).rest, z);
    } else {
      assert ys + [z] == [z];
    }
  }

  lemma NameFront(front: seq<Symbol>) returns (names: seq<string>)
    requires Erased(front) && Shrinks(ParseColumnReference)
    requires ParseList(ParseColumnReference, front).Parsed? && ParseList(ParseColumnReference, front).rest == []
    ensures names != [] && CommaYield(NameYields(names)) == front
  {
    hide Erased, ParseList, CommaYield, NameYields, ParseColumnReference;
    names := NameListSound(front);
    assert CommaYield(NameYields(names)) + [] == CommaYield(NameYields(names));
  }

  lemma NameListBegins(ts: seq<Symbol>) returns (names: seq<string>)
    requires Erased(ts) && Shrinks(ParseColumnReference) && ParseList(ParseColumnReference, ts).Stuck?
    ensures names != [] && Begins(ts, ParseList(ParseColumnReference, ts).rest, CommaYield(NameYields(names)))
  {
    hide Begins, ParseList, CommaYield, Named, Erased;
    NamesSound();
    var front, mid := ListStops(ParseColumnReference, ts);
    names := [];
    if front != [] {
      names := NameFront(front);
    }
    NothingBefore(mid, Named("x", []));
    ListBegins(ParseColumnReference, ts, front, mid, NameYields(names), Named("x", []));
    assert NameYields(names + ["x"]) == NameYields(names) + [Named("x", [])];
    names := names + ["x"];
  }

  lemma DefinitionBegins(ts: seq<Symbol>) returns (d: ColumnDefinition)
    requires Erased(ts) && ParseColumnDefinition(ts).Stuck?
    ensures Begins(ts, ParseColumnDefinition(ts).rest, DefinitionYield(d))
  {
    hide Begins, Erased, Then, Named;
    if Kind(ts) == Identifier {
      d := ColumnDefinition(ts[0].text, IntType);
      NothingBefore(ts[1..], Then(TypeKind(IntType), []));
      BeginsNamed(ts, ts[1..], Then(TypeKind(IntType), []));
    } else {
      d := ColumnDefinition("x", IntType);
      NothingBefore(ts, DefinitionYield(d));
    }
  }

  lemma DefinitionFront(front: seq<Symbol>) returns (definitions: seq<ColumnDefinition>)
    requires Erased(front) && Shrinks(ParseColumnDefinition)
    requires ParseList(ParseColumnDefinition, front).Parsed? && ParseList(ParseColumnDefinition, front).rest == []
    ensures definitions != [] && CommaYield(DefinitionYields(definitions)) == front
  {
    hide Erased, ParseList, CommaYield, DefinitionYields, ParseColumnDefinition;
    DefinitionListSound(front);
    definitions := ParseList(ParseColumnDefinition, front).value;
    assert CommaYield(DefinitionYields(definitions)) + [] == CommaYield(DefinitionYields(definitions));
  }

  lemma DefinitionStops(ts: seq<Symbol>) returns (front: seq<Symbol>, mid: seq<Symbol>)
    requires Erased(ts) && Shrinks(ParseColumnDefinition) && ParseList(ParseColumnDefinition, ts).Stuck?
    ensures StopsAt(ParseColumnDefinition, front, mid, ts)
  {
    DefinitionsSound();
    hide Erased, ParseList, StopsAt, SoundItem;
    front, mid := ListStops(ParseColumnDefinition, ts);
  }

  lemma DefinitionListBegins(ts: seq<Symbol>) returns (definitions: seq<ColumnDefinition>)
    requires Erased(ts) && Shrinks(ParseColumnDefinition) && ParseList(ParseColumnDefinition, ts).Stuck?
    ensures definitions != []
    ensures Begins(ts, ParseList(ParseColumnDefinition, ts).rest, CommaYield(DefinitionYields(definitions)))
  {
    hide Begins, ParseList, CommaYield, ParseColumnDefinition, DefinitionYield, Erased;
    var front, mid := DefinitionStops(ts);
    definitions := [];
    if front != [] {
      definitions := DefinitionFront(front);
    }
    var d := DefinitionBegins(mid);
    ListBegins(ParseColumnDefinition, ts, front, mid, DefinitionYields(definitions), DefinitionYield(d));
    assert DefinitionYields(definitions + [d]) == DefinitionYields(definitions) + [DefinitionYield(d)];
    definitions := definitions + [d];
  }

  lemma ValueListBegins(ts: seq<Symbol>) returns (values: seq<PrimaryD>)
    requires Erased(ts) && Shrinks(ParsePrimary) && ParseList(ParsePrimary, ts).Stuck?
    ensures values != [] && forall i | 0 <= i < |values| :: PrimaryOk(values[i])
    ensures Begins(ts, ParseList(ParsePrimary, ts).rest, CommaYield(ValueYields(values)))
  {
    hide Begins, ParseList, CommaYield;
    ValuesSound();
    var front, mid := ListStops(ParsePrimary, ts);
    values := [];
    if front != [] {
      values := ValueListSound(front);
      assert CommaYield(ValueYields(values)) + [] == CommaYield(ValueYields(values));
    }
    var d := PrimaryBegins(mid);
    ListBegins(ParsePrimary, ts, front, mid, ValueYields(values), PrimaryYield(d));
    assert ValueYields(values + [d]) == ValueYields(values) + [PrimaryYield(d)];
    values := values + [d];
  }

  lemma CloseBegins(s: Statement, ts: seq<Symbol>) returns (semicolon: bool)
    requires Erased(ts) && ParseClose(s, ts).Stuck?
    ensures Begins(ts, ParseClose(s, ts).rest, Then(RParen, EndYield(semicolon)))
  {
    hide Erased, Begins, Then, Finish, EndYield;
    semicolon := false;
    if Kind(ts) == RParen {
      ErasedCons(ts, RParen);
      semicolon := FinishBegins(s, ts[1..]);
      BeginsThen(RParen, ts, ParseClose(s, ts).rest, EndYield(semicolon));
    } else {
      NothingBefore(ts, Then(RParen, EndYield(semicolon)));
    }
  }

  lemma ColumnsBegin(table: TableReference, ts: seq<Symbol>)
    returns (definitions: seq<ColumnDefinition>, semicolon: bool)
    requires Erased(ts) && ParseColumns(table, ts).Stuck?
    ensures definitions != []
    ensures Begins(ts, ParseColumns(table, ts).rest, ListYield(DefinitionYields(definitions), EndYield(semicolon)))
  {
    hide Erased, Begins, Then, ParseList, ParseClose, CommaYield, EndYield;
    var a := ParseColumns(table, ts).rest;
    definitions, semicolon := [ColumnDefinition("x", IntType)], false;
    if Kind(ts) != LParen {
      NothingBefore(ts, ListYield(DefinitionYields(definitions), EndYield(semicolon)));
    } else {
      ErasedCons(ts, LParen);
      var list := ParseList(ParseColumnDefinition, ts[1..]);
      if list.Stuck? {
        definitions := DefinitionListBegins(ts[1..]);
        BeginsLonger(ts[1..], a, CommaYield(DefinitionYields(definitions)), Then(RParen, EndYield(semicolon)));
      } else {
        DefinitionListSound(ts[1..]);
        definitions := list.value;
        semicolon := CloseBegins(CreateTable(table, list.value), list.rest);
        BeginsBehind(CommaYield(DefinitionYields(definitions)), list.rest, a, Then(RParen, EndYield(semicolon)));
      }
      BeginsThen(LParen, ts, a, CommaYield(DefinitionYields(definitions)) + Then(RParen, EndYield(semicolon)));
    }
  }

  lemma RowBegins(table: TableReference, ts: seq<Symbol>) returns (values: seq<PrimaryD>, semicolon: bool)
    requires Erased(ts) && ParseRow(table, ts).Stuck?
    ensures values != [] && forall i | 0 <= i < |values| :: PrimaryOk(values[i])
    ensures Begins(ts, ParseRow(table, ts).rest, ListYield(ValueYields(values), EndYield(semicolon)))
  {
    hide Erased, Begins, Then, ParseList, ParseClose, CommaYield, EndYield;
    var a := ParseRow(table, ts).rest;
    values, semicolon := [Name("x")], false;
    if Kind(ts) != LParen {
      NothingBefore(ts, ListYield(ValueYields(values), EndYield(semicolon)));
    } else {
      ErasedCons(ts, LParen);
      var list := ParseList(ParsePrimary, ts[1..]);
      if list.Stuck? {
        values := ValueListBegins(ts[1..]);
        BeginsLonger(ts[1..], a, CommaYield(ValueYields(values)), Then(RParen, EndYield(semicolon)));
      } else {
        values := ValueListSound(ts[1..]);
        semicolon := CloseBegins(Statement.Insert(table, list.value), list.rest);
        BeginsBehind(CommaYield(ValueYields(values)), list.rest, a, Then(RParen, EndYield(semicolon)));
      }
      BeginsThen(LParen, ts, a, CommaYield(ValueYields(values)) + Then(RParen, EndYield(semicolon)));
    }
  }

  lemma CreateTableBegins(ts: seq<Symbol>) returns (t: TableD, definitions: seq<ColumnDefinition>, semicolon: bool)
    requires Erased(ts) && ParseCreateTable(ts).Stuck?
    ensures definitions != []
    ensures Begins(ts, ParseCreateTable(ts).rest,
      TableYield(t, ListYield(DefinitionYields(definitions), EndYield(semicolon))))
  {
    hide Erased, Begins, ParseTableReference, TableYield, ParseList, Finish, ListYield, EndYield;
    definitions, semicolon := [ColumnDefinition("x", IntType)], false;
    var table := ParseTableReference(ts);
    if table.Stuck? {
      t := TableBegins(ts, ListYield(DefinitionYields(definitions), EndYield(semicolon)));
    } else {
      t := TableSound(ts);
      definitions, semicolon := ColumnsBegin(table.value, table.rest);
      TableBehind(t, table.rest, ParseCreateTable(ts).rest,
        ListYield(DefinitionYields(definitions), EndYield(semicolon)));
    }
  }

  lemma NewBegins(database: bool, ts: seq<Symbol>) returns (name: string, semicolon: bool)
    requires Erased(ts) && ParseNew(database, ts).Stuck?
    ensures Begins(ts, ParseNew(database, ts).rest, Named(name, EndYield(semicolon)))
  {
    hide Erased, Begins, Named, Finish, EndYield;
    name, semicolon := "x", false;
    if Kind(ts) == Identifier {
      ErasedCons(ts, Identifier);
      name := ts[0].text;
      semicolon := FinishBegins(if database then CreateDatabase(name) else CreateSchema(name), ts[1..]);
      BeginsNamed(ts, ParseNew(database, ts).rest, EndYield(semicolon));
    } else {
      NothingBefore(ts, Named(name, EndYield(semicolon)));
    }
  }

  lemma CreateBegins(ts: seq<Symbol>) returns (d: StatementD)
    requires Erased(ts) && ParseCreate(ts).Stuck?
    ensures BodyOk(d.body) && Begins(Then(TokenKind.Create, ts), ParseCreate(ts).rest, StatementYield(d))
  {
    hide Erased, Begins, ParseCreate, ParseCreateTable, ParseNew, StatementYield;
    CreateCases(ts);
    var kind := Kind(ts);
    if kind.Table? {
      d := CreateTableStatementBegins(ts);
    } else if kind.Schema? || kind.Database? {
      d := CreateNewBegins(kind.Database?, ts);
    } else {
      d := StatementD(CreateSchemaD("x"), false);
      CreateAnythingBegins(ts, d);
    }
  }

  lemma CreateAnythingBegins(ts: seq<Symbol>, d: StatementD)
    requires d.body.CreateSchemaD?
    ensures Begins(Then(TokenKind.Create, ts), ts, StatementYield(d))
  {
    NothingBefore(ts, StatementYield(d)[1..]);
    BeginsBehindWord(TokenKind.Create, ts, ts, StatementYield(d)[1..]);
  }

  lemma CreateTableStatementBegins(ts: seq<Symbol>) returns (d: StatementD)
    requires Erased(ts) && Kind(ts).Table? && ParseCreateTable(ts[1..]).Stuck?
    ensures BodyOk(d.body) && Begins(Then(TokenKind.Create, ts), ParseCreateTable(ts[1..]).rest, StatementYield(d))
  {
    hide Erased, Begins, Then, ParseCreateTable, TableYield, ListYield, EndYield;
    ErasedCons(ts, TokenKind.Table);
    var a := ParseCreateTable(ts[1..]).rest;
    var t, definitions, semicolon := CreateTableBegins(ts[1..]);
    d := StatementD(CreateTableD(t, definitions), semicolon);
    var z := TableYield(t, ListYield(DefinitionYields(definitions), EndYield(semicolon)));
    BeginsThen(TokenKind.Table, ts, a, z);
    BeginsBehindWord(TokenKind.Create, ts, a, Then(TokenKind.Table, z));
  }

  lemma CreateNewBegins(database: bool, ts: seq<Symbol>) returns (d: StatementD)
    requires Erased(ts) && Kind(ts) == (if database then TokenKind.Database else TokenKind.Schema)
    requires ParseNew(database, ts[1..]).Stuck?
    ensures BodyOk(d.body) && Begins(Then(TokenKind.Create, ts), ParseNew(database, ts[1..]).rest, StatementYield(d))
  {
    hide Erased, Begins, Then, Named, ParseNew, EndYield;
    ErasedCons(ts, Kind(ts));
    var a := ParseNew(database, ts[1..]).rest;
    var name, semicolon := NewBegins(database, ts[1..]);
    d := StatementD(if database then CreateDatabaseD(name) else CreateSchemaD(name), semicolon);
    var z := Named(name, EndYield(semicolon));
    BeginsThen(Kind(ts), ts, a, z);
    BeginsBehindWord(TokenKind.Create, ts, a, Then(Kind(ts), z));
  }

  lemma InsertBegins(ts: seq<Symbol>) returns (d: StatementD)
    requires Erased(ts) && ParseInsert(ts).Stuck?
    ensures BodyOk(d.body) && Begins(Then(TokenKind.Insert, ts), ParseInsert(ts).rest, StatementYield(d))
  {
    hide Erased, Begins, Then, ParseTableReference, ParseValueClause, TableYield, ListYield, EndYield;
    var t, values, semicolon := Unqualified("x"), [Name("x")], false;
    var a := ParseInsert(ts).rest;
    var z := Then(TokenKind.Values, ListYield(ValueYields(values), EndYield(semicolon)));
    if Kind(ts) != Into {
      NothingBefore(ts, Then(Into, TableYield(t, z)));
    } else {
      ErasedCons(ts, Into);
      var table := ParseTableReference(ts[1..]);
      if table.Stuck? {
        t := TableBegins(ts[1..], z);
      } else {
        t := TableSound(ts[1..]);
        values, semicolon := ClauseBegins(table.value, table.rest);
        z := Then(TokenKind.Values, ListYield(ValueYields(values), EndYield(semicolon)));
        TableBehind(t, table.rest, a, z);
      }
      BeginsThen(Into, ts, a, TableYield(t, z));
    }
    d := StatementD(InsertD(t, values), semicolon);
    BeginsBehindWord(TokenKind.Insert, ts, a, Then(Into, TableYield(t, z)));
  }

  lemma ClauseBegins(table: TableReference, ts: seq<Symbol>) returns (values: seq<PrimaryD>, semicolon: bool)
    requires Erased(ts) && ParseValueClause(table, ts).Stuck?
    ensures values != [] && forall i | 0 <= i < |values| :: PrimaryOk(values[i])
    ensures Begins(ts, ParseValueClause(table, ts).rest,
      Then(TokenKind.Values, ListYield(ValueYields(values), EndYield(semicolon))))
  {
    hide Erased, Begins, Then, ParseValueClause, ParseRow, ListYield, EndYield;
    ClauseIsRow(table, ts);
    values, semicolon := [Name("x")], false;
    if Kind(ts) == TokenKind.Values {
      ErasedCons(ts, TokenKind.Values);
      values, semicolon := RowBegins(table, ts[1..]);
      BeginsThen(TokenKind.Values, ts, ParseValueClause(table, ts).rest,
        ListYield(ValueYields(values), EndYield(semicolon)));
    } else {
      NothingBefore(ts, Then(TokenKind.Values, ListYield(ValueYields(values), EndYield(semicolon))));
    }
  }

  lemma SelectBegins(ts: seq<Symbol>) returns (d: StatementD)
    requires Erased(ts) && ParseSelect(ts).Stuck?
    ensures BodyOk(d.body) && Begins(Then(TokenKind.Select, ts), ParseSelect(ts).rest, StatementYield(d))
  {
    hide Erased, Begins, Then, ParseFrom, ParseList, FromYield, CommaYield, ConditionOk, EndYield;
    var a := ParseSelect(ts).rest;
    if Kind(ts) == Star {
      ErasedCons(ts, Star);
      var t, condition, semicolon := FromBegins(true, [], ts[1..]);
      d := StatementD(SelectAllD(t, condition), semicolon);
      var z := FromYield(t, condition, EndYield(semicolon));
      BeginsThen(Star, ts, a, z);
      BeginsBehindWord(TokenKind.Select, ts, a, Then(Star, z));
    } else {
      var names, t, condition, semicolon := SelectListBegins(ts);
      d := StatementD(SelectD(names, t, condition), semicolon);
      BeginsBehindWord(TokenKind.Select, ts, a,
        CommaYield(NameYields(names)) + FromYield(t, condition, EndYield(semicolon)));
    }
  }

  lemma SelectListBegins(ts: seq<Symbol>)
    returns (names: seq<string>, t: TableD, condition: Option<OrD>, semicolon: bool)
    requires Erased(ts) && Kind(ts) != Star && ParseSelect(ts).Stuck?
    ensures names != [] && ConditionOk(condition)
    ensures Begins(ts, ParseSelect(ts).rest,
      CommaYield(NameYields(names)) + FromYield(t, condition, EndYield(semicolon)))
  {
    hide Erased, Begins, ParseFrom, ParseList, FromYield, CommaYield, EndYield;
    t, condition, semicolon := Unqualified("x"), None, false;
    var list := ParseList(ParseColumnReference, ts);
    var a := ParseSelect(ts).rest;
    if list.Stuck? {
      names := NameListBegins(ts);
      BeginsLonger(ts, a, CommaYield(NameYields(names)), FromYield(t, condition, EndYield(semicolon)));
    } else {
      names := NameListSound(ts);
      t, condition, semicolon := FromBegins(false, list.value, list.rest);
      BeginsBehind(CommaYield(NameYields(names)), list.rest, a, FromYield(t, condition, EndYield(semicolon)));
    }
  }

  /** The symbols before an error begin a sentence of the grammar. */
  lemma StatementBegins(ts: seq<Symbol>) returns (d: StatementD)
    requires Erased(ts) && ParseStatement(ts).Stuck?
    ensures BodyOk(d.body) && Begins(ts, ParseStatement(ts).rest, StatementYield(d))
  {
    hide Erased, Begins, Then, StatementYield, ParseSelect, ParseCreate, ParseInsert;
    var kind := Kind(ts);
    if kind.Select? || kind.Create? || kind.Insert? {
      ErasedCons(ts, kind);
      if kind.Select? {
        d := SelectBegins(ts[1..]);
      } else if kind.Create? {
        d := CreateBegins(ts[1..]);
      } else {
        d := InsertBegins(ts[1..]);
      }
    } else {
      d := StatementD(CreateSchemaD("x"), false);
      NothingBefore(ts, StatementYield(d));
    }
  }

  // ----- the error is where no sentence goes on -----

  ghost predicate IsSentence(ts: seq<Symbol>) {
    exists d: StatementD :: BodyOk(d.body) && StatementYield(d) == ts
  }

  ghost predicate BeginsSentence(ts: seq<Symbol>) {
    exists d: StatementD :: BodyOk(d.body) && ts <= StatementYield(d)
  }

  /** Exactly the sentences of the grammar are read. */
  lemma ReadIffSentence(ts: seq<Symbol>)
    requires Erased(ts)
    ensures ParseStatement(ts).Parsed? <==> IsSentence(ts)
  {
    hide ParseStatement, StatementYield, Erased, BodyOk, StatementTree;
    if ParseStatement(ts).Parsed? {
      var d := StatementSound(ts);
    }
    forall d: StatementD | BodyOk(d.body) && StatementYield(d) == ts ensures ParseStatement(ts).Parsed? {
      StatementComplete(d);
    }
  }

  /** No sentence begins with the symbols consumed and the one at which the error is reported. */
  lemma NoSentenceGoesOn(ts: seq<Symbol>, d: StatementD)
    requires ParseStatement(ts).Stuck? && ParseStatement(ts).rest != [] && BodyOk(d.body)
    ensures var n := |ts| - |ParseStatement(ts).rest|; 0 <= n < |ts| && !(ts[..n + 1] <= StatementYield(d))
  {
    hide ParseStatement, StatementYield, BodyOk;
    var us, rest := StatementYield(d), ParseStatement(ts).rest;
    var n := |ts| - |rest|;
    StatementLocal(ts, us, us);
    TailIsSuffix(rest, ts);
    if ts[..n + 1] <= us {
      forall i | 0 <= i <= n ensures ts[i] == us[i] {
        assert us[i] == ts[..n + 1][i] == ts[i];
      }
      CutOfFronts(ts, us, n);
      StatementLocal(ts, us, us[n..]);
      StatementComplete(d);
      assert false;
    }
  }

  /**
   * Errors are reported as early as possible and no earlier: the symbols consumed are the longest front
   * of the input that begins a sentence.
   */
  lemma ErrorIsEarliest(ts: seq<Symbol>, k: nat)
    requires Erased(ts) && ParseStatement(ts).Stuck? && k <= |ts|
    ensures |ParseStatement(ts).rest| <= |ts| && ParseStatement(ts).rest == ts[|ts| - |ParseStatement(ts).rest|..]
    ensures BeginsSentence(ts[..k]) <==> k <= |ts| - |ParseStatement(ts).rest|
  {
    hide ParseStatement, StatementYield, BodyOk, Erased;
    var rest := ParseStatement(ts).rest;
    StatementLocal(ts, ts, ts);
    TailIsSuffix(rest, ts);
    var n := |ts| - |rest|;
    if k <= n {
      var d := StatementBegins(ts);
      assert ts[..k] == ts[..n][..k];
    } else {
      forall d: StatementD | BodyOk(d.body) ensures !(ts[..k] <= StatementYield(d)) {
        NoSentenceGoesOn(ts, d);
        assert ts[..n + 1] == ts[..k][..n + 1];
      }
    }
  }
}
