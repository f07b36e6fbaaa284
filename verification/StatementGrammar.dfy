/** The grammar of statements, and the proof that the parser accepts exactly its sentences. */
module StatementGrammar {
  import opened Prelude
  import opened Ast
  import opened Tokens
  import opened ParserSpec
  import opened Grammar

  datatype TableD = Unqualified(name: string) | Qualified(schema: string, name: string)

  datatype StatementD = StatementD(body: BodyD, semicolon: bool)

  datatype BodyD =
    | SelectAllD(table: TableD, condition: Option<OrD>)
    | SelectD(names: seq<string>, table: TableD, condition: Option<OrD>)
    | CreateTableD(table: TableD, definitions: seq<ColumnDefinition>)
    | CreateSchemaD(name: string)
    | CreateDatabaseD(name: string)
    | InsertD(table: TableD, values: seq<PrimaryD>)

  // ----- sentences -----

  // Sentences are written with what follows them, so that reading goes one symbol at a time.

  function Then(kind: TokenKind, after: seq<Symbol>): (ts: seq<Symbol>)
    ensures ts != [] && Kind(ts) == kind && ts[1..] == after
  {
    [Grammar.Keyword(kind)] + after
  }

  function Named(name: string, after: seq<Symbol>): (ts: seq<Symbol>)
    ensures ts != [] && Kind(ts) == Identifier && ts[0].text == name && ts[1..] == after
  {
    [Symbol(Identifier, name)] + after
  }

  function TypeKind(columnType: LogicalType): TokenKind {
    if columnType == IntType then TokenKind.Int else TokenKind.Text
  }

  function DefinitionYield(d: ColumnDefinition): seq<Symbol> {
    Named(d.name, Then(TypeKind(d.columnType), []))
  }

  function CommaYield(items: seq<seq<Symbol>>): seq<Symbol>
    requires items != []
  {
    var last := |items| - 1;
    if last == 0 then items[0] else CommaYield(items[..last]) + [Grammar.Keyword(Comma)] + items[last]
  }

  function NameYields(names: seq<string>): (ys: seq<seq<Symbol>>)
    ensures |ys| == |names|
  {
    seq(|names|, i requires 0 <= i < |names| => Named(names[i], []))
  }

  function DefinitionYields(definitions: seq<ColumnDefinition>): (ys: seq<seq<Symbol>>)
    ensures |ys| == |definitions|
  {
    seq(|definitions|, i requires 0 <= i < |definitions| => DefinitionYield(definitions[i]))
  }

  function ValueYields(values: seq<PrimaryD>): (ys: seq<seq<Symbol>>)
    ensures |ys| == |values|
  {
    seq(|values|, i requires 0 <= i < |values| => PrimaryYield(values[i]))
  }

  function TableYield(t: TableD, after: seq<Symbol>): seq<Symbol> {
    match t
    case Unqualified(name) => Named(name, after)
    case Qualified(schema, name) => Named(schema, Then(Dot, Named(name, after)))
  }

  function ConditionYield(condition: Option<OrD>, after: seq<Symbol>): seq<Symbol> {
    match condition
    case None => after
    case Some(d) => Then(Where, OrYield(d) + after)
  }

  function FromYield(t: TableD, condition: Option<OrD>, after: seq<Symbol>): seq<Symbol> {
    Then(From, TableYield(t, ConditionYield(condition, after)))
  }

  function ListYield(items: seq<seq<Symbol>>, after: seq<Symbol>): seq<Symbol>
    requires items != []
  {
    Then(LParen, CommaYield(items) + Then(RParen, after))
  }

  function BodyYield(b: BodyD, after: seq<Symbol>): seq<Symbol>
    requires BodyOk(b)
  {
    match b
    case SelectAllD(t, condition) => Then(TokenKind.Select, Then(Star, FromYield(t, condition, after)))
    case SelectD(names, t, condition) =>
      Then(TokenKind.Select, CommaYield(NameYields(names)) + FromYield(t, condition, after))
    case CreateTableD(t, definitions) =>
      Then(TokenKind.Create, Then(TokenKind.Table, TableYield(t, ListYield(DefinitionYields(definitions), after))))
    case CreateSchemaD(name) => Then(TokenKind.Create, Then(TokenKind.Schema, Named(name, after)))
    case CreateDatabaseD(name) => Then(TokenKind.Create, Then(TokenKind.Database, Named(name, after)))
    case InsertD(t, values) =>
      Then(TokenKind.Insert, Then(Into, TableYield(t, Then(TokenKind.Values, ListYield(ValueYields(values), after)))))
  }

  function EndYield(semicolon: bool): seq<Symbol> {
    if semicolon then Then(Semicolon, []) else []
  }

  function StatementYield(d: StatementD): seq<Symbol>
    requires BodyOk(d.body)
  {
    BodyYield(d.body, EndYield(d.semicolon))
  }

  predicate ConditionOk(condition: Option<OrD>) {
    condition.Some? ==> OrOk(condition.value)
  }

  /** Lists are not empty, and integers are in range. */
  predicate BodyOk(b: BodyD) {
    match b
    case SelectAllD(_, condition) => ConditionOk(condition)
    case SelectD(names, _, condition) => names != [] && ConditionOk(condition)
    case CreateTableD(_, definitions) => definitions != []
    case CreateSchemaD(_) => true
    case CreateDatabaseD(_) => true
    case InsertD(_, values) => values != [] && forall i | 0 <= i < |values| :: PrimaryOk(values[i])
  }

  // ----- statements -----

  function TableTree(t: TableD): TableReference {
    match t
    case Unqualified(name) => TableReference("", name)
    case Qualified(schema, name) => TableReference(schema, name)
  }

  function ConditionTree(condition: Option<OrD>): Option<Expression>
    requires ConditionOk(condition)
  {
    match condition
    case None => None
    case Some(d) => Some(OrTree(d))
  }

  function NameTrees(names: seq<string>): seq<Expression> {
    seq(|names|, i requires 0 <= i < |names| => ColumnRef(names[i]))
  }

  function ValueTrees(values: seq<PrimaryD>): seq<Expression>
    requires forall i | 0 <= i < |values| :: PrimaryOk(values[i])
  {
    seq(|values|, i requires 0 <= i < |values| => PrimaryTree(values[i]))
  }

  function StatementTree(b: BodyD): Statement
    requires BodyOk(b)
  {
    match b
    case SelectAllD(t, condition) => Statement.Select(true, [], TableTree(t), ConditionTree(condition))
    case SelectD(names, t, condition) =>
      Statement.Select(false, NameTrees(names), TableTree(t), ConditionTree(condition))
    case CreateTableD(t, definitions) => CreateTable(TableTree(t), definitions)
    case CreateSchemaD(name) => CreateSchema(name)
    case CreateDatabaseD(name) => CreateDatabase(name)
    case InsertD(t, values) => Statement.Insert(TableTree(t), ValueTrees(values))
  }

  // ----- lists -----

  /** `y` is read as `x`, whatever follows. */
  ghost predicate Reads<T(!new)>(item: ItemParser<T>, y: seq<Symbol>, x: T) {
    forall rest :: item(y + rest) == Parsed(x, rest)
  }

  ghost predicate AllRead<T(!new)>(item: ItemParser<T>, ys: seq<seq<Symbol>>, xs: seq<T>) {
    |ys| == |xs| && forall i | 0 <= i < |ys| :: Reads(item, ys[i], xs[i])
  }

  ghost predicate AllErased(ys: seq<seq<Symbol>>) {
    forall i | 0 <= i < |ys| :: Erased(ys[i])
  }

  /** Every success of `item` consumes symbols that it would read the same way before anything. */
  ghost predicate SoundItem<T(!new)>(item: ItemParser<T>) {
    forall ts | Erased(ts) && item(ts).Parsed? ::
      exists y :: ts == y + item(ts).rest && Reads(item, y, item(ts).value)
  }

  lemma {:induction false} ListCollects<T(!new)>(item: ItemParser<T>, ys: seq<seq<Symbol>>, xs: seq<T>,
                                                 rest: seq<Symbol>)
    requires Shrinks(item) && AllRead(item, ys, xs) && ys != []
    ensures ParseList(item, CommaYield(ys) + rest) == ListTail(item, xs, rest)
    decreases |ys|
  {
    var last := |ys| - 1;
    assert Reads(item, ys[last], xs[last]);
    if last == 0 {
      assert xs == [xs[0]];
    } else {
      var after := [Grammar.Keyword(Comma)] + (ys[last] + rest);
      assert CommaYield(ys) + rest == CommaYield(ys[..last]) + after;
      ListCollects(item, ys[..last], xs[..last], after);
      assert after[1..] == ys[last] + rest;
      assert xs == xs[..last] + [xs[last]];
    }
  }

  lemma ListComplete<T(!new)>(item: ItemParser<T>, ys: seq<seq<Symbol>>, xs: seq<T>, rest: seq<Symbol>)
    requires Shrinks(item) && AllRead(item, ys, xs) && ys != [] && Kind(rest) != Comma
    ensures ParseList(item, CommaYield(ys) + rest) == Parsed(xs, rest)
  {
    ListCollects(item, ys, xs, rest);
  }

  lemma ErasedParts(a: seq<Symbol>, b: seq<Symbol>)
    requires Erased(a + b)
    ensures Erased(a) && Erased(b)
  {
    assert forall i | 0 <= i < |a| :: (a + b)[i] == a[i];
    assert forall i | 0 <= i < |b| :: (a + b)[|a| + i] == b[i];
  }

  lemma {:induction false} ListTailSound<T(!new)>(item: ItemParser<T>, front: seq<seq<Symbol>>, items: seq<T>,
                                                  ts: seq<Symbol>)
    returns (ys: seq<seq<Symbol>>)
    requires Shrinks(item) && SoundItem(item) && Erased(ts) && ListTail(item, items, ts).Parsed?
    requires front != [] && AllRead(item, front, items) && AllErased(front)
    ensures ys != [] && AllErased(ys) && AllRead(item, ys, ListTail(item, items, ts).value)
    ensures CommaYield(front) + ts == CommaYield(ys) + ListTail(item, items, ts).rest
    ensures Erased(ListTail(item, items, ts).rest)
    decreases |ts|
  {
    hide Erased, Reads;
    if Kind(ts) == Comma {
      ErasedStep(ts);
      var first := item(ts[1..]);
      var y := ItemSound(item, ts[1..]);
      ReadSnoc(item, front, items, y, first.value);
      Regroup(CommaYield(front), ts[0], y, first.rest, ts);
      assert (front + [y])[..|front|] == front;
      ys := ListTailSound(item, front + [y], items + [first.value], first.rest);
    } else {
      ys := front;
    }
  }

  lemma ErasedStep(ts: seq<Symbol>)
    requires Erased(ts) && Kind(ts) == Comma && ts != []
    ensures ts[0] == Grammar.Keyword(Comma) && Erased(ts[1..])
  {
    assert ts == [ts[0]] + ts[1..];
    ErasedParts([ts[0]], ts[1..]);
  }

  lemma ItemSound<T(!new)>(item: ItemParser<T>, ts: seq<Symbol>) returns (y: seq<Symbol>)
    requires SoundItem(item) && Erased(ts) && item(ts).Parsed?
    ensures ts == y + item(ts).rest && Reads(item, y, item(ts).value)
    ensures Erased(y) && Erased(item(ts).rest)
  {
    y :| ts == y + item(ts).rest && Reads(item, y, item(ts).value);
    ErasedParts(y, item(ts).rest);
  }

  lemma ReadSnoc<T(!new)>(item: ItemParser<T>, ys: seq<seq<Symbol>>, xs: seq<T>, y: seq<Symbol>, x: T)
    requires AllRead(item, ys, xs) && Reads(item, y, x)
    ensures AllRead(item, ys + [y], xs + [x])
  {
    hide Reads;
  }

  lemma ListSound<T(!new)>(item: ItemParser<T>, ts: seq<Symbol>) returns (ys: seq<seq<Symbol>>)
    requires Shrinks(item) && SoundItem(item) && Erased(ts) && ParseList(item, ts).Parsed?
    ensures ys != [] && AllErased(ys) && AllRead(item, ys, ParseList(item, ts).value)
    ensures ts == CommaYield(ys) + ParseList(item, ts).rest && Erased(ParseList(item, ts).rest)
  {
    hide Erased, Reads;
    var first := item(ts);
    var y := ItemSound(item, ts);
    ReadSnoc(item, [], [], y, first.value);
    assert [] + [y] == [y] && [] + [first.value] == [first.value];
    ys := ListTailSound(item, [y], [first.value], first.rest);
  }

  // ----- completeness: every statement of the grammar is read as its own tree -----

  lemma NamesRead(names: seq<string>)
    ensures Shrinks(ParseColumnReference) && AllRead(ParseColumnReference, NameYields(names), NameTrees(names))
  {
    forall i | 0 <= i < |names| ensures Reads(ParseColumnReference, NameYields(names)[i], NameTrees(names)[i]) {
      forall rest ensures ParseColumnReference(Named(names[i], []) + rest) == Parsed(ColumnRef(names[i]), rest) {
        assert (Named(names[i], []) + rest)[1..] == rest;
      }
    }
  }

  lemma DefinitionReads(d: ColumnDefinition)
    ensures Reads(ParseColumnDefinition, DefinitionYield(d), d)
  {
    forall rest ensures ParseColumnDefinition(DefinitionYield(d) + rest) == Parsed(d, rest) {
      assert DefinitionYield(d) + rest == Named(d.name, Then(TypeKind(d.columnType), rest));
    }
  }

  lemma DefinitionsRead(definitions: seq<ColumnDefinition>)
    ensures Shrinks(ParseColumnDefinition) && AllRead(ParseColumnDefinition, DefinitionYields(definitions), definitions)
  {
    forall i | 0 <= i < |definitions|
      ensures Reads(ParseColumnDefinition, DefinitionYields(definitions)[i], definitions[i])
    {
      DefinitionReads(definitions[i]);
    }
  }

  lemma ValuesRead(values: seq<PrimaryD>)
    requires forall i | 0 <= i < |values| :: PrimaryOk(values[i])
    ensures Shrinks(ParsePrimary) && AllRead(ParsePrimary, ValueYields(values), ValueTrees(values))
  {
    forall i | 0 <= i < |values| ensures Reads(ParsePrimary, ValueYields(values)[i], ValueTrees(values)[i]) {
      forall rest ensures ParsePrimary(PrimaryYield(values[i]) + rest) == Parsed(PrimaryTree(values[i]), rest) {
        PrimaryComplete(values[i], rest);
      }
    }
  }

  lemma TableComplete(t: TableD, after: seq<Symbol>)
    requires Kind(after) != Dot
    ensures ParseTableReference(TableYield(t, after)) == Parsed(TableTree(t), after)
  {
  }

  lemma FromComplete(selectAll: bool, columns: seq<Expression>, t: TableD, condition: Option<OrD>, semicolon: bool)
    requires ConditionOk(condition)
    ensures ParseFrom(selectAll, columns, FromYield(t, condition, EndYield(semicolon)))
      == Parsed(Statement.Select(selectAll, columns, TableTree(t), ConditionTree(condition)), [])
  {
    hide Then, ParseTableReference, TableYield, ParseOr, OrYield, OrTree, OrOk;
    TableComplete(t, ConditionYield(condition, EndYield(semicolon)));
    if condition.Some? {
      OrComplete(condition.value, EndYield(semicolon));
    }
  }

  lemma SelectComplete(names: seq<string>, t: TableD, condition: Option<OrD>, semicolon: bool)
    requires names != [] && ConditionOk(condition)
    ensures ParseSelect(CommaYield(NameYields(names)) + FromYield(t, condition, EndYield(semicolon)))
      == Parsed(Statement.Select(false, NameTrees(names), TableTree(t), ConditionTree(condition)), [])
  {
    hide ParseFrom, ParseList, ConditionTree, TableTree, Then, Named, TableYield, CommaYield, NameYields, NameTrees;
    var after := FromYield(t, condition, EndYield(semicolon));
    NamesRead(names);
    ListComplete(ParseColumnReference, NameYields(names), NameTrees(names), after);
    FromComplete(false, NameTrees(names), t, condition, semicolon);
    NamesStart(names, after);
  }

  lemma NamesStart(names: seq<string>, after: seq<Symbol>)
    requires names != []
    ensures Kind(CommaYield(NameYields(names)) + after) == Identifier
  {
    hide CommaYield;
    NamesStartWithName(NameYields(names));
  }

  lemma {:induction false} NamesStartWithName(ys: seq<seq<Symbol>>)
    requires ys != [] && forall i | 0 <= i < |ys| :: Kind(ys[i]) == Identifier
    ensures Kind(CommaYield(ys)) == Identifier
    decreases |ys|
  {
    if |ys| != 1 {
      NamesStartWithName(ys[..|ys| - 1]);
    }
  }

  lemma FinishComplete(s: Statement, semicolon: bool)
    ensures Finish(s, EndYield(semicolon)) == Parsed(s, [])
  {
  }

  lemma CreateTableComplete(t: TableD, definitions: seq<ColumnDefinition>, semicolon: bool)
    requires definitions != []
    ensures var body := TableYield(t, ListYield(DefinitionYields(definitions), EndYield(semicolon)));
      ParseCreate(Then(TokenKind.Table, body)) == Parsed(CreateTable(TableTree(t), definitions), [])
  {
    hide ParseTableReference, TableYield, ParseList, CommaYield, Then, Named, Finish, EndYield, DefinitionYields;
    FinishComplete(CreateTable(TableTree(t), definitions), semicolon);
    TableComplete(t, ListYield(DefinitionYields(definitions), EndYield(semicolon)));
    DefinitionsRead(definitions);
    ListComplete(ParseColumnDefinition, DefinitionYields(definitions), definitions, Then(RParen, EndYield(semicolon)));
  }

  lemma InsertComplete(t: TableD, values: seq<PrimaryD>, semicolon: bool)
    requires values != [] && forall i | 0 <= i < |values| :: PrimaryOk(values[i])
    ensures var list := ListYield(ValueYields(values), EndYield(semicolon));
      ParseInsert(Then(Into, TableYield(t, Then(TokenKind.Values, list))))
      == Parsed(Statement.Insert(TableTree(t), ValueTrees(values)), [])
  {
    hide ParseTableReference, TableYield, ListYield, PrimaryOk, Then, Named, EndYield, ParseValueClause;
    TableComplete(t, Then(TokenKind.Values, ListYield(ValueYields(values), EndYield(semicolon))));
    ClauseComplete(TableTree(t), values, semicolon);
  }

  lemma ClauseComplete(table: TableReference, values: seq<PrimaryD>, semicolon: bool)
    requires values != [] && forall i | 0 <= i < |values| :: PrimaryOk(values[i])
    ensures ParseValueClause(table, Then(TokenKind.Values, ListYield(ValueYields(values), EndYield(semicolon))))
      == Parsed(Statement.Insert(table, ValueTrees(values)), [])
  {
    hide ParseList, CommaYield, PrimaryOk, Then, Finish, EndYield, ValueYields;
    FinishComplete(Statement.Insert(table, ValueTrees(values)), semicolon);
    ValuesRead(values);
    ListComplete(ParsePrimary, ValueYields(values), ValueTrees(values), Then(RParen, EndYield(semicolon)));
  }

  lemma CreateNameComplete(name: string, semicolon: bool)
    ensures ParseCreate(Then(TokenKind.Schema, Named(name, EndYield(semicolon)))) == Parsed(CreateSchema(name), [])
    ensures ParseCreate(Then(TokenKind.Database, Named(name, EndYield(semicolon)))) == Parsed(CreateDatabase(name), [])
  {
    hide ParseCreateTable, Then, Named;
  }

  lemma StatementComplete(d: StatementD)
    requires BodyOk(d.body)
    ensures ParseStatement(StatementYield(d)) == Parsed(StatementTree(d.body), [])
  {
    hide ParseSelect, CommaYield, TableYield, FromYield, ListYield, ParseCreate, ParseInsert;
    hide PrimaryOk, ConditionTree, Then, Named, EndYield, ConditionOk, TableTree;
    hide NameYields, ValueYields, DefinitionYields, NameTrees, ValueTrees, Finish;
    SentenceStarts(d.body, EndYield(d.semicolon));
    match d.body
    case SelectAllD(t, condition) => SelectAllComplete(t, condition, d.semicolon);
    case SelectD(names, t, condition) => SelectComplete(names, t, condition, d.semicolon);
    case CreateTableD(t, definitions) => CreateTableComplete(t, definitions, d.semicolon);
    case CreateSchemaD(name) => CreateNameComplete(name, d.semicolon);
    case CreateDatabaseD(name) => CreateNameComplete(name, d.semicolon);
    case InsertD(t, values) => InsertComplete(t, values, d.semicolon);
  }

  lemma SentenceStarts(b: BodyD, after: seq<Symbol>)
    requires BodyOk(b)
    ensures Kind(BodyYield(b, after)) ==
      if b.SelectAllD? || b.SelectD? then TokenKind.Select
      else if b.InsertD? then TokenKind.Insert
      else TokenKind.Create
  {
    hide Then, Named, CommaYield, TableYield, FromYield, ListYield, NameYields, ValueYields, DefinitionYields;
  }

  lemma SelectAllComplete(t: TableD, condition: Option<OrD>, semicolon: bool)
    requires ConditionOk(condition)
    ensures ParseSelect(Then(Star, FromYield(t, condition, EndYield(semicolon))))
      == Parsed(Statement.Select(true, [], TableTree(t), ConditionTree(condition)), [])
  {
    hide ParseFrom, FromYield, Then, ConditionTree, EndYield;
    FromComplete(true, [], t, condition, semicolon);
  }

  // ----- soundness: whatever statement is read derives the symbols -----

  lemma NamesSound()
    ensures SoundItem(ParseColumnReference)
  {
    forall ts: seq<Symbol> | Erased(ts) && ParseColumnReference(ts).Parsed?
      ensures exists y ::
        ts == y + ParseColumnReference(ts).rest && Reads(ParseColumnReference, y, ParseColumnReference(ts).value)
    {
      var names := [ts[0].text];
      NamesRead(names);
      assert Reads(ParseColumnReference, NameYields(names)[0], NameTrees(names)[0]);
      assert ts == NameYields(names)[0] + ts[1..];
    }
  }

  lemma DefinitionsSound()
    ensures SoundItem(ParseColumnDefinition)
  {
    forall ts: seq<Symbol> | Erased(ts) && ParseColumnDefinition(ts).Parsed?
      ensures exists y ::
        ts == y + ParseColumnDefinition(ts).rest && Reads(ParseColumnDefinition, y, ParseColumnDefinition(ts).value)
    {
      DefinitionReads(ParseColumnDefinition(ts).value);
      DefinitionSound(ts);
    }
  }

  lemma DefinitionSound(ts: seq<Symbol>)
    requires Erased(ts) && ParseColumnDefinition(ts).Parsed?
    ensures ts == DefinitionYield(ParseColumnDefinition(ts).value) + ParseColumnDefinition(ts).rest
  {
    assert ts == [ts[0]] + ([ts[1]] + ts[2..]);
  }

  lemma ValuesSound()
    ensures SoundItem(ParsePrimary)
  {
    forall ts: seq<Symbol> | Erased(ts) && ParsePrimary(ts).Parsed?
      ensures exists y :: ts == y + ParsePrimary(ts).rest && Reads(ParsePrimary, y, ParsePrimary(ts).value)
    {
      var d := PrimarySound(ts);
      ValuesRead([d]);
      assert Reads(ParsePrimary, ValueYields([d])[0], ValueTrees([d])[0]);
    }
  }

  lemma ReadAlone<T(!new)>(item: ItemParser<T>, y: seq<Symbol>, x: T)
    requires Reads(item, y, x)
    ensures item(y) == Parsed(x, [])
  {
    assert y + [] == y;
    assert item(y + []) == Parsed(x, []);
  }

  lemma NameListSound(ts: seq<Symbol>) returns (names: seq<string>)
    requires Erased(ts) && Shrinks(ParseColumnReference) && ParseList(ParseColumnReference, ts).Parsed?
    ensures names != [] && NameTrees(names) == ParseList(ParseColumnReference, ts).value
    ensures ts == CommaYield(NameYields(names)) + ParseList(ParseColumnReference, ts).rest
    ensures Erased(ParseList(ParseColumnReference, ts).rest)
  {
    hide ParseList, CommaYield, Reads;
    NamesSound();
    var ys := ListSound(ParseColumnReference, ts);
    var value := ParseList(ParseColumnReference, ts).value;
    forall i | 0 <= i < |ys| ensures value[i].ColumnRef? && ys[i] == Named(value[i].name, []) {
      ReadAlone(ParseColumnReference, ys[i], value[i]);
      assert ys[i] == [ys[i][0]] + ys[i][1..];
    }
    names := seq(|value|, i requires 0 <= i < |value| => value[i].name);
    assert NameYields(names) == ys && NameTrees(names) == value;
  }

  lemma DefinitionListSound(ts: seq<Symbol>)
    requires Erased(ts) && Shrinks(ParseColumnDefinition) && ParseList(ParseColumnDefinition, ts).Parsed?
    ensures var r := ParseList(ParseColumnDefinition, ts);
      r.value != [] && ts == CommaYield(DefinitionYields(r.value)) + r.rest && Erased(r.rest)
  {
    hide ParseList, CommaYield, Reads;
    DefinitionsSound();
    var ys := ListSound(ParseColumnDefinition, ts);
    var value := ParseList(ParseColumnDefinition, ts).value;
    forall i | 0 <= i < |ys| ensures ys[i] == DefinitionYield(value[i]) {
      ReadAlone(ParseColumnDefinition, ys[i], value[i]);
      DefinitionSound(ys[i]);
    }
    assert DefinitionYields(value) == ys;
  }

  lemma ValueListSound(ts: seq<Symbol>) returns (values: seq<PrimaryD>)
    requires Erased(ts) && Shrinks(ParsePrimary) && ParseList(ParsePrimary, ts).Parsed?
    ensures values != [] && forall i | 0 <= i < |values| :: PrimaryOk(values[i])
    ensures ValueTrees(values) == ParseList(ParsePrimary, ts).value
    ensures ts == CommaYield(ValueYields(values)) + ParseList(ParsePrimary, ts).rest
    ensures Erased(ParseList(ParsePrimary, ts).rest)
  {
    hide ParseList, CommaYield, Reads;
    ValuesSound();
    var ys := ListSound(ParsePrimary, ts);
    var value := ParseList(ParsePrimary, ts).value;
    values := [];
    for i := 0 to |ys|
      invariant |values| == i
      invariant forall j | 0 <= j < i ::
        PrimaryOk(values[j]) && PrimaryYield(values[j]) == ys[j] && PrimaryTree(values[j]) == value[j]
    {
      ReadAlone(ParsePrimary, ys[i], value[i]);
      var d := PrimarySound(ys[i]);
      assert PrimaryYield(d) + [] == PrimaryYield(d);
      values := values + [d];
    }
    assert ValueYields(values) == ys && ValueTrees(values) == value;
  }

  lemma ErasedCons(ts: seq<Symbol>, kind: TokenKind)
    requires Erased(ts) && ts != [] && Kind(ts) == kind
    ensures Erased(ts[1..])
    ensures !CarriesText(kind) ==> ts == Then(kind, ts[1..])
    ensures kind == Identifier ==> ts == Named(ts[0].text, ts[1..])
  {
    assert ts == [ts[0]] + ts[1..];
    ErasedParts([ts[0]], ts[1..]);
  }

  lemma TableSound(ts: seq<Symbol>) returns (t: TableD)
    requires Erased(ts) && ParseTableReference(ts).Parsed?
    ensures TableTree(t) == ParseTableReference(ts).value
    ensures ts == TableYield(t, ParseTableReference(ts).rest) && Erased(ParseTableReference(ts).rest)
  {
    hide Erased, Then, Named;
    ErasedCons(ts, Identifier);
    var rest := ts[1..];
    if Kind(rest) == Dot {
      ErasedCons(rest, Dot);
      ErasedCons(rest[1..], Identifier);
      t := Qualified(ts[0].text, rest[1].text);
    } else {
      t := Unqualified(ts[0].text);
    }
  }

  lemma FinishSound(statement: Statement, ts: seq<Symbol>) returns (semicolon: bool)
    requires Erased(ts) && Finish(statement, ts).Parsed?
    ensures Finish(statement, ts) == Parsed(statement, []) && ts == EndYield(semicolon)
  {
    semicolon := Kind(ts) == Semicolon;
    if semicolon {
      ErasedCons(ts, Semicolon);
      assert ts[1..] == [];
    }
  }

  lemma FromSound(selectAll: bool, columns: seq<Expression>, ts: seq<Symbol>)
    returns (t: TableD, condition: Option<OrD>, semicolon: bool)
    requires Erased(ts) && ParseFrom(selectAll, columns, ts).Parsed?
    ensures ConditionOk(condition)
    ensures ParseFrom(selectAll, columns, ts)
      == Parsed(Statement.Select(selectAll, columns, TableTree(t), ConditionTree(condition)), [])
    ensures ts == FromYield(t, condition, EndYield(semicolon))
  {
    hide Erased, Then, Named, ParseOr, OrYield, OrTree, OrOk, ParseTableReference, TableYield, TableTree;
    hide Finish, EndYield;
    ErasedCons(ts, From);
    t := TableSound(ts[1..]);
    var table, rest := ParseTableReference(ts[1..]).value, ParseTableReference(ts[1..]).rest;
    if Kind(rest) == Where {
      ErasedCons(rest, Where);
      var d := OrSound(rest[1..]);
      condition := Some(d);
      semicolon := FinishSound(Statement.Select(selectAll, columns, table, Some(OrTree(d))), ParseOr(rest[1..]).rest);
    } else {
      condition := None;
      semicolon := FinishSound(Statement.Select(selectAll, columns, table, None), rest);
    }
  }

  lemma SelectSound(ts: seq<Symbol>) returns (d: StatementD)
    requires Erased(ts) && ParseSelect(ts).Parsed?
    ensures BodyOk(d.body) && ParseSelect(ts) == Parsed(StatementTree(d.body), [])
    ensures Then(TokenKind.Select, ts) == StatementYield(d)
  {
    hide Erased, Then, Named, ParseFrom, ParseList, FromYield, CommaYield, ConditionTree, ConditionOk, EndYield;
    if Kind(ts) == Star {
      ErasedCons(ts, Star);
      var t, condition, semicolon := FromSound(true, [], ts[1..]);
      d := StatementD(SelectAllD(t, condition), semicolon);
    } else {
      var names := NameListSound(ts);
      var t, condition, semicolon := FromSound(false, NameTrees(names), ParseList(ParseColumnReference, ts).rest);
      d := StatementD(SelectD(names, t, condition), semicolon);
    }
  }

  lemma CreateTableSound(ts: seq<Symbol>) returns (d: StatementD)
    requires Erased(ts) && ParseCreateTable(ts).Parsed?
    ensures BodyOk(d.body) && ParseCreateTable(ts) == Parsed(StatementTree(d.body), [])
    ensures Then(TokenKind.Create, Then(TokenKind.Table, ts)) == StatementYield(d)
  {
    hide Erased, Then, Named, ParseTableReference, TableYield, TableTree, ParseList, CommaYield, Finish, EndYield;
    var t := TableSound(ts);
    var rest := ParseTableReference(ts).rest;
    ErasedCons(rest, LParen);
    DefinitionListSound(rest[1..]);
    var list := ParseList(ParseColumnDefinition, rest[1..]);
    ErasedCons(list.rest, RParen);
    var semicolon := FinishSound(CreateTable(TableTree(t), list.value), list.rest[1..]);
    d := StatementD(CreateTableD(t, list.value), semicolon);
  }

  lemma InsertSound(ts: seq<Symbol>) returns (d: StatementD)
    requires Erased(ts) && ParseInsert(ts).Parsed?
    ensures BodyOk(d.body) && ParseInsert(ts) == Parsed(StatementTree(d.body), [])
    ensures Then(TokenKind.Insert, ts) == StatementYield(d)
  {
    hide Erased, Then, Named, ParseTableReference, TableYield, TableTree, ListYield, PrimaryOk, ParseValueClause;
    hide EndYield;
    ErasedCons(ts, Into);
    var t := TableSound(ts[1..]);
    var values, semicolon := ClauseSound(TableTree(t), ParseTableReference(ts[1..]).rest);
    d := StatementD(InsertD(t, values), semicolon);
  }

  lemma ClauseSound(table: TableReference, ts: seq<Symbol>) returns (values: seq<PrimaryD>, semicolon: bool)
    requires Erased(ts) && ParseValueClause(table, ts).Parsed?
    ensures values != [] && forall i | 0 <= i < |values| :: PrimaryOk(values[i])
    ensures ParseValueClause(table, ts) == Parsed(Statement.Insert(table, ValueTrees(values)), [])
    ensures ts == Then(TokenKind.Values, ListYield(ValueYields(values), EndYield(semicolon)))
  {
    hide Erased, Then, ParseList, CommaYield, PrimaryOk, Finish, EndYield;
    ErasedCons(ts, TokenKind.Values);
    ErasedCons(ts[1..], LParen);
    values := ValueListSound(ts[1..][1..]);
    var list := ParseList(ParsePrimary, ts[1..][1..]);
    ErasedCons(list.rest, RParen);
    semicolon := FinishSound(Statement.Insert(table, list.value), list.rest[1..]);
  }

  lemma CreateSound(ts: seq<Symbol>) returns (d: StatementD)
    requires Erased(ts) && ParseCreate(ts).Parsed?
    ensures BodyOk(d.body) && ParseCreate(ts) == Parsed(StatementTree(d.body), [])
    ensures Then(TokenKind.Create, ts) == StatementYield(d)
  {
    hide Erased, Then, Named, ParseCreateTable, Finish, EndYield;
    var kind := Kind(ts);
    ErasedCons(ts, kind);
    if kind == TokenKind.Table {
      d := CreateTableSound(ts[1..]);
    } else {
      ErasedCons(ts[1..], Identifier);
      var name := ts[1].text;
      var body := if kind == TokenKind.Schema then CreateSchemaD(name) else CreateDatabaseD(name);
      var semicolon := FinishSound(StatementTree(body), ts[1..][1..]);
      d := StatementD(body, semicolon);
    }
  }

  /** The symbols of a statement that is read are the sentence of a derivation of that statement. */
  lemma StatementSound(ts: seq<Symbol>) returns (d: StatementD)
    requires Erased(ts) && ParseStatement(ts).Parsed?
    ensures BodyOk(d.body) && ParseStatement(ts) == Parsed(StatementTree(d.body), [])
    ensures ts == StatementYield(d)
  {
    hide Erased, Then, StatementYield, BodyOk, StatementTree, ParseSelect, ParseCreate, ParseInsert;
    var kind := Kind(ts);
    ErasedCons(ts, kind);
    if kind == TokenKind.Select {
      d := SelectSound(ts[1..]);
    } else if kind == TokenKind.Create {
      d := CreateSound(ts[1..]);
    } else {
      d := InsertSound(ts[1..]);
    }
  }
}
