/** One line of SQL from text to answer (src/repl/repl.cpp), and whole scripts of them. */
module Engine {
  import opened Prelude
  import opened Ast
  import opened Tokens
  import opened ParserSpec
  import opened Parsers
  import opened CatalogModel
  import opened Sessions
  import opened RunTheorems
  import Binder
  import Executor

  /** What the shell does with a line; an empty line is passed over in silence. */
  datatype Answer =
    | Silence
    | Help
    | SyntaxError(line: nat, column: nat)
    | Answered(result: Outcome<ExecutionResult>)

  // ----- lines -----

  const CONNECT := ".connect "

  predicate IsHelpCommand(line: string) {
    line == ".help"
  }

  predicate IsConnectCommand(line: string) {
    CONNECT <= line
  }

  function ConnectTarget(line: string): string
    requires IsConnectCommand(line)
  {
    line[|CONNECT|..]
  }

  /** The statement a text is read as, if it is one. */
  function Read(sql: string): Parsed<Statement> {
    ParseStatement(Symbols(sql, 0))
  }

  /** What a text does: the statement it is read as, or nothing. */
  function SqlSteps(sql: string): seq<Step> {
    match Read(sql)
    case Stuck(_) => []
    case Parsed(s, _) => [Submit(s)]
  }

  function StepsOf(line: string): seq<Step> {
    if line == "" || IsHelpCommand(line) then []
    else if IsConnectCommand(line) then
      if ConnectTarget(line) == "" then [] else [Connect(ConnectTarget(line))]
    else SqlSteps(line)
  }

  function Steps(script: seq<string>): seq<Step> {
    if script == [] then [] else Steps(script[..|script| - 1]) + StepsOf(script[|script| - 1])
  }

  /** The answer a text gets in a world. */
  ghost predicate IsSqlAnswer(answer: Answer, sql: string, w: World)
    requires WorldOk(w)
  {
    match Read(sql)
    case Stuck(rest) => answer.SyntaxError? && IsLocation(answer.line, answer.column, sql, |rest|)
    case Parsed(s, _) => answer == Answered(RunStatement(s, w).0)
  }

  ghost predicate IsAnswer(answer: Answer, line: string, w: World)
    requires WorldOk(w)
  {
    if line == "" then answer == Silence
    else if IsHelpCommand(line) then answer == Help
    else if IsConnectCommand(line) then
      var database := ConnectTarget(line);
      answer == Answered(if database != "" && database in w.databases then Ok(Done) else Fail)
    else IsSqlAnswer(answer, line, w)
  }

  method ParseSql(sql: string) returns (parsed: ParseResult<Statement>)
    ensures match Read(sql)
      case Parsed(s, _) => parsed == ParseOk(s)
      case Stuck(rest) => parsed.ParseError? && IsLocation(parsed.line, parsed.column, sql, |rest|)
  {
    hide ParseStatement, Symbols, Parser.Valid, Parser.Remaining, IsLocation;
    var parser := new Parser(sql);
    parsed := parser.ParseOneStatement();
    parser.ErrorLocation();
  }

  method ProcessSql(session: Session, sql: string) returns (answer: Answer)
    requires session.Valid()
    modifies session.Repr
    ensures session.Valid() && fresh(session.Repr - old(session.Repr))
    ensures IsSqlAnswer(answer, sql, old(session.world))
    ensures session.world == Run(SqlSteps(sql), old(session.world))
  {
    hide Session.Valid, WorldOk, CatalogModel.Bind, CatalogModel.Execute, Read, IsLocation, Run;
    RunShort(SqlSteps(sql), session.world);
    var parsed := ParseSql(sql);
    if parsed.ParseError? {
      return SyntaxError(parsed.line, parsed.column);
    }
    var bound := Binder.Bind(session, parsed.value);
    if !bound.Ok? {
      return Answered(bound.PropagateFailure());
    }
    var result := Executor.Execute(session, bound.value);
    return Answered(result);
  }

  lemma RunShort(steps: seq<Step>, w: World)
    requires WorldOk(w) && |steps| <= 1
    ensures Run(steps, w) == if steps == [] then w else Perform(steps[0], w)
  {
    hide Perform;
    if steps != [] {
      assert steps[..0] == [];
    }
  }

  method ProcessLine(session: Session, line: string) returns (answer: Answer)
    requires session.Valid()
    modifies session.Repr
    ensures session.Valid() && fresh(session.Repr - old(session.Repr))
    ensures IsAnswer(answer, line, old(session.world))
    ensures session.world == Run(StepsOf(line), old(session.world))
  {
    hide Session.Valid, WorldOk, Run, RunStatement, SqlSteps, IsSqlAnswer;
    if line == "" {
      RunShort([], session.world);
      return Silence;
    }
    if IsHelpCommand(line) {
      RunShort([], session.world);
      return Help;
    }
    if IsConnectCommand(line) {
      var database := ConnectTarget(line);
      RunShort(StepsOf(line), session.world);
      if database == "" {
        return Answered(Fail);
      }
      var status := session.Connect(database);
      return Answered(if status.Success? then Ok(Done) else Fail);
    }
    answer := ProcessSql(session, line);
  }

  // ----- scripts -----

  lemma {:induction false} RunAppend(front: seq<Step>, more: seq<Step>, w: World)
    requires WorldOk(w)
    ensures Run(front + more, w) == Run(more, Run(front, w))
    decreases |more|
  {
    hide Perform;
    if more == [] {
      assert front + more == front;
    } else {
      RunAppend(front, more[..|more| - 1], w);
      assert (front + more)[..|front + more| - 1] == front + more[..|more| - 1];
    }
  }

  lemma ScriptStep(script: seq<string>, n: nat, w: World)
    requires n < |script| && WorldOk(w)
    ensures Run(Steps(script[..n + 1]), w)
      == Run(StepsOf(script[n]), Run(Steps(script[..n]), w))
  {
    hide StepsOf, Run;
    assert script[..n + 1][..n] == script[..n];
    RunAppend(Steps(script[..n]), StepsOf(script[n]), w);
  }

  lemma EmptyScript(script: seq<string>, w: World)
    requires WorldOk(w)
    ensures Run(Steps(script[..0]), w) == w
  {
  }

  /** The session refines the model over a whole script, and every line gets the model's answer. */
  method RunScript(session: Session, script: seq<string>) returns (answers: seq<Answer>)
    requires session.Valid()
    modifies session.Repr
    ensures session.Valid() && fresh(session.Repr - old(session.Repr))
    ensures session.world == Run(Steps(script), old(session.world))
    ensures |answers| == |script|
    ensures forall i | 0 <= i < |script| ::
      IsAnswer(answers[i], script[i], Run(Steps(script[..i]), old(session.world)))
  {
    hide Session.Valid, WorldOk, Run, Steps, StepsOf, IsAnswer;
    answers := [];
    EmptyScript(script, session.world);
    for n := 0 to |script|
      invariant session.Valid() && fresh(session.Repr - old(session.Repr))
      invariant session.world == Run(Steps(script[..n]), old(session.world))
      invariant |answers| == n
      invariant forall i | 0 <= i < n ::
        IsAnswer(answers[i], script[i], Run(Steps(script[..i]), old(session.world)))
    {
      ScriptStep(script, n, old(session.world));
      var answer := ProcessLine(session, script[n]);
      answers := answers + [answer];
    }
    assert script[..|script|] == script;
  }
}
