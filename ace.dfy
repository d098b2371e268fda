/**
 * The per-client REPL session of the ACE plugin and the registry that hands
 * sessions out. A session owns an optional environment (created on first
 * evaluation, discarded by a reset) and an optional source buffer that
 * collects submissions ending in the continuation character '#'.
 */
module Ace {
  import opened Wrappers
  import opened JavaText
  import opened Jici
  import opened Display
  import opened Pager

  const CONTINUATION: char := '#'
  const BUFFERED: string := "Buffered code"
  const NOTHING_TO_EVALUATE: string := "Nothing to evaluate"
  const SUCCESS: string := "Success"
  const UNKNOWN_EXCEPTION: string := "Unknown exception, see console"
  const NO_ACTIVE_CONTEXT: string := "No active context"
  const BAD_PAGE: string := "Page must be a number greater or equal to 1"
  const CONTEXT_DELETED: string := "Context deleted"
  const JAVA_LANG: string := "java.lang."

  /** The two mutable fields of a session. */
  datatype SessionState = SessionState(environment: Option<Environment>, sourceBuffer: Option<string>)

  const NEW_SESSION := SessionState(None, None)

  /** The new state after one call, and what the call sent. */
  datatype Step = Step(state: SessionState, sent: Sent)

  /** The environment after running the pipeline on some text, and what was sent. */
  datatype Evaluation = Evaluation(env: Environment, sent: Sent)

  // ---------------------------------------------------------------------------
  // Evaluation

  /** `createEnvironment`: a new environment with `game`, `me` and `printer` declared. */
  function SeededEnvironment(jici: Interpreter, user: ClientId): (env: Environment)
    ensures env.classes == jici.defaultClasses
    ensures env.variables == [
      Variable("game", jici.classOf(Game), Some(ObjectValue(Game))),
      Variable("me", jici.classOf(Source(user)), Some(ObjectValue(Source(user)))),
      Variable("printer", jici.classOf(Printer(user)), Some(ObjectValue(Printer(user))))]
  {
    var empty := Environment([], jici.defaultClasses);
    DeclareObject(jici, DeclareObject(jici, DeclareObject(jici, empty, "game", Game), "me", Source(user)), "printer", Printer(user))
  }

  /** The two catch blocks of `eval`: a source error is rendered with its position, any
      other exception gets one opaque line. Either way the message line comes first. */
  function FailureReplies(failure: Failure): (r: Sent)
    ensures |r.replies| >= 1 && r.replies[0].Problem?
    ensures failure.OtherException? ==> r == Sent([Problem(UNKNOWN_EXCEPTION)], false)
    ensures failure.SourceError? ==> r.replies[0] == Problem(failure.info.message)
    ensures failure.SourceError? ==> r == ErrorReplies(failure.info)
    ensures |r.replies| == 2 || r.escaped ==> failure.SourceError?
  {
    match failure
    case SourceError(info) => ErrorReplies(info)
    case OtherException => Sent([Problem(UNKNOWN_EXCEPTION)], false)
  }

  /** decode, lex, then statements (last token ';') or a single expression, on `env`. */
  function Execute(jici: Interpreter, env: Environment, code: string): (r: Evaluation)
    ensures 1 <= |r.sent.replies| <= 2
    ensures r.sent.escaped ==> |r.sent.replies| == 1 && r.sent.replies[0].Problem?
    ensures |r.sent.replies| == 2 ==> r.sent.replies[0].Problem? && r.sent.replies[1].Highlight?
    // A throw before any statement or expression runs leaves the environment as it was and
    // is rendered as that failure.
    ensures jici.decode(code).Threw? ==> r == Evaluation(env, FailureReplies(jici.decode(code).failure))
    ensures jici.decode(code).Ok? && jici.lex(jici.decode(code).value).Threw? ==>
      r == Evaluation(env, FailureReplies(jici.lex(jici.decode(code).value).failure))
    ensures jici.decode(code).Ok? && jici.lex(jici.decode(code).value) == Ok([]) ==>
      r == Evaluation(env, Sent([Problem(NOTHING_TO_EVALUATE)], false))
    ensures jici.decode(code).Ok? && jici.lex(jici.decode(code).value).Ok? ==>
      var tokens := jici.lex(jici.decode(code).value).value;
      |tokens| > 0 && tokens[|tokens| - 1] == Semicolon && jici.parse(tokens).Threw? ==>
        r == Evaluation(env, FailureReplies(jici.parse(tokens).failure))
    ensures jici.decode(code).Ok? && jici.lex(jici.decode(code).value).Ok? ==>
      var tokens := jici.lex(jici.decode(code).value).value;
      |tokens| > 0 && tokens[|tokens| - 1] != Semicolon && jici.parseExpression(tokens).Threw? ==>
        r == Evaluation(env, FailureReplies(jici.parseExpression(tokens).failure))
    // On the expression path a throw from getType keeps the environment; one from getValue
    // keeps whatever getValue did to it.
    ensures jici.decode(code).Ok? && jici.lex(jici.decode(code).value).Ok? ==>
      var tokens := jici.lex(jici.decode(code).value).value;
      |tokens| > 0 && tokens[|tokens| - 1] != Semicolon && jici.parseExpression(tokens).Ok? ==>
        var expression := jici.parseExpression(tokens).value;
        && (expression.getType(env).Threw? ==> r == Evaluation(env, FailureReplies(expression.getType(env).failure)))
        && (expression.getType(env).Ok? && expression.getValue(env).outcome.Threw? ==>
              r == Evaluation(expression.getValue(env).env, FailureReplies(expression.getValue(env).outcome.failure)))
  {
    match jici.decode(code)
    case Threw(f) => Evaluation(env, FailureReplies(f))
    case Ok(decoded) =>
      match jici.lex(decoded)
      case Threw(f) => Evaluation(env, FailureReplies(f))
      case Ok(tokens) =>
        if |tokens| == 0 then Evaluation(env, Sent([Problem(NOTHING_TO_EVALUATE)], false))
        else if tokens[|tokens| - 1].Semicolon? then
          match jici.parse(tokens)
          case Threw(f) => Evaluation(env, FailureReplies(f))
          case Ok(statements) =>
            var run := RunStatements(statements, env);
            match run.outcome
            case Threw(f) => Evaluation(run.env, FailureReplies(f))
            case Ok(_) => Evaluation(run.env, Sent([Info(SUCCESS)], false))
        else
          match jici.parseExpression(tokens)
          case Threw(f) => Evaluation(env, FailureReplies(f))
          case Ok(expression) =>
            match expression.getType(env)
            case Threw(f) => Evaluation(env, FailureReplies(f))
            case Ok(t) =>
              var v := expression.getValue(env);
              match v.outcome
              case Threw(f) => Evaluation(v.env, FailureReplies(f))
              case Ok(value) => Evaluation(v.env, Sent([Info("Type: " + t.name + " Value: " + jici.asString(value))], false))
  }

  /** The text a submission evaluates: any buffered text, then the submission. */
  function FlushedText(sourceBuffer: Option<string>, code: string): string {
    sourceBuffer.GetOr("") + code
  }

  /** `eval(code)` on a session in state `s`. */
  function EvalStep(jici: Interpreter, user: ClientId, s: SessionState, code: string): (r: Step)
    ensures r.state.environment.Some?
    ensures s.environment.Some? && EndsWith(code, CONTINUATION) ==> r.state.environment == s.environment
    ensures s.environment.None? && EndsWith(code, CONTINUATION) ==>
      r.state.environment == Some(SeededEnvironment(jici, user))
    ensures EndsWith(code, CONTINUATION) ==>
      && r.state.sourceBuffer == Some(s.sourceBuffer.GetOr("") + code[..|code| - 1])
      && r.sent == Sent([Info(BUFFERED)], false)
    ensures !EndsWith(code, CONTINUATION) ==> r.state.sourceBuffer.None?
  {
    var env := if s.environment.Some? then s.environment.value else SeededEnvironment(jici, user);
    if EndsWith(code, CONTINUATION) then
      Step(SessionState(Some(env), Some(s.sourceBuffer.GetOr("") + code[..|code| - 1])), Sent([Info(BUFFERED)], false))
    else
      var e := Execute(jici, env, FlushedText(s.sourceBuffer, code));
      Step(SessionState(Some(e.env), None), e.sent)
  }

  /** A submission without the continuation character evaluates exactly the buffered text
      followed by it, on the existing environment or else a freshly seeded one. */
  lemma FlushEvaluatesBufferThenCode(jici: Interpreter, user: ClientId, s: SessionState, code: string)
    requires !EndsWith(code, CONTINUATION)
    ensures
      var e := Execute(jici, s.environment.GetOr(SeededEnvironment(jici, user)), FlushedText(s.sourceBuffer, code));
      EvalStep(jici, user, s, code) == Step(SessionState(Some(e.env), None), e.sent)
  {
  }

  /** Splitting a submission with the continuation character changes nothing: `a#` then `b`
      leaves the same state and sends the same final replies as `ab`. */
  lemma {:induction false} BufferThenFlush(jici: Interpreter, user: ClientId, s: SessionState, a: string, b: string)
    requires !EndsWith(b, CONTINUATION) && !EndsWith(a + b, CONTINUATION)
    ensures EvalStep(jici, user, EvalStep(jici, user, s, a + [CONTINUATION]).state, b) == EvalStep(jici, user, s, a + b)
  {
    var code := a + [CONTINUATION];
    assert EndsWith(code, CONTINUATION);
    assert code[..|code| - 1] == a;
    var buffered := EvalStep(jici, user, s, code).state;
    assert buffered.sourceBuffer == Some(s.sourceBuffer.GetOr("") + a);
    assert FlushedText(buffered.sourceBuffer, b) == FlushedText(s.sourceBuffer, a + b);
    FlushEvaluatesBufferThenCode(jici, user, buffered, b);
    FlushEvaluatesBufferThenCode(jici, user, s, a + b);
  }

  /** An empty token list replies "Nothing to evaluate" and leaves the environment as it was. */
  lemma NothingToEvaluate(jici: Interpreter, user: ClientId, s: SessionState, code: string)
    requires !EndsWith(code, CONTINUATION)
    requires jici.decode(FlushedText(s.sourceBuffer, code)).Ok?
    requires jici.lex(jici.decode(FlushedText(s.sourceBuffer, code)).value) == Ok([])
    ensures EvalStep(jici, user, s, code) ==
      Step(SessionState(Some(s.environment.GetOr(SeededEnvironment(jici, user))), None), Sent([Problem(NOTHING_TO_EVALUATE)], false))
  {
  }

  /** Statement path: when statements 0..k-1 complete and statement k throws, the environment
      keeps the effects of 0..k (later statements never run) and the only reply is the
      rendering of k's exception. */
  lemma StatementBatchStopsAtFailure(jici: Interpreter, env: Environment, code: string, k: nat)
    requires jici.decode(code).Ok?
    requires jici.lex(jici.decode(code).value).Ok?
    requires
      var tokens := jici.lex(jici.decode(code).value).value;
      |tokens| > 0 && tokens[|tokens| - 1] == Semicolon && jici.parse(tokens).Ok?
    requires
      var statements := jici.parse(jici.lex(jici.decode(code).value).value).value;
      && k < |statements|
      && RunStatements(statements[..k], env).outcome.Ok?
      && statements[k].execute(RunStatements(statements[..k], env).env).outcome.Threw?
    ensures
      var statements := jici.parse(jici.lex(jici.decode(code).value).value).value;
      var failed := statements[k].execute(RunStatements(statements[..k], env).env);
      Execute(jici, env, code) == Evaluation(failed.env, FailureReplies(failed.outcome.failure))
  {
    var statements := jici.parse(jici.lex(jici.decode(code).value).value).value;
    RunStatementsStopsAt(statements, env, k);
  }

  /** Statement path: when every statement completes (an empty batch included), the single
      reply is "Success" and the environment is the one the batch left: the environment
      passed in for an empty batch, otherwise the one the last statement left. */
  lemma StatementBatchSucceeds(jici: Interpreter, env: Environment, code: string)
    requires jici.decode(code).Ok?
    requires jici.lex(jici.decode(code).value).Ok?
    requires
      var tokens := jici.lex(jici.decode(code).value).value;
      |tokens| > 0 && tokens[|tokens| - 1] == Semicolon && jici.parse(tokens).Ok?
    requires
      var statements := jici.parse(jici.lex(jici.decode(code).value).value).value;
      RunStatements(statements, env).outcome.Ok?
    ensures
      var statements := jici.parse(jici.lex(jici.decode(code).value).value).value;
      Execute(jici, env, code) == Evaluation(RunStatements(statements, env).env, Sent([Info(SUCCESS)], false))
    ensures
      var statements := jici.parse(jici.lex(jici.decode(code).value).value).value;
      |statements| == 0 ==> Execute(jici, env, code) == Evaluation(env, Sent([Info(SUCCESS)], false))
    ensures
      var statements := jici.parse(jici.lex(jici.decode(code).value).value).value;
      var n := |statements|;
      n > 0 ==>
        var last := statements[n - 1].execute(RunStatements(statements[..n - 1], env).env);
        Execute(jici, env, code) == Evaluation(last.env, Sent([Info(SUCCESS)], false))
  {
    var statements := jici.parse(jici.lex(jici.decode(code).value).value).value;
    if |statements| > 0 {
      RunStatementsCompletes(statements, env);
    }
  }

  /** Expression path: any last token other than ';' parses one expression; its type and
      value are shown in one reply. */
  lemma ExpressionPath(jici: Interpreter, env: Environment, code: string)
    requires jici.decode(code).Ok?
    requires jici.lex(jici.decode(code).value).Ok?
    requires
      var tokens := jici.lex(jici.decode(code).value).value;
      |tokens| > 0 && tokens[|tokens| - 1] != Semicolon && jici.parseExpression(tokens).Ok?
    requires
      var expression := jici.parseExpression(jici.lex(jici.decode(code).value).value).value;
      expression.getType(env).Ok? && expression.getValue(env).outcome.Ok?
    ensures
      var expression := jici.parseExpression(jici.lex(jici.decode(code).value).value).value;
      var v := expression.getValue(env);
      Execute(jici, env, code) ==
        Evaluation(v.env, Sent([Info("Type: " + expression.getType(env).value.name + " Value: " + jici.asString(v.outcome.value))], false))
  {
  }

  // ---------------------------------------------------------------------------
  // Listings

  /** A class the imports listing keeps: outside `java.lang.`, or nested in a `java.lang`
      class or in a sub-package of it. */
  predicate KeepClass(name: string)
    ensures KeepClass(name) <==> !StartsWith(name, JAVA_LANG) || exists i :: |JAVA_LANG| <= i < |name| && name[i] == '.'
  {
    !StartsWith(name, JAVA_LANG) || IndexOf(name, '.', |JAVA_LANG|) != -1
  }

  lemma KeepClassExamples()
    ensures !KeepClass("java.lang.String")
    ensures KeepClass("java.lang.Thread.State")
    ensures KeepClass("java.lang.reflect.Method")
    ensures KeepClass("java.util.List")
  {
    assert "java.lang.Thread.State"[..10] == JAVA_LANG && "java.lang.Thread.State"[16] == '.';
    assert "java.lang.reflect.Method"[..10] == JAVA_LANG && "java.lang.reflect.Method"[17] == '.';
    assert "java.util.List"[..10] != JAVA_LANG by { assert "java.util.List"[5] != JAVA_LANG[5]; }
    assert "java.lang.String"[..10] == JAVA_LANG;
  }

  /** The set `filterJavaLangClasses` builds. */
  function JavaLangFiltered(classes: seq<string>): (r: set<string>)
    ensures forall name :: name in r <==> name in classes && KeepClass(name)
  {
    set name | name in classes && KeepClass(name)
  }

  /** `order` lists every element of `s` once: an iteration order of the set. */
  predicate Enumerates(order: seq<string>, s: set<string>) {
    && (forall name :: name in order ==> name in s)
    && (forall name :: name in s ==> name in order)
    && (forall i, j :: 0 <= i < j < |order| ==> order[i] != order[j])
  }

  function ClassEntries(order: seq<string>): (r: seq<Entry>)
    ensures |r| == |order|
    ensures forall i :: 0 <= i < |r| ==> r[i] == ClassEntry(order[i])
  {
    seq(|order|, i requires 0 <= i < |order| => ClassEntry(order[i]))
  }

  function VariableEntries(env: Environment): (r: seq<Entry>)
    ensures |r| == |env.variables|
    ensures forall i :: 0 <= i < |r| ==> r[i] == VariableEntry(env.variables[i])
  {
    seq(|env.variables|, i requires 0 <= i < |env.variables| => VariableEntry(env.variables[i]))
  }

  const NO_ENTRIES: string := "No entries for page "

  /** The error line for a page past the last one; the page number it shows reads back as
      that page. */
  function NoEntries(page: int): (r: Reply)
    ensures r.Problem? && StartsWith(r.text, NO_ENTRIES)
    ensures r.text == NO_ENTRIES + IntToString(page)
    ensures IsInt32(page) ==> ParseInt(r.text[|NO_ENTRIES|..]) == Some(page)
  {
    var text := NO_ENTRIES + IntToString(page);
    assert text[|NO_ENTRIES|..] == IntToString(page);
    assert IsInt32(page) ==> ParseInt(text[|NO_ENTRIES|..]) == Some(page) by {
      if IsInt32(page) {
        ParseIntToString(page);
      }
    }
    Problem(text)
  }

  /** What `printEntries` sends: "No entries for page" past the end, else one line per
      entry of the page. A page from 1 on always gets at least one reply, and never more
      than a page's worth. */
  function PageReplies(jici: Interpreter, entries: seq<Entry>, page: int): (r: seq<Reply>)
    ensures |r| <= ENTRIES_PER_PAGE
    ensures page >= 1 ==> |r| >= 1
    ensures Paginate(entries, page).None? ==> r == [NoEntries(page)]
    ensures Paginate(entries, page).Some? ==> r == EntryTexts(jici, Paginate(entries, page).value)
  {
    match Paginate(entries, page)
    case None => [NoEntries(page)]
    case Some(slice) => EntryTexts(jici, slice)
  }

  /** `printImports` / `printVariables`: the context check first, the page check second, and
      only then the page of entries. */
  function InfoReplies(jici: Interpreter, environment: Option<Environment>, page: int, entries: Environment -> seq<Entry>): (r: seq<Reply>)
    ensures environment.None? ==> r == [Problem(NO_ACTIVE_CONTEXT)]
    ensures environment.Some? && page < 1 ==> r == [Problem(BAD_PAGE)]
    ensures environment.Some? && page >= 1 ==> r == PageReplies(jici, entries(environment.value), page)
  {
    if environment.None? then [Problem(NO_ACTIVE_CONTEXT)]
    else if page < 1 then [Problem(BAD_PAGE)]
    else PageReplies(jici, entries(environment.value), page)
  }

  // ---------------------------------------------------------------------------
  // The `acec` command's arguments

  datatype ContextRequest =
    | ListImports(page: int)
    | ListVariables(page: int)
    | ResetContext
    | UnknownCommand(command: string)
    | MissingCommand

  /** The if-chain of `process`: three known subcommands, anything else is unknown. */
  function Dispatch(command: string, page: int): (r: ContextRequest)
    ensures r.UnknownCommand? <==> command != "imports" && command != "variables" && command != "reset"
    ensures r.UnknownCommand? ==> r.command == command
    ensures command == "imports" ==> r == ListImports(page)
    ensures command == "variables" ==> r == ListVariables(page)
    ensures command == "reset" ==> r == ResetContext
  {
    if command == "imports" then ListImports(page)
    else if command == "variables" then ListVariables(page)
    else if command == "reset" then ResetContext
    else UnknownCommand(command)
  }

  /** `process` up to the dispatch: split on spaces, the first word is the subcommand, the
      second (when present) the page, parsed with -1 on failure; with no words at all
      `arguments[0]` throws. */
  function ParseContextRequest(argumentString: string): (r: ContextRequest)
    ensures r.MissingCommand? <==> |Split(argumentString, ' ')| == 0
    ensures r.UnknownCommand? ==> r.command == Split(argumentString, ' ')[0]
    ensures |Split(argumentString, ' ')| >= 1 ==>
      var command := Split(argumentString, ' ')[0];
      (r.UnknownCommand? <==> command != "imports" && command != "variables" && command != "reset")
    ensures |Split(argumentString, ' ')| >= 1 ==>
      var command := Split(argumentString, ' ')[0];
      && (command == "imports" ==> r.ListImports?)
      && (command == "variables" ==> r.ListVariables?)
      && (command == "reset" ==> r == ResetContext)
    ensures r.ListImports? || r.ListVariables? ==>
      var arguments := Split(argumentString, ' ');
      r.page == if |arguments| >= 2 then ParseIntWithDefault(arguments[1], -1) else 1
  {
    var arguments := Split(argumentString, ' ');
    if |arguments| == 0 then MissingCommand
    else
      var page := if |arguments| >= 2 then ParseIntWithDefault(arguments[1], -1) else 1;
      Dispatch(arguments[0], page)
  }

  lemma SplitTwoWords(a: string, b: string)
    requires ' ' !in a && ' ' !in b && b != ""
    ensures Split(a + " " + b, ' ') == [a, b]
  {
    var s := a + " " + b;
    assert s[|a|] == ' ';
    var k := IndexOf(s, ' ', 0);
    assert k == |a| by {
      assert forall i :: 0 <= i < |a| ==> s[i] == a[i];
      assert forall i :: |a| < i < |s| ==> s[i] == b[i - |a| - 1];
    }
    assert s[k + 1..] == b;
    assert s[..k] == a;
    assert Fields(s, ' ') == [a, b];
  }

  /** A single word is the subcommand, and the page defaults to 1. */
  lemma OneWordRequest(word: string)
    requires ' ' !in word
    ensures ParseContextRequest(word) == Dispatch(word, 1)
  {
  }

  /** With a second word, the page is that word parsed, or -1 when it is not a number. */
  lemma TwoWordRequest(word: string, arg: string)
    requires ' ' !in word && ' ' !in arg && arg != ""
    ensures ParseContextRequest(word + " " + arg) == Dispatch(word, ParseIntWithDefault(arg, -1))
  {
    SplitTwoWords(word, arg);
  }

  /** A page argument that is not a number is read as page -1, which the listing refuses. */
  lemma NonNumericPageRequest(word: string, arg: string)
    requires ' ' !in word && ' ' !in arg
    requires exists i :: 0 <= i < |arg| && !IsDigit(arg[i]) && !(i == 0 && |arg| >= 2 && (arg[0] == '-' || arg[0] == '+'))
    ensures ParseContextRequest(word + " " + arg) == Dispatch(word, -1)
  {
    TwoWordRequest(word, arg);
  }

  /** `<subcommand> <n>` lists page n, for every `int` n. */
  lemma PageNumberRequest(word: string, n: int)
    requires ' ' !in word && IsInt32(n)
    ensures ParseContextRequest(word + " " + IntToString(n)) == Dispatch(word, n)
  {
    var digits := IntToString(n);
    assert ' ' !in digits by {
      if n < 0 {
        assert digits == "-" + NatToString(-n);
        assert forall i :: 1 <= i < |digits| ==> IsDigit(digits[i]) by {
          assert forall i :: 1 <= i < |digits| ==> digits[i] == NatToString(-n)[i - 1];
        }
      }
    }
    TwoWordRequest(word, digits);
    ParseIntToString(n);
  }

  /** Arguments made only of spaces leave no words, and `arguments[0]` throws; the empty
      string is the single word "", an unknown command. */
  lemma BlankArguments(s: string)
    requires |s| >= 1 && forall i :: 0 <= i < |s| ==> s[i] == ' '
    ensures ParseContextRequest(s) == MissingCommand
    ensures ParseContextRequest("") == UnknownCommand("")
  {
    SplitOfSpaces(s);
  }

  // ---------------------------------------------------------------------------
  // The session

  datatype CommandResult = Success | CommandException(message: string) | RuntimeException

  class AceUser {
    const user: ClientId
    var environment: Option<Environment>
    var sourceBuffer: Option<string>

    function State(): SessionState
      reads this
    {
      SessionState(environment, sourceBuffer)
    }

    constructor (user: ClientId)
      ensures this.user == user && State() == NEW_SESSION
    {
      this.user := user;
      environment := None;
      sourceBuffer := None;
    }

    /** `addVariable`: declares a host object in the current environment. */
    method AddVariable(jici: Interpreter, name: string, obj: HostObject)
      requires environment.Some?
      modifies this
      ensures environment == Some(DeclareObject(jici, old(environment.value), name, obj))
      ensures sourceBuffer == old(sourceBuffer)
    {
      environment := Some(DeclareObject(jici, environment.value, name, obj));
    }

    /** `createEnvironment`. */
    method CreateEnvironment(jici: Interpreter)
      modifies this
      ensures environment == Some(SeededEnvironment(jici, user))
      ensures sourceBuffer == old(sourceBuffer)
    {
      environment := Some(Environment([], jici.defaultClasses));
      AddVariable(jici, "game", Game);
      AddVariable(jici, "me", Source(user));
      AddVariable(jici, "printer", Printer(user));
    }

    /** `eval`: buffer a submission ending in '#', otherwise flush the buffer and run the
        pipeline, executing statements one by one against the environment. */
    method Eval(jici: Interpreter, code: string) returns (sent: Sent)
      modifies this
      ensures Step(State(), sent) == EvalStep(jici, user, old(State()), code)
    {
      if environment.None? {
        CreateEnvironment(jici);
      }
      ghost var env0 := environment.value;
      if EndsWith(code, CONTINUATION) {
        if sourceBuffer.None? {
          sourceBuffer := Some("");
        }
        sourceBuffer := Some(sourceBuffer.value + code[..|code| - 1]);
        return Sent([Info(BUFFERED)], false);
      }
      var text := code;
      if sourceBuffer.Some? {
        text := sourceBuffer.value + code;
        sourceBuffer := None;
      }
      assert text == FlushedText(old(sourceBuffer), code);
      var decoded := jici.decode(text);
      if decoded.Threw? {
        return FailureReplies(decoded.failure);
      }
      var tokens := jici.lex(decoded.value);
      if tokens.Threw? {
        return FailureReplies(tokens.failure);
      }
      if |tokens.value| == 0 {
        return Sent([Problem(NOTHING_TO_EVALUATE)], false);
      }
      if tokens.value[|tokens.value| - 1].Semicolon? {
        var parsed := jici.parse(tokens.value);
        if parsed.Threw? {
          return FailureReplies(parsed.failure);
        }
        var statements := parsed.value;
        var i := 0;
        var failure: Option<Failure> := None;
        while i < |statements| && failure.None?
          invariant 0 <= i <= |statements|
          invariant environment.Some? && sourceBuffer.None?
          invariant failure.None? ==> RunStatements(statements[i..], environment.value) == RunStatements(statements, env0)
          invariant failure.Some? ==> RunStatements(statements, env0) == Run(environment.value, Threw(failure.value))
        {
          assert statements[i..][0] == statements[i] && statements[i..][1..] == statements[i + 1..];
          var run := statements[i].execute(environment.value);
          environment := Some(run.env);
          if run.outcome.Threw? {
            failure := Some(run.outcome.failure);
          }
          i := i + 1;
        }
        if failure.Some? {
          return FailureReplies(failure.value);
        }
        assert RunStatements(statements, env0).outcome.Ok?;
        return Sent([Info(SUCCESS)], false);
      } else {
        var parsed := jici.parseExpression(tokens.value);
        if parsed.Threw? {
          return FailureReplies(parsed.failure);
        }
        var expression := parsed.value;
        var t := expression.getType(environment.value);
        if t.Threw? {
          return FailureReplies(t.failure);
        }
        var v := expression.getValue(environment.value);
        environment := Some(v.env);
        if v.outcome.Threw? {
          return FailureReplies(v.outcome.failure);
        }
        return Sent([Info("Type: " + t.value.name + " Value: " + jici.asString(v.outcome.value))], false);
      }
    }

    /** `validateInfoArguments`: a context must exist, then the page must be at least 1. */
    method ValidateInfoArguments(page: int) returns (valid: bool, replies: seq<Reply>)
      ensures valid <==> environment.Some? && page >= 1
      ensures environment.None? ==> replies == [Problem(NO_ACTIVE_CONTEXT)]
      ensures environment.Some? && page < 1 ==> replies == [Problem(BAD_PAGE)]
      ensures valid ==> replies == []
    {
      if environment.None? {
        return false, [Problem(NO_ACTIVE_CONTEXT)];
      }
      if page < 1 {
        return false, [Problem(BAD_PAGE)];
      }
      return true, [];
    }

    /** `filterJavaLangClasses`: collects into a set the classes that are not top-level
        members of `java.lang`. */
    method FilterJavaLangClasses(classes: seq<string>) returns (filtered: set<string>)
      ensures forall name :: name in filtered <==> name in classes && KeepClass(name)
      ensures filtered <= set name | name in classes
    {
      filtered := {};
      for i := 0 to |classes|
        invariant forall name :: name in filtered <==> name in classes[..i] && KeepClass(name)
      {
        var name := classes[i];
        if !StartsWith(name, JAVA_LANG) || IndexOf(name, '.', |JAVA_LANG|) != -1 {
          filtered := filtered + {name};
        }
        assert classes[..i + 1] == classes[..i] + [name];
      }
      assert classes[..|classes|] == classes;
    }

    /** `printEntries`: walks the entries up to the page's end, sending those from its start. */
    method PrintEntries(jici: Interpreter, entries: seq<Entry>, page: int) returns (replies: seq<Reply>)
      ensures replies == PageReplies(jici, entries, page)
    {
      var start := PageStart(page);
      var end := PageEnd(page, |entries|);
      if end <= start {
        return [NoEntries(page)];
      }
      replies := [];
      var i := 0;
      while i < end
        invariant 0 <= i && (i > 0 ==> i <= end)
        invariant start < 0 ==> i == 0 && replies == []
        invariant start >= 0 && i <= start ==> replies == []
        invariant start >= 0 && i > start ==> replies == EntryTexts(jici, entries[start..i])
      {
        var entry := entries[i];
        if i >= start {
          assert entries[start..i + 1] == entries[start..i] + [entry];
          EntryTextsAppend(jici, entries[start..i], entry);
          replies := replies + [EntryToText(jici, entry)];
        }
        i := i + 1;
      }
      if start < 0 {
        assert EntryTexts(jici, []) == [];
      }
    }

    /** `printImports`; `order` is the iteration order of the filtered HashSet. */
    method PrintImports(jici: Interpreter, page: int, order: seq<string>) returns (replies: seq<Reply>)
      requires environment.Some? ==> Enumerates(order, JavaLangFiltered(environment.value.classes))
      ensures replies == InfoReplies(jici, environment, page, _ => ClassEntries(order))
    {
      var valid;
      valid, replies := ValidateInfoArguments(page);
      if valid {
        var filtered := FilterJavaLangClasses(environment.value.classes);
        assert Enumerates(order, filtered);
        replies := PrintEntries(jici, ClassEntries(order), page);
      }
    }

    /** `printVariables`. */
    method PrintVariables(jici: Interpreter, page: int) returns (replies: seq<Reply>)
      ensures replies == InfoReplies(jici, environment, page, VariableEntries)
    {
      var valid;
      valid, replies := ValidateInfoArguments(page);
      if valid {
        replies := PrintEntries(jici, VariableEntries(environment.value), page);
      }
    }

    /** `resetEnvironment`: drops the environment, keeps the buffer. */
    method ResetEnvironment() returns (replies: seq<Reply>)
      modifies this
      ensures State() == SessionState(None, old(sourceBuffer))
      ensures old(environment).None? ==> replies == [Problem(NO_ACTIVE_CONTEXT)]
      ensures old(environment).Some? ==> replies == [Info(CONTEXT_DELETED)]
    {
      replies := if environment.None? then [Problem(NO_ACTIVE_CONTEXT)] else [Info(CONTEXT_DELETED)];
      environment := None;
    }
  }

  // ---------------------------------------------------------------------------
  // The plugin: the session registry and the two commands

  class AcePlugin {
    var users: map<ClientId, AceUser>

    ghost predicate Valid()
      reads this
    {
      forall c :: c in users ==> users[c].user == c
    }

    constructor ()
      ensures Valid() && users == map[]
    {
      users := map[];
    }

    /** The state of `source`'s session; a client without one is in the initial state. */
    function SessionOf(source: ClientId): SessionState
      reads this, users.Values
    {
      if source in users then users[source].State() else NEW_SESSION
    }

    /** `getUser`: the existing session, or a new empty one stored under `source`. */
    method GetUser(source: ClientId) returns (user: AceUser)
      requires Valid()
      modifies this
      ensures Valid()
      ensures user.user == source && users == old(users)[source := user]
      ensures source in old(users) ==> user == old(users[source])
      ensures source !in old(users) ==> fresh(user) && user.State() == NEW_SESSION
    {
      if source in users {
        user := users[source];
      } else {
        user := new AceUser(source);
        users := users[source := user];
      }
    }

    /** `acee <code>`. */
    method ProcessEval(jici: Interpreter, source: ClientId, argumentString: string) returns (result: CommandResult, sent: Sent)
      requires Valid()
      modifies this, users.Values
      ensures Valid() && source in users && users.Keys == old(users.Keys) + {source}
      ensures forall c :: c in old(users) ==> users[c] == old(users[c])
      ensures forall c :: c in old(users) && c != source ==> users[c].State() == old(users[c].State())
      ensures Step(users[source].State(), sent) == EvalStep(jici, source, old(SessionOf(source)), argumentString)
      ensures result == if sent.escaped then RuntimeException else Success
    {
      var user := GetUser(source);
      sent := user.Eval(jici, argumentString);
      result := if sent.escaped then RuntimeException else Success;
    }

    /** `acec imports [page] | variables [page] | reset`. */
    method ProcessContext(jici: Interpreter, source: ClientId, argumentString: string, order: seq<string>)
      returns (result: CommandResult, replies: seq<Reply>)
      requires Valid()
      requires source in users && users[source].environment.Some? ==>
        Enumerates(order, JavaLangFiltered(users[source].environment.value.classes))
      modifies this, users.Values
      ensures Valid()
      ensures users.Keys <= old(users.Keys) + {source}
      ensures forall c :: c in old(users) ==> c in users && users[c] == old(users[c])
      ensures forall c :: c in old(users) && c != source ==> users[c].State() == old(users[c].State())
      ensures ParseContextRequest(argumentString).MissingCommand? ==>
        result == RuntimeException && replies == [] && users == old(users) && SessionOf(source) == old(SessionOf(source))
      ensures ParseContextRequest(argumentString).UnknownCommand? ==>
        && result == CommandException("Unknown command: " + ParseContextRequest(argumentString).command)
        && replies == [] && users == old(users) && SessionOf(source) == old(SessionOf(source))
      ensures ParseContextRequest(argumentString).ListImports? ==>
        && result == Success && source in users && SessionOf(source) == old(SessionOf(source))
        && replies == InfoReplies(jici, old(SessionOf(source)).environment, ParseContextRequest(argumentString).page, _ => ClassEntries(order))
      ensures ParseContextRequest(argumentString).ListVariables? ==>
        && result == Success && source in users && SessionOf(source) == old(SessionOf(source))
        && replies == InfoReplies(jici, old(SessionOf(source)).environment, ParseContextRequest(argumentString).page, VariableEntries)
      ensures ParseContextRequest(argumentString).ResetContext? ==>
        && result == Success && source in users
        && SessionOf(source) == SessionState(None, old(SessionOf(source)).sourceBuffer)
        && replies == [if old(SessionOf(source)).environment.None? then Problem(NO_ACTIVE_CONTEXT) else Info(CONTEXT_DELETED)]
    {
      var arguments := Split(argumentString, ' ');
      if |arguments| == 0 {
        return RuntimeException, [];
      }
      var command := arguments[0];
      var page := if |arguments| >= 2 then ParseIntWithDefault(arguments[1], -1) else 1;
      if command == "imports" {
        var user := GetUser(source);
        replies := user.PrintImports(jici, page, order);
        return Success, replies;
      }
      if command == "variables" {
        var user := GetUser(source);
        replies := user.PrintVariables(jici, page);
        return Success, replies;
      }
      if command == "reset" {
        var user := GetUser(source);
        replies := user.ResetEnvironment();
        return Success, replies;
      }
      return CommandException("Unknown command: " + command), [];
    }
  }
}
