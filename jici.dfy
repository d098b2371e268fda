/**
 * The JICI interpreter as the session sees it: an opaque service. Decoding,
 * lexing, parsing, type resolution and execution are total functions supplied
 * by the host, each of which may throw; the session only inspects the token
 * list's last token, runs statements one after the other, and reads back the
 * environment's variables and imported classes.
 */
module Jici {
  import opened Wrappers

  /** Identity of a command source (a connected client). */
  type ClientId = string

  /** The host objects the session binds into a new environment. */
  datatype HostObject = Game | Source(id: ClientId) | Printer(receiver: ClientId)

  /** A runtime value: an `ObjectValue` wrapping a host object, or any value the
      interpreter itself produced (identified opaquely). */
  datatype Value = ObjectValue(obj: HostObject) | InterpreterValue(id: nat)

  /** A type; the session only ever shows its name. */
  datatype Type = Type(name: string)

  /** A declared variable; `value` is None while it is declared but not initialised. */
  datatype Variable = Variable(name: string, declaredType: Type, value: Option<Value>)

  /** The binding table of one session epoch: variables in enumeration order and the
      canonical names of the classes it can refer to. */
  datatype Environment = Environment(variables: seq<Variable>, classes: seq<string>)

  /** What the source-position error generator yields for a SourceException: the message,
      the offending source line, and an inclusive span [startIndex, endIndex] in it. */
  datatype ErrorInformation = ErrorInformation(message: string, line: string, startIndex: int, endIndex: int)

  /** An exception raised by the interpreter: a SourceException, or any other exception. */
  datatype Failure = SourceError(info: ErrorInformation) | OtherException

  datatype Outcome<+T> = Ok(value: T) | Threw(failure: Failure)

  /** The environment after running some code, with what that code returned or threw.
      Effects made before a throw are kept. */
  datatype Run<+T> = Run(env: Environment, outcome: Outcome<T>)

  /** Only the statement terminator matters to the session. */
  datatype Token = Semicolon | OtherToken(text: string)

  datatype Statement = Statement(execute: Environment -> Run<()>)

  datatype Expression = Expression(getType: Environment -> Outcome<Type>, getValue: Environment -> Run<Value>)

  /** The interpreter's entry points. */
  datatype Interpreter = Interpreter(
    decode: string -> Outcome<string>,
    lex: string -> Outcome<seq<Token>>,
    parse: seq<Token> -> Outcome<seq<Statement>>,
    parseExpression: seq<Token> -> Outcome<Expression>,
    classOf: HostObject -> Type,
    asString: Value -> string,
    defaultClasses: seq<string>)

  /** `environment.declareVariable(name, ClassType.of(obj.getClass()), ObjectValue.of(obj))`. */
  function DeclareObject(jici: Interpreter, env: Environment, name: string, obj: HostObject): (r: Environment)
    ensures r.classes == env.classes
    ensures |r.variables| == |env.variables| + 1
    ensures r.variables[..|env.variables|] == env.variables
    ensures r.variables[|env.variables|..] == [Variable(name, jici.classOf(obj), Some(ObjectValue(obj)))]
  {
    env.(variables := env.variables + [Variable(name, jici.classOf(obj), Some(ObjectValue(obj)))])
  }

  /** Runs the statements in list order, stopping at the first one that throws. */
  function RunStatements(statements: seq<Statement>, env: Environment): (r: Run<()>)
    // An empty batch completes and leaves the environment alone.
    ensures |statements| == 0 ==> r == Run(env, Ok(()))
    // Only a statement can throw, and a throw from the first one ends the batch.
    ensures r.outcome.Threw? ==> |statements| > 0
    ensures |statements| > 0 && statements[0].execute(env).outcome.Threw? ==> r == statements[0].execute(env)
    decreases |statements|
  {
    if |statements| == 0 then Run(env, Ok(()))
    else
      var first := statements[0].execute(env);
      if first.outcome.Threw? then first else RunStatements(statements[1..], first.env)
  }

  /** Running a list is running its front part, then, unless that threw, its back part. */
  lemma {:induction false} RunStatementsAppend(front: seq<Statement>, back: seq<Statement>, env: Environment)
    ensures RunStatements(front + back, env) ==
      var r := RunStatements(front, env);
      if r.outcome.Threw? then r else RunStatements(back, r.env)
    decreases |front|
  {
    if |front| > 0 {
      assert (front + back)[0] == front[0];
      assert (front + back)[1..] == front[1..] + back;
      var first := front[0].execute(env);
      if first.outcome.Ok? {
        RunStatementsAppend(front[1..], back, first.env);
      }
    } else {
      assert front + back == back;
    }
  }

  /** When statements 0..k-1 complete and statement k throws, the batch ends with exactly
      the environment statement k left and its exception: statements after k never run. */
  lemma RunStatementsStopsAt(statements: seq<Statement>, env: Environment, k: nat)
    requires k < |statements|
    requires RunStatements(statements[..k], env).outcome.Ok?
    requires statements[k].execute(RunStatements(statements[..k], env).env).outcome.Threw?
    ensures RunStatements(statements, env) == statements[k].execute(RunStatements(statements[..k], env).env)
  {
    var before := RunStatements(statements[..k], env);
    assert statements == statements[..k] + statements[k..];
    RunStatementsAppend(statements[..k], statements[k..], env);
    assert statements[k..][0] == statements[k];
  }

  /** When every statement completes, the environment is the one the last statement left. */
  lemma RunStatementsCompletes(statements: seq<Statement>, env: Environment)
    requires |statements| > 0
    requires RunStatements(statements, env).outcome.Ok?
    ensures RunStatements(statements[..|statements| - 1], env).outcome.Ok?
    ensures RunStatements(statements, env) ==
      statements[|statements| - 1].execute(RunStatements(statements[..|statements| - 1], env).env)
  {
    var n := |statements|;
    var last := [statements[n - 1]];
    assert statements == statements[..n - 1] + last;
    RunStatementsAppend(statements[..n - 1], last, env);
    var before := RunStatements(statements[..n - 1], env);
    if before.outcome.Ok? {
      var r := last[0].execute(before.env);
      assert last[1..] == [];
      assert RunStatements(last, before.env) == (if r.outcome.Threw? then r else Run(r.env, Ok(())));
      if r.outcome.Ok? {
        assert r.outcome.value == ();
        assert r.outcome == Ok(());
      }
    }
  }
}
