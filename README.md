# ACE session manager, modelled in Dafny

ACE is a server plugin that lets a client type Java snippets into chat and have them
evaluated by the JICI interpreter, REPL style. This project models the plugin's core,
`src/main/java/ca/sapon/ace/ACE.java`:

- the per-client session (`ACEUser`, here `Ace.AceUser`). It has two fields: an optional
  environment, created lazily and seeded with `game`, `me` and `printer`, and an optional
  source buffer. A submission ending in `#` goes into the buffer. The next submission without
  `#` flushes the buffer in front of it and runs the result through decode, lex, and either
  parse-and-execute of statements (last token `;`) or parse-and-evaluate of one expression;
- the replies each command sends, including the two-line rendering of a source error with
  its span set apart (`displayError`);
- the `imports` / `variables` listings. Each checks for a context and then for a valid page,
  and pages the entries five at a time; `imports` also filters out top-level `java.lang`
  classes;
- the registry of sessions (`getUser`) and the two commands' `process` entry points,
  including how `acec` splits its argument string and parses the page number.

Files: `wrappers.dfy` (Option), `java_text.dfy` (the `java.lang` string and integer behaviour
the code relies on), `jici.dfy` (the interpreter as an opaque service), `display.dfy`
(replies, entry rendering, error highlighting), `pager.dfy` (page arithmetic), `ace.dfy`
(session, registry, commands).

The interpreter is a value of type `Jici.Interpreter`: a record of total functions for
decode, lex, parse, parseExpression, the class of a host object, and the rendering of a
value, plus the classes a new environment starts with. Decode, lex, parse, parseExpression,
`Statement.execute`, `getType` and `getValue` may throw, modelled as `Threw(failure)`. The class
of a host object, the rendering of a value and the default classes are plain total functions. A statement is a function from environment to environment-plus-outcome,
and the environment it leaves is kept even when it throws. The session's own behaviour can
therefore be stated exactly for every possible interpreter. Each call returns the replies it
sent. For `eval`, a flag also records whether an exception escaped afterwards.

## Model

| member | source | states |
|---|---|---|
| `Ace.AcePlugin.constructor` | src/main/java/ca/sapon/ace/ACE.java:81 | The registry starts empty. |
| `Ace.AcePlugin.GetUser` | src/main/java/ca/sapon/ace/ACE.java:92-99 | Returns the stored session when there is one. Otherwise it stores a fresh session in the initial state under that client and returns it. The map changes at most at that key. |
| `Ace.AcePlugin.ProcessEval` | src/main/java/ca/sapon/ace/ACE.java:127-131 | Gets or creates the client's session and evaluates the whole argument string in it. Other sessions are unchanged. The result is success unless an index exception escaped `eval`. |
| `Ace.AcePlugin.ProcessContext` | src/main/java/ca/sapon/ace/ACE.java:160-178 | With no words it throws and touches no session. An unknown subcommand throws "Unknown command: ..." and creates no session. `imports`/`variables` list without changing the session. `reset` drops the environment and keeps the buffer. The registry gains no client other than the caller, and other sessions are unchanged. |
| `Ace.ParseContextRequest` | src/main/java/ca/sapon/ace/ACE.java:162-164 | The argument string splits on spaces. No words at all is the missing-command case. The first word picks the subcommand: `imports` lists imports, `variables` lists variables, `reset` resets, and any word other than `imports`, `variables` and `reset` is an unknown command carrying that word. The page is the second word parsed with default -1, or 1 when there is no second word. |
| `Ace.Dispatch` | src/main/java/ca/sapon/ace/ACE.java:165-177 | Exactly the three words `imports`, `variables` and `reset` are subcommands: the first two list the requested page and `reset` resets. Every other word is an unknown command that carries that word. |
| `Ace.OneWordRequest` | src/main/java/ca/sapon/ace/ACE.java:162-164 | A single word is the subcommand, and the page defaults to 1. |
| `Ace.TwoWordRequest` | src/main/java/ca/sapon/ace/ACE.java:162-164 | With a second word, the page is that word parsed as an int, or -1 when it does not parse. |
| `Ace.NonNumericPageRequest` | src/main/java/ca/sapon/ace/ACE.java:162-164 | A second word that is not a number (a character other than a digit, a lone sign excepted) makes the page -1, which the listing then refuses. |
| `Ace.PageNumberRequest` | src/main/java/ca/sapon/ace/ACE.java:162-164 | `<subcommand> <n>` asks for page n, for every int n. |
| `Ace.BlankArguments` | src/main/java/ca/sapon/ace/ACE.java:162-163 | Every non-empty argument string of spaces only leaves no words, so `arguments[0]` throws. The empty string is the unknown command "". |
| `JavaText.SplitOfSpaces` | src/main/java/ca/sapon/ace/ACE.java:162 | `split(" ")` of any non-empty string of spaces is the empty array: every piece is empty and trailing empty pieces are dropped. |
| `Ace.SplitTwoWords` | src/main/java/ca/sapon/ace/ACE.java:162 | `split(" ")` of two space-free words joined by one space gives the two words. |
| `JavaText.Split` | src/main/java/ca/sapon/ace/ACE.java:162 | `split(" ")` returns `[s]` when s has no space. Otherwise it returns the space-separated pieces without their trailing empty ones. No piece contains a space. |
| `JavaText.JoinFields` | src/main/java/ca/sapon/ace/ACE.java:162 | Joining the pieces between separators back with the separator gives the original string. |
| `JavaText.DropTrailingEmpty` | src/main/java/ca/sapon/ace/ACE.java:162 | Removes exactly the trailing empty strings: the result is a prefix, does not end in "", and only "" were removed. |
| `JavaText.ParseIntWithDefault` | src/main/java/ca/sapon/ace/ACE.java:180-186 | The parsed value when `Integer.parseInt` succeeds, the default when it throws. |
| `JavaText.ParseInt` | src/main/java/ca/sapon/ace/ACE.java:182 | A parsed value is always in the int range and comes from a non-empty string. A string with any character that is neither a digit nor a leading sign before further characters does not parse. |
| `JavaText.ParseIntToString` | src/main/java/ca/sapon/ace/ACE.java:182 | Every int printed in decimal parses back to itself. |
| `JavaText.NatToStringValue` | src/main/java/ca/sapon/ace/ACE.java:311 | The decimal digits of a page number denote that number. |
| `Ace.AceUser.constructor` | src/main/java/ca/sapon/ace/ACE.java:194-196 | A new session belongs to its client and has no environment and no buffer. |
| `Ace.AceUser.Eval` | src/main/java/ca/sapon/ace/ACE.java:198-243 | The new environment and buffer, and the replies, are those of `EvalStep` on the old state. The loop runs the statements one at a time against the environment and stops at the first throw. |
| `Ace.EvalStep` | src/main/java/ca/sapon/ace/ACE.java:198-213 | After any eval an environment exists. A submission ending in `#` keeps an existing environment or seeds a new one. It appends the text without its last character to the buffer, or to "" when there is none, and its only reply is "Buffered code". Any other submission leaves no buffer. |
| `Ace.FlushEvaluatesBufferThenCode` | src/main/java/ca/sapon/ace/ACE.java:210-214 | Without `#`, the text evaluated is exactly the buffered text followed by the submission (the submission alone when nothing is buffered), on the existing environment or a fresh seeded one. |
| `Ace.BufferThenFlush` | src/main/java/ca/sapon/ace/ACE.java:202-214 | Submitting `a#` and then `b` leaves the same state, with the same final replies, as submitting `ab`. |
| `Ace.Execute` | src/main/java/ca/sapon/ace/ACE.java:214-242 | One or two replies; two are the message and then the highlighted line, and an escaping exception follows just the message. A throw from decode, lex, parse, parseExpression or getType leaves the environment as it was and is answered by the rendering of that failure; a throw from getValue keeps what getValue did to the environment. An empty token list replies "Nothing to evaluate" and changes nothing. |
| `Ace.FailureReplies` | src/main/java/ca/sapon/ace/ACE.java:237-242 | The message line comes first. A source error is answered exactly as `displayError` renders it (`Display.ErrorReplies`: its message, then the highlighted line or an escaping index exception); any other exception gets the single line "Unknown exception, see console". Only a source error can give a second line or an escaping exception. |
| `Ace.NothingToEvaluate` | src/main/java/ca/sapon/ace/ACE.java:217-221 | An empty token list flushes the buffer, keeps (or seeds) the environment unchanged, and replies "Nothing to evaluate". |
| `Ace.StatementBatchStopsAtFailure` | src/main/java/ca/sapon/ace/ACE.java:222-242 | On the statement path, say statements 0..k-1 complete and statement k throws. The environment is then the one statement k left (earlier effects are kept and later statements never run), and the only replies render k's exception. |
| `Ace.StatementBatchSucceeds` | src/main/java/ca/sapon/ace/ACE.java:222-227 | When every statement completes, the single reply is "Success" and the environment is the one the batch left. An empty batch replies "Success" with the environment unchanged; a non-empty one leaves the environment the last statement left. |
| `Ace.ExpressionPath` | src/main/java/ca/sapon/ace/ACE.java:228-236 | When the last token is not `;`, one expression is parsed. Its type is taken on the current environment, its value evaluated, and the single reply shows type name and value. |
| `Jici.RunStatements` | src/main/java/ca/sapon/ace/ACE.java:224-226 | An empty batch completes and leaves the environment alone. Only a statement can throw, and a throw from the first statement ends the batch with that statement's environment and exception. |
| `Jici.RunStatementsAppend` | src/main/java/ca/sapon/ace/ACE.java:224-226 | Statements run in list order: a batch is its front part, then its back part unless the front threw. |
| `Jici.RunStatementsStopsAt` | src/main/java/ca/sapon/ace/ACE.java:224-226 | If statement k throws after 0..k-1 completed, the batch's outcome is exactly statement k's run on their environment. |
| `Jici.RunStatementsCompletes` | src/main/java/ca/sapon/ace/ACE.java:224-226 | A batch that completes ends with the environment of its last statement, run after all the others completed. |
| `Ace.AceUser.CreateEnvironment` | src/main/java/ca/sapon/ace/ACE.java:245-250 | The environment becomes the seeded one. The buffer is untouched. |
| `Ace.SeededEnvironment` | src/main/java/ca/sapon/ace/ACE.java:245-254 | A new environment declares exactly `game`, `me`, `printer`, in that order: the game, the client and a printer bound to the client, each initialised and declared with the class of its host object as its type. Its classes are the interpreter's defaults. |
| `Ace.AceUser.AddVariable` | src/main/java/ca/sapon/ace/ACE.java:252-254 | Declares one more variable holding the host object, typed by its class. |
| `Jici.DeclareObject` | src/main/java/ca/sapon/ace/ACE.java:253 | Declaring keeps the existing variables and classes and adds one initialised variable at the end. |
| `Display.ErrorReplies` | src/main/java/ca/sapon/ace/ACE.java:256-270 | The message goes out first. When the span fits the line plus one space, the highlighted line follows. Otherwise the substring exception escapes after the message. |
| `Display.HighlightLine` | src/main/java/ca/sapon/ace/ACE.java:258-269 | Defined exactly when 0 <= start <= end+1 <= length of line + " ". The pieces are the text before start, the span [start, end+1) and the text after it, and their lengths add up to the padded line's. A single whitespace span is shown as `_`. Otherwise the pieces concatenate back to the padded line. |
| `Display.BlankSpanShownAsPlaceholder` | src/main/java/ca/sapon/ace/ACE.java:261-264 | An error on one whitespace character of the line is rendered with `_` in its place. |
| `Display.EndOfLineShownAsPlaceholder` | src/main/java/ca/sapon/ace/ACE.java:258-264 | An error just past the end of the line points at the appended space, which is rendered as `_`. |
| `Ace.AceUser.PrintImports` | src/main/java/ca/sapon/ace/ACE.java:272-276 | Validates, filters the classes, and pages them in the filtered set's iteration order. |
| `Ace.AceUser.FilterJavaLangClasses` | src/main/java/ca/sapon/ace/ACE.java:278-287 | The set built by the loop holds exactly the input names that pass the filter. It is a subset of the input. |
| `Ace.KeepClass` | src/main/java/ca/sapon/ace/ACE.java:282 | A name is kept iff it does not start with `java.lang.` or has a `.` at index 10 or later. |
| `Ace.KeepClassExamples` | src/main/java/ca/sapon/ace/ACE.java:282 | `java.lang.String` is dropped. `java.lang.Thread.State`, `java.lang.reflect.Method` and `java.util.List` are kept. |
| `Ace.JavaLangFiltered` | src/main/java/ca/sapon/ace/ACE.java:278-287 | The filtered set as a value: the input names that pass the filter. |
| `JavaText.EndsWith` | src/main/java/ca/sapon/ace/ACE.java:202 | `endsWith("#")` holds exactly when the string is some text followed by that one character. |
| `JavaText.StartsWith` | src/main/java/ca/sapon/ace/ACE.java:282 | `startsWith(prefix)` holds exactly when the string is the prefix followed by the rest. |
| `JavaText.IsWhitespace` | src/main/java/ca/sapon/ace/ACE.java:262 | `Character.isWhitespace`: space, tab and newline are whitespace; the three no-break spaces U+00A0, U+2007 and U+202F are not; nothing above U+3000 is. |
| `JavaText.IntToString` | src/main/java/ca/sapon/ace/ACE.java:311 | The decimal text of an int: a leading minus exactly for negative numbers, then digits that denote its magnitude, with no leading zero except in "0" itself. |
| `JavaText.IndexOf` | src/main/java/ca/sapon/ace/ACE.java:282 | `indexOf(c, from)` is the first position at or after `from` holding c, and -1 iff there is none. |
| `Ace.AceUser.PrintVariables` | src/main/java/ca/sapon/ace/ACE.java:289-293 | Validates, then pages the environment's variables. |
| `Ace.AceUser.ValidateInfoArguments` | src/main/java/ca/sapon/ace/ACE.java:295-305 | No environment gives "No active context" whatever the page. Otherwise a page below 1 gives the page error. Valid iff both checks pass, and then nothing is sent. |
| `Ace.InfoReplies` | src/main/java/ca/sapon/ace/ACE.java:272-305 | A listing sends the context error first, the page error second, and a page of entries only when both checks pass. |
| `Ace.AceUser.PrintEntries` | src/main/java/ca/sapon/ace/ACE.java:307-321 | The loop over positions below `end`, sending those from `start` on, sends exactly `PageReplies`. |
| `Ace.NoEntries` | src/main/java/ca/sapon/ace/ACE.java:310-312 | The error line "No entries for page " followed by the page in `Integer.toString` form; that number parses back to the requested page. |
| `Ace.PageReplies` | src/main/java/ca/sapon/ace/ACE.java:307-321 | Never more than 5 replies, and at least one for every page from 1 on. A page past the end gives "No entries for page <page>". Otherwise there is one line per entry of the page, in order. |
| `Pager.Paginate` | src/main/java/ca/sapon/ace/ACE.java:308-320 | Refused iff page >= 1 and (page-1)*5 >= size. Otherwise it lists `entries[(page-1)*5 .. min((page-1)*5+5, size)]`, which is 1 to 5 entries. A page below 1 lists nothing. |
| `Pager.PageExists` | src/main/java/ca/sapon/ace/ACE.java:308-310 | For pages from 1 on, a page lists something iff it is at most ceil(size/5). |
| `Pager.PagesUpToPrefix` | src/main/java/ca/sapon/ace/ACE.java:308-320 | Pages 1..k laid end to end are exactly the first min(5k, size) entries. |
| `Pager.PagesCoverEntries` | src/main/java/ca/sapon/ace/ACE.java:308-320 | Every entry appears on exactly one page, in order: pages 1..ceil(size/5) list the whole collection. |
| `Pager.TwelveEntries` | src/main/java/ca/sapon/ace/ACE.java:308-320 | With 12 entries, pages 1 to 3 list entries 0-4, 5-9 and 10-11, and page 4 is refused. |
| `Pager.PaginateAsWritten` | src/main/java/ca/sapon/ace/ACE.java:307-321 | The same computation in 32-bit int arithmetic, as the code does it. |
| `Pager.AsWrittenAgreesBelowOverflow` | src/main/java/ca/sapon/ace/ACE.java:308-309 | Up to page 429496729 the int computation never wraps and agrees with `Paginate`. |
| `Pager.HugePageListsNothing` | src/main/java/ca/sapon/ace/ACE.java:308-320 | At page 429496731 the int start wraps to -2147483646. The code then neither refuses the page nor lists anything, while `Paginate` refuses it. |
| `Pager.WrappedPageListsEarlyEntries` | src/main/java/ca/sapon/ace/ACE.java:308-320 | At page 858993460 the int start wraps to -1. For any listing of at least four entries the code then lists entries 0-3, while `Paginate` refuses the page. |
| `JavaText.Wrap32` | src/main/java/ca/sapon/ace/ACE.java:308-309 | The int result of an operation is in range, congruent to the exact result modulo 2^32, and equal to it when it fits. |
| `Display.EntryToText` | src/main/java/ca/sapon/ace/ACE.java:323-337 | A class shows its canonical name. A variable shows "Name: <name> Type: <type>", followed by " Value: <value>" exactly when it is initialised. |
| `Ace.AceUser.ResetEnvironment` | src/main/java/ca/sapon/ace/ACE.java:339-345 | The environment is gone and the buffer is untouched. The reply is "No active context" or "Context deleted" according to the prior state. A second reset therefore changes nothing and replies "No active context". |

## Left out

- Ace.PageReplies: follows the corrected page arithmetic of `Pager.Paginate` (unbounded integers), not the code's 32-bit `int`. It agrees with the code up to page 429496729 (`Pager.AsWrittenAgreesBelowOverflow`). From page 429496730 on it refuses every page the collection cannot fill, where the code may send nothing or list the wrong entries (see Findings).
- Ace.AceUser.PrintEntries: proved equal to `Ace.PageReplies`, so it pages with the same exact arithmetic, and so do `Ace.AceUser.PrintImports`, `Ace.AceUser.PrintVariables` and `Ace.AcePlugin.ProcessContext`. The code's wrap-around is modelled only by `Pager.PaginateAsWritten`.
- Plugin wiring (lines 71-90 and the command classes' `getSuggestions`, `testPermission`, `getShortDescription`, `getHelp`, `getUsage`): host registration and permission glue with no logic of its own.
- The JICI interpreter (`Decoder.decode`, `Lexer.lex`, `Parser.parse`/`parseExpression`, `Statement.execute`, `Expression.getType`/`getValue`, `Value.asString`, `ClassType.of`, `Environment`): supplied as opaque functions. `SourceMetadata.generateErrorInformation` is not part of this model: a source error carries its `ErrorInformation` directly.
- Environment internals: variables are kept as a sequence in declaration order, and that is the order in which the listing enumerates them. JICI's own enumeration order is the interpreter's business.
- `Printer` (lines 348-395): only its binding into a new environment is modelled. What evaluated code prints through it is not part of the replies.
- Text colours, the "[ACE] " prefix and `sendACEMessage`: a reply is a kind (status, error, listed entry, highlighted line) plus plain text.
- `WeakHashMap` eviction: the registry is an ordinary map that only grows. Removal on garbage collection and concurrent access are not modelled.
- The logger call on unexpected exceptions: only the client's "Unknown exception, see console" reply is modelled.
- `Ace.AceUser.PrintImports`: the iteration order of the filtered `HashSet` depends on identity hash codes, so it is a parameter, required to list the filtered set once each.
- `Ace.KeepClass`: class names are strings. Classes without a canonical name (`getCanonicalName` returns null and `startsWith` throws) are not modelled, and two classes with one canonical name count as one.
- `JavaText.ParseInt`: only ASCII digits are accepted. `Integer.parseInt` also accepts other Unicode decimal digits.
- Java strings are UTF-16 code units. Here a `char` is a Unicode scalar value, so supplementary characters count as one position rather than two.
- Exceptions thrown while rendering a reply (a `toString` that throws inside `asString`) and `Error`s that `catch (Exception)` does not catch (a stack overflow) are not modelled.
- `entryToText`'s fallback `Texts.of(entry)` for entries that are neither classes nor variables: every entry here is one of the two.

Three behaviours of the code that are easy to miss, all modelled as written:
- A failing statement's own partial effects, and those of the statements before it, stay in the environment. Nothing is rolled back.
- The buffer may be empty: a submission consisting of `#` alone leaves the buffer holding "".
- Reset never touches the buffer.

## Findings

| source | as written | input that shows it | evidently intended | confidence | as-written member | corrected member |
|---|---|---|---|---|---|---|
| src/main/java/ca/sapon/ace/ACE.java:308-320 | `start = (page - 1) * 5` is computed in 32-bit int. For page 429496731 it wraps to -2147483646, so `end = start + 5` is negative but above `start`. The page is not refused and the loop over `i < end` never runs. Some other wrapped pages list entries: page 858993460 wraps `start` to -1 and lists entries 0-3 (`Pager.WrappedPageListsEarlyEntries`). | `acec imports 429496731` or `acec variables 429496731` with an active context | Refuse the page with "No entries for page 429496731" | not executed; follows from Java's int overflow rules | `Pager.HugePageListsNothing` | `Pager.Paginate` |
