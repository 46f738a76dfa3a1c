/** The commands a worker runs (internal/restic/command.go). Two of them are shell scripts, printed
    from argument lists; this module proves what those scripts mean to a POSIX shell. */
module Restic {
  import opened Text
  import opened Config
  import opened Sources
  import opened Shell

  // ---- Quoting ----

  predicate Unsuspicious(c: char) {
    'a' <= c <= 'z' || 'A' <= c <= 'Z' || '0' <= c <= '9' || c == '@' || c == '%' || c == '_' ||
    c == '+' || c == '=' || c == ':' || c == ',' || c == '.' || c == '/' || c == '-'
  }

  predicate IsPlain(arg: string) {
    arg != "" && forall i | 0 <= i < |arg| :: Unsuspicious(arg[i])
  }

  const QUOTED_QUOTE: string := ['\'', '\"', '\'', '\"', '\'']

  function ShellQuote(arg: string): string {
    if IsPlain(arg) then arg else ['\''] + Replace(arg, '\'', QUOTED_QUOTE) + ['\'']
  }

  function QuoteAll(args: seq<string>): (r: seq<string>)
    ensures |r| == |args|
  {
    seq(|args|, i requires 0 <= i < |args| => ShellQuote(args[i]))
  }

  function ShellJoined(args: seq<string>): string {
    Join(QuoteAll(args), " ")
  }

  /** shellJoin: whatever the arguments are, the shell reads back exactly them. */
  method ShellJoin(args: seq<string>) returns (line: string)
    ensures line == ShellJoined(args)
    ensures Tokenize(line).Some? && Spells(Tokenize(line).value, args)
  {
    var quoted: seq<string> := [];
    for i := 0 to |args|
      invariant quoted == QuoteAll(args)[..i]
    {
      quoted := quoted + [ShellQuote(args[i])];
    }
    assert QuoteAll(args)[..|args|] == QuoteAll(args);
    line := Join(quoted, " ");
    ShellUndoesJoin(args);
  }

  function WordsOf(args: seq<string>): seq<Token> {
    seq(|args|, i requires 0 <= i < |args| => Word(args[i], IsPlain(args[i])))
  }

  lemma {:induction false} ScanPlain(l: Lexer, f: Fragment, s: string)
    requires l.mode == Unquoted && l.word == Some(f)
    requires forall i | 0 <= i < |s| :: Unsuspicious(s[i])
    ensures Scan(l, s) == l.(word := Some(Fragment(f.text + s, f.plain)))
    decreases |s|
  {
    if s == [] {
      assert f.text + s == f.text;
    } else {
      var g := Fragment(f.text + [s[0]], f.plain);
      assert Step(l, s[0]) == l.(word := Some(g));
      ScanPlain(l.(word := Some(g)), g, s[1..]);
      assert g.text + s[1..] == f.text + s;
    }
  }

  /** Inside single quotes every character stands for itself; a quote is spelled in five characters. */
  lemma {:induction false} ScanReplaced(l: Lexer, f: Fragment, s: string)
    requires l.mode == SingleQuote && l.word == Some(f) && !f.plain
    ensures Scan(l, Replace(s, '\'', QUOTED_QUOTE)) == l.(word := Some(Fragment(f.text + s, false)))
    decreases |s|
  {
    if s == [] {
      assert f.text + s == f.text;
    } else {
      var g := Fragment(f.text + [s[0]], false);
      var head := if s[0] == '\'' then QUOTED_QUOTE else [s[0]];
      ScanConcat(l, head, Replace(s[1..], '\'', QUOTED_QUOTE));
      if s[0] == '\'' {
        assert QUOTED_QUOTE == ['\'', '\"', '\''] + ['\"', '\''];
        ScanConcat(l, ['\'', '\"', '\''], ['\"', '\'']);
        ScanThree(l, '\'', '\"', '\'');
        ScanConcat(Scan(l, ['\'', '\"', '\'']), ['\"'], ['\'']);
        assert ['\"', '\''] == ['\"'] + ['\''];
        ScanOne(Scan(l, ['\'', '\"', '\'']), '\"');
        ScanOne(Scan(Scan(l, ['\'', '\"', '\'']), ['\"']), '\'');
      } else {
        ScanOne(l, s[0]);
      }
      assert Scan(l, head) == l.(word := Some(g));
      ScanReplaced(l.(word := Some(g)), g, s[1..]);
      assert g.text + s[1..] == f.text + s;
    }
  }

  /** The shell reads a quoted argument as one word: the argument. */
  lemma {:induction false} ScanQuote(l: Lexer, arg: string)
    requires l.mode == Unquoted && l.word == None
    ensures Scan(l, ShellQuote(arg)) == l.(word := Some(Fragment(arg, IsPlain(arg))))
  {
    if IsPlain(arg) {
      var f := Fragment([arg[0]], true);
      assert Step(l, arg[0]) == l.(word := Some(f));
      ScanPlain(l.(word := Some(f)), f, arg[1..]);
      assert [arg[0]] + arg[1..] == arg;
    } else {
      var body := Replace(arg, '\'', QUOTED_QUOTE);
      var open := Lexer(SingleQuote, Some(Fragment([], false)), l.tokens);
      ScanConcat(l, ['\''] + body, ['\'']);
      ScanConcat(l, ['\''], body);
      ScanOne(l, '\'');
      ScanReplaced(open, Fragment([], false), arg);
      assert [] + arg == arg;
      ScanOne(open.(word := Some(Fragment(arg, false))), '\'');
    }
  }

  lemma {:induction false} ScanJoined(l: Lexer, args: seq<string>)
    requires l.mode == Unquoted && l.word == None
    ensures Ends(Scan(l, ShellJoined(args)), l.tokens + WordsOf(args))
    decreases |args|
  {
    hide ShellQuote, IsPlain;
    if args == [] {
      assert l.tokens + WordsOf(args) == l.tokens;
    } else {
      var quoted := ShellQuote(args[0]);
      var read := l.(word := Some(Fragment(args[0], IsPlain(args[0]))));
      ScanQuote(l, args[0]);
      if |args| == 1 {
        assert QuoteAll(args) == [quoted];
      } else {
        assert QuoteAll(args)[1..] == QuoteAll(args[1..]);
        var rest := ShellJoined(args[1..]);
        assert ShellJoined(args) == quoted + " " + rest;
        ScanConcat(l, quoted + " ", rest);
        ScanConcat(l, quoted, " ");
        ScanOne(read, ' ');
        ScanJoined(Step(read, ' '), args[1..]);
        assert l.tokens + [WordsOf(args)[0]] + WordsOf(args[1..]) == l.tokens + WordsOf(args);
      }
    }
  }

  /** For every list of arguments, tokenizing the joined line gives back exactly the arguments. */
  lemma {:induction false} ShellUndoesJoin(args: seq<string>)
    ensures Tokenize(ShellJoined(args)) == Some(WordsOf(args))
    ensures Spells(WordsOf(args), args)
  {
    ScanJoined(START, args);
    assert [] + WordsOf(args) == WordsOf(args);
  }

  // ---- Scripts made of joined lines ----

  /** A non-empty argument list whose first word names a command even when it is left unquoted. */
  predicate Runnable(args: seq<string>) {
    args != [] && CommandName(args[0], IsPlain(args[0]))
  }

  predicate AllRunnable(commands: seq<seq<string>>) {
    commands != [] && forall i | 0 <= i < |commands| :: Runnable(commands[i])
  }

  function JoinAll(commands: seq<seq<string>>): (r: seq<string>)
    ensures |r| == |commands|
  {
    seq(|commands|, i requires 0 <= i < |commands| => ShellJoined(commands[i]))
  }

  function PipelineText(commands: seq<seq<string>>): string {
    Join(JoinAll(commands), " | ")
  }

  function PipelineTexts(pipelines: seq<seq<seq<string>>>): (r: seq<string>)
    ensures |r| == |pipelines|
  {
    seq(|pipelines|, i requires 0 <= i < |pipelines| => PipelineText(pipelines[i]))
  }

  function ScriptText(pipelines: seq<seq<seq<string>>>): string {
    Join(PipelineTexts(pipelines), " && ")
  }

  function Simples(commands: seq<seq<string>>): Pipeline {
    seq(|commands|, i requires 0 <= i < |commands| => Simple(commands[i], []))
  }

  function PipelineTokens(commands: seq<seq<string>>): seq<Token> {
    if commands == [] then []
    else if |commands| == 1 then WordsOf(commands[0])
    else WordsOf(commands[0]) + [Operator(Bar)] + PipelineTokens(commands[1..])
  }

  lemma {:induction false} ScanPastBar(l: Lexer, first: string, rest: string, tokens: seq<Token>)
    requires Ends(Scan(l, first), tokens)
    ensures Scan(l, first + " | " + rest) == Scan(Lexer(Unquoted, None, tokens + [Operator(Bar)]), rest)
  {
    ScanConcat(l, first + " | ", rest);
    ScanConcat(l, first, " | ");
    ScanBar(Scan(l, first), tokens);
  }

  lemma {:induction false} ScanPastAnd(l: Lexer, first: string, rest: string, tokens: seq<Token>)
    requires Ends(Scan(l, first), tokens)
    ensures Scan(l, first + " && " + rest) == Scan(Lexer(Unquoted, None, tokens + [Operator(AndIf)]), rest)
  {
    ScanConcat(l, first + " && ", rest);
    ScanConcat(l, first, " && ");
    ScanDouble(Scan(l, first), tokens, '&');
  }

  lemma {:induction false} ScanPipeline(l: Lexer, commands: seq<seq<string>>)
    requires l.mode == Unquoted && l.word == None && commands != []
    ensures Ends(Scan(l, PipelineText(commands)), l.tokens + PipelineTokens(commands))
    decreases |commands|
  {
    var first := ShellJoined(commands[0]);
    ScanJoined(l, commands[0]);
    if |commands| == 1 {
      assert JoinAll(commands) == [first];
    } else {
      assert JoinAll(commands)[1..] == JoinAll(commands[1..]);
      var rest := PipelineText(commands[1..]);
      assert PipelineText(commands) == first + " | " + rest;
      var words := WordsOf(commands[0]);
      ScanPastBar(l, first, rest, l.tokens + words);
      var next := Lexer(Unquoted, None, l.tokens + words + [Operator(Bar)]);
      ScanPipeline(next, commands[1..]);
      assert next.tokens + PipelineTokens(commands[1..]) == l.tokens + PipelineTokens(commands);
    }
  }

  lemma {:induction false} RunnableParts(commands: seq<seq<string>>)
    requires AllRunnable(commands)
    ensures var words := WordsOf(commands[0]);
            Spells(words, commands[0]) && words != [] && CommandName(words[0].text, words[0].plain)
    ensures |commands| > 1 ==> AllRunnable(commands[1..])
  {
    assert Runnable(commands[0]);
  }

  lemma {:induction false} ParsePipelineTokens(commands: seq<seq<string>>, rest: seq<Token>, acc: Pipeline)
    requires AllRunnable(commands) && Boundary(rest)
    ensures ParsePipeline(PipelineTokens(commands) + rest, acc) == Some(Parsed(acc + Simples(commands), rest))
    decreases |commands|
  {
    hide ParsePipeline, ParseSimple, CommandName, WordsOf, Spells, Runnable;
    RunnableParts(commands);
    var words := WordsOf(commands[0]);
    if |commands| == 1 {
      ParseCommand(words, commands[0], rest, acc);
      assert [Simple(commands[0], [])] == Simples(commands);
    } else {
      var more := PipelineTokens(commands[1..]) + rest;
      assert PipelineTokens(commands) + rest == words + ([Operator(Bar)] + more);
      ParseCommand(words, commands[0], [Operator(Bar)] + more, acc);
      assert ([Operator(Bar)] + more)[1..] == more;
      ParsePipelineTokens(commands[1..], rest, acc + [Simple(commands[0], [])]);
      assert acc + [Simple(commands[0], [])] + Simples(commands[1..]) == acc + Simples(commands);
    }
  }

  /** The tokens of `&& p1 && p2 ...`. */
  function TailTokens(pipelines: seq<seq<seq<string>>>): seq<Token> {
    if pipelines == [] then []
    else [Operator(AndIf)] + PipelineTokens(pipelines[0]) + TailTokens(pipelines[1..])
  }

  function AllOf(left: AndOr, pipelines: seq<seq<seq<string>>>): AndOr
    decreases |pipelines|
  {
    if pipelines == [] then left
    else AllOf(Chain(left, IfOk, Simples(pipelines[0])), pipelines[1..])
  }

  predicate Runnables(pipelines: seq<seq<seq<string>>>) {
    forall i | 0 <= i < |pipelines| :: AllRunnable(pipelines[i])
  }

  lemma {:induction false} ScanScript(l: Lexer, pipelines: seq<seq<seq<string>>>)
    requires l.mode == Unquoted && l.word == None && pipelines != []
    requires forall i | 0 <= i < |pipelines| :: pipelines[i] != []
    ensures Ends(Scan(l, ScriptText(pipelines)),
                 l.tokens + PipelineTokens(pipelines[0]) + TailTokens(pipelines[1..]))
    decreases |pipelines|
  {
    hide Ends, Scan, PipelineText, PipelineTokens;
    var first, tokens := PipelineText(pipelines[0]), l.tokens + PipelineTokens(pipelines[0]);
    ScanPipeline(l, pipelines[0]);
    if |pipelines| == 1 {
      assert PipelineTexts(pipelines) == [first];
      assert tokens + TailTokens(pipelines[1..]) == tokens;
    } else {
      assert PipelineTexts(pipelines)[1..] == PipelineTexts(pipelines[1..]);
      var rest := ScriptText(pipelines[1..]);
      assert ScriptText(pipelines) == first + " && " + rest;
      ScanPastAnd(l, first, rest, tokens);
      var next := Lexer(Unquoted, None, tokens + [Operator(AndIf)]);
      ScanScript(next, pipelines[1..]);
      assert pipelines[1..][1..] == pipelines[2..];
      assert next.tokens + PipelineTokens(pipelines[1]) + TailTokens(pipelines[2..])
          == tokens + TailTokens(pipelines[1..]);
    }
  }

  lemma {:induction false} ParseTail(left: AndOr, pipelines: seq<seq<seq<string>>>)
    requires Runnables(pipelines)
    ensures ParseChain(left, TailTokens(pipelines)) == Some(AllOf(left, pipelines))
    decreases |pipelines|
  {
    hide ParsePipeline, ParseSimple, PipelineTokens, AllRunnable;
    if pipelines != [] {
      var rest := TailTokens(pipelines[1..]);
      assert TailTokens(pipelines)[1..] == PipelineTokens(pipelines[0]) + rest;
      ParsePipelineTokens(pipelines[0], rest, []);
      assert [] + Simples(pipelines[0]) == Simples(pipelines[0]);
      ParseTail(Chain(left, IfOk, Simples(pipelines[0])), pipelines[1..]);
    }
  }

  /** Pipelines joined by "&&" parse to exactly that list. */
  lemma {:induction false} ScriptParses(pipelines: seq<seq<seq<string>>>)
    requires pipelines != [] && Runnables(pipelines)
    ensures Parse(ScriptText(pipelines)) == Some(AllOf(Only(Simples(pipelines[0])), pipelines[1..]))
  {
    hide ScriptText, ParsePipeline, PipelineTokens, Runnable;
    ScanScript(START, pipelines);
    var first, rest := PipelineTokens(pipelines[0]), TailTokens(pipelines[1..]);
    assert [] + first + rest == first + rest;
    ParsePipelineTokens(pipelines[0], rest, []);
    assert [] + Simples(pipelines[0]) == Simples(pipelines[0]);
    ParseTail(Only(Simples(pipelines[0])), pipelines[1..]);
  }

  /** Whether the step ran, and the last command of it succeeded. */
  ghost predicate Succeeded(ran: seq<Pipeline>, i: nat, oracle: Oracle)
    requires i < |ran|
  {
    Succeeds(ran[i], ran[..i], oracle)
  }

  /** What ran is a prefix of the steps: every step but the last one that ran succeeded, and the
      list succeeds exactly when all steps ran and succeeded. */
  ghost predicate StopsAtFailure(outcome: Outcome, steps: seq<Pipeline>, oracle: Oracle) {
    && outcome.ran <= steps && outcome.ran != []
    && (forall i | 0 <= i < |outcome.ran| - 1 :: Succeeded(outcome.ran, i, oracle))
    && outcome.ok == Succeeded(outcome.ran, |outcome.ran| - 1, oracle)
    && (outcome.ok ==> outcome.ran == steps)
  }

  function StepsOf(pipelines: seq<seq<seq<string>>>): (r: seq<Pipeline>)
    ensures |r| == |pipelines|
  {
    seq(|pipelines|, i requires 0 <= i < |pipelines| => Simples(pipelines[i]))
  }

  lemma {:induction false} SucceededThere(a: seq<Pipeline>, b: seq<Pipeline>, i: nat, oracle: Oracle)
    requires i < |a| && a <= b
    ensures Succeeded(b, i, oracle) == Succeeded(a, i, oracle)
  {
    assert b[..i] == a[..i];
  }

  lemma {:induction false} LastSucceeded(done: seq<Pipeline>, step: Pipeline, oracle: Oracle)
    ensures Succeeded(done + [step], |done|, oracle) == Succeeds(step, done, oracle)
  {
    assert (done + [step])[..|done|] == done;
  }

  lemma {:induction false} FirstRuns(first: Pipeline, oracle: Oracle)
    ensures StopsAtFailure(Execute(Only(first), oracle), [first], oracle)
  {
    assert [] + [first] == [first];
  }

  lemma {:induction false} StepRuns(left: AndOr, done: seq<Pipeline>, step: Pipeline, oracle: Oracle)
    requires StopsAtFailure(Execute(left, oracle), done, oracle)
    ensures StopsAtFailure(Execute(Chain(left, IfOk, step), oracle), done + [step], oracle)
  {
    hide Succeeds, Succeeded;
    LastSucceeded(done, step, oracle);
    var before, after := Execute(left, oracle), Execute(Chain(left, IfOk, step), oracle);
    if before.ok {
      assert after.ran == done + [step] && after.ran[..|done|] == done;
      forall i: nat | i < |done| ensures Succeeded(after.ran, i, oracle) == Succeeded(done, i, oracle) {
        SucceededThere(done, after.ran, i, oracle);
      }
    }
  }

  /** The list runs these steps in order, up to the first that fails. */
  ghost predicate RunsThrough(list: AndOr, steps: seq<Pipeline>, oracle: Oracle) {
    StopsAtFailure(Execute(list, oracle), steps, oracle)
  }

  lemma {:induction false} AllOfRuns(left: AndOr, done: seq<Pipeline>, pipelines: seq<seq<seq<string>>>, oracle: Oracle)
    requires pipelines != [] && RunsThrough(left, done, oracle)
    ensures RunsThrough(AllOf(left, pipelines), done + StepsOf(pipelines), oracle)
    decreases |pipelines|
  {
    hide StopsAtFailure, Execute;
    var step, rest := Simples(pipelines[0]), pipelines[1..];
    StepRuns(left, done, step, oracle);
    if rest == [] {
      assert StepsOf(pipelines) == [step];
    } else {
      AllOfRuns(Chain(left, IfOk, step), done + [step], rest, oracle);
      assert done + [step] + StepsOf(rest) == done + StepsOf(pipelines);
    }
  }

  // ---- Argument lists ----

  /** `timeout` stands for lockTimeout(): VOLUST_LOCK_TIMEOUT, or "6h". */
  function BaseArgs(p: Profile, operation: string, timeout: string): seq<string> {
    ["restic", "-r", RepositoryString(p), "--retry-lock", timeout, operation]
  }

  function CleanPathPart(value: string): string {
    var part := Replace(Trim(TrimSpace(value), Slash), '/', "-");
    if part == "" then "container" else part
  }

  function SourcePath(spec: Spec, source: Source): string {
    "/volust/sources/" + CleanPathPart(spec.containerName) + "/" + source.id
  }

  /** The tags of a snapshot of this source. */
  function SnapshotTags(spec: Spec, sourceID: string): seq<string> {
    ["volust", "app:" + spec.name, "container:" + spec.containerName, "profile:" + spec.profile,
     "source:" + sourceID]
  }

  /** Each value behind its own copy of the flag. */
  function Flagged(flag: string, values: seq<string>): (r: seq<string>)
    ensures |r| == 2 * |values|
    ensures forall i | 0 <= i < |values| :: r[2 * i] == flag && r[2 * i + 1] == values[i]
  {
    if values == [] then [] else
      var n := |values| - 1;
      Flagged(flag, values[..n]) + [flag, values[n]]
  }

  method AppendFlagged(args: seq<string>, flag: string, values: seq<string>) returns (r: seq<string>)
    ensures r == args + Flagged(flag, values)
  {
    r := args;
    for i := 0 to |values|
      invariant r == args + Flagged(flag, values[..i])
    {
      assert values[..i + 1][..i] == values[..i];
      r := r + [flag, values[i]];
    }
    assert values[..|values|] == values;
  }

  function BackupArgs(p: Profile, spec: Spec, source: Source, excludeFiles: seq<string>, timeout: string)
    : seq<string>
  {
    BaseArgs(p, "backup", timeout) + [SourcePath(spec, source)]
    + Flagged("--tag", SnapshotTags(spec, source.id))
    + Flagged("--exclude", spec.excludes) + Flagged("--exclude-file", excludeFiles)
  }

  // ---- The backup script ----

  function BackupScript(config: seq<string>, init: seq<string>, backup: seq<string>): string {
    ShellJoined(config) + " >/dev/null 2>&1 || " + ShellJoined(init) + " && " + ShellJoined(backup)
  }

  const QUIET: seq<Redirect> := [Redirect("1", Great, "/dev/null"), Redirect("2", GreatAmp, "1")]

  /** (config >/dev/null 2>&1 || init) && backup */
  function BackupList(config: seq<string>, init: seq<string>, backup: seq<string>): AndOr {
    Chain(Chain(Only([Simple(config, QUIET)]), IfFailed, [Simple(init, [])]), IfOk, [Simple(backup, [])])
  }

  const QUIET_TOKENS: seq<Token> := [
    Operator(Great), Word("/dev/null", true), IoNumber("2"), Operator(GreatAmp), Word("1", true)]

  lemma {:induction false} ScanToNull(l: Lexer, tokens: seq<Token>)
    requires Ends(l, tokens)
    ensures Scan(l, " >/dev/null")
            == Lexer(Unquoted, Some(Fragment("/dev/null", true)), tokens + [Operator(Great)])
  {
    hide Scan;
    assert " >/dev/null" == [' ', '>', '/'] + "dev/null";
    ScanConcat(l, [' ', '>', '/'], "dev/null");
    ScanThree(l, ' ', '>', '/');
    ScanPlain(Scan(l, [' ', '>', '/']), Fragment("/", true), "dev/null");
    assert "/" + "dev/null" == "/dev/null";
  }

  lemma {:induction false} ScanToOut(l: Lexer)
    requires l.mode == Unquoted && l.word == Some(Fragment("/dev/null", true))
    ensures Scan(l, " 2>&1")
            == Lexer(Unquoted, Some(Fragment("1", true)),
                     l.tokens + [Word("/dev/null", true)] + [IoNumber("2")] + [Operator(GreatAmp)])
  {
    var words := l.tokens + [Word("/dev/null", true)];
    var blank := Lexer(Unquoted, None, words);
    var digit := Lexer(Unquoted, Some(Fragment(['2'], true)), words);
    var great := Lexer(InOperator(Great), None, words + [IoNumber(['2'])]);
    var amp := Lexer(InOperator(GreatAmp), None, words + [IoNumber(['2'])]);
    assert Step(l, ' ') == blank;
    assert Step(blank, '2') == digit;
    assert Step(digit, '>') == great;
    assert Step(great, '&') == amp;
    assert " 2>&1" == [' ', '2', '>'] + ['&', '1'];
    ScanConcat(l, [' ', '2', '>'], ['&', '1']);
    ScanThree(l, ' ', '2', '>');
    assert ['&', '1'] == ['&'] + ['1'];
    ScanConcat(great, ['&'], ['1']);
    ScanOne(great, '&');
    ScanOne(amp, '1');
  }

  lemma {:induction false} ScanQuiet(l: Lexer, tokens: seq<Token>)
    requires Ends(l, tokens)
    ensures Ends(Scan(l, " >/dev/null 2>&1"), tokens + QUIET_TOKENS)
  {
    assert " >/dev/null 2>&1" == " >/dev/null" + " 2>&1";
    ScanConcat(l, " >/dev/null", " 2>&1");
    ScanToNull(l, tokens);
    ScanToOut(Scan(l, " >/dev/null"));
    assert tokens + [Operator(Great)] + [Word("/dev/null", true)] + [IoNumber("2")] + [Operator(GreatAmp)]
         + [Word("1", true)] == tokens + QUIET_TOKENS;
  }

  lemma {:induction false} ParseEnd(rest: seq<Token>, acc: Simple)
    requires Boundary(rest) && acc.argv != []
    ensures ParseSimple(rest, acc) == Some(Parsed(acc, rest))
  {
  }

  lemma {:induction false} ParseQuiet(args: seq<string>, rest: seq<Token>)
    requires Runnable(args) && Boundary(rest)
    ensures ParsePipeline(WordsOf(args) + QUIET_TOKENS + rest, []) == Some(Parsed([Simple(args, QUIET)], rest))
  {
    hide ParseSimple, CommandName, IsPlain;
    var ts := WordsOf(args);
    var second := [IoNumber("2"), Operator(GreatAmp), Word("1", true)] + rest;
    var first := [Operator(Great), Word("/dev/null", true)] + second;
    assert ts + QUIET_TOKENS + rest == ts + first;
    ParseWords(ts, args, first, Simple([], []));
    assert [] + args == args;
    ParseRedirect(Great, "/dev/null", true, second, Simple(args, []));
    var half := Simple(args, [] + [Redirect("1", Great, "/dev/null")]);
    ParseIoRedirect("2", GreatAmp, "1", true, rest, half);
    assert half.redirects + [Redirect("2", GreatAmp, "1")] == QUIET;
    ParseEnd(rest, Simple(args, QUIET));
    assert [] + [Simple(args, QUIET)] == [Simple(args, QUIET)];
  }

  /** The printed backup script is the program (config || init) && backup, with exactly these arguments. */
  lemma {:induction false} BackupScriptParses(config: seq<string>, init: seq<string>, backup: seq<string>)
    requires Runnable(config) && Runnable(init) && Runnable(backup)
    ensures Parse(BackupScript(config, init, backup)) == Some(BackupList(config, init, backup))
  {
    var a, b, c := WordsOf(config), WordsOf(init), WordsOf(backup);
    var text0 := ShellJoined(config) + " >/dev/null 2>&1";
    var tail1 := ShellJoined(init) + " && " + ShellJoined(backup);
    assert " >/dev/null 2>&1 || " == " >/dev/null 2>&1" + " || ";
    assert BackupScript(config, init, backup) == text0 + " || " + tail1;
    ScanJoined(START, config);
    assert [] + a == a;
    ScanConcat(START, ShellJoined(config), " >/dev/null 2>&1");
    ScanQuiet(Scan(START, ShellJoined(config)), a);
    var quiet := a + QUIET_TOKENS;
    ScanConcat(START, text0 + " || ", tail1);
    ScanConcat(START, text0, " || ");
    ScanDouble(Scan(START, text0), quiet, '|');
    var second := Lexer(Unquoted, None, quiet + [Operator(OrIf)]);
    ScanJoined(second, init);
    ScanPastAnd(second, ShellJoined(init), ShellJoined(backup), second.tokens + b);
    var third := Lexer(Unquoted, None, second.tokens + b + [Operator(AndIf)]);
    ScanJoined(third, backup);
    BackupTokensParse(config, init, backup, third.tokens + c);
  }

  lemma {:induction false} BackupTokensParse(config: seq<string>, init: seq<string>, backup: seq<string>,
      tokens: seq<Token>)
    requires Runnable(config) && Runnable(init) && Runnable(backup)
    requires tokens == WordsOf(config) + QUIET_TOKENS + [Operator(OrIf)] + WordsOf(init)
                       + [Operator(AndIf)] + WordsOf(backup)
    ensures ParsePipeline(tokens, []).Some?
    ensures var first := ParsePipeline(tokens, []).value;
            ParseChain(Only(first.node), first.rest) == Some(BackupList(config, init, backup))
  {
    hide ParsePipeline, ParseSimple, CommandName, IsPlain;
    var end := [Operator(AndIf)] + WordsOf(backup);
    var rest := [Operator(OrIf)] + (WordsOf(init) + end);
    assert tokens == WordsOf(config) + QUIET_TOKENS + rest;
    ParseQuiet(config, rest);
    var first, i, b := Only([Simple(config, QUIET)]), [Simple(init, [])], [Simple(backup, [])];
    assert [] + i == i && [] + b == b;
    ParseCommand(WordsOf(init), init, end, []);
    assert rest[1..] == WordsOf(init) + end;
    assert ParsePipeline(rest[1..], []) == Some(Parsed(i, end));
    assert rest[0] == Operator(OrIf) && end[0] == Operator(AndIf);
    assert ParseChain(first, rest) == ParseChain(Chain(first, IfFailed, i), end);
    ParseCommand(WordsOf(backup), backup, [], []);
    assert end[1..] == WordsOf(backup) + [];
    assert ParseChain(Chain(first, IfFailed, i), end)
        == ParseChain(Chain(Chain(first, IfFailed, i), IfOk, b), []);
  }

  /** `init` runs exactly when `config` failed; `backup` runs exactly when one of the two succeeded;
      the script succeeds exactly when `backup` ran and succeeded. */
  lemma {:induction false} BackupScriptRuns(config: seq<string>, init: seq<string>, backup: seq<string>, oracle: Oracle)
    ensures var c, i, b := [Simple(config, QUIET)], [Simple(init, [])], [Simple(backup, [])];
            var outcome := Execute(BackupList(config, init, backup), oracle);
            var known := oracle([], c, 0);
            var ready := known || oracle([c], i, 0);
            && outcome.ran == [c] + (if known then [] else [i]) + (if ready then [b] else [])
            && outcome.ok == (ready && oracle(if known then [c] else [c, i], b, 0))
  {
    var c, i, b := [Simple(config, QUIET)], [Simple(init, [])], [Simple(backup, [])];
    assert [] + [c] == [c] && [c] + [i] == [c, i] && [c] + [] == [c];
    assert [c] + [] + [b] == [c] + [b] && [c] + [i] + [] == [c, i];
    assert Execute(Only(c), oracle) == Outcome([c], oracle([], c, 0));
  }

  function BackupProgram(p: Profile, spec: Spec, source: Source, excludeFiles: seq<string>, timeout: string): AndOr {
    BackupList(BaseArgs(p, "cat", timeout) + ["config"], BaseArgs(p, "init", timeout),
               BackupArgs(p, spec, source, excludeFiles, timeout))
  }

  /** BackupCommand. The arguments of the command are a script that means: initialize the repository
      if it is not there, then back up exactly this path with exactly these tags and excludes. */
  method BackupCommand(p: Profile, spec: Spec, source: Source, excludeFiles: seq<string>, timeout: string)
    returns (args: seq<string>)
    ensures |args| == 3 && args[..2] == ["sh", "-ec"]
    ensures Parse(args[2]) == Some(BackupProgram(p, spec, source, excludeFiles, timeout))
  {
    hide Flagged, ShellJoined, SnapshotTags, Parse, Runnable, RepositoryString, CleanPathPart;
    var backupArgs := BaseArgs(p, "backup", timeout) + [SourcePath(spec, source)];
    backupArgs := AppendFlagged(backupArgs, "--tag", SnapshotTags(spec, source.id));
    backupArgs := AppendFlagged(backupArgs, "--exclude", spec.excludes);
    backupArgs := AppendFlagged(backupArgs, "--exclude-file", excludeFiles);
    var configArgs := BaseArgs(p, "cat", timeout) + ["config"];
    var initArgs := BaseArgs(p, "init", timeout);
    ResticRuns(configArgs);
    ResticRuns(initArgs);
    ResticRuns(backupArgs);
    BackupScriptParses(configArgs, initArgs, backupArgs);
    args := ["sh", "-ec", BackupScript(configArgs, initArgs, backupArgs)];
  }

  lemma {:induction false} NamesCommand(name: string)
    requires name in {"restic", "rm", "mkdir", "grep", "rsync"}
    ensures CommandName(name, true) && IsPlain(name)
  {
    assert name[0] != '!' && name[0] != '{' && name[0] != '}';
    assert forall i | 0 <= i < |name| :: name[i] != '=';
  }

  lemma {:induction false} ResticRuns(args: seq<string>)
    requires args != [] && args[0] == "restic"
    ensures Runnable(args)
  {
    NamesCommand("restic");
  }

  // ---- The restore script ----

  datatype RestoreRequest = RestoreRequest(
    snapshotID: string, app: string, container: string, profile: string, sourceID: string, target: string)

  const STAGING: string := "/volust/staging/restore"

  function RequestSourcePath(request: RestoreRequest): string {
    "/volust/sources/" + CleanPathPart(request.container) + "/" + request.sourceID
  }

  /** The filters that name a source; an empty field is left out. */
  function RequestTags(request: RestoreRequest): seq<string> {
    (if request.app != "" then ["volust", "app:" + request.app] else [])
    + (if request.container != "" then ["container:" + request.container] else [])
    + (if request.profile != "" then ["profile:" + request.profile] else [])
    + (if request.sourceID != "" then ["source:" + request.sourceID] else [])
  }

  function ValidationArgs(p: Profile, request: RestoreRequest, timeout: string): seq<string> {
    ["restic", "-r", RepositoryString(p), "--retry-lock", timeout, "snapshots"]
    + (if request.snapshotID != "" then [request.snapshotID] else [])
    + ["--json", "--path", RequestSourcePath(request)] + Flagged("--tag", RequestTags(request))
  }

  function RestoreArgs(p: Profile, request: RestoreRequest, timeout: string): seq<string> {
    var path := RequestSourcePath(request);
    ["restic", "-r", RepositoryString(p), "--retry-lock", timeout, "restore", request.snapshotID,
     "--target", STAGING, "--include", path, "--path", path] + Flagged("--tag", RequestTags(request))
  }

  function RsyncArgs(request: RestoreRequest): seq<string> {
    ["rsync", "-aHAX", "--numeric-ids", "--delete", STAGING + RequestSourcePath(request) + "/",
     request.target + "/"]
  }

  /** The lines RestoreCommand joins, from the argument lists of its commands. */
  function StepLines(rm: seq<string>, mkdir: seq<string>, validation: Option<seq<string>>,
                     restore: seq<string>, rsync: seq<string>): seq<string> {
    [ShellJoined(rm), ShellJoined(mkdir)]
    + (if validation.Some? then [ShellJoined(validation.value) + " | grep -q '\"id\"'"] else [])
    + [ShellJoined(restore), ShellJoined(rsync)]
  }

  const GREP: seq<string> := ["grep", "-q", "\"id\""]

  /** The pipelines those lines should be. */
  function StepLists(rm: seq<string>, mkdir: seq<string>, validation: Option<seq<string>>,
                     restore: seq<string>, rsync: seq<string>): seq<seq<seq<string>>> {
    [[rm], [mkdir]] + (if validation.Some? then [[validation.value, GREP]] else []) + [[restore], [rsync]]
  }

  /** A snapshot other than "latest" is looked up before anything destructive happens. */
  function Validation(p: Profile, request: RestoreRequest, timeout: string): Option<seq<string>> {
    if request.snapshotID != "latest" then Some(ValidationArgs(p, request, timeout)) else None
  }

  function RmArgs(): seq<string> {
    ["rm", "-rf", STAGING]
  }

  function MkdirArgs(request: RestoreRequest): seq<string> {
    ["mkdir", "-p", STAGING, request.target]
  }

  /** RestoreCommand. */
  function RestoreScript(p: Profile, request: RestoreRequest, timeout: string): string {
    Join(StepLines(RmArgs(), MkdirArgs(request), Validation(p, request, timeout),
                   RestoreArgs(p, request, timeout), RsyncArgs(request)), " && ")
  }

  function RestoreSteps(p: Profile, request: RestoreRequest, timeout: string): seq<seq<seq<string>>> {
    StepLists(RmArgs(), MkdirArgs(request), Validation(p, request, timeout),
              RestoreArgs(p, request, timeout), RsyncArgs(request))
  }

  lemma {:induction false} GrepText()
    ensures ShellJoined(GREP) == "grep -q '\"id\"'"
  {
    var pattern: string := ['\"', 'i', 'd', '\"'];
    assert !Unsuspicious(pattern[0]);
    assert pattern[1..] == ['i', 'd', '\"'] && pattern[2..] == ['d', '\"'] && pattern[3..] == ['\"'];
    assert Replace(pattern[3..], '\'', QUOTED_QUOTE) == ['\"'];
    assert Replace(pattern[2..], '\'', QUOTED_QUOTE) == ['d', '\"'];
    assert pattern[1..][1..] == pattern[2..];
    assert Replace(pattern[1..], '\'', QUOTED_QUOTE) == ['i', 'd', '\"'];
    assert Replace(pattern, '\'', QUOTED_QUOTE) == pattern;
    assert ShellQuote(pattern) == ['\''] + pattern + ['\''];
    var args := ["grep", "-q", pattern];
    assert IsPlain("grep") && IsPlain("-q");
    assert QuoteAll(args) == ["grep", "-q", ShellQuote(pattern)];
    JoinThree("grep", "-q", ShellQuote(pattern), " ");
    assert "\"id\"" == pattern;
  }

  lemma {:induction false} TextsConcat(a: seq<seq<seq<string>>>, b: seq<seq<seq<string>>>)
    ensures PipelineTexts(a + b) == PipelineTexts(a) + PipelineTexts(b)
  {
  }

  lemma {:induction false} TextsOfTwo(a: seq<string>, b: seq<string>)
    ensures PipelineTexts([[a], [b]]) == [ShellJoined(a), ShellJoined(b)]
  {
    PipeOne(a);
    PipeOne(b);
  }

  lemma {:induction false} GrepSuffix(line: string)
    ensures line + " | grep -q '\"id\"'" == line + " | " + "grep -q '\"id\"'"
  {
  }

  lemma {:induction false} TextOfValidation(validation: seq<string>)
    ensures PipelineTexts([[validation, GREP]]) == [ShellJoined(validation) + " | grep -q '\"id\"'"]
  {
    GrepText();
    PipeTwo(validation, GREP);
    GrepSuffix(ShellJoined(validation));
    var pipelines := [[validation, GREP]];
    assert PipelineTexts(pipelines) == [PipelineText(pipelines[0])];
  }

  lemma {:induction false} LinesAreLists(rm: seq<string>, mkdir: seq<string>, validation: Option<seq<string>>,
                      restore: seq<string>, rsync: seq<string>)
    ensures StepLines(rm, mkdir, validation, restore, rsync)
            == PipelineTexts(StepLists(rm, mkdir, validation, restore, rsync))
  {
    var middle := if validation.Some? then [[validation.value, GREP]] else [];
    TextsOfTwo(rm, mkdir);
    TextsOfTwo(restore, rsync);
    TextsConcat([[rm], [mkdir]], middle);
    TextsConcat([[rm], [mkdir]] + middle, [[restore], [rsync]]);
    if validation.Some? {
      TextOfValidation(validation.value);
    }
  }

  lemma {:induction false} PipeOne(a: seq<string>)
    ensures PipelineText([a]) == ShellJoined(a)
  {
    assert JoinAll([a]) == [ShellJoined(a)];
  }

  lemma {:induction false} PipeTwo(a: seq<string>, b: seq<string>)
    ensures PipelineText([a, b]) == ShellJoined(a) + " | " + ShellJoined(b)
  {
    assert JoinAll([a, b]) == [ShellJoined(a), ShellJoined(b)];
    JoinTwo(ShellJoined(a), ShellJoined(b), " | ");
  }

  /** The printed restore script is `rm && mkdir && [snapshots | grep &&] restore && rsync`, with exactly
      these arguments. */
  lemma {:induction false} RestoreScriptParses(p: Profile, request: RestoreRequest, timeout: string)
    ensures var steps := RestoreSteps(p, request, timeout);
            Parse(RestoreScript(p, request, timeout)) == Some(AllOf(Only(Simples(steps[0])), steps[1..]))
  {
    hide Parse, CommandName, IsPlain, RepositoryString, PipelineTexts, StepLines;
    var steps := RestoreSteps(p, request, timeout);
    LinesAreLists(RmArgs(), MkdirArgs(request), Validation(p, request, timeout),
                  RestoreArgs(p, request, timeout), RsyncArgs(request));
    NamesCommand("rm");
    NamesCommand("mkdir");
    NamesCommand("grep");
    NamesCommand("rsync");
    NamesCommand("restic");
    assert forall i | 0 <= i < |steps| :: AllRunnable(steps[i]);
    ScriptParses(steps);
  }

  lemma {:induction false} OneMoreTag(args: seq<string>, tags: seq<string>, tag: string)
    ensures args + Flagged("--tag", tags) + ["--tag", tag] == args + Flagged("--tag", tags + [tag])
  {
    assert (tags + [tag])[..|tags|] == tags;
  }

  /** withRetryLock: the lock timeout behind the repository. */
  method WithRetryLock(args: seq<string>, timeout: string) returns (r: seq<string>)
    ensures |args| >= 4 ==> r == args[..3] + ["--retry-lock", timeout] + args[3..]
    ensures |args| < 4 ==> r == args
  {
    if |args| < 4 {
      return args;
    }
    r := args[..3];
    r := r + ["--retry-lock", timeout];
    r := r + args[3..];
  }

  /** The filters at the end of restoreArgs and of snapshotValidationArgs. */
  method AppendRequestTags(args: seq<string>, request: RestoreRequest) returns (r: seq<string>)
    ensures r == args + Flagged("--tag", RequestTags(request))
  {
    hide Flagged;
    ghost var app := if request.app != "" then ["volust", "app:" + request.app] else [];
    ghost var container := if request.container != "" then app + ["container:" + request.container] else app;
    ghost var profile := if request.profile != "" then container + ["profile:" + request.profile] else container;
    ghost var all := if request.sourceID != "" then profile + ["source:" + request.sourceID] else profile;
    assert RequestTags(request) == all;
    NoTags();
    r := args;
    if request.app != "" {
      OneMoreTag(args, [], "volust");
      OneMoreTag(args, [] + ["volust"], "app:" + request.app);
      r := r + ["--tag", "volust"];
      r := r + ["--tag", "app:" + request.app];
      assert [] + ["volust"] + ["app:" + request.app] == app;
    }
    assert r == args + Flagged("--tag", app);
    if request.container != "" {
      OneMoreTag(args, app, "container:" + request.container);
      r := r + ["--tag", "container:" + request.container];
    }
    assert r == args + Flagged("--tag", container);
    if request.profile != "" {
      OneMoreTag(args, container, "profile:" + request.profile);
      r := r + ["--tag", "profile:" + request.profile];
    }
    assert r == args + Flagged("--tag", profile);
    if request.sourceID != "" {
      OneMoreTag(args, profile, "source:" + request.sourceID);
      r := r + ["--tag", "source:" + request.sourceID];
    }
  }

  lemma {:induction false} NoTags()
    ensures Flagged("--tag", []) == []
  {
  }

  /** restoreArgs. */
  method BuildRestoreArgs(p: Profile, request: RestoreRequest, timeout: string) returns (args: seq<string>)
    ensures args == RestoreArgs(p, request, timeout)
  {
    hide Flagged, RequestTags, RepositoryString, RequestSourcePath;
    var path, repository := RequestSourcePath(request), RepositoryString(p);
    args := ["restic", "-r", repository, "restore", request.snapshotID];
    args := args + ["--target", STAGING, "--include", path];
    args := WithRetryLock(args, timeout);
    args := args + ["--path", path];
    assert args == ["restic", "-r", repository, "--retry-lock", timeout, "restore", request.snapshotID,
                    "--target", STAGING, "--include", path, "--path", path];
    args := AppendRequestTags(args, request);
  }

  /** snapshotValidationArgs. */
  method BuildValidationArgs(p: Profile, request: RestoreRequest, timeout: string) returns (args: seq<string>)
    ensures args == ValidationArgs(p, request, timeout)
  {
    hide Flagged, RequestTags, RepositoryString, RequestSourcePath;
    var path, repository := RequestSourcePath(request), RepositoryString(p);
    args := ["restic", "-r", repository, "snapshots"];
    if request.snapshotID != "" {
      args := args + [request.snapshotID];
    }
    args := args + ["--json", "--path", path];
    args := WithRetryLock(args, timeout);
    assert args == ["restic", "-r", repository, "--retry-lock", timeout, "snapshots"]
                   + (if request.snapshotID != "" then [request.snapshotID] else []) + ["--json", "--path", path];
    args := AppendRequestTags(args, request);
  }

  /** RestoreCommand. The arguments of the command are a script that means: clear the staging directory, look
      up a snapshot other than "latest", restore it to staging, and only then copy it over the target. */
  method RestoreCommand(p: Profile, request: RestoreRequest, timeout: string) returns (args: seq<string>)
    ensures |args| == 3 && args[..2] == ["sh", "-ec"]
    ensures args[2] == RestoreScript(p, request, timeout)
    ensures var steps := RestoreSteps(p, request, timeout);
            Parse(args[2]) == Some(AllOf(Only(Simples(steps[0])), steps[1..]))
  {
    hide ShellJoined, RestoreArgs, ValidationArgs, RsyncArgs, Tokenize, Parse;
    var rm := ShellJoin(RmArgs());
    var mkdir := ShellJoin(MkdirArgs(request));
    var steps := [rm, mkdir];
    if request.snapshotID != "latest" {
      var validation := BuildValidationArgs(p, request, timeout);
      var line := ShellJoin(validation);
      steps := steps + [line + " | grep -q '\"id\"'"];
    }
    var restore := BuildRestoreArgs(p, request, timeout);
    var line := ShellJoin(restore);
    var rsync := ShellJoin(RsyncArgs(request));
    steps := steps + [line, rsync];
    assert steps
        == StepLines(RmArgs(), MkdirArgs(request), Validation(p, request, timeout), restore, RsyncArgs(request));
    RestoreScriptParses(p, request, timeout);
    args := ["sh", "-ec", Join(steps, " && ")];
  }

  lemma {:induction false} LastStepGuarded(outcome: Outcome, steps: seq<Pipeline>, oracle: Oracle)
    requires steps != [] && StopsAtFailure(outcome, steps, oracle)
    requires forall i | 0 <= i < |steps| - 1 :: steps[i] != steps[|steps| - 1]
    ensures steps[|steps| - 1] in outcome.ran ==> outcome.ran == steps
    ensures outcome.ok ==> steps[|steps| - 1] in outcome.ran
  {
    var last := steps[|steps| - 1];
    if last in outcome.ran {
      var i :| 0 <= i < |outcome.ran| && outcome.ran[i] == last;
      assert steps[i] == last;
    }
  }

  lemma {:induction false} RsyncIsLast(p: Profile, request: RestoreRequest, timeout: string)
    ensures var steps := StepsOf(RestoreSteps(p, request, timeout));
            && steps[|steps| - 1] == [Simple(RsyncArgs(request), [])]
            && forall i | 0 <= i < |steps| - 1 :: steps[i] != steps[|steps| - 1]
  {
    var lists := RestoreSteps(p, request, timeout);
    var steps := StepsOf(lists);
    assert steps[|steps| - 1] == Simples([RsyncArgs(request)]) == [Simple(RsyncArgs(request), [])];
    forall i | 0 <= i < |steps| - 1 ensures steps[i] != steps[|steps| - 1] {
      assert steps[i][0].argv == lists[i][0];
      assert lists[i][0][0][1] != 's';
    }
  }

  /** Whatever the programs do, the steps run in order up to the first failure. In particular
      `rsync --delete` runs only if every step before it succeeded, the `grep` pipeline included, and the
      script succeeds only if `rsync` did. */
  lemma {:induction false} RestoreScriptRuns(p: Profile, request: RestoreRequest, timeout: string, oracle: Oracle)
    ensures Parse(RestoreScript(p, request, timeout)).Some?
    ensures var steps := StepsOf(RestoreSteps(p, request, timeout));
            var rsync := [Simple(RsyncArgs(request), [])];
            var outcome := Execute(Parse(RestoreScript(p, request, timeout)).value, oracle);
            && StopsAtFailure(outcome, steps, oracle)
            && (rsync in outcome.ran ==> outcome.ran == steps)
            && (outcome.ok ==> rsync in outcome.ran)
  {
    hide Parse, RestoreScript, StopsAtFailure, AllOf;
    var lists := RestoreSteps(p, request, timeout);
    var first := Simples(lists[0]);
    RestoreScriptParses(p, request, timeout);
    FirstRuns(first, oracle);
    AllOfRuns(Only(first), [first], lists[1..], oracle);
    assert [first] + StepsOf(lists[1..]) == StepsOf(lists);
    RsyncIsLast(p, request, timeout);
    LastStepGuarded(Execute(AllOf(Only(first), lists[1..]), oracle), StepsOf(lists), oracle);
  }

  /** All steps ran exactly if every step but the last succeeded. */
  lemma {:induction false} AllRanIff(outcome: Outcome, steps: seq<Pipeline>, oracle: Oracle)
    requires steps != [] && StopsAtFailure(outcome, steps, oracle)
    ensures outcome.ran == steps <==> forall i | 0 <= i < |steps| - 1 :: Succeeded(steps, i, oracle)
  {
    hide Succeeded;
    var n := |outcome.ran|;
    if n < |steps| {
      SucceededThere(outcome.ran, steps, n - 1, oracle);
    }
  }

  /** What the restore script does under an oracle. */
  ghost function RestoreOutcome(p: Profile, request: RestoreRequest, timeout: string, oracle: Oracle): Outcome {
    match Parse(RestoreScript(p, request, timeout))
    case Some(list) => Execute(list, oracle)
    case None => Outcome([], false)
  }

  function Command(args: seq<string>): Pipeline {
    [Simple(args, [])]
  }

  /** The step that looks the snapshot up: `restic snapshots`, piped into `grep`. */
  function Lookup(p: Profile, request: RestoreRequest, timeout: string): Pipeline {
    [Simple(ValidationArgs(p, request, timeout), []), Simple(GREP, [])]
  }

  /** The steps before `restic restore`. */
  function Checks(p: Profile, request: RestoreRequest, timeout: string): seq<Pipeline> {
    [Command(RmArgs()), Command(MkdirArgs(request))]
    + (if request.snapshotID != "latest" then [Lookup(p, request, timeout)] else [])
  }

  lemma {:induction false} StepsAre(p: Profile, request: RestoreRequest, timeout: string)
    ensures StepsOf(RestoreSteps(p, request, timeout))
         == Checks(p, request, timeout) + [Command(RestoreArgs(p, request, timeout)), Command(RsyncArgs(request))]
  {
    hide RmArgs, MkdirArgs, ValidationArgs, RestoreArgs, RsyncArgs;
    assert forall a :: Simples([a]) == Command(a);
    assert Simples([ValidationArgs(p, request, timeout), GREP]) == Lookup(p, request, timeout);
  }

  /** `rsync --delete` runs exactly if `rm`, `mkdir`, `restic restore` and, for a snapshot other than "latest", the
      `grep` of the lookup succeed. How `restic snapshots` exits does not occur. */
  lemma {:induction false} RsyncRunsIff(p: Profile, request: RestoreRequest, timeout: string, oracle: Oracle)
    ensures var rm, mkdir := Command(RmArgs()), Command(MkdirArgs(request));
            Command(RsyncArgs(request)) in RestoreOutcome(p, request, timeout, oracle).ran <==>
              && oracle([], rm, 0) && oracle([rm], mkdir, 0)
              && (request.snapshotID == "latest" || oracle([rm, mkdir], Lookup(p, request, timeout), 1))
              && oracle(Checks(p, request, timeout), Command(RestoreArgs(p, request, timeout)), 0)
  {
    hide Parse, RestoreScript, RestoreSteps, StopsAtFailure, RmArgs, MkdirArgs, ValidationArgs, RestoreArgs, RsyncArgs;
    var steps := StepsOf(RestoreSteps(p, request, timeout));
    var rm, mkdir := Command(RmArgs()), Command(MkdirArgs(request));
    RestoreScriptRuns(p, request, timeout, oracle);
    RsyncIsLast(p, request, timeout);
    StepsAre(p, request, timeout);
    AllRanIff(RestoreOutcome(p, request, timeout, oracle), steps, oracle);
    assert steps[..0] == [] && steps[..1] == [rm] && steps[..2] == [rm, mkdir];
    assert steps[..|steps| - 2] == Checks(p, request, timeout);
    assert Succeeded(steps, 0, oracle) == oracle([], rm, 0);
    assert Succeeded(steps, 1, oracle) == oracle([rm], mkdir, 0);
    assert Succeeded(steps, |steps| - 2, oracle)
        == oracle(Checks(p, request, timeout), Command(RestoreArgs(p, request, timeout)), 0);
    if request.snapshotID != "latest" {
      assert Succeeded(steps, 2, oracle) == oracle([rm, mkdir], Lookup(p, request, timeout), 1);
    }
  }

  /** In this run of the script `restic snapshots` failed, and `rsync --delete` ran all the same. */
  ghost predicate RanUnlisted(p: Profile, request: RestoreRequest, timeout: string, oracle: Oracle) {
    var ran := RestoreOutcome(p, request, timeout, oracle).ran;
    && Lookup(p, request, timeout) in ran
    && !oracle([Command(RmArgs()), Command(MkdirArgs(request))], Lookup(p, request, timeout), 0)
    && Command(RsyncArgs(request)) in ran
  }

  lemma {:induction false} LatestIsNotLookedUp(p: Profile, request: RestoreRequest, timeout: string, oracle: Oracle)
    requires request.snapshotID == "latest"
    ensures Lookup(p, request, timeout) !in RestoreOutcome(p, request, timeout, oracle).ran
  {
    hide Parse, RestoreScript, RestoreSteps, RmArgs, MkdirArgs, ValidationArgs, RestoreArgs, RsyncArgs;
    var steps := StepsOf(RestoreSteps(p, request, timeout));
    StepsAre(p, request, timeout);
    RestoreScriptRuns(p, request, timeout, oracle);
    assert forall i | 0 <= i < |steps| :: |steps[i]| == 1;
    assert |Lookup(p, request, timeout)| == 2;
  }

  /** The shell looks at the `grep` of the lookup alone: `restic snapshots` can fail in a run that goes on to
      `rsync --delete` exactly for snapshots other than "latest", which are the ones that are looked up. */
  lemma {:induction false} RestoreIgnoresSnapshotsStatus(p: Profile, request: RestoreRequest, timeout: string)
    ensures (exists oracle :: RanUnlisted(p, request, timeout, oracle)) <==> request.snapshotID != "latest"
  {
    hide Parse, RestoreScript, RestoreSteps, RmArgs, MkdirArgs, ValidationArgs, RestoreArgs, RsyncArgs;
    var steps := StepsOf(RestoreSteps(p, request, timeout));
    StepsAre(p, request, timeout);
    if request.snapshotID != "latest" {
      var oracle: Oracle := (ran, step, i) => i > 0 || |step| == 1;
      RsyncRunsIff(p, request, timeout, oracle);
      RestoreScriptRuns(p, request, timeout, oracle);
      assert steps[2] == Lookup(p, request, timeout);
      assert RanUnlisted(p, request, timeout, oracle);
    } else {
      forall oracle ensures !RanUnlisted(p, request, timeout, oracle) {
        LatestIsNotLookedUp(p, request, timeout, oracle);
      }
    }
  }
}
