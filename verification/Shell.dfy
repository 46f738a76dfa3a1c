/** The part of the POSIX shell command language (IEEE Std 1003.1-2017, XCU chapter 2) that reads the
    generated scripts: token recognition with quoting (2.2, 2.3), simple commands with redirections
    (2.9.1), pipelines (2.9.2) and AND-OR lists (2.9.3).
    Input that needs anything else (an expansion, a compound command, an assignment, a here-document)
    is rejected, so a script that parses here undergoes no expansion. */
module Shell {
  import opened Text

  datatype Op =
    | Amp | AndIf | Bar | OrIf | Semi | DoubleSemi | Less | Great | DoubleLess | DoubleGreat
    | LessAmp | GreatAmp | LessGreat | DoubleLessDash | Clobber | LeftParen | RightParen | Newline

  /** `plain` tells whether no character of the word was quoted: only such a word can be
      a reserved word or an assignment. */
  datatype Token = Word(text: string, plain: bool) | IoNumber(text: string) | Operator(op: Op)

  // ---- Token recognition ----

  datatype Mode =
    | Unquoted | SingleQuote | DoubleQuote | Backslash | DoubleBackslash
    | InOperator(op: Op) | Comment | Rejected

  datatype Fragment = Fragment(text: string, plain: bool)

  datatype Lexer = Lexer(mode: Mode, word: Option<Fragment>, tokens: seq<Token>)

  const START := Lexer(Unquoted, None, [])

  function FirstOp(c: char): Option<Op> {
    match c
    case '&' => Some(Amp)
    case '|' => Some(Bar)
    case ';' => Some(Semi)
    case '<' => Some(Less)
    case '>' => Some(Great)
    case '(' => Some(LeftParen)
    case ')' => Some(RightParen)
    case '\n' => Some(Newline)
    case _ => None
  }

  /** The longer operator that `c` makes of `op`, if there is one. */
  function LongerOp(op: Op, c: char): Option<Op> {
    match op
    case Amp => if c == '&' then Some(AndIf) else None
    case Bar => if c == '|' then Some(OrIf) else None
    case Semi => if c == ';' then Some(DoubleSemi) else None
    case Less =>
      if c == '<' then Some(DoubleLess) else if c == '&' then Some(LessAmp)
      else if c == '>' then Some(LessGreat) else None
    case Great =>
      if c == '>' then Some(DoubleGreat) else if c == '&' then Some(GreatAmp)
      else if c == '|' then Some(Clobber) else None
    case DoubleLess => if c == '-' then Some(DoubleLessDash) else None
    case _ => None
  }

  predicate Digits(s: string) {
    s != [] && forall c | c in s :: '0' <= c <= '9'
  }

  /** Unquoted, these characters start an expansion: parameters, commands, patterns, tildes. */
  predicate Expands(c: char) {
    c == '$' || c == '`' || c == '*' || c == '?' || c == '[' || c == '~'
  }

  function Push(l: Lexer, c: char, plain: bool): Lexer {
    match l.word
    case None => l.(word := Some(Fragment([c], plain)))
    case Some(f) => l.(word := Some(Fragment(f.text + [c], f.plain && plain)))
  }

  /** An opening quote starts a word, possibly an empty one. */
  function Quote(l: Lexer, mode: Mode): Lexer {
    match l.word
    case None => Lexer(mode, Some(Fragment([], false)), l.tokens)
    case Some(f) => Lexer(mode, Some(Fragment(f.text, false)), l.tokens)
  }

  function EndWord(l: Lexer): Lexer {
    match l.word
    case None => l
    case Some(f) => Lexer(l.mode, None, l.tokens + [Word(f.text, f.plain)])
  }

  /** Digits right before a redirection operator are its file descriptor. */
  function EndBeforeOp(l: Lexer, c: char): Lexer {
    if (c == '<' || c == '>') && l.word.Some? && l.word.value.plain && Digits(l.word.value.text)
    then Lexer(l.mode, None, l.tokens + [IoNumber(l.word.value.text)])
    else EndWord(l)
  }

  function Reject(l: Lexer): Lexer {
    l.(mode := Rejected)
  }

  function StepUnquoted(l: Lexer, c: char): Lexer {
    if c == '\'' then Quote(l, SingleQuote)
    else if c == '\"' then Quote(l, DoubleQuote)
    else if c == '\\' then l.(mode := Backslash)
    else if c == ' ' || c == '\t' then EndWord(l).(mode := Unquoted)
    else if FirstOp(c).Some? then EndBeforeOp(l, c).(mode := InOperator(FirstOp(c).value))
    else if c == '#' && l.word.None? then l.(mode := Comment)
    else if Expands(c) then Reject(l)
    else Push(l, c, true).(mode := Unquoted)
  }

  function Step(l: Lexer, c: char): Lexer {
    match l.mode
    case Unquoted => StepUnquoted(l, c)
    case SingleQuote => if c == '\'' then l.(mode := Unquoted) else Push(l, c, false)
    case DoubleQuote =>
      if c == '\"' then l.(mode := Unquoted)
      else if c == '\\' then l.(mode := DoubleBackslash)
      else if c == '$' || c == '`' then Reject(l)
      else Push(l, c, false)
    case Backslash =>
      if c == '\n' then l.(mode := Unquoted) else Push(l, c, false).(mode := Unquoted)
    case DoubleBackslash =>
      if c == '\n' then l.(mode := DoubleQuote)
      else if c == '$' || c == '`' || c == '\"' || c == '\\'
      then Push(l, c, false).(mode := DoubleQuote)
      else Push(Push(l, '\\', false), c, false).(mode := DoubleQuote)
    case InOperator(op) =>
      if LongerOp(op, c).Some? then l.(mode := InOperator(LongerOp(op, c).value))
      else StepUnquoted(Lexer(Unquoted, None, l.tokens + [Operator(op)]), c)
    case Comment => if c == '\n' then Lexer(InOperator(Newline), None, l.tokens) else l
    case Rejected => l
  }

  function Scan(l: Lexer, s: string): Lexer
    decreases |s|, |l.tokens|
  {
    if s == [] then l else Scan(Step(l, s[0]), s[1..])
  }

  function Finish(l: Lexer): Option<seq<Token>> {
    match l.mode
    case Unquoted => Some(EndWord(l).tokens)
    case InOperator(op) => Some(l.tokens + [Operator(op)])
    case Comment => Some(l.tokens)
    case _ => None
  }

  function Tokenize(script: string): Option<seq<Token>> {
    Finish(Scan(START, script))
  }

  // ---- Grammar ----

  datatype Redirect = Redirect(fd: string, op: Op, target: string)

  datatype Simple = Simple(argv: seq<string>, redirects: seq<Redirect>)

  type Pipeline = seq<Simple>

  datatype Connector = IfOk | IfFailed

  /** AND-OR lists have equal precedence and associate to the left. */
  datatype AndOr = Only(pipeline: Pipeline) | Chain(left: AndOr, connector: Connector, right: Pipeline)

  const RESERVED: set<string> := {
    "!", "{", "}", "case", "do", "done", "elif", "else", "esac", "fi", "for", "if", "in",
    "then", "until", "while"}

  predicate NameChar(c: char, first: bool) {
    'a' <= c <= 'z' || 'A' <= c <= 'Z' || c == '_' || (!first && '0' <= c <= '9')
  }

  predicate Assignment(s: string) {
    exists i | 0 < i < |s| ::
      s[i] == '=' && forall j | 0 <= j < i :: NameChar(s[j], j == 0)
  }

  /** Whether this word, first in a command, names the command to run. */
  predicate CommandName(text: string, plain: bool) {
    plain ==> text !in RESERVED && !Assignment(text)
  }

  function DefaultFd(op: Op): Option<string> {
    match op
    case Less | LessAmp | LessGreat => Some("0")
    case Great | GreatAmp | DoubleGreat | Clobber => Some("1")
    case _ => None
  }

  datatype Parsed<+T> = Parsed(node: T, rest: seq<Token>)

  predicate Separator(t: Token) {
    t == Operator(AndIf) || t == Operator(OrIf) || t == Operator(Bar)
  }

  function ParseSimple(ts: seq<Token>, acc: Simple): (r: Option<Parsed<Simple>>)
    ensures r.Some? ==> |r.value.rest| <= |ts|
    ensures r.Some? && acc == Simple([], []) ==> |r.value.rest| < |ts|
    decreases |ts|
  {
    if ts == [] || Separator(ts[0]) then
      if acc == Simple([], []) then None else Some(Parsed(acc, ts))
    else match ts[0]
      case Word(text, plain) =>
        if acc.argv == [] && !CommandName(text, plain) then None
        else ParseSimple(ts[1..], Simple(acc.argv + [text], acc.redirects))
      case IoNumber(fd) =>
        if |ts| >= 3 && ts[1].Operator? && DefaultFd(ts[1].op).Some? && ts[2].Word?
        then ParseSimple(ts[3..], Simple(acc.argv, acc.redirects + [Redirect(fd, ts[1].op, ts[2].text)]))
        else None
      case Operator(op) =>
        if |ts| >= 2 && DefaultFd(op).Some? && ts[1].Word?
        then ParseSimple(ts[2..],
                         Simple(acc.argv, acc.redirects + [Redirect(DefaultFd(op).value, op, ts[1].text)]))
        else None
  }

  function ParsePipeline(ts: seq<Token>, acc: Pipeline): (r: Option<Parsed<Pipeline>>)
    ensures r.Some? ==> |r.value.rest| < |ts| && r.value.node != []
    decreases |ts|
  {
    match ParseSimple(ts, Simple([], []))
    case None => None
    case Some(Parsed(command, rest)) =>
      if rest != [] && rest[0] == Operator(Bar)
      then ParsePipeline(rest[1..], acc + [command])
      else Some(Parsed(acc + [command], rest))
  }

  function ParseChain(left: AndOr, ts: seq<Token>): Option<AndOr>
    decreases |ts|
  {
    if ts == [] then Some(left)
    else if ts[0] == Operator(AndIf) || ts[0] == Operator(OrIf) then
      match ParsePipeline(ts[1..], [])
      case None => None
      case Some(Parsed(right, rest)) =>
        ParseChain(Chain(left, if ts[0] == Operator(AndIf) then IfOk else IfFailed, right), rest)
    else None
  }

  function Parse(script: string): Option<AndOr> {
    match Tokenize(script)
    case None => None
    case Some(ts) =>
      match ParsePipeline(ts, [])
      case None => None
      case Some(Parsed(first, rest)) => ParseChain(Only(first), rest)
  }

  // ---- Execution ----

  /** Whether command `i` of a pipeline exits with status 0, given the pipelines that ran before.
      Any behaviour of the programs is some oracle. */
  type Oracle = (seq<Pipeline>, Pipeline, nat) -> bool

  /** What ran, in order, and whether the list as a whole succeeded. */
  datatype Outcome = Outcome(ran: seq<Pipeline>, ok: bool)

  /** A pipeline has the exit status of its last command. */
  predicate Succeeds(p: Pipeline, ran: seq<Pipeline>, oracle: Oracle) {
    p != [] && oracle(ran, p, |p| - 1)
  }

  function RunPipeline(p: Pipeline, ran: seq<Pipeline>, oracle: Oracle): Outcome {
    Outcome(ran + [p], Succeeds(p, ran, oracle))
  }

  function Execute(list: AndOr, oracle: Oracle): Outcome {
    match list
    case Only(p) => RunPipeline(p, [], oracle)
    case Chain(left, connector, right) =>
      var before := Execute(left, oracle);
      if before.ok == connector.IfOk? then RunPipeline(right, before.ran, oracle) else before
  }

  // ---- Facts about scanning ----

  lemma {:induction false} ScanConcat(l: Lexer, a: string, b: string)
    ensures Scan(l, a + b) == Scan(Scan(l, a), b)
    decreases |a|
  {
    if a == [] {
      assert a + b == b;
    } else {
      ScanConcat(Step(l, a[0]), a[1..], b);
      assert (a + b)[1..] == a[1..] + b;
    }
  }

  lemma {:induction false} ScanOne(l: Lexer, c: char)
    ensures Scan(l, [c]) == Step(l, c)
  {
    assert [c][1..] == [];
  }

  lemma {:induction false} ScanThree(l: Lexer, c: char, d: char, e: char)
    ensures Scan(l, [c, d, e]) == Step(Step(Step(l, c), d), e)
  {
    assert [c, d, e][1..] == [d, e] && [d, e][1..] == [e];
    ScanOne(Step(Step(l, c), d), e);
  }

  /** The lexer is past some text outside quotes; ending the word in progress gives these tokens. */
  predicate Ends(l: Lexer, tokens: seq<Token>) {
    l.mode == Unquoted && EndWord(l) == Lexer(Unquoted, None, tokens)
  }

  /** An operator between blanks. */
  lemma {:induction false} ScanBar(l: Lexer, tokens: seq<Token>)
    requires Ends(l, tokens)
    ensures Scan(l, " | ") == Lexer(Unquoted, None, tokens + [Operator(Bar)])
  {
    ScanThree(l, ' ', '|', ' ');
  }

  lemma {:induction false} ScanDouble(l: Lexer, tokens: seq<Token>, c: char)
    requires Ends(l, tokens) && (c == '&' || c == '|')
    ensures Scan(l, [' ', c, c, ' '])
            == Lexer(Unquoted, None, tokens + [Operator(if c == '&' then AndIf else OrIf)])
  {
    assert [' ', c, c, ' '] == [' ', c, c] + [' '];
    ScanConcat(l, [' ', c, c], [' ']);
    ScanThree(l, ' ', c, c);
    ScanOne(Scan(l, [' ', c, c]), ' ');
  }

  // ---- Facts about parsing ----

  /** Tokens that are the given words, quoted or not. */
  predicate Spells(ts: seq<Token>, args: seq<string>) {
    |ts| == |args| && forall i | 0 <= i < |ts| :: ts[i].Word? && ts[i].text == args[i]
  }

  lemma {:induction false} ParseWord(ts: seq<Token>, acc: Simple)
    requires ts != [] && ts[0].Word?
    requires acc.argv == [] ==> CommandName(ts[0].text, ts[0].plain)
    ensures ParseSimple(ts, acc) == ParseSimple(ts[1..], Simple(acc.argv + [ts[0].text], acc.redirects))
  {
  }

  lemma {:induction false} ParseWords(ts: seq<Token>, args: seq<string>, rest: seq<Token>, acc: Simple)
    requires Spells(ts, args)
    requires acc.argv == [] && ts != [] ==> CommandName(ts[0].text, ts[0].plain)
    ensures ParseSimple(ts + rest, acc) == ParseSimple(rest, Simple(acc.argv + args, acc.redirects))
    decreases |ts|
  {
    if ts == [] {
      assert ts + rest == rest && acc.argv + args == acc.argv;
    } else {
      ParseWord(ts + rest, acc);
      ParseWords(ts[1..], args[1..], rest, Simple(acc.argv + [args[0]], acc.redirects));
      assert (ts + rest)[1..] == ts[1..] + rest;
      assert acc.argv + [args[0]] + args[1..] == acc.argv + args;
    }
  }

  lemma {:induction false} ParseRedirect(op: Op, target: string, plain: bool, rest: seq<Token>, acc: Simple)
    requires DefaultFd(op).Some?
    ensures ParseSimple([Operator(op), Word(target, plain)] + rest, acc)
            == ParseSimple(rest, Simple(acc.argv, acc.redirects + [Redirect(DefaultFd(op).value, op, target)]))
  {
    assert ([Operator(op), Word(target, plain)] + rest)[2..] == rest;
  }

  lemma {:induction false} ParseIoRedirect(fd: string, op: Op, target: string, plain: bool, rest: seq<Token>,
      acc: Simple)
    requires DefaultFd(op).Some?
    ensures ParseSimple([IoNumber(fd), Operator(op), Word(target, plain)] + rest, acc)
            == ParseSimple(rest, Simple(acc.argv, acc.redirects + [Redirect(fd, op, target)]))
  {
    assert ([IoNumber(fd), Operator(op), Word(target, plain)] + rest)[3..] == rest;
  }

  predicate Boundary(ts: seq<Token>) {
    ts == [] || ts[0] == Operator(AndIf) || ts[0] == Operator(OrIf)
  }

  /** A command line of words alone parses to a pipeline of one command. */
  lemma {:induction false} ParseCommand(ts: seq<Token>, args: seq<string>, rest: seq<Token>, acc: Pipeline)
    requires Spells(ts, args) && ts != [] && CommandName(ts[0].text, ts[0].plain)
    requires Boundary(rest) || rest[0] == Operator(Bar)
    ensures ParseSimple(ts + rest, Simple([], [])) == Some(Parsed(Simple(args, []), rest))
    ensures Boundary(rest) ==>
              ParsePipeline(ts + rest, acc) == Some(Parsed(acc + [Simple(args, [])], rest))
    ensures !Boundary(rest) ==>
              ParsePipeline(ts + rest, acc) == ParsePipeline(rest[1..], acc + [Simple(args, [])])
  {
    ParseWords(ts, args, rest, Simple([], []));
    assert [] + args == args;
  }
}
