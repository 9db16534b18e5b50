/**
 Nested command wrappers against the quoting rules of section 2.2 of the POSIX
 Shell Command Language (src/shell_escape.rs, src/ssh/sanitize.rs,
 src/ssh/elevation.rs, src/ssh/command.rs, src/background/wrapper.rs).
 */
module ShellQuoting {
  import opened Basics

  // ------------------------------------------------------------ the shell's side

  /** One character of a word: literal, or still subject to an expansion. */
  datatype Piece = Lit(c: char) | Exp(c: char)

  type Word = seq<Piece>

  datatype Token = WordToken(word: Word) | Operator(c: char)

  predicate IsBlank(c: char) {
    c == ' ' || c == '\t'
  }

  predicate IsOperator(c: char) {
    c == ';' || c == '|' || c == '&' || c == '<' || c == '>' || c == '(' || c == ')' || c == '\n'
  }

  predicate Expands(c: char) {
    c == '$' || c == '`' || c == '*' || c == '?' || c == '[' || c == '~' || c == '#'
  }

  /** Characters that stand for themselves outside quotes. */
  predicate IsOrdinary(c: char) {
    !IsBlank(c) && !IsOperator(c) && !Expands(c) && c != '\'' && c != '"' && c != '\\'
  }

  function OrEmpty(word: Option<Word>): Word {
    if word.None? then [] else word.value
  }

  function Flush(word: Option<Word>): seq<Token> {
    if word.None? then [] else [WordToken(word.value)]
  }

  function Then(tokens: seq<Token>, rest: Option<seq<Token>>): Option<seq<Token>> {
    if rest.None? then None else Some(tokens + rest.value)
  }

  /** Token recognition and quote removal; `None` for an unterminated quote. */
  function Lex(s: string, word: Option<Word>): Option<seq<Token>>
    decreases |s|
  {
    if s == "" then Some(Flush(word))
    else
      var c := s[0];
      if IsBlank(c) then Then(Flush(word), Lex(s[1..], None))
      else if IsOperator(c) then Then(Flush(word) + [Operator(c)], Lex(s[1..], None))
      else if c == '\'' then LexSingle(s[1..], OrEmpty(word))
      else if c == '"' then LexDouble(s[1..], OrEmpty(word))
      else if c == '\\' then
        if |s| == 1 then None
        else if s[1] == '\n' then Lex(s[2..], word)
        else Lex(s[2..], Some(OrEmpty(word) + [Lit(s[1])]))
      else Lex(s[1..], Some(OrEmpty(word) + [if Expands(c) then Exp(c) else Lit(c)]))
  }

  /** Inside single quotes every character is literal up to the next single quote. */
  function LexSingle(s: string, word: Word): Option<seq<Token>>
    decreases |s|
  {
    if s == "" then None
    else if s[0] == '\'' then Lex(s[1..], Some(word))
    else LexSingle(s[1..], word + [Lit(s[0])])
  }

  /** Inside double quotes only `$`, the backquote and some backslashes are special. */
  function LexDouble(s: string, word: Word): Option<seq<Token>>
    decreases |s|
  {
    if s == "" then None
    else if s[0] == '"' then Lex(s[1..], Some(word))
    else if s[0] == '$' || s[0] == '`' then LexDouble(s[1..], word + [Exp(s[0])])
    else if s[0] == '\\' && |s| >= 2 && (s[1] == '$' || s[1] == '`' || s[1] == '"' || s[1] == '\\') then
      LexDouble(s[2..], word + [Lit(s[1])])
    else if s[0] == '\\' && |s| >= 2 && s[1] == '\n' then LexDouble(s[2..], word)
    else LexDouble(s[1..], word + [Lit(s[0])])
  }

  function Lits(s: string): (w: Word)
    ensures |w| == |s|
  {
    seq(|s|, i requires 0 <= i < |s| => Lit(s[i]))
  }

  // ---------------------------------------------------------- the program's side

  /** Escaping for a single-quoted context: each quote becomes '"'"'. */
  function Escape(s: string): string {
    if s == "" then "" else (if s[0] == '\'' then "'\"'\"'" else [s[0]]) + Escape(s[1..])
  }

  function Quoted(s: string): string {
    "'" + Escape(s) + "'"
  }

  // ---------------------------------------------------------------- quoting works

  lemma LitsSnoc(w: Word, s: string)
    requires s != ""
    ensures w + [Lit(s[0])] + Lits(s[1..]) == w + Lits(s)
  {
    assert Lits(s) == [Lit(s[0])] + Lits(s[1..]);
  }

  /** The escape of one quote character, read inside single quotes, adds that character. */
  lemma QuoteComesBack(rest: string, word: Word)
    ensures LexSingle("'\"'\"'" + rest, word) == LexSingle(rest, word + [Lit('\'')])
  {
    var s0 := "'\"'\"'" + rest;
    var s1 := "\"'\"'" + rest;
    var s2 := "'\"'" + rest;
    var s3 := "\"'" + rest;
    var s4 := "'" + rest;
    assert s0[0] == '\'' && s0[1..] == s1;
    assert s1[0] == '"' && s1[1..] == s2;
    assert s2[0] == '\'' && s2[1..] == s3;
    assert s3[0] == '"' && s3[1..] == s4;
    assert s4[0] == '\'' && s4[1..] == rest;
    assert LexSingle(s0, word) == Lex(s1, Some(word));
    assert Lex(s1, Some(word)) == LexDouble(s2, word);
    assert LexDouble(s2, word) == LexDouble(s3, word + [Lit('\'')]);
    assert LexDouble(s3, word + [Lit('\'')]) == Lex(s4, Some(word + [Lit('\'')]));
  }

  lemma PlainComesBack(c: char, rest: string, word: Word)
    requires c != '\''
    ensures LexSingle([c] + rest, word) == LexSingle(rest, word + [Lit(c)])
  {
    assert ([c] + rest)[1..] == rest;
  }

  lemma EscapedText(s: string, rest: string)
    requires s != ""
    ensures Escape(s) + "'" + rest == (if s[0] == '\'' then "'\"'\"'" else [s[0]]) + (Escape(s[1..]) + "'" + rest)
  {
    Regroup(if s[0] == '\'' then "'\"'\"'" else [s[0]], Escape(s[1..]), "'" + rest);
    assert Escape(s) + "'" + rest == Escape(s) + ("'" + rest);
    assert Escape(s[1..]) + "'" + rest == Escape(s[1..]) + ("'" + rest);
  }

  /** Reading an escaped string inside single quotes gives back the string, then continues outside. */
  lemma {:induction false} EscapedComesBack(s: string, rest: string, word: Word)
    ensures LexSingle(Escape(s) + "'" + rest, word) == Lex(rest, Some(word + Lits(s)))
    decreases |s|
  {
    if s == "" {
      var text := Escape(s) + "'" + rest;
      assert text[0] == '\'' && text[1..] == rest;
      assert word + Lits(s) == word;
    } else {
      var tail := Escape(s[1..]) + "'" + rest;
      EscapedText(s, rest);
      EscapedComesBack(s[1..], rest, word + [Lit(s[0])]);
      LitsSnoc(word, s);
      if s[0] == '\'' {
        QuoteComesBack(tail, word);
      } else {
        PlainComesBack(s[0], tail, word);
      }
    }
  }

  /** A quoted string is one word (or the end of one), equal to the string. */
  lemma QuotedIsOneWord(s: string, rest: string, word: Option<Word>)
    ensures Lex(Quoted(s) + rest, word) == Lex(rest, Some(OrEmpty(word) + Lits(s)))
  {
    var text := Quoted(s) + rest;
    assert text[0] == '\'' && text[1..] == Escape(s) + "'" + rest;
    EscapedComesBack(s, rest, OrEmpty(word));
  }

  ghost predicate Ordinary(s: string) {
    forall i :: 0 <= i < |s| ==> IsOrdinary(s[i])
  }

  lemma {:induction false} OrdinaryText(s: string, rest: string, word: Option<Word>)
    requires Ordinary(s) && s != ""
    ensures Lex(s + rest, word) == Lex(rest, Some(OrEmpty(word) + Lits(s)))
    decreases |s|
  {
    var text := s + rest;
    assert text[0] == s[0] && text[1..] == s[1..] + rest;
    var next := OrEmpty(word) + [Lit(s[0])];
    if |s| == 1 {
      assert text[1..] == rest && Lits(s) == [Lit(s[0])];
    } else {
      OrdinaryText(s[1..], rest, Some(next));
      LitsSnoc(OrEmpty(word), s);
    }
  }

  lemma BlankEndsWord(rest: string, word: Option<Word>)
    ensures Lex(" " + rest, word) == Then(Flush(word), Lex(rest, None))
  {
    assert (" " + rest)[1..] == rest;
  }

  lemma OperatorEndsWord(c: char, rest: string, word: Option<Word>)
    requires IsOperator(c)
    ensures Lex([c] + rest, word) == Then(Flush(word) + [Operator(c)], Lex(rest, None))
  {
    assert ([c] + rest)[1..] == rest;
  }

  /** Text inside double quotes that holds nothing the double quotes treat specially but `$`. */
  predicate DoubleSafe(s: string) {
    forall i :: 0 <= i < |s| ==> s[i] != '"' && s[i] != '\\' && s[i] != '`'
  }

  function InDouble(s: string): (w: Word)
    ensures |w| == |s|
  {
    seq(|s|, i requires 0 <= i < |s| => if s[i] == '$' then Exp('$') else Lit(s[i]))
  }

  lemma {:induction false} DoubleText(s: string, rest: string, word: Word)
    requires DoubleSafe(s)
    ensures LexDouble(s + "\"" + rest, word) == Lex(rest, Some(word + InDouble(s)))
    decreases |s|
  {
    var text := s + "\"" + rest;
    if s == "" {
      assert text[0] == '"' && text[1..] == rest && word + InDouble(s) == word;
    } else {
      assert text[0] == s[0] && text[1..] == s[1..] + "\"" + rest;
      var piece := if s[0] == '$' then Exp('$') else Lit(s[0]);
      DoubleText(s[1..], rest, word + [piece]);
      assert InDouble(s) == [piece] + InDouble(s[1..]);
      assert word + [piece] + InDouble(s[1..]) == word + InDouble(s);
    }
  }

  // ------------------------------------------------------------ composed lines

  /** The parts the command lines are formatted from. */
  datatype Part =
    | Plain(text: string)
    | Quote(text: string)
    | Double(text: string)
    | Blank
    | Op(c: char)

  ghost predicate Good(p: Part) {
    match p
    case Plain(text) => text != "" && Ordinary(text)
    case Double(text) => DoubleSafe(text)
    case Op(c) => IsOperator(c)
    case _ => true
  }

  ghost predicate AllGood(parts: seq<Part>) {
    forall i :: 0 <= i < |parts| ==> Good(parts[i])
  }

  function PrintPart(p: Part): string {
    match p
    case Plain(text) => text
    case Quote(text) => Quoted(text)
    case Double(text) => "\"" + text + "\""
    case Blank => " "
    case Op(c) => [c]
  }

  function Print(parts: seq<Part>): string {
    if parts == [] then "" else PrintPart(parts[0]) + Print(parts[1..])
  }

  /** The tokens a part completes, given the word that was begun before it. */
  function Emitted(p: Part, word: Option<Word>): seq<Token> {
    if p.Blank? then Flush(word) else if p.Op? then Flush(word) + [Operator(p.c)] else []
  }

  /** The word that is begun when the part has been read. */
  function After(p: Part, word: Option<Word>): Option<Word> {
    match p
    case Plain(text) => Some(OrEmpty(word) + Lits(text))
    case Quote(text) => Some(OrEmpty(word) + Lits(text))
    case Double(text) => Some(OrEmpty(word) + InDouble(text))
    case _ => None
  }

  /** The tokens a line of parts stands for, after the beginning of a word. */
  function Tokens(parts: seq<Part>, word: Option<Word>): seq<Token> {
    if parts == [] then Flush(word)
    else Emitted(parts[0], word) + Tokens(parts[1..], After(parts[0], word))
  }

  lemma ThenNothing(rest: Option<seq<Token>>)
    ensures Then([], rest) == rest
  {
    if rest.Some? {
      assert [] + rest.value == rest.value;
    }
  }

  lemma DoubleIsOneWord(text: string, rest: string, word: Option<Word>)
    requires DoubleSafe(text)
    ensures Lex("\"" + text + "\"" + rest, word) == Lex(rest, Some(OrEmpty(word) + InDouble(text)))
  {
    var line := "\"" + text + "\"" + rest;
    assert line[0] == '"' && line[1..] == text + "\"" + rest;
    DoubleText(text, rest, OrEmpty(word));
  }

  lemma LexPart(p: Part, rest: string, word: Option<Word>)
    requires Good(p)
    ensures Lex(PrintPart(p) + rest, word) == Then(Emitted(p, word), Lex(rest, After(p, word)))
  {
    ThenNothing(Lex(rest, After(p, word)));
    match p
    case Plain(text) => OrdinaryText(text, rest, word);
    case Quote(text) => QuotedIsOneWord(text, rest, word);
    case Double(text) => DoubleIsOneWord(text, rest, word);
    case Blank => BlankEndsWord(rest, word);
    case Op(c) => OperatorEndsWord(c, rest, word);
  }

  /** The shell reads a printed line as exactly the tokens it stands for. */
  lemma {:induction false} LexOfPrint(parts: seq<Part>, word: Option<Word>)
    requires AllGood(parts)
    ensures Lex(Print(parts), word) == Some(Tokens(parts, word))
    decreases |parts|
  {
    if parts != [] {
      LexPart(parts[0], Print(parts[1..]), word);
      LexOfPrint(parts[1..], After(parts[0], word));
    }
  }

  predicate StartsAfterWord(parts: seq<Part>) {
    parts == [] || parts[0].Blank? || parts[0].Op?
  }

  lemma Regroup<T>(a: seq<T>, b: seq<T>, c: seq<T>)
    ensures a + (b + c) == a + b + c
  {
  }

  lemma StartFlushes(parts: seq<Part>, word: Option<Word>)
    requires StartsAfterWord(parts)
    ensures Tokens(parts, word) == Flush(word) + Tokens(parts, None)
  {
    if parts != [] {
      var rest := Tokens(parts[1..], None);
      LeftNeutral(rest);
      if parts[0].Op? {
        LeftNeutral([Operator(parts[0].c)]);
        Regroup(Flush(word), [Operator(parts[0].c)], rest);
      }
    } else {
      assert Flush(word) + [] == Flush(word);
    }
  }

  lemma LeftNeutral<T>(a: seq<T>)
    ensures [] + a == a
  {
  }

  /** A blank, an operator or the end separates what stands on either side of it. */
  lemma {:induction false} TokensSplit(a: seq<Part>, b: seq<Part>, word: Option<Word>)
    requires StartsAfterWord(b)
    ensures Tokens(a + b, word) == Tokens(a, word) + Tokens(b, None)
    decreases |a|
  {
    if a == [] {
      assert a + b == b;
      StartFlushes(b, word);
    } else {
      assert (a + b)[0] == a[0] && (a + b)[1..] == a[1..] + b;
      TokensSplit(a[1..], b, After(a[0], word));
      Regroup(Emitted(a[0], word), Tokens(a[1..], After(a[0], word)), Tokens(b, None));
    }
  }

  lemma ArgumentTokens(s: string)
    ensures Tokens([Blank, Quote(s)], None) == [WordToken(Lits(s))]
  {
    LeftNeutral(Lits(s));
    assert [Quote(s)][1..] == [];
    assert Tokens([], Some(Lits(s))) == [WordToken(Lits(s))];
    LeftNeutral([WordToken(Lits(s))]);
    assert Tokens([Quote(s)], None) == [WordToken(Lits(s))];
    assert [Blank, Quote(s)][1..] == [Quote(s)];
  }

  /** A quoted argument between separators is exactly one word, equal to the quoted string. */
  lemma QuotedArgumentIsOneToken(a: seq<Part>, s: string, b: seq<Part>)
    requires StartsAfterWord(b)
    ensures Tokens(a + ([Blank, Quote(s)] + b), None) == Tokens(a, None) + ([WordToken(Lits(s))] + Tokens(b, None))
  {
    TokensSplit(a, [Blank, Quote(s)] + b, None);
    TokensSplit([Blank, Quote(s)], b, None);
    ArgumentTokens(s);
  }

  lemma QuotedLast(front: seq<Part>, payload: string)
    requires AllGood(front)
    ensures Lex(Print(front + [Blank, Quote(payload)]), None)
         == Some(Tokens(front, None) + [WordToken(Lits(payload))])
  {
    LexOfPrint(front + [Blank, Quote(payload)], None);
    TokensSplit(front, [Blank, Quote(payload)], None);
    ArgumentTokens(payload);
  }

  // ---------------------------------------------------------------- the wrappers

  const PRELUDE := "set +m; "

  datatype Wrapper =
    | PosixShell(login: bool)
    | Timeout(seconds: string)
    | Sudo(password: Option<string>)
    | Background(jobId: string, logPath: string)

  /** The parts of a wrapper that are inserted without quoting: numbers and generated identifiers. */
  ghost predicate Sound(w: Wrapper) {
    && (w.Timeout? ==> Ordinary(w.seconds))
    && (w.Background? ==> DoubleSafe(w.jobId))
  }

  function ShellParts(login: bool): seq<Part> {
    [Plain("sh"), Blank, Plain(if login then "-lc" else "-c")]
  }

  /** A word and the blank behind it. */
  function Spaced(word: string): seq<Part> {
    [Plain(word), Blank]
  }

  function TimeoutParts(seconds: string): seq<Part> {
    Spaced("timeout") + (Spaced("-k") + (Spaced("2s") + Spaced(seconds + "s")))
  }

  /** `sudo -n`, or the password printed into `sudo -S -p ''`. */
  function PlainSudo(): seq<Part> {
    Spaced("sudo") + Spaced("-n")
  }

  function PipedSudo(): seq<Part> {
    [Blank, Op('|'), Blank] + (Spaced("sudo") + (Spaced("-S") + (Spaced("-p") + [Quote(""), Blank])))
  }

  function PrintfParts(): seq<Part> {
    Spaced("printf") + [Quote("%s\\n")]
  }

  function MarkerParts(body: string): seq<Part> {
    (Spaced("printf") + [Quote("%s\n")]) + [Blank, Double(body)] + [Op(';'), Blank]
  }

  function JobMarkers(jobId: string): seq<Part> {
    MarkerParts("__SSH_MCP_JOB_ID=" + jobId) + (MarkerParts("__SSH_MCP_PID=$$") + MarkerParts("__SSH_MCP_LOG=$LOG"))
  }

  function LogParts(logPath: string): seq<Part> {
    [Plain("LOG="), Quote(logPath), Op(';'), Blank]
  }

  /** Everything of a wrapped line that stands before the command. */
  function Front(w: Wrapper): seq<Part> {
    match w
    case PosixShell(login) => ShellParts(login)
    case Timeout(seconds) => TimeoutParts(seconds) + ShellParts(true)
    case Sudo(password) =>
      if password.None? then PlainSudo() + ShellParts(false)
      else PrintfParts() + [Blank, Quote(password.value)] + (PipedSudo() + ShellParts(false))
    case Background(jobId, logPath) =>
      LogParts(logPath) + (JobMarkers(jobId) + (Spaced("exec") + ShellParts(false)))
  }

  /** What the wrapper puts in front of the command inside the inner shell. */
  function Prelude(w: Wrapper): string {
    if w.Background? then PRELUDE else ""
  }

  function Wrap(w: Wrapper, command: string): string {
    Print(Front(w) + [Blank, Quote(Prelude(w) + command)])
  }

  /** Text without quotes in front of a command is not touched by escaping. */
  lemma {:induction false} EscapeKeepsPrefix(s: string, command: string)
    requires forall i :: 0 <= i < |s| ==> s[i] != '\''
    ensures Escape(s + command) == s + Escape(command)
    decreases |s|
  {
    if s == "" {
      assert s + command == command;
    } else {
      assert (s + command)[1..] == s[1..] + command;
      EscapeKeepsPrefix(s[1..], command);
      assert s == [s[0]] + s[1..];
    }
  }

  // ------------------------------------------------------ the lines, written out

  lemma {:induction false} PrintConcat(a: seq<Part>, b: seq<Part>)
    ensures Print(a + b) == Print(a) + Print(b)
  {
    if a == [] {
      assert a + b == b;
    } else {
      assert (a + b)[0] == a[0] && (a + b)[1..] == a[1..] + b;
      PrintConcat(a[1..], b);
      assert PrintPart(a[0]) + (Print(a[1..]) + Print(b)) == PrintPart(a[0]) + Print(a[1..]) + Print(b);
    }
  }

  lemma PrintOne(p: Part)
    ensures Print([p]) == PrintPart(p)
  {
    assert [p][1..] == [];
    assert PrintPart(p) + "" == PrintPart(p);
  }

  lemma PrintTwo(p: Part, q: Part)
    ensures Print([p, q]) == PrintPart(p) + PrintPart(q)
  {
    assert [p, q] == [p] + [q];
    PrintConcat([p], [q]);
    PrintOne(p);
    PrintOne(q);
  }

  lemma ShellText(login: bool)
    ensures Print(ShellParts(login)) == if login then "sh -lc" else "sh -c"
  {
    var flag := Plain(if login then "-lc" else "-c");
    assert ShellParts(login) == [Plain("sh"), Blank] + [flag];
    PrintConcat([Plain("sh"), Blank], [flag]);
    PrintTwo(Plain("sh"), Blank);
    PrintOne(flag);
  }

  /** The quoted command at the end of a line, behind the wrapper's fixed prelude. */
  function Tail(w: Wrapper, command: string): string {
    " " + ("'" + (Prelude(w) + Escape(command)) + "'")
  }

  lemma TailText(w: Wrapper, command: string)
    ensures Print([Blank, Quote(Prelude(w) + command)]) == Tail(w, command)
  {
    PrintTwo(Blank, Quote(Prelude(w) + command));
    EscapeKeepsPrefix(Prelude(w), command);
  }

  /** Every wrapped line is its front, a blank, and the quoted command. */
  lemma WrapText(w: Wrapper, command: string)
    ensures Wrap(w, command) == Print(Front(w)) + Tail(w, command)
  {
    PrintConcat(Front(w), [Blank, Quote(Prelude(w) + command)]);
    TailText(w, command);
  }

  /** The front of the POSIX shell wrapper is `sh -c`, or `sh -lc` for a login shell. */
  lemma PosixShellFront(login: bool)
    ensures Print(Front(PosixShell(login))) == if login then "sh -lc" else "sh -c"
  {
    ShellText(login);
  }

  lemma SpacedText(word: string)
    ensures Print(Spaced(word)) == word + " "
  {
    PrintTwo(Plain(word), Blank);
  }

  lemma PlainSudoFront()
    ensures Print(Front(Sudo(None))) == (("sudo" + " ") + ("-n" + " ")) + "sh -c"
  {
    PrintConcat(PlainSudo(), ShellParts(false));
    PrintConcat(Spaced("sudo"), Spaced("-n"));
    SpacedText("sudo");
    SpacedText("-n");
    ShellText(false);
  }

  lemma PrintFour(a: Part, b: Part, c: Part, d: Part)
    ensures Print([a, b, c, d]) == (PrintPart(a) + PrintPart(b)) + (PrintPart(c) + PrintPart(d))
  {
    assert [a, b, c, d] == [a, b] + [c, d];
    PrintConcat([a, b], [c, d]);
    PrintTwo(a, b);
    PrintTwo(c, d);
  }

  function TimeoutLine(seconds: string): string {
    ("timeout" + " ") + (("-k" + " ") + (("2s" + " ") + (seconds + "s" + " ")))
  }

  lemma TimeoutText(seconds: string)
    ensures Print(TimeoutParts(seconds)) == TimeoutLine(seconds)
  {
    PrintConcat(Spaced("timeout"), Spaced("-k") + (Spaced("2s") + Spaced(seconds + "s")));
    PrintConcat(Spaced("-k"), Spaced("2s") + Spaced(seconds + "s"));
    PrintConcat(Spaced("2s"), Spaced(seconds + "s"));
    SpacedText("timeout");
    SpacedText("-k");
    SpacedText("2s");
    SpacedText(seconds + "s");
  }

  /** The front of the timeout wrapper is `timeout -k 2s <seconds>s sh -lc`. */
  lemma TimeoutFront(seconds: string)
    ensures Print(Front(Timeout(seconds))) == TimeoutLine(seconds) + "sh -lc"
  {
    PrintConcat(TimeoutParts(seconds), ShellParts(true));
    ShellText(true);
    TimeoutText(seconds);
  }

  /** Text without quotes stands between its quotes as it is. */
  lemma PlainQuoted(s: string)
    requires forall i :: 0 <= i < |s| ==> s[i] != '\''
    ensures Quoted(s) == "'" + s + "'"
  {
    EscapeKeepsPrefix(s, "");
    assert s + "" == s;
  }

  lemma PrintfText(format: string)
    requires forall i :: 0 <= i < |format| ==> format[i] != '\''
    ensures Print(Spaced("printf") + [Quote(format)]) == ("printf" + " ") + ("'" + format + "'")
  {
    PrintConcat(Spaced("printf"), [Quote(format)]);
    SpacedText("printf");
    PrintOne(Quote(format));
    PlainQuoted(format);
  }

  lemma PipeText()
    ensures Print([Blank, Op('|'), Blank]) == " | "
  {
    assert [Blank, Op('|'), Blank] == [Blank, Op('|')] + [Blank];
    PrintConcat([Blank, Op('|')], [Blank]);
    PrintTwo(Blank, Op('|'));
    PrintOne(Blank);
  }

  function PipedLine(): string {
    " | " + (("sudo" + " ") + (("-S" + " ") + (("-p" + " ") + ("''" + " "))))
  }

  lemma PipedSudoText()
    ensures Print(PipedSudo()) == PipedLine()
  {
    var prompt := [Quote(""), Blank];
    PrintConcat([Blank, Op('|'), Blank], Spaced("sudo") + (Spaced("-S") + (Spaced("-p") + prompt)));
    PrintConcat(Spaced("sudo"), Spaced("-S") + (Spaced("-p") + prompt));
    PrintConcat(Spaced("-S"), Spaced("-p") + prompt);
    PrintConcat(Spaced("-p"), prompt);
    PipeText();
    SpacedText("sudo");
    SpacedText("-S");
    SpacedText("-p");
    EmptyPrompt();
  }

  lemma EmptyPrompt()
    ensures Print([Quote(""), Blank]) == "''" + " "
  {
    PrintTwo(Quote(""), Blank);
    PlainQuoted("");
  }

  /** With a password the front is `printf '%s\n' '<password>' | sudo -S -p '' sh -c`. */
  lemma PasswordSudoFront(password: string)
    ensures Print(Front(Sudo(Some(password)))) ==
              (("printf" + " ") + ("'" + "%s\\n" + "'")) + (" " + Quoted(password)) + (PipedLine() + "sh -c")
  {
    PrintConcat(PrintfParts() + [Blank, Quote(password)], PipedSudo() + ShellParts(false));
    PasswordText(password);
    PipedShellText();
  }

  lemma PasswordText(password: string)
    ensures Print(PrintfParts() + [Blank, Quote(password)]) == (("printf" + " ") + ("'" + "%s\\n" + "'")) + (" " + Quoted(password))
  {
    PrintConcat(PrintfParts(), [Blank, Quote(password)]);
    PrintTwo(Blank, Quote(password));
    PrintfText("%s\\n");
  }

  lemma PipedShellText()
    ensures Print(PipedSudo() + ShellParts(false)) == PipedLine() + "sh -c"
  {
    PrintConcat(PipedSudo(), ShellParts(false));
    PipedSudoText();
    ShellText(false);
  }

  function MarkerLine(body: string): string {
    (("printf" + " ") + ("'" + "%s\n" + "'")) + (" " + ("\"" + body + "\"")) + "; "
  }

  lemma MarkerText(body: string)
    ensures Print(MarkerParts(body)) == MarkerLine(body)
  {
    var head, argument, end := Spaced("printf") + [Quote("%s\n")], [Blank, Double(body)], [Op(';'), Blank];
    PrintConcat(head + argument, end);
    PrintConcat(head, argument);
    PrintfText("%s\n");
    PrintTwo(Blank, Double(body));
    PrintTwo(Op(';'), Blank);
  }

  function MarkerLines(jobId: string): string {
    MarkerLine("__SSH_MCP_JOB_ID=" + jobId) + (MarkerLine("__SSH_MCP_PID=$$") + MarkerLine("__SSH_MCP_LOG=$LOG"))
  }

  lemma PrintThree(a: seq<Part>, b: seq<Part>, c: seq<Part>)
    ensures Print(a + (b + c)) == Print(a) + (Print(b) + Print(c))
  {
    PrintConcat(a, b + c);
    PrintConcat(b, c);
  }

  lemma JobMarkersText(jobId: string)
    ensures Print(JobMarkers(jobId)) == MarkerLines(jobId)
  {
    var a, b, c := "__SSH_MCP_JOB_ID=" + jobId, "__SSH_MCP_PID=$$", "__SSH_MCP_LOG=$LOG";
    PrintThree(MarkerParts(a), MarkerParts(b), MarkerParts(c));
    MarkerText(a);
    MarkerText(b);
    MarkerText(c);
  }

  lemma LogText(logPath: string)
    ensures Print(LogParts(logPath)) == ("LOG=" + Quoted(logPath)) + "; "
  {
    PrintFour(Plain("LOG="), Quote(logPath), Op(';'), Blank);
  }

  lemma ExecText()
    ensures Print(Spaced("exec") + ShellParts(false)) == ("exec" + " ") + "sh -c"
  {
    PrintConcat(Spaced("exec"), ShellParts(false));
    SpacedText("exec");
    ShellText(false);
  }

  /** The front of a background job: the log path, the three markers, and the shell it turns into. */
  lemma BackgroundFront(jobId: string, logPath: string)
    ensures Print(Front(Background(jobId, logPath))) ==
              (("LOG=" + Quoted(logPath)) + "; ") + (MarkerLines(jobId) + (("exec" + " ") + "sh -c"))
  {
    PrintThree(LogParts(logPath), JobMarkers(jobId), Spaced("exec") + ShellParts(false));
    LogText(logPath);
    JobMarkersText(jobId);
    ExecText();
  }

  lemma ShellPartsAreGood(login: bool)
    ensures AllGood(ShellParts(login))
  {
  }

  lemma GoodWord(word: string)
    requires word != "" && Ordinary(word)
    ensures AllGood(Spaced(word))
  {
  }

  lemma TimeoutPartsAreGood(seconds: string)
    requires Ordinary(seconds)
    ensures AllGood(TimeoutParts(seconds))
  {
    GoodWord("timeout");
    GoodWord("-k");
    GoodWord("2s");
    GoodWord(seconds + "s");
  }

  lemma SudoPartsAreGood()
    ensures AllGood(PlainSudo()) && AllGood(PipedSudo())
  {
    GoodWord("sudo");
    GoodWord("-n");
    GoodWord("-S");
    GoodWord("-p");
  }

  lemma PrintfIsGood()
    ensures AllGood(PrintfParts())
  {
    GoodWord("printf");
  }

  lemma MarkerPartsAreGood(body: string)
    requires DoubleSafe(body)
    ensures AllGood(MarkerParts(body))
  {
    GoodWord("printf");
  }

  lemma JobMarkersAreGood(jobId: string)
    requires DoubleSafe(jobId)
    ensures AllGood(JobMarkers(jobId))
  {
    MarkerPartsAreGood("__SSH_MCP_JOB_ID=" + jobId);
    MarkerPartsAreGood("__SSH_MCP_PID=$$");
    MarkerPartsAreGood("__SSH_MCP_LOG=$LOG");
  }

  lemma FrontIsGood(w: Wrapper)
    requires Sound(w)
    ensures AllGood(Front(w))
  {
    ShellPartsAreGood(true);
    ShellPartsAreGood(false);
    match w
    case PosixShell(_) =>
    case Timeout(seconds) => TimeoutPartsAreGood(seconds);
    case Sudo(_) =>
      SudoPartsAreGood();
      PrintfIsGood();
    case Background(jobId, logPath) =>
      JobMarkersAreGood(jobId);
      assert AllGood(LogParts(logPath));
      GoodWord("exec");
  }

  /** The shell that runs a wrapped line sees the wrapper's own words, then the command as one word. */
  lemma WrappedLine(w: Wrapper, command: string)
    requires Sound(w)
    ensures Lex(Wrap(w, command), None) == Some(Tokens(Front(w), None) + [WordToken(Lits(Prelude(w) + command))])
  {
    FrontIsGood(w);
    QuotedLast(Front(w), Prelude(w) + command);
  }

  /** The password reaches `printf` as one word of its own, whatever it contains. */
  lemma PasswordIsOneWord(password: string, command: string)
    ensures Lex(Wrap(Sudo(Some(password)), command), None)
         == Some(Tokens(PrintfParts(), None) + ([WordToken(Lits(password))] + Tokens(PipedSudo() + ShellParts(false), None))
                 + [WordToken(Lits(command))])
  {
    var argument, tail := [Blank, Quote(password)], PipedSudo() + ShellParts(false);
    LeftNeutral(command);
    WrappedLine(Sudo(Some(password)), command);
    Regroup(PrintfParts(), argument, tail);
    QuotedArgumentIsOneToken(PrintfParts(), password, tail);
  }

  // --------------------------------------------------------------------- nesting

  function Text(word: Word): string {
    seq(|word|, i requires 0 <= i < |word| => word[i].c)
  }

  predicate FreeOfExpansions(word: Word) {
    forall i :: 0 <= i < |word| ==> word[i].Lit?
  }

  /** The script the inner shell is given: the last word of the line, if it is free of expansions. */
  function InnerScript(line: string): Option<string> {
    var tokens := Lex(line, None);
    if tokens.None? || tokens.value == [] then None
    else
      var last := tokens.value[|tokens.value| - 1];
      if last.WordToken? && FreeOfExpansions(last.word) then Some(Text(last.word)) else None
  }

  /** Any wrapper hands its inner shell exactly the embedded command, after its fixed prelude. */
  lemma WrapDeliversCommand(w: Wrapper, command: string)
    requires Sound(w)
    ensures InnerScript(Wrap(w, command)) == Some(Prelude(w) + command)
  {
    WrappedLine(w, command);
    assert Text(Lits(Prelude(w) + command)) == Prelude(w) + command;
  }

  /** Wrappers applied from the innermost (last) to the outermost (first). */
  function Nest(wrappers: seq<Wrapper>, command: string): string {
    if wrappers == [] then command else Wrap(wrappers[0], Nest(wrappers[1..], command))
  }

  /** Letting one shell after another take its script, dropping each fixed prelude. */
  function Unnest(wrappers: seq<Wrapper>, line: string): Option<string> {
    if wrappers == [] then Some(line)
    else
      var script := InnerScript(line);
      var prelude := Prelude(wrappers[0]);
      if script.None? || !(prelude <= script.value) then None
      else Unnest(wrappers[1..], script.value[|prelude|..])
  }

  /** Through any nesting of wrappers the innermost shell receives the original command. */
  lemma {:induction false} NestingDeliversCommand(wrappers: seq<Wrapper>, command: string)
    requires forall i :: 0 <= i < |wrappers| ==> Sound(wrappers[i])
    ensures Unnest(wrappers, Nest(wrappers, command)) == Some(command)
    decreases |wrappers|
  {
    if wrappers != [] {
      var inner, prelude := Nest(wrappers[1..], command), Prelude(wrappers[0]);
      WrapDeliversCommand(wrappers[0], inner);
      assert (prelude + inner)[|prelude|..] == inner;
      NestingDeliversCommand(wrappers[1..], command);
    }
  }
}
