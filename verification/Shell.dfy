/**
 * As much of the POSIX shell as the startup command uses: quoting (section 2.2 of the Shell Command
 * Language volume of IEEE Std 1003.1), token recognition (section 2.3), simple commands with redirections,
 * and the built-ins the command relies on. Whatever else a shell would do is reported as `None`.
 */
module Shell {
  import opened Collections

  /** A piece of a word after quote removal: a character, or the process id of the last background command. */
  datatype Piece = Char(c: char) | LastPid

  /** A word being read; `bare` while no part of it was quoted. */
  datatype Partial = Partial(pieces: seq<Piece>, bare: bool)

  datatype Token = Word(pieces: seq<Piece>) | IoNumber(digits: seq<Piece>) | Op(op: string)

  datatype Mode = Unquoted | Single | Double

  function Chars(s: string): (pieces: seq<Piece>)
    ensures |pieces| == |s| && forall i :: 0 <= i < |s| ==> pieces[i] == Char(s[i])
  {
    seq(|s|, i requires 0 <= i < |s| => Char(s[i]))
  }

  predicate Digit(p: Piece) {
    p.Char? && '0' <= p.c <= '9'
  }

  /** Unquoted characters whose meaning is outside this model: pipes, groups, expansions, patterns. */
  predicate Unmodelled(c: char) {
    || c == '|' || c == '<' || c == '(' || c == ')' || c == '`' || c == '*' || c == '?' || c == '['
    || c == '~' || c == '{' || c == '}' || c == '!' || c == '^' || c == '\n'
  }

  function Extend(word: Option<Partial>, p: Piece, bare: bool): Option<Partial> {
    match word
    case None => Some(Partial([p], bare))
    case Some(w) => Some(Partial(w.pieces + [p], w.bare && bare))
  }

  /** A quote opens a word even if nothing is inside it. */
  function Quoting(word: Option<Partial>): Option<Partial> {
    match word
    case None => Some(Partial([], false))
    case Some(w) => Some(Partial(w.pieces, false))
  }

  function Flush(word: Option<Partial>): seq<Token> {
    match word
    case None => []
    case Some(w) => [Word(w.pieces)]
  }

  /** Before a redirection operator, unquoted digits are the number of the redirected descriptor. */
  function FlushBeforeRedirect(word: Option<Partial>): seq<Token> {
    match word
    case None => []
    case Some(w) =>
      if w.bare && w.pieces != [] && forall i :: 0 <= i < |w.pieces| ==> Digit(w.pieces[i])
      then [IoNumber(w.pieces)] else [Word(w.pieces)]
  }

  function Then(tokens: seq<Token>, rest: Option<seq<Token>>): Option<seq<Token>> {
    match rest
    case None => None
    case Some(more) => Some(tokens + more)
  }

  function Lex(s: string, mode: Mode, word: Option<Partial>): Option<seq<Token>>
    decreases |s|
  {
    if s == "" then
      if mode == Unquoted then Some(Flush(word)) else None
    else
      match mode
      case Unquoted => LexUnquoted(s, word)
      case Single =>
        if s[0] == '\'' then Lex(s[1..], Unquoted, word)
        else Lex(s[1..], Single, Extend(word, Char(s[0]), false))
      case Double =>
        if s[0] == '"' then Lex(s[1..], Unquoted, word)
        else if s[0] == '$' || s[0] == '`' then None
        else if s[0] == '\\' && |s| > 1 && s[1] in "\"\\$`"
        then Lex(s[2..], Double, Extend(word, Char(s[1]), false))
        else Lex(s[1..], Double, Extend(word, Char(s[0]), false))
  }

  function LexUnquoted(s: string, word: Option<Partial>): Option<seq<Token>>
    requires s != ""
    decreases |s|, 0
  {
    var c := s[0];
    if c == ' ' || c == '\t' then Then(Flush(word), Lex(s[1..], Unquoted, None))
    else if c == '\'' then Lex(s[1..], Single, Quoting(word))
    else if c == '"' then Lex(s[1..], Double, Quoting(word))
    else if c == ';' then Then(Flush(word) + [Op(";")], Lex(s[1..], Unquoted, None))
    else if c == '&' then
      if |s| > 1 && s[1] == '&' then None
      else Then(Flush(word) + [Op("&")], Lex(s[1..], Unquoted, None))
    else if c == '>' then
      if |s| > 1 && s[1] in ">&"
      then Then(FlushBeforeRedirect(word) + [Op(s[..2])], Lex(s[2..], Unquoted, None))
      else Then(FlushBeforeRedirect(word) + [Op(">")], Lex(s[1..], Unquoted, None))
    else if c == '$' then
      if |s| > 1 && s[1] == '!' then Lex(s[2..], Unquoted, Extend(word, LastPid, false)) else None
    else if c == '\\' then
      if |s| > 1 && s[1] != '\n' then Lex(s[2..], Unquoted, Extend(word, Char(s[1]), false)) else None
    else if Unmodelled(c) || (c == '#' && word == None) then None
    else Lex(s[1..], Unquoted, Extend(word, Char(c), true))
  }

  function Tokenize(s: string): Option<seq<Token>> {
    Lex(s, Unquoted, None)
  }

  // ----- Simple commands -----

  datatype Redirect = Redirect(fd: seq<Piece>, op: string, target: seq<Piece>)

  datatype Command = Command(words: seq<seq<Piece>>, redirects: seq<Redirect>, background: bool)

  const NO_COMMAND := Command([], [], false)

  /** Splits a token list into commands; `current` is the one being read. */
  function Commands(tokens: seq<Token>, current: Command): Option<seq<Command>>
    decreases |tokens|
  {
    if tokens == [] then
      Some(if current == NO_COMMAND then [] else [current])
    else
      match tokens[0]
      case Word(w) => Commands(tokens[1..], current.(words := current.words + [w]))
      case IoNumber(digits) =>
        if |tokens| > 2 && IsRedirect(tokens[1]) && tokens[2].Word?
        then Commands(tokens[3..],
                      current.(redirects := current.redirects + [Redirect(digits, tokens[1].op, tokens[2].pieces)]))
        else None
      case Op(op) =>
        if op == ";" && current != NO_COMMAND then Before(current, Commands(tokens[1..], NO_COMMAND))
        else if op == "&" && current != NO_COMMAND
        then Before(current.(background := true), Commands(tokens[1..], NO_COMMAND))
        else if IsRedirect(tokens[0]) && |tokens| > 1 && tokens[1].Word?
        then Commands(tokens[2..],
                      current.(redirects := current.redirects + [Redirect(Chars("1"), op, tokens[1].pieces)]))
        else None
  }

  predicate IsRedirect(t: Token) {
    t.Op? && t.op in {">", ">>", ">&"}
  }

  function Before(c: Command, rest: Option<seq<Command>>): Option<seq<Command>> {
    match rest
    case None => None
    case Some(cs) => Some([c] + cs)
  }

  // ----- Running -----

  /** The background process a script leaves: its environment, its words and the file its output goes to. */
  datatype Launch = Launch(env: map<string, string>, argv: seq<string>, log: string)

  /** The text of a word that has no expansion left in it. */
  function Text(pieces: seq<Piece>): Option<string> {
    if pieces == [] then Some("")
    else if pieces[0].LastPid? then None
    else
      match Text(pieces[1..])
      case None => None
      case Some(rest) => Some([pieces[0].c] + rest)
  }

  function Texts(words: seq<seq<Piece>>): Option<seq<string>> {
    if words == [] then Some([])
    else
      match (Text(words[0]), Texts(words[1..]))
      case (Some(t), Some(ts)) => Some([t] + ts)
      case _ => None
  }

  /** The first `=` splits an assignment into name and value. */
  function SplitAssignment(s: string): Option<(string, string)> {
    if s == "" then None
    else if s[0] == '=' then Some(("", s[1..]))
    else
      match SplitAssignment(s[1..])
      case None => None
      case Some((name, value)) => Some(([s[0]] + name, value))
  }

  /** A name, as chapter 3 of the Base Definitions volume of IEEE Std 1003.1 defines it: what can be exported. */
  predicate IsName(s: string) {
    && s != "" && !('0' <= s[0] <= '9')
    && forall i :: 0 <= i < |s| ==>
      'a' <= s[i] <= 'z' || 'A' <= s[i] <= 'Z' || '0' <= s[i] <= '9' || s[i] == '_'
  }

  /** `export name=value` in the foreground; anything but a name is an error that ends the script. */
  function Exported(c: Command): Option<(string, string)> {
    if c.redirects == [] && !c.background && |c.words| == 2 && c.words[0] == Chars("export")
    then
      match Text(c.words[1])
      case None => None
      case Some(assignment) =>
        match SplitAssignment(assignment)
        case None => None
        case Some((name, value)) => if IsName(name) then Some((name, value)) else None
    else None
  }

  /** `nohup words >> log 2>&1 &` followed by `echo $!`, run with `env` exported. */
  function Launched(cs: seq<Command>, env: map<string, string>): Option<Launch> {
    if |cs| == 2 && cs[0].background && |cs[0].words| > 0 && cs[0].words[0] == Chars("nohup")
       && |cs[0].redirects| == 2
       && cs[0].redirects[0].fd == Chars("1") && cs[0].redirects[0].op == ">>"
       && cs[0].redirects[1] == Redirect(Chars("2"), ">&", Chars("1"))
       && cs[1] == Command([Chars("echo"), [LastPid]], [], false)
    then
      match (Texts(cs[0].words[1..]), Text(cs[0].redirects[0].target))
      case (Some(argv), Some(log)) => Some(Launch(env, argv, log))
      case _ => None
    else None
  }

  function Execute(cs: seq<Command>, env: map<string, string>): Option<Launch> {
    if cs == [] then None
    else
      match Exported(cs[0])
      case Some((name, value)) => Execute(cs[1..], env[name := value])
      case None => Launched(cs, env)
  }

  /** Runs a script in a shell that starts with `env`. */
  function Interpret(script: string, env: map<string, string>): Option<Launch> {
    match Tokenize(script)
    case None => None
    case Some(tokens) =>
      match Commands(tokens, NO_COMMAND)
      case None => None
      case Some(cs) => Execute(cs, env)
  }
}
