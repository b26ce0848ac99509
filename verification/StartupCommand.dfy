/** The command line that starts a kernel on a remote host, and what a shell makes of it. */
module StartupCommand {
  import opened Collections
  import opened Shell

  // ----- The printer -----

  predicate SafeChar(c: char) {
    'a' <= c <= 'z' || 'A' <= c <= 'Z' || '0' <= c <= '9' || IsSafeSign(c)
  }

  predicate IsSafeSign(c: char) {
    || c == '_' || c == '@' || c == '%' || c == '+' || c == '=' || c == ':' || c == ',' || c == '.' || c == '/'
    || c == '-'
  }

  predicate Safe(s: string) {
    forall i :: 0 <= i < |s| ==> SafeChar(s[i])
  }

  function Escaped(s: string): string {
    if s == "" then ""
    else (if s[0] == '\'' then "'\"'\"'" else [s[0]]) + Escaped(s[1..])
  }

  /** Python's `shlex.quote`. */
  function Quote(s: string): string {
    if s == "" then "''"
    else if Safe(s) then s
    else "'" + Escaped(s) + "'"
  }

  /** What needs no quoting stays as it is: words of ASCII letters, digits and the signs `@%_+=:,./-`. */
  lemma QuotedIff(s: string)
    ensures Quote(s) == s <==>
            && s != ""
            && forall c :: c in s ==> 'a' <= c <= 'z' || 'A' <= c <= 'Z' || '0' <= c <= '9' || c in "@%_+=:,./-"
  {
    if Safe(s) {
      forall c | c in s
        ensures SafeChar(c)
      {
      }
    } else {
      var i :| 0 <= i < |s| && !SafeChar(s[i]);
      assert s[i] in s;
      EscapedIsLonger(s);
    }
  }

  lemma {:induction false} EscapedIsLonger(s: string)
    ensures |Escaped(s)| >= |s|
  {
    if s != "" {
      EscapedIsLonger(s[1..]);
    }
  }

  type Env = seq<(string, string)>

  function Export(key: string, value: string): string {
    "export " + Quote(key) + "=" + Quote(value) + ";"
  }

  function Exports(env: Env): string {
    if env == [] then "" else Export(env[0].0, env[0].1) + Exports(env[1..])
  }

  function Arguments(argv: seq<string>): string {
    if argv == [] then "" else " " + Quote(argv[0]) + Arguments(argv[1..])
  }

  function Redirection(log: string): string {
    " >> " + log + " 2>&1 & echo $!"
  }

  function Script(env: Env, specEnv: Env, argv: seq<string>, log: string): string {
    Exports(env) + Exports(specEnv) + "nohup" + Arguments(argv) + Redirection(log)
  }

  /** A value of the environment, or `None` as Python would print it. */
  function Lookup(env: Env, key: string): string {
    if env == [] then "None"
    else if env[0].0 == key then env[0].1
    else Lookup(env[1..], key)
  }

  /** `os.path.join` with a relative second part. */
  function Join(dir: string, name: string): string {
    if dir == "" || dir[|dir| - 1] == '/' then dir + name else dir + "/" + name
  }

  function LogFile(dir: string, env: Env): string {
    Join(dir, "kernel-" + Lookup(env, "KERNEL_ID") + ".log")
  }

  predicate DistinctKeys(env: Env) {
    forall i, j :: 0 <= i < j < |env| ==> env[i].0 != env[j].0
  }

  lemma {:induction false} LookupFinds(env: Env, key: string)
    ensures (exists i :: 0 <= i < |env| && env[i] == (key, Lookup(env, key)))
         || (Lookup(env, key) == "None" && forall i :: 0 <= i < |env| ==> env[i].0 != key)
  {
    if env != [] && env[0].0 != key {
      LookupFinds(env[1..], key);
      if i :| 0 <= i < |env| - 1 && env[1..][i] == (key, Lookup(env[1..], key)) {
        assert env[i + 1] == (key, Lookup(env, key));
      } else {
        forall i | 0 <= i < |env|
          ensures env[i].0 != key
        {
          assert i > 0 ==> env[1..][i - 1].0 != key;
        }
      }
    } else if env != [] {
      assert env[0] == (key, Lookup(env, key));
    }
  }

  /** A kernel's log is the file named after its id in the log directory. */
  lemma LogIsOwn(dir: string, env: Env, i: nat)
    requires DistinctKeys(env) && i < |env| && env[i].0 == "KERNEL_ID"
    ensures LogFile(dir, env)
         == dir + (if dir == "" || dir[|dir| - 1] == '/' then "" else "/") + ("kernel-" + env[i].1 + ".log")
  {
    LookupFinds(env, "KERNEL_ID");
    assert Lookup(env, "KERNEL_ID") == env[i].1;
    assert dir + "" == dir;
  }

  /** Kernels with distinct ids have distinct logs. */
  lemma LogsAreDistinct(dir: string, env: Env, env': Env, i: nat, i': nat)
    requires DistinctKeys(env) && i < |env| && env[i].0 == "KERNEL_ID"
    requires DistinctKeys(env') && i' < |env'| && env'[i'].0 == "KERNEL_ID"
    ensures LogFile(dir, env) == LogFile(dir, env') <==> env[i].1 == env'[i'].1
  {
    LogIsOwn(dir, env, i);
    LogIsOwn(dir, env', i');
    var front := dir + (if dir == "" || dir[|dir| - 1] == '/' then "" else "/");
    Framed(front, "kernel-", env[i].1, env'[i'].1, ".log");
  }

  lemma Framed(front: string, prefix: string, a: string, b: string, suffix: string)
    ensures front + (prefix + a + suffix) == front + (prefix + b + suffix) <==> a == b
  {
    var x, y := front + (prefix + a + suffix), front + (prefix + b + suffix);
    var n := |front| + |prefix|;
    assert x[n..|x| - |suffix|] == a && y[n..|y| - |suffix|] == b;
  }

  datatype Startup = Local(argv: seq<string>) | Remote(script: string)

  lemma {:induction false} ExportsAppend(env: Env, key: string, value: string)
    ensures Exports(env + [(key, value)]) == Exports(env) + Export(key, value)
  {
    if env == [] {
      assert env + [(key, value)] == [(key, value)];
      assert Exports([(key, value)]) == Export(key, value) + Exports([]);
    } else {
      ExportsAppend(env[1..], key, value);
      assert (env + [(key, value)])[1..] == env[1..] + [(key, value)];
      ConcatAssociative(Export(env[0].0, env[0].1), Exports(env[1..]), Export(key, value));
    }
  }

  lemma {:induction false} ArgumentsAppend(argv: seq<string>, arg: string)
    ensures Arguments(argv + [arg]) == Arguments(argv) + (" " + Quote(arg))
  {
    if argv == [] {
      assert argv + [arg] == [arg];
      assert Arguments([arg]) == " " + Quote(arg) + Arguments([]);
    } else {
      ArgumentsAppend(argv[1..], arg);
      assert (argv + [arg])[1..] == argv[1..] + [arg];
      ConcatAssociative(" " + Quote(argv[0]), Arguments(argv[1..]), " " + Quote(arg));
    }
  }

  method AppendExports(cmd: string, env: Env) returns (longer: string)
    ensures longer == cmd + Exports(env)
  {
    longer := cmd;
    var i := 0;
    while i < |env|
      invariant 0 <= i <= |env|
      invariant longer == cmd + Exports(env[..i])
    {
      var (key, value) := env[i];
      ExportsAppend(env[..i], key, value);
      assert env[..i + 1] == env[..i] + [(key, value)];
      ConcatAssociative(cmd, Exports(env[..i]), Export(key, value));
      longer := longer + Export(key, value);
      i := i + 1;
    }
    assert env[..i] == env;
  }

  /** `_build_startup_command`; a local kernel is started from its argument list as it is. */
  method BuildStartupCommand(isLocal: bool, argv: seq<string>, env: Env, specEnv: Env, logDir: string)
    returns (cmd: Startup)
    ensures cmd == if isLocal then Local(argv) else Remote(Script(env, specEnv, argv, LogFile(logDir, env)))
  {
    var log := LogFile(logDir, env);
    if isLocal {
      return Local(argv);
    }
    var script := AppendExports("", env);
    assert "" + Exports(env) == Exports(env);
    script := AppendExports(script, specEnv);
    script := AppendArguments(script + "nohup", argv);
    cmd := Remote(script + Redirection(log));
  }

  method AppendArguments(cmd: string, argv: seq<string>) returns (longer: string)
    ensures longer == cmd + Arguments(argv)
  {
    longer := cmd;
    var i := 0;
    while i < |argv|
      invariant 0 <= i <= |argv|
      invariant longer == cmd + Arguments(argv[..i])
    {
      ArgumentsAppend(argv[..i], argv[i]);
      assert argv[..i + 1] == argv[..i] + [argv[i]];
      ConcatAssociative(cmd, Arguments(argv[..i]), " " + Quote(argv[i]));
      longer := longer + (" " + Quote(argv[i]));
      i := i + 1;
    }
    assert argv[..i] == argv;
  }

  // ----- Reading quoted text back -----

  function PiecesOf(word: Option<Partial>): seq<Piece> {
    match word
    case None => []
    case Some(w) => w.pieces
  }

  function BareOf(word: Option<Partial>): bool {
    match word
    case None => true
    case Some(w) => w.bare
  }

  lemma CharsSplit(a: string, b: string)
    ensures Chars(a + b) == Chars(a) + Chars(b)
  {
  }

  /** A word extended by the text that was quoted; it stays bare only if no quote was needed. */
  function Read(word: Option<Partial>, s: string): Partial {
    Partial(PiecesOf(word) + Chars(s), BareOf(word) && s != "" && Safe(s))
  }

  /** A character that stands for itself outside quotes; a hash sign does so only inside a word. */
  predicate Plain(c: char) {
    && c != ' ' && c != '\t' && c != '\'' && c != '"' && c != ';' && c != '&' && c != '>' && c != '$' && c != '\\'
    && !Unmodelled(c)
  }

  predicate AllPlain(s: string) {
    forall i :: 0 <= i < |s| ==> Plain(s[i])
  }

  /** A path that a shell takes as it is printed. */
  predicate PlainPath(s: string) {
    s != "" && s[0] != '#' && AllPlain(s)
  }

  lemma SafeIsPlain(s: string)
    requires Safe(s)
    ensures AllPlain(s)
    ensures s != "" ==> PlainPath(s)
  {
    forall i | 0 <= i < |s|
      ensures Plain(s[i]) && s[i] != '#'
    {
      assert SafeChar(s[i]);
    }
  }

  lemma LexPlainChar(c: char, rest: string, word: Option<Partial>)
    requires Plain(c) && (c == '#' ==> word.Some?)
    ensures Lex([c] + rest, Unquoted, word) == Lex(rest, Unquoted, Extend(word, Char(c), true))
  {
    assert ([c] + rest)[1..] == rest;
  }

  /** Plain text stands for itself, wherever in a word it appears. */
  lemma {:induction false} LexPlain(s: string, rest: string, word: Option<Partial>)
    requires AllPlain(s) && s != "" && (s[0] == '#' ==> word.Some?)
    ensures Lex(s + rest, Unquoted, word)
         == Lex(rest, Unquoted, Some(Partial(PiecesOf(word) + Chars(s), BareOf(word))))
  {
    Uncons(s, rest);
    assert Plain(s[0]);
    LexPlainChar(s[0], s[1..] + rest, word);
    PlainStep(s, word);
    if |s| > 1 {
      LexPlain(s[1..], rest, Extend(word, Char(s[0]), true));
    }
  }

  lemma Uncons(s: string, rest: string)
    requires s != ""
    ensures s + rest == [s[0]] + (s[1..] + rest)
    ensures |s| == 1 ==> s[1..] + rest == rest
  {
  }

  /** Reading plain text is reading its first character and then the others. */
  lemma PlainStep(s: string, word: Option<Partial>)
    requires s != ""
    ensures var next := Extend(word, Char(s[0]), true);
      && BareOf(next) == BareOf(word)
      && PiecesOf(next) + Chars(s[1..]) == PiecesOf(word) + Chars(s)
      && (|s| == 1 ==> next == Some(Partial(PiecesOf(word) + Chars(s), BareOf(word))))
  {
    var next := Extend(word, Char(s[0]), true).value;
    assert next.pieces == PiecesOf(word) + [Char(s[0])];
    assert next.pieces + Chars(s[1..]) == PiecesOf(word) + Chars(s);
    if |s| == 1 {
      assert Chars(s) == [Char(s[0])];
    }
  }

  lemma LexSafe(s: string, rest: string, word: Option<Partial>)
    requires Safe(s) && s != ""
    ensures Lex(s + rest, Unquoted, word) == Lex(rest, Unquoted, Some(Read(word, s)))
  {
    SafeIsPlain(s);
    LexPlain(s, rest, word);
    assert Read(word, s) == Partial(PiecesOf(word) + Chars(s), BareOf(word));
  }

  /** A quote inside quotes: the five characters that stand for it. */
  lemma LexEscapedQuote(rest: string, w: Partial)
    requires !w.bare
    ensures Lex("'\"'\"'" + rest, Single, Some(w)) == Lex(rest, Single, Some(Partial(w.pieces + [Char('\'')], false)))
  {
    var s := "'\"'\"'" + rest;
    var w' := Partial(w.pieces + [Char('\'')], false);
    assert s[1..][1..] == s[2..] && s[2..][1..] == s[3..] && s[3..][1..] == s[4..] && s[4..][1..] == rest;
    assert Lex(s, Single, Some(w)) == Lex(s[1..], Unquoted, Some(w));
    assert Lex(s[1..], Unquoted, Some(w)) == Lex(s[2..], Double, Some(w));
    assert Lex(s[2..], Double, Some(w)) == Lex(s[3..], Double, Some(w'));
    assert Lex(s[3..], Double, Some(w')) == Lex(s[4..], Unquoted, Some(w'));
    assert Lex(s[4..], Unquoted, Some(w')) == Lex(rest, Single, Some(w'));
  }

  lemma {:induction false} LexEscaped(s: string, rest: string, w: Partial)
    requires !w.bare
    ensures Lex(Escaped(s) + ("'" + rest), Single, Some(w))
         == Lex(rest, Unquoted, Some(Partial(w.pieces + Chars(s), false)))
  {
    if s == "" {
      assert Escaped(s) + ("'" + rest) == "'" + rest;
      LexClosingQuote(rest, w);
      assert w.pieces + Chars(s) == w.pieces;
    } else {
      var tail := Escaped(s[1..]) + ("'" + rest);
      LexEscaped(s[1..], rest, Partial(w.pieces + [Char(s[0])], false));
      EscapedStep(s, "'" + rest, w.pieces);
      if s[0] == '\'' {
        LexEscapedQuote(tail, w);
      } else {
        LexInsideQuotes(s[0], tail, w);
      }
    }
  }

  lemma LexClosingQuote(rest: string, w: Partial)
    ensures Lex("'" + rest, Single, Some(w)) == Lex(rest, Unquoted, Some(w))
  {
    assert ("'" + rest)[1..] == rest;
  }

  lemma LexInsideQuotes(c: char, rest: string, w: Partial)
    requires c != '\''
    ensures Lex([c] + rest, Single, Some(w)) == Lex(rest, Single, Some(Partial(w.pieces + [Char(c)], false)))
  {
    assert ([c] + rest)[1..] == rest;
  }

  lemma EscapedStep(s: string, rest: string, pieces: seq<Piece>)
    requires s != ""
    ensures Escaped(s) + rest == (if s[0] == '\'' then "'\"'\"'" else [s[0]]) + (Escaped(s[1..]) + rest)
    ensures pieces + [Char(s[0])] + Chars(s[1..]) == pieces + Chars(s)
  {
    ConcatAssociative(if s[0] == '\'' then "'\"'\"'" else [s[0]], Escaped(s[1..]), rest);
    CharsStep(s, pieces);
  }

  lemma CharsStep(s: string, pieces: seq<Piece>)
    requires s != ""
    ensures pieces + [Char(s[0])] + Chars(s[1..]) == pieces + Chars(s)
  {
    assert [Char(s[0])] + Chars(s[1..]) == Chars(s);
    ConcatAssociative(pieces, [Char(s[0])], Chars(s[1..]));
  }

  lemma LexQuoted(s: string, rest: string, word: Option<Partial>)
    ensures Lex("'" + Escaped(s) + "'" + rest, Unquoted, word)
         == Lex(rest, Unquoted, Some(Partial(PiecesOf(word) + Chars(s), false)))
  {
    var start := Partial(PiecesOf(word), false);
    assert ("'" + Escaped(s) + "'" + rest)[1..] == Escaped(s) + ("'" + rest);
    LexEscaped(s, rest, start);
    assert Quoting(word) == Some(start);
  }

  /** Quote removal gives back what was quoted, added to whatever word it stands in. */
  lemma LexQuote(s: string, rest: string, word: Option<Partial>)
    ensures Lex(Quote(s) + rest, Unquoted, word) == Lex(rest, Unquoted, Some(Read(word, s)))
  {
    if s == "" {
      LexQuoted(s, rest, word);
      assert "'" + Escaped(s) + "'" + rest == Quote(s) + rest;
    } else if Safe(s) {
      LexSafe(s, rest, word);
    } else {
      LexQuoted(s, rest, word);
    }
  }

  // ----- Tokens of the whole command -----

  function ExportTokens(env: Env): seq<Token> {
    if env == [] then []
    else [Word(Chars("export")), Word(Chars(env[0].0 + "=" + env[0].1)), Op(";")] + ExportTokens(env[1..])
  }

  function ArgumentTokens(argv: seq<string>): seq<Token> {
    seq(|argv|, i requires 0 <= i < |argv| => Word(Chars(argv[i])))
  }

  lemma ThenThen(a: seq<Token>, b: seq<Token>, rest: Option<seq<Token>>)
    ensures Then(a, Then(b, rest)) == Then(a + b, rest)
  {
    if rest.Some? {
      assert a + (b + rest.value) == a + b + rest.value;
    }
  }

  lemma ThenNothing(rest: Option<seq<Token>>)
    ensures Then([], rest) == rest
  {
    if rest.Some? {
      assert [] + rest.value == rest.value;
    }
  }

  lemma LexBlank(rest: string, word: Option<Partial>)
    ensures Lex(" " + rest, Unquoted, word) == Then(Flush(word), Tokenize(rest))
  {
    assert (" " + rest)[1..] == rest;
  }

  lemma LexSemicolon(rest: string, word: Option<Partial>)
    ensures Lex(";" + rest, Unquoted, word) == Then(Flush(word) + [Op(";")], Tokenize(rest))
  {
    assert (";" + rest)[1..] == rest;
  }

  /** A plain word, up to the blank that ends it. */
  lemma LexBareWord(s: string, rest: string)
    requires PlainPath(s)
    ensures Tokenize(s + (" " + rest)) == Then([Word(Chars(s))], Tokenize(rest))
  {
    LexPlain(s, " " + rest, None);
    assert [] + Chars(s) == Chars(s);
    LexBlank(rest, Some(Partial(Chars(s), true)));
  }

  /** The word read so far after a quoted key and the equals sign. */
  function Named(key: string): (word: Partial)
    ensures word.pieces == Chars(key + "=")
  {
    Partial(Read(None, key).pieces + [Char('=')], Read(None, key).bare)
  }

  lemma LexKey(key: string, rest: string)
    ensures Tokenize(Quote(key) + ("=" + rest)) == Lex(rest, Unquoted, Some(Named(key)))
  {
    LexQuote(key, "=" + rest, None);
    LexPlainChar('=', rest, Some(Read(None, key)));
  }

  lemma LexValue(word: Partial, value: string, rest: string)
    ensures Lex(Quote(value) + (";" + rest), Unquoted, Some(word))
         == Then([Word(word.pieces + Chars(value)), Op(";")], Tokenize(rest))
  {
    LexQuote(value, ";" + rest, Some(word));
    LexSemicolon(rest, Some(Read(Some(word), value)));
    assert [Word(word.pieces + Chars(value))] + [Op(";")] == [Word(word.pieces + Chars(value)), Op(";")];
  }

  /** A quoted key, an equals sign and a quoted value make one word. */
  lemma LexAssignment(key: string, value: string, rest: string)
    ensures Tokenize(Quote(key) + ("=" + (Quote(value) + (";" + rest))))
         == Then([Word(Chars(key + "=" + value)), Op(";")], Tokenize(rest))
  {
    LexKey(key, Quote(value) + (";" + rest));
    LexValue(Named(key), value, rest);
    CharsSplit(key + "=", value);
  }

  lemma LexExport(key: string, value: string, rest: string)
    ensures Tokenize(Export(key, value) + rest)
         == Then([Word(Chars("export")), Word(Chars(key + "=" + value)), Op(";")], Tokenize(rest))
  {
    var assignment := Quote(key) + ("=" + (Quote(value) + (";" + rest)));
    ExportShape(key, value, rest);
    LexBareWord("export", assignment);
    LexAssignment(key, value, rest);
    ThenThen([Word(Chars("export"))], [Word(Chars(key + "=" + value)), Op(";")], Tokenize(rest));
    assert [Word(Chars("export"))] + [Word(Chars(key + "=" + value)), Op(";")]
        == [Word(Chars("export")), Word(Chars(key + "=" + value)), Op(";")];
  }

  lemma ExportShape(key: string, value: string, rest: string)
    ensures Export(key, value) + rest
         == "export" + (" " + (Quote(key) + ("=" + (Quote(value) + (";" + rest)))))
  {
    assert "export " == "export" + " ";
  }

  lemma {:induction false} LexExports(env: Env, rest: string)
    ensures Tokenize(Exports(env) + rest) == Then(ExportTokens(env), Tokenize(rest))
  {
    if env == [] {
      assert Exports(env) + rest == rest;
      ThenNothing(Tokenize(rest));
    } else {
      var (key, value) := env[0];
      ConcatAssociative(Export(key, value), Exports(env[1..]), rest);
      LexExport(key, value, Exports(env[1..]) + rest);
      LexExports(env[1..], rest);
      ThenThen(
        [Word(Chars("export")), Word(Chars(key + "=" + value)), Op(";")], ExportTokens(env[1..]), Tokenize(rest));
    }
  }

  /** Arguments follow the word before them; the blank after the last one ends it. */
  lemma {:induction false} LexArguments(word: Partial, argv: seq<string>, rest: string)
    ensures Lex(Arguments(argv) + (" " + rest), Unquoted, Some(word))
         == Then([Word(word.pieces)] + ArgumentTokens(argv), Tokenize(rest))
    decreases argv
  {
    if argv == [] {
      assert Arguments(argv) + (" " + rest) == " " + rest;
      LexBlank(rest, Some(word));
      assert [Word(word.pieces)] + ArgumentTokens(argv) == [Word(word.pieces)];
    } else {
      var tail := Arguments(argv[1..]) + (" " + rest);
      ArgumentsShape(argv, rest);
      LexBlank(Quote(argv[0]) + tail, Some(word));
      LexQuote(argv[0], tail, None);
      LexArguments(Read(None, argv[0]), argv[1..], rest);
      ArgumentTokensStep(word.pieces, argv);
      ThenThen([Word(word.pieces)], ArgumentTokens(argv), Tokenize(rest));
    }
  }

  lemma ArgumentTokensStep(pieces: seq<Piece>, argv: seq<string>)
    requires argv != []
    ensures Read(None, argv[0]).pieces == Chars(argv[0])
    ensures [Word(Chars(argv[0]))] + ArgumentTokens(argv[1..]) == ArgumentTokens(argv)
  {
    assert [] + Chars(argv[0]) == Chars(argv[0]);
    var tokens := ArgumentTokens(argv);
    assert tokens[0] == Word(Chars(argv[0]));
    assert tokens[1..] == ArgumentTokens(argv[1..]);
  }

  lemma ArgumentsShape(argv: seq<string>, rest: string)
    requires argv != []
    ensures Arguments(argv) + (" " + rest) == " " + (Quote(argv[0]) + (Arguments(argv[1..]) + (" " + rest)))
  {
  }

  lemma ScriptShape(env: Env, specEnv: Env, argv: seq<string>, log: string)
    ensures Script(env, specEnv, argv, log)
         == Exports(env) + (Exports(specEnv) + ("nohup" + (Arguments(argv) + (" " + Output(log)))))
  {
    var (exports, specExports, arguments) := (Exports(env), Exports(specEnv), Arguments(argv));
    RedirectionShape(log);
    var out := " " + Output(log);
    ConcatAssociative(exports + specExports + "nohup", arguments, out);
    ConcatAssociative(exports + specExports, "nohup", arguments + out);
    ConcatAssociative(exports, specExports, "nohup" + (arguments + out));
  }

  lemma RedirectionShape(log: string)
    ensures Redirection(log) == " " + Output(log)
  {
    assert " >> " == " " + ">> ";
    ConcatAssociative(" ", ">> ", log);
    ConcatAssociative(" ", ">> " + log, " 2>&1 & echo $!");
  }

  /** The redirection without the blank before it. */
  function Output(log: string): string {
    ">> " + log + " 2>&1 & echo $!"
  }

  /**
   * Whatever the environments, the arguments and the log file: the command reads back as one `export` per
   * pair, in order, then `nohup` and exactly the arguments, then whatever the redirection reads as.
   */
  lemma TokensOfScript(env: Env, specEnv: Env, argv: seq<string>, log: string)
    ensures Tokenize(Script(env, specEnv, argv, log))
         == Then(ExportTokens(env) + (ExportTokens(specEnv) + ([Word(Chars("nohup"))] + ArgumentTokens(argv))),
                 Tokenize(Output(log)))
  {
    var launch := "nohup" + (Arguments(argv) + (" " + Output(log)));
    var words := [Word(Chars("nohup"))] + ArgumentTokens(argv);
    ScriptShape(env, specEnv, argv, log);
    LexExports(env, Exports(specEnv) + launch);
    LexExports(specEnv, launch);
    LexSafe("nohup", Arguments(argv) + (" " + Output(log)), None);
    assert Read(None, "nohup").pieces == Chars("nohup");
    LexArguments(Read(None, "nohup"), argv, Output(log));
    ThenThen(ExportTokens(specEnv), words, Tokenize(Output(log)));
    ThenThen(ExportTokens(env), ExportTokens(specEnv) + words, Tokenize(Output(log)));
  }

  lemma LexPid()
    ensures Tokenize("$!") == Some([Word([LastPid])])
  {
    assert "$!"[2..] == "";
    assert Tokenize("$!") == Lex("", Unquoted, Some(Partial([LastPid], false)));
  }

  lemma LexEcho()
    ensures Tokenize(" echo $!") == Some([Word(Chars("echo")), Word([LastPid])])
  {
    assert " echo $!" == " " + ("echo" + (" " + "$!"));
    LexBlank("echo" + (" " + "$!"), None);
    ThenNothing(Tokenize("echo" + (" " + "$!")));
    LexBareWord("echo", "$!");
    LexPid();
    assert [Word(Chars("echo"))] + [Word([LastPid])] == [Word(Chars("echo")), Word([LastPid])];
  }

  lemma LexAmpersand(rest: string, word: Option<Partial>)
    requires rest != "" && rest[0] != '&'
    ensures Lex("&" + rest, Unquoted, word) == Then(Flush(word) + [Op("&")], Tokenize(rest))
  {
    assert ("&" + rest)[1..] == rest;
  }

  lemma LexOperator(op: string, rest: string, word: Option<Partial>)
    requires op == ">>" || op == ">&"
    ensures Lex(op + rest, Unquoted, word) == Then(FlushBeforeRedirect(word) + [Op(op)], Tokenize(rest))
  {
    assert (op + rest)[2..] == rest && (op + rest)[..2] == op;
  }

  lemma LexBackground()
    ensures Tokenize("1 & echo $!") == Some([Word(Chars("1")), Op("&"), Word(Chars("echo")), Word([LastPid])])
  {
    assert "1 & echo $!" == "1" + (" " + "& echo $!");
    LexBareWord("1", "& echo $!");
    assert "& echo $!" == "&" + " echo $!";
    LexAmpersand(" echo $!", None);
    LexEcho();
    assert [Word(Chars("1"))] + ([] + [Op("&")] + [Word(Chars("echo")), Word([LastPid])])
        == [Word(Chars("1")), Op("&"), Word(Chars("echo")), Word([LastPid])];
  }

  /** What follows the log file: standard error joins standard output, in the background, and the pid is echoed. */
  const REST_OF_OUTPUT :=
    [IoNumber(Chars("2")), Op(">&"), Word(Chars("1")), Op("&"), Word(Chars("echo")), Word([LastPid])]

  lemma LexDuplicate()
    ensures Tokenize("2>&1 & echo $!") == Some(REST_OF_OUTPUT)
  {
    var two := Partial(Chars("2"), true);
    assert "2>&1 & echo $!" == "2" + (">&" + "1 & echo $!");
    LexSafe("2", ">&" + "1 & echo $!", None);
    assert Read(None, "2") == two;
    LexOperator(">&", "1 & echo $!", Some(two));
    assert Digit(two.pieces[0]);
    LexBackground();
    assert [IoNumber(Chars("2"))] + [Op(">&")] + [Word(Chars("1")), Op("&"), Word(Chars("echo")), Word([LastPid])]
        == REST_OF_OUTPUT;
  }

  lemma OutputShape(log: string)
    ensures Output(log) == ">>" + (" " + (log + (" " + "2>&1 & echo $!")))
  {
    assert ">> " == ">>" + " " && " 2>&1 & echo $!" == " " + "2>&1 & echo $!";
  }

  lemma LexOutput(log: string)
    requires PlainPath(log)
    ensures Tokenize(Output(log)) == Some([Op(">>"), Word(Chars(log))] + REST_OF_OUTPUT)
  {
    var tail := "2>&1 & echo $!";
    OutputShape(log);
    LexOperator(">>", " " + (log + (" " + tail)), None);
    LexBlank(log + (" " + tail), None);
    ThenNothing(Tokenize(log + (" " + tail)));
    LexBareWord(log, tail);
    LexDuplicate();
    assert [] + [Op(">>")] + ([Word(Chars(log))] + REST_OF_OUTPUT) == [Op(">>"), Word(Chars(log))] + REST_OF_OUTPUT;
  }

  // ----- Commands and their effect -----

  function ExportCommand(key: string, value: string): Command {
    Command([Chars("export"), Chars(key + "=" + value)], [], false)
  }

  function ExportCommands(env: Env): seq<Command> {
    if env == [] then [] else [ExportCommand(env[0].0, env[0].1)] + ExportCommands(env[1..])
  }

  function WordsOf(argv: seq<string>): seq<seq<Piece>> {
    seq(|argv|, i requires 0 <= i < |argv| => Chars(argv[i]))
  }

  function After(cs: seq<Command>, rest: Option<seq<Command>>): Option<seq<Command>> {
    match rest
    case None => None
    case Some(more) => Some(cs + more)
  }

  lemma CommandsOfWord(w: seq<Piece>, rest: seq<Token>, c: Command)
    ensures Commands([Word(w)] + rest, c) == Commands(rest, c.(words := c.words + [w]))
  {
    assert ([Word(w)] + rest)[1..] == rest;
  }

  lemma {:induction false} CommandsOfArguments(argv: seq<string>, rest: seq<Token>, c: Command)
    ensures Commands(ArgumentTokens(argv) + rest, c) == Commands(rest, c.(words := c.words + WordsOf(argv)))
    decreases argv
  {
    if argv == [] {
      assert ArgumentTokens(argv) + rest == rest;
      assert c.words + WordsOf(argv) == c.words;
    } else {
      assert ArgumentTokens(argv) + rest == [Word(Chars(argv[0]))] + (ArgumentTokens(argv[1..]) + rest);
      CommandsOfWord(Chars(argv[0]), ArgumentTokens(argv[1..]) + rest, c);
      var next := c.(words := c.words + [Chars(argv[0])]);
      CommandsOfArguments(argv[1..], rest, next);
      assert next.words + WordsOf(argv[1..]) == c.words + WordsOf(argv);
    }
  }

  lemma CommandsOfExport(key: string, value: string, rest: seq<Token>)
    ensures Commands([Word(Chars("export")), Word(Chars(key + "=" + value)), Op(";")] + rest, NO_COMMAND)
         == Before(ExportCommand(key, value), Commands(rest, NO_COMMAND))
  {
    var c1 := NO_COMMAND.(words := [] + [Chars("export")]);
    var c2 := c1.(words := c1.words + [Chars(key + "=" + value)]);
    var afterWords := [Op(";")] + rest;
    assert [Word(Chars("export")), Word(Chars(key + "=" + value)), Op(";")] + rest
        == [Word(Chars("export"))] + ([Word(Chars(key + "=" + value))] + afterWords);
    CommandsOfWord(Chars("export"), [Word(Chars(key + "=" + value))] + afterWords, NO_COMMAND);
    CommandsOfWord(Chars(key + "=" + value), afterWords, c1);
    assert c2 == ExportCommand(key, value);
    assert afterWords[1..] == rest;
  }

  lemma {:induction false} CommandsOfExports(env: Env, rest: seq<Token>)
    ensures Commands(ExportTokens(env) + rest, NO_COMMAND) == After(ExportCommands(env), Commands(rest, NO_COMMAND))
  {
    if env == [] {
      assert ExportTokens(env) + rest == rest;
      if Commands(rest, NO_COMMAND).Some? {
        assert [] + Commands(rest, NO_COMMAND).value == Commands(rest, NO_COMMAND).value;
      }
    } else {
      var (key, value) := env[0];
      ConcatAssociative([Word(Chars("export")), Word(Chars(key + "=" + value)), Op(";")], ExportTokens(env[1..]), rest);
      CommandsOfExport(key, value, ExportTokens(env[1..]) + rest);
      CommandsOfExports(env[1..], rest);
      if Commands(rest, NO_COMMAND).Some? {
        ConcatAssociative([ExportCommand(key, value)], ExportCommands(env[1..]), Commands(rest, NO_COMMAND).value);
      }
    }
  }

  const ECHO := Command([Chars("echo"), [LastPid]], [], false)

  lemma CommandsOfEcho()
    ensures Commands([Word(Chars("echo")), Word([LastPid])], NO_COMMAND) == Some([ECHO])
  {
    var c1 := NO_COMMAND.(words := [] + [Chars("echo")]);
    assert [Word(Chars("echo")), Word([LastPid])] == [Word(Chars("echo"))] + [Word([LastPid])];
    CommandsOfWord(Chars("echo"), [Word([LastPid])], NO_COMMAND);
    assert [Word([LastPid])] == [Word([LastPid])] + [];
    CommandsOfWord([LastPid], [], c1);
    assert c1.words + [[LastPid]] == ECHO.words;
  }

  const DUPLICATE := Redirect(Chars("2"), ">&", Chars("1"))

  lemma CommandsOfRest(c: Command)
    requires c != NO_COMMAND && !c.background
    ensures Commands(REST_OF_OUTPUT, c)
         == Some([c.(redirects := c.redirects + [DUPLICATE], background := true), ECHO])
  {
    var afterDup := [Op("&"), Word(Chars("echo")), Word([LastPid])];
    var c' := c.(redirects := c.redirects + [DUPLICATE]);
    assert REST_OF_OUTPUT[3..] == afterDup;
    assert REST_OF_OUTPUT[1] == Op(">&") && REST_OF_OUTPUT[2] == Word(Chars("1"));
    assert Commands(REST_OF_OUTPUT, c) == Commands(afterDup, c');
    assert afterDup[1..] == [Word(Chars("echo")), Word([LastPid])];
    CommandsOfEcho();
    assert Commands(afterDup, c') == Before(c'.(background := true), Some([ECHO]));
    assert [c'.(background := true)] + [ECHO] == [c'.(background := true), ECHO];
  }

  /** Output goes to `log`; words read after it, if any, still belong to the command. */
  lemma CommandsOfOutput(log: string, more: seq<string>, c: Command)
    requires c.words != [] && c.redirects == [] && !c.background
    ensures Commands([Op(">>"), Word(Chars(log))] + (ArgumentTokens(more) + REST_OF_OUTPUT), c)
         == Some([Command(c.words + WordsOf(more), [Redirect(Chars("1"), ">>", Chars(log)), DUPLICATE], true), ECHO])
  {
    var rest := ArgumentTokens(more) + REST_OF_OUTPUT;
    var c1 := c.(redirects := c.redirects + [Redirect(Chars("1"), ">>", Chars(log))]);
    assert ([Op(">>"), Word(Chars(log))] + rest)[2..] == rest;
    assert Commands([Op(">>"), Word(Chars(log))] + rest, c) == Commands(rest, c1);
    CommandsOfArguments(more, REST_OF_OUTPUT, c1);
    var c2 := c1.(words := c1.words + WordsOf(more));
    assert c2 != NO_COMMAND;
    CommandsOfRest(c2);
    assert c2.redirects + [DUPLICATE] == [Redirect(Chars("1"), ">>", Chars(log)), DUPLICATE];
  }

  lemma {:induction false} TextOfChars(s: string)
    ensures Text(Chars(s)) == Some(s)
  {
    if s == "" {
    } else {
      TextOfChars(s[1..]);
      assert Chars(s)[1..] == Chars(s[1..]);
      assert s == [s[0]] + s[1..];
    }
  }

  lemma {:induction false} TextsOfWords(argv: seq<string>)
    ensures Texts(WordsOf(argv)) == Some(argv)
  {
    if argv == [] {
    } else {
      TextOfChars(argv[0]);
      TextsOfWords(argv[1..]);
      assert WordsOf(argv)[1..] == WordsOf(argv[1..]);
      assert argv == [argv[0]] + argv[1..];
    }
  }

  predicate NoEquals(s: string) {
    forall i :: 0 <= i < |s| ==> s[i] != '='
  }

  /** Every key is a name that a shell can export. */
  predicate AllNames(env: Env) {
    forall i :: 0 <= i < |env| ==> IsName(env[i].0)
  }

  lemma {:induction false} SplitAtKey(key: string, value: string)
    requires NoEquals(key)
    ensures SplitAssignment(key + "=" + value) == Some((key, value))
    decreases key
  {
    var s := key + "=" + value;
    if key == "" {
      assert s[1..] == value;
    } else {
      SplitAtKey(key[1..], value);
      assert s[1..] == key[1..] + "=" + value;
      assert key == [key[0]] + key[1..];
    }
  }

  /** `base` overlaid by the pairs, the later ones winning. */
  function Overlay(base: map<string, string>, env: Env): map<string, string>
    decreases env
  {
    if env == [] then base else Overlay(base[env[0].0 := env[0].1], env[1..])
  }

  lemma {:induction false} ExecuteExports(env: Env, rest: seq<Command>, base: map<string, string>)
    requires AllNames(env)
    ensures Execute(ExportCommands(env) + rest, base) == Execute(rest, Overlay(base, env))
    decreases env
  {
    if env == [] {
      assert ExportCommands(env) + rest == rest;
    } else {
      var (key, value) := env[0];
      var cs := ExportCommands(env) + rest;
      assert cs[0] == ExportCommand(key, value);
      assert cs[1..] == ExportCommands(env[1..]) + rest;
      TextOfChars(key + "=" + value);
      SplitAtKey(key, value);
      assert Exported(cs[0]) == Some((key, value));
      ExecuteExports(env[1..], rest, base[key := value]);
    }
  }

  function LaunchCommand(argv: seq<string>, log: string): Command {
    Command([Chars("nohup")] + WordsOf(argv), [Redirect(Chars("1"), ">>", Chars(log)), DUPLICATE], true)
  }

  lemma ExecuteLaunch(argv: seq<string>, log: string, env: map<string, string>)
    ensures Execute([LaunchCommand(argv, log), ECHO], env) == Some(Launch(env, argv, log))
  {
    assert LaunchCommand(argv, log).words[1..] == WordsOf(argv);
    TextsOfWords(argv);
    TextOfChars(log);
  }

  lemma CommandsOfLaunch(argv: seq<string>, target: string, more: seq<string>)
    ensures Commands([Word(Chars("nohup"))] + (ArgumentTokens(argv)
                       + ([Op(">>"), Word(Chars(target))] + (ArgumentTokens(more) + REST_OF_OUTPUT))), NO_COMMAND)
         == Some([LaunchCommand(argv + more, target), ECHO])
  {
    var out := [Op(">>"), Word(Chars(target))] + (ArgumentTokens(more) + REST_OF_OUTPUT);
    var nohup := NO_COMMAND.(words := [] + [Chars("nohup")]);
    CommandsOfWord(Chars("nohup"), ArgumentTokens(argv) + out, NO_COMMAND);
    CommandsOfArguments(argv, out, nohup);
    CommandsOfOutput(target, more, nohup.(words := nohup.words + WordsOf(argv)));
    assert nohup.words + WordsOf(argv) + WordsOf(more) == [Chars("nohup")] + WordsOf(argv + more);
  }

  lemma InterpretScript(
      env: Env, specEnv: Env, argv: seq<string>, log: string, target: string, more: seq<string>,
      base: map<string, string>)
    requires AllNames(env) && AllNames(specEnv)
    requires Tokenize(Output(log)) == Some([Op(">>"), Word(Chars(target))] + (ArgumentTokens(more) + REST_OF_OUTPUT))
    ensures Interpret(Script(env, specEnv, argv, log), base)
         == Some(Launch(Overlay(Overlay(base, env), specEnv), argv + more, target))
  {
    var out := [Op(">>"), Word(Chars(target))] + (ArgumentTokens(more) + REST_OF_OUTPUT);
    var launch := [Word(Chars("nohup"))] + (ArgumentTokens(argv) + out);
    TokensOfScript(env, specEnv, argv, log);
    TokensShape(ExportTokens(env), ExportTokens(specEnv), [Word(Chars("nohup"))], ArgumentTokens(argv), out);
    assert Tokenize(Script(env, specEnv, argv, log)) == Some(ExportTokens(env) + (ExportTokens(specEnv) + launch));
    CommandsOfExports(env, ExportTokens(specEnv) + launch);
    CommandsOfExports(specEnv, launch);
    CommandsOfLaunch(argv, target, more);
    ExecuteScript(env, specEnv, argv + more, target, base);
  }

  lemma ExecuteScript(env: Env, specEnv: Env, argv: seq<string>, log: string, base: map<string, string>)
    requires AllNames(env) && AllNames(specEnv)
    ensures Execute(ExportCommands(env) + (ExportCommands(specEnv) + [LaunchCommand(argv, log), ECHO]), base)
         == Some(Launch(Overlay(Overlay(base, env), specEnv), argv, log))
  {
    var last := [LaunchCommand(argv, log), ECHO];
    ExecuteExports(env, ExportCommands(specEnv) + last, base);
    ExecuteExports(specEnv, last, Overlay(base, env));
    ExecuteLaunch(argv, log, Overlay(Overlay(base, env), specEnv));
  }

  lemma TokensShape(a: seq<Token>, b: seq<Token>, c: seq<Token>, d: seq<Token>, e: seq<Token>)
    ensures a + (b + (c + d)) + e == a + (b + (c + (d + e)))
  {
  }

  /**
   * For every environment, kernelspec environment and argument list: a shell given the command starts,
   * in the background, exactly the argument list, in its own environment overlaid first by the one and
   * then by the other, with output appended to the log file.
   */
  lemma ScriptLaunchesKernel(env: Env, specEnv: Env, argv: seq<string>, log: string, base: map<string, string>)
    requires AllNames(env) && AllNames(specEnv)
    requires PlainPath(log)
    ensures Interpret(Script(env, specEnv, argv, log), base)
         == Some(Launch(Overlay(Overlay(base, env), specEnv), argv, log))
  {
    LexOutput(log);
    assert ArgumentTokens([]) + REST_OF_OUTPUT == REST_OF_OUTPUT;
    InterpretScript(env, specEnv, argv, log, log, [], base);
    assert argv + [] == argv;
  }

  /**
   * The log file is the one part printed unquoted. What becomes of a path that is not plain, for one shape
   * of it: a blank ends the redirection there, and what follows it is one more argument for the kernel.
   */
  lemma BlankInLogPath(
      env: Env, specEnv: Env, argv: seq<string>, dir: string, file: string, base: map<string, string>)
    requires AllNames(env) && AllNames(specEnv)
    requires PlainPath(dir) && PlainPath(file)
    ensures Interpret(Script(env, specEnv, argv, dir + " " + file), base)
         == Some(Launch(Overlay(Overlay(base, env), specEnv), argv + [file], dir))
  {
    var tail := "2>&1 & echo $!";
    OutputShape(dir + " " + file);
    assert dir + " " + file + (" " + tail) == dir + (" " + (file + (" " + tail)));
    LexOperator(">>", " " + (dir + (" " + (file + (" " + tail)))), None);
    LexBlank(dir + (" " + (file + (" " + tail))), None);
    ThenNothing(Tokenize(dir + (" " + (file + (" " + tail)))));
    LexBareWord(dir, file + (" " + tail));
    LexBareWord(file, tail);
    LexDuplicate();
    assert [] + [Op(">>")] + ([Word(Chars(dir))] + ([Word(Chars(file))] + REST_OF_OUTPUT))
        == [Op(">>"), Word(Chars(dir))] + (ArgumentTokens([file]) + REST_OF_OUTPUT);
    InterpretScript(env, specEnv, argv, dir + " " + file, dir, [file], base);
  }
}
