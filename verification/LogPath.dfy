/**
 * The log file is the one part of the startup command that is printed unquoted, and a shell exports names
 * only. This module says for exactly which paths and keys the command means what it should.
 */
module LogPath {
  import opened Collections
  import opened Shell
  import opened StartupCommand

  /** What is printed after the path. */
  const TAIL := " 2>&1 & echo $!"

  /** The first token is a word. */
  predicate StartsWithWord(r: Option<seq<Token>>) {
    r.Some? && r.value != [] && r.value[0].Word?
  }

  predicate EndsInTwo(pieces: seq<Piece>) {
    pieces != [] && pieces[|pieces| - 1] == Char('2')
  }

  predicate EndsInBackslash(s: string) {
    s != "" && s[|s| - 1] == '\\'
  }

  /**
   * A word that begins with the pieces read so far and goes on into `s` has no more pieces than `s` has
   * characters to add, and fewer if a character is missing; the one exception ends in the `2` that follows
   * an escaped blank.
   */
  predicate Bounded(r: Option<seq<Token>>, before: nat, s: string, missing: bool) {
    StartsWithWord(r) ==>
      || |r.value[0].pieces| + (if missing then 1 else 0) <= before + |s|
      || (EndsInTwo(r.value[0].pieces) && EndsInBackslash(s))
  }

  /** A quotation that is never closed makes no tokens. */
  lemma {:induction false} UnclosedSingle(s: string, word: Option<Partial>)
    requires '\'' !in s
    ensures Lex(s, Single, word) == None
  {
    if s == "" {
    } else {
      assert s[0] in s;
      UnclosedSingle(s[1..], Extend(word, Char(s[0]), false));
    }
  }

  lemma {:induction false} UnclosedDouble(s: string, word: Option<Partial>)
    requires '"' !in s
    ensures Lex(s, Double, word) == None
    decreases |s|
  {
    if s == "" {
    } else {
      assert s[0] in s;
      if s[0] == '\\' && |s| > 1 && s[1] in "\"\\$`" {
        UnclosedDouble(s[2..], Extend(word, Char(s[1]), false));
      } else {
        UnclosedDouble(s[1..], Extend(word, Char(s[0]), false));
      }
    }
  }

  /** What ends a word, and what happens when the tail is reached with the word `word`. */
  lemma TailEndsWord(word: Option<Partial>)
    ensures Bounded(Lex(TAIL, Unquoted, word), |PiecesOf(word)|, "", false)
  {
    var rest := "2>&1 & echo $!";
    assert TAIL == " " + rest;
    LexBlank(rest, word);
    LexDuplicate();
  }

  /** A trailing backslash escapes the blank, and the word goes on to the `2`. */
  lemma TailEscaped(word: Option<Partial>)
    ensures Bounded(Lex("\\" + TAIL, Unquoted, word), |PiecesOf(word)|, "\\", true)
  {
    var rest := "2>&1 & echo $!";
    var s := "\\" + TAIL;
    assert s[1] == ' ' && s[2..] == rest;
    TwoEndsWord(Extend(word, Char(' '), false).value);
  }

  lemma TwoEndsWord(w: Partial)
    requires !w.bare
    ensures var r := Lex("2>&1 & echo $!", Unquoted, Some(w));
      StartsWithWord(r) ==> EndsInTwo(r.value[0].pieces)
  {
    var w' := Extend(Some(w), Char('2'), true);
    assert "2>&1 & echo $!" == "2" + (">&" + "1 & echo $!");
    LexPlainChar('2', ">&" + "1 & echo $!", Some(w));
    LexOperator(">&", "1 & echo $!", w');
    assert FlushBeforeRedirect(w') == [Word(w'.value.pieces)];
  }

  /** The characters left of a path, quoted or not, bound the word they are read into. */
  lemma {:induction false} WordIsBounded(s: string, mode: Mode, word: Option<Partial>)
    ensures Bounded(Lex(s + TAIL, mode, word), |PiecesOf(word)|, s, mode != Unquoted || !AllPlain(s))
    decreases |s|, 2
  {
    if s == "" {
      assert s + TAIL == TAIL;
      match mode
      case Unquoted => TailEndsWord(word);
      case Single => UnclosedSingle(TAIL, word);
      case Double => UnclosedDouble(TAIL, word);
    } else {
      match mode
      case Unquoted => UnquotedIsBounded(s, word);
      case Single => SingleIsBounded(s, word);
      case Double => DoubleIsBounded(s, word);
    }
  }

  lemma {:induction false} SingleIsBounded(s: string, word: Option<Partial>)
    requires s != ""
    ensures Bounded(Lex(s + TAIL, Single, word), |PiecesOf(word)|, s, true)
    decreases |s|, 0
  {
    assert (s + TAIL)[1..] == s[1..] + TAIL;
    if s[0] == '\'' {
      WordIsBounded(s[1..], Unquoted, word);
    } else {
      WordIsBounded(s[1..], Single, Extend(word, Char(s[0]), false));
    }
  }

  lemma {:induction false} DoubleIsBounded(s: string, word: Option<Partial>)
    requires s != ""
    ensures Bounded(Lex(s + TAIL, Double, word), |PiecesOf(word)|, s, true)
    decreases |s|, 0
  {
    assert (s + TAIL)[1..] == s[1..] + TAIL;
    if s[0] == '"' {
      WordIsBounded(s[1..], Unquoted, word);
    } else if s[0] == '\\' && |s| > 1 && s[1] in "\"\\$`" {
      assert (s + TAIL)[2..] == s[2..] + TAIL;
      WordIsBounded(s[2..], Double, Extend(word, Char(s[1]), false));
    } else {
      assert |s| == 1 ==> (s + TAIL)[1] == ' ';
      WordIsBounded(s[1..], Double, Extend(word, Char(s[0]), false));
    }
  }

  lemma {:induction false} UnquotedIsBounded(s: string, word: Option<Partial>)
    requires s != ""
    ensures Bounded(Lex(s + TAIL, Unquoted, word), |PiecesOf(word)|, s, !AllPlain(s))
    decreases |s|, 1
  {
    var c, all := s[0], s + TAIL;
    assert all[1..] == s[1..] + TAIL && all[0] == c;
    if c == '\'' {
      WordIsBounded(s[1..], Single, Quoting(word));
    } else if c == '"' {
      WordIsBounded(s[1..], Double, Quoting(word));
    } else if c == '$' {
      DollarIsBounded(s, word);
    } else if c == '\\' {
      BackslashIsBounded(s, word);
    } else if c == ' ' || c == '\t' || c == ';' || c == '&' || c == '>' {
      SeparatorIsBounded(s, word);
    } else if !Unmodelled(c) && (c == '#' ==> word.Some?) {
      LexPlainChar(c, s[1..] + TAIL, word);
      Uncons(s, TAIL);
      WordIsBounded(s[1..], Unquoted, Extend(word, Char(c), true));
      assert Plain(c);
      assert s == [c] + s[1..];
      assert AllPlain(s[1..]) ==> AllPlain(s);
    }
  }

  lemma DollarIsBounded(s: string, word: Option<Partial>)
    requires s != "" && s[0] == '$'
    ensures Bounded(Lex(s + TAIL, Unquoted, word), |PiecesOf(word)|, s, true)
    decreases |s|, 0
  {
    var all := s + TAIL;
    assert |s| == 1 ==> all[1] == ' ';
    if |s| > 1 && s[1] == '!' {
      assert all[2..] == s[2..] + TAIL;
      WordIsBounded(s[2..], Unquoted, Extend(word, LastPid, false));
    }
  }

  lemma BackslashIsBounded(s: string, word: Option<Partial>)
    requires s != "" && s[0] == '\\'
    ensures Bounded(Lex(s + TAIL, Unquoted, word), |PiecesOf(word)|, s, true)
    decreases |s|, 0
  {
    if |s| == 1 {
      assert s == "\\";
      TailEscaped(word);
    } else if s[1] != '\n' {
      assert (s + TAIL)[2..] == s[2..] + TAIL;
      WordIsBounded(s[2..], Unquoted, Extend(word, Char(s[1]), false));
    }
  }

  lemma SeparatorIsBounded(s: string, word: Option<Partial>)
    requires s != "" && s[0] in " \t;&>"
    ensures Bounded(Lex(s + TAIL, Unquoted, word), |PiecesOf(word)|, s, true)
    decreases |s|, 0
  {
    var all := s + TAIL;
    assert all[0] == s[0] && all[1..] == s[1..] + TAIL;
    if (s[0] == ' ' || s[0] == '\t') && word == None {
      WordIsBounded(s[1..], Unquoted, None);
      ThenNothing(Tokenize(s[1..] + TAIL));
    }
  }

  /** The path is read as the one word it is printed as exactly when it is plain and does not start a comment. */
  lemma FirstWordIsPathIff(log: string)
    ensures var r := Tokenize(log + TAIL);
      StartsWithWord(r) && r.value[0].pieces == Chars(log) <==> PlainPath(log)
  {
    var r := Tokenize(log + TAIL);
    var rest := "2>&1 & echo $!";
    assert TAIL == " " + rest;
    if PlainPath(log) {
      LexBareWord(log, rest);
      LexDuplicate();
    } else if log == "" {
      assert log + TAIL == " " + rest;
      LexBlank(rest, None);
      ThenNothing(Tokenize(rest));
      LexDuplicate();
      assert r.value[0] == REST_OF_OUTPUT[0];
    } else if log[0] == '#' {
      assert (log + TAIL)[0] == '#';
      assert LexUnquoted(log + TAIL, None) == None;
    } else {
      WordIsBounded(log, Unquoted, None);
      assert Chars(log)[|log| - 1] == Char(log[|log| - 1]);
    }
  }

  lemma OutputTokens(log: string)
    ensures Tokenize(Output(log)) == Then([Op(">>")], Tokenize(log + TAIL))
  {
    var rest := "2>&1 & echo $!";
    assert TAIL == " " + rest;
    OutputShape(log);
    LexOperator(">>", " " + (log + TAIL), None);
    LexBlank(log + TAIL, None);
    ThenNothing(Tokenize(log + TAIL));
    assert [] + [Op(">>")] == [Op(">>")];
  }

  /** The redirection reads back as the path, the duplication and the echo exactly for these paths. */
  lemma OutputReadsBackIff(log: string)
    ensures Tokenize(Output(log)) == Some([Op(">>"), Word(Chars(log))] + REST_OF_OUTPUT) <==> PlainPath(log)
  {
    if PlainPath(log) {
      LexOutput(log);
    } else {
      OutputTokens(log);
      FirstWordIsPathIff(log);
      var r := Tokenize(log + TAIL);
      if r.Some? && r.value != [] {
        assert ([Op(">>")] + r.value)[1] == r.value[0];
      }
    }
  }

  // ----- From tokens to the launch -----

  /** Redirections once read stay with their command. */
  lemma {:induction false} CommandsKeepRedirects(tokens: seq<Token>, c: Command)
    requires c != NO_COMMAND && Commands(tokens, c).Some?
    ensures var cs := Commands(tokens, c).value; cs != [] && c.redirects <= cs[0].redirects
    decreases |tokens|
  {
    if tokens == [] {
    } else {
      match tokens[0]
      case Word(w) =>
        CommandsKeepRedirects(tokens[1..], c.(words := c.words + [w]));
      case IoNumber(digits) =>
        var r := Redirect(digits, tokens[1].op, tokens[2].pieces);
        CommandsKeepRedirects(tokens[3..], c.(redirects := c.redirects + [r]));
      case Op(op) =>
        if op != ";" && op != "&" {
          var r := Redirect(Chars("1"), op, tokens[1].pieces);
          CommandsKeepRedirects(tokens[2..], c.(redirects := c.redirects + [r]));
        }
    }
  }

  lemma {:induction false} TextIsChars(pieces: seq<Piece>, s: string)
    requires Text(pieces) == Some(s)
    ensures pieces == Chars(s)
  {
    if pieces == [] {
    } else {
      TextIsChars(pieces[1..], s[1..]);
      assert pieces == [pieces[0]] + pieces[1..];
    }
  }

  /** A command whose redirection goes to another word does not launch with this log. */
  lemma OtherTarget(tokens: seq<Token>, c: Command, log: string, env: map<string, string>)
    requires c.words != [] && c.redirects == []
    requires tokens == [] || !tokens[0].Word? || tokens[0].pieces != Chars(log)
    ensures var cs := Commands([Op(">>")] + tokens, c);
      cs.Some? && Execute(cs.value, env).Some? ==> Execute(cs.value, env).value.log != log
  {
    var all := [Op(">>")] + tokens;
    if tokens != [] && tokens[0].Word? && Commands(all, c).Some? {
      var redirect := Redirect(Chars("1"), ">>", tokens[0].pieces);
      var c' := c.(redirects := c.redirects + [redirect]);
      assert all[1] == tokens[0] && Commands(all, c) == Commands(all[2..], c');
      CommandsKeepRedirects(all[2..], c');
      var cs := Commands(all, c).value;
      assert cs[0].redirects[0] == redirect;
      if Execute(cs, env).Some? && Execute(cs, env).value.log == log {
        TextIsChars(tokens[0].pieces, log);
      }
    }
  }

  /** The commands of a script whose redirection reads as `out`. */
  lemma ScriptCommands(env: Env, specEnv: Env, argv: seq<string>, log: string, out: seq<Token>)
    requires Tokenize(Output(log)) == Some(out)
    ensures var c := Command([Chars("nohup")] + WordsOf(argv), [], false);
      Tokenize(Script(env, specEnv, argv, log)).Some?
      && Commands(Tokenize(Script(env, specEnv, argv, log)).value, NO_COMMAND)
         == After(ExportCommands(env), After(ExportCommands(specEnv), Commands(out, c)))
  {
    var launch := [Word(Chars("nohup"))] + (ArgumentTokens(argv) + out);
    TokensOfScript(env, specEnv, argv, log);
    TokensShape(ExportTokens(env), ExportTokens(specEnv), [Word(Chars("nohup"))], ArgumentTokens(argv), out);
    CommandsOfExports(env, ExportTokens(specEnv) + launch);
    CommandsOfExports(specEnv, launch);
    CommandsOfWord(Chars("nohup"), ArgumentTokens(argv) + out, NO_COMMAND);
    var nohup := NO_COMMAND.(words := NO_COMMAND.words + [Chars("nohup")]);
    CommandsOfArguments(argv, out, nohup);
    assert nohup.words == [Chars("nohup")];
  }

  /** A shell's environment only ever gains names. */
  lemma {:induction false} ExecutesWithNames(cs: seq<Command>, env: map<string, string>)
    requires forall key :: key in env ==> IsName(key)
    ensures Execute(cs, env).Some? ==> forall key :: key in Execute(cs, env).value.env ==> IsName(key)
  {
    if cs == [] {
    } else {
      match Exported(cs[0])
      case Some((name, value)) => ExecutesWithNames(cs[1..], env[name := value]);
      case None =>
    }
  }

  lemma {:induction false} OverlayKeys(base: map<string, string>, env: Env, key: string)
    ensures key in Overlay(base, env) <==> key in base || exists i :: 0 <= i < |env| && env[i].0 == key
    decreases env
  {
    if env == [] {
    } else {
      OverlayKeys(base[env[0].0 := env[0].1], env[1..], key);
      assert env == [env[0]] + env[1..];
    }
  }

  /** With a key that is no name, a shell that starts with no environment cannot end up with that key. */
  lemma OddKeyIsNotExported(env: Env, specEnv: Env, argv: seq<string>, log: string)
    requires !AllNames(env) || !AllNames(specEnv)
    ensures Interpret(Script(env, specEnv, argv, log), map[])
         != Some(Launch(Overlay(Overlay(map[], env), specEnv), argv, log))
  {
    var script := Script(env, specEnv, argv, log);
    if Interpret(script, map[]).Some? {
      ExecutesWithNames(Commands(Tokenize(script).value, NO_COMMAND).value, map[]);
    }
    if i :| 0 <= i < |env| && !IsName(env[i].0) {
      OverlayKeys(map[], env, env[i].0);
      OverlayKeys(Overlay(map[], env), specEnv, env[i].0);
    } else {
      var i :| 0 <= i < |specEnv| && !IsName(specEnv[i].0);
      OverlayKeys(Overlay(map[], env), specEnv, specEnv[i].0);
    }
  }

  ghost predicate AlwaysLaunches(env: Env, specEnv: Env, argv: seq<string>, log: string) {
    forall base ::
      Interpret(Script(env, specEnv, argv, log), base)
      == Some(Launch(Overlay(Overlay(base, env), specEnv), argv, log))
  }

  /**
   * For every environment, kernelspec environment, argument list and log path: whatever its own environment,
   * the shell hands `nohup` exactly the arguments, in that environment overlaid by the one and then by the
   * other, with output appended to the log file, if and only if the path is plain and all keys are names.
   */
  lemma LaunchesIff(env: Env, specEnv: Env, argv: seq<string>, log: string)
    ensures AlwaysLaunches(env, specEnv, argv, log) <==> PlainPath(log) && AllNames(env) && AllNames(specEnv)
  {
    if !AllNames(env) || !AllNames(specEnv) {
      OddKeyIsNotExported(env, specEnv, argv, log);
    } else {
      forall base
        ensures Interpret(Script(env, specEnv, argv, log), base)
             == Some(Launch(Overlay(Overlay(base, env), specEnv), argv, log))
           <==> PlainPath(log)
      {
        LaunchesWithLogIff(env, specEnv, argv, log, base);
      }
      LaunchesWithLogIff(env, specEnv, argv, log, map[]);
    }
  }

  /** With names for keys, in every environment of the shell, the log's path decides. */
  lemma LaunchesWithLogIff(
      env: Env, specEnv: Env, argv: seq<string>, log: string, base: map<string, string>)
    requires AllNames(env) && AllNames(specEnv)
    ensures Interpret(Script(env, specEnv, argv, log), base)
         == Some(Launch(Overlay(Overlay(base, env), specEnv), argv, log))
       <==> PlainPath(log)
  {
    if PlainPath(log) {
      ScriptLaunchesKernel(env, specEnv, argv, log, base);
    } else {
      OutputTokens(log);
      FirstWordIsPathIff(log);
      if Tokenize(log + TAIL).Some? {
        LaunchesElsewhere(env, specEnv, argv, log, base);
      } else {
        TokensOfScript(env, specEnv, argv, log);
      }
    }
  }

  lemma LaunchesElsewhere(
      env: Env, specEnv: Env, argv: seq<string>, log: string, base: map<string, string>)
    requires AllNames(env) && AllNames(specEnv)
    requires var r := Tokenize(log + TAIL);
             r.Some? && (r.value == [] || !r.value[0].Word? || r.value[0].pieces != Chars(log))
    ensures var launched := Interpret(Script(env, specEnv, argv, log), base);
      launched.Some? ==> launched.value.log != log
  {
    var tokens := Tokenize(log + TAIL).value;
    var c := Command([Chars("nohup")] + WordsOf(argv), [], false);
    OutputTokens(log);
    ScriptCommands(env, specEnv, argv, log, [Op(">>")] + tokens);
    var cs := Commands([Op(">>")] + tokens, c);
    if cs.Some? {
      ExecuteExports(env, ExportCommands(specEnv) + cs.value, base);
      ExecuteExports(specEnv, cs.value, Overlay(base, env));
      OtherTarget(tokens, c, log, Overlay(Overlay(base, env), specEnv));
    }
  }
}
