/**
 * Kernel pod names: substitution of `{{ variable }}` placeholders in a client's template, and the
 * rewriting of whatever comes out into a DNS label.
 */
module PodName {
  import opened Collections

  // ----- One pass of substitution -----

  /** The characters that `\s` matches in a Python string. */
  predicate IsBlank(c: char) {
    || '\t' <= c <= '\r'
    || '\U{1c}' <= c <= ' '
    || c == '\U{85}' || c == '\U{a0}' || c == '\U{1680}'
    || '\U{2000}' <= c <= '\U{200a}'
    || c == '\U{2028}' || c == '\U{2029}' || c == '\U{202f}' || c == '\U{205f}' || c == '\U{3000}'
  }

  predicate IsLetter(c: char) {
    'a' <= c <= 'z' || 'A' <= c <= 'Z'
  }

  predicate IsWordChar(c: char) {
    IsLetter(c) || '0' <= c <= '9' || c == '_'
  }

  predicate IsName(s: string) {
    s != "" && IsLetter(s[0]) && forall i :: 0 <= i < |s| ==> IsWordChar(s[i])
  }

  function SkipBlanks(s: string): (rest: string)
    ensures |rest| <= |s|
  {
    if s != "" && IsBlank(s[0]) then SkipBlanks(s[1..]) else s
  }

  function WordLength(s: string): (n: nat)
    ensures n <= |s|
    ensures forall i :: 0 <= i < n ==> IsWordChar(s[i])
  {
    if s != "" && IsWordChar(s[0]) then 1 + WordLength(s[1..]) else 0
  }

  /** The name, the blanks and the closing braces of a placeholder. */
  function MatchInside(inside: string): (m: Option<(string, string)>)
    ensures m.Some? ==> |m.value.1| < |inside|
  {
    var n := WordLength(inside);
    if n == 0 || !IsLetter(inside[0]) then None
    else
      var closing := SkipBlanks(inside[n..]);
      if |closing| < 2 || closing[..2] != "}}" then None
      else Some((inside[..n], closing[2..]))
  }

  /** A placeholder at the very start of `s`: the name in it and what follows it. */
  function Match(s: string): (m: Option<(string, string)>)
    ensures m.Some? ==> |m.value.1| < |s|
  {
    if |s| < 2 || s[..2] != "{{" then None
    else MatchInside(SkipBlanks(s[2..]))
  }

  /** The substituted text and the names that were not found, both in order of appearance. */
  function Scan(s: string, vars: map<string, string>): (string, seq<string>)
    decreases |s|
  {
    if s == "" then ("", [])
    else
      match Match(s)
      case None =>
        var (text, missing) := Scan(s[1..], vars);
        ([s[0]] + text, missing)
      case Some((name, rest)) =>
        var (text, missing) := Scan(rest, vars);
        if name in vars then (vars[name] + text, missing)
        else (s[..|s| - |rest|] + text, [name] + missing)
  }

  predicate HasDouble(s: string, c: char) {
    exists i :: 0 <= i < |s| - 1 && s[i] == c && s[i + 1] == c
  }

  predicate HasBraces(s: string) {
    HasDouble(s, '{') && HasDouble(s, '}')
  }

  function Substituted(s: string, vars: map<string, string>): Option<string> {
    var (text, missing) := Scan(s, vars);
    if HasBraces(text) || missing != [] then None else Some(text)
  }

  /** The substitution as one left-to-right loop that collects the missing names on its way. */
  method SafeTemplateSubstitute(template: string, vars: map<string, string>) returns (result: Option<string>)
    ensures result == Substituted(template, vars)
  {
    var rest := template;
    var text := "";
    var missing: seq<string> := [];
    assert text + Scan(rest, vars).0 == Scan(rest, vars).0;
    assert missing + Scan(rest, vars).1 == Scan(rest, vars).1;
    while rest != ""
      invariant Scan(template, vars) == (text + Scan(rest, vars).0, missing + Scan(rest, vars).1)
      decreases |rest|
    {
      ghost var was, before, found := rest, text, missing;
      match Match(rest) {
        case None =>
          text, rest := text + [rest[0]], rest[1..];
          ConcatAssociative(before, [was[0]], Scan(rest, vars).0);
        case Some(m) =>
          if m.0 in vars {
            text := text + vars[m.0];
            ConcatAssociative(before, vars[m.0], Scan(m.1, vars).0);
          } else {
            text := text + rest[..|rest| - |m.1|];
            missing := missing + [m.0];
            ConcatAssociative(before, was[..|was| - |m.1|], Scan(m.1, vars).0);
            ConcatAssociative(found, [m.0], Scan(m.1, vars).1);
          }
          rest := m.1;
      }
    }
    assert text + "" == text && missing + [] == missing;
    if HasBraces(text) {
      return None;
    }
    if missing != [] {
      return None;
    }
    return Some(text);
  }

  // ----- Templates as what they mean -----

  datatype Part = Literal(text: string) | Placeholder(before: string, name: string, after: string)

  predicate WellFormed(p: Part) {
    match p
    case Literal(text) => '{' !in text
    case Placeholder(before, name, after) =>
      && (forall c :: c in before ==> IsBlank(c))
      && IsName(name)
      && (forall c :: c in after ==> IsBlank(c))
  }

  predicate WellFormedTemplate(t: seq<Part>) {
    forall i :: 0 <= i < |t| ==> WellFormed(t[i])
  }

  function PrintPart(p: Part): string {
    match p
    case Literal(text) => text
    case Placeholder(before, name, after) => "{{" + before + name + after + "}}"
  }

  function Print(t: seq<Part>): string {
    if t == [] then "" else PrintPart(t[0]) + Print(t[1..])
  }

  function Names(t: seq<Part>): set<string> {
    set i | 0 <= i < |t| && t[i].Placeholder? :: t[i].name
  }

  function Evaluate(t: seq<Part>, vars: map<string, string>): string
    requires Names(t) <= vars.Keys
  {
    if t == [] then ""
    else
      assert t[0].Placeholder? ==> t[0].name in Names(t);
      assert Names(t[1..]) <= Names(t) by {
        assert forall i :: 0 <= i < |t| - 1 ==> t[1..][i] == t[i + 1];
      }
      (match t[0]
       case Literal(text) => text
       case Placeholder(_, name, _) => vars[name]) + Evaluate(t[1..], vars)
  }

  lemma {:induction false} SkipsAllBlanks(blanks: string, rest: string)
    requires forall c :: c in blanks ==> IsBlank(c)
    requires rest != "" && !IsBlank(rest[0])
    ensures SkipBlanks(blanks + rest) == rest
  {
    if blanks == "" {
      assert blanks + rest == rest;
    } else {
      assert (blanks + rest)[1..] == blanks[1..] + rest;
      SkipsAllBlanks(blanks[1..], rest);
    }
  }

  lemma {:induction false} WordLengthOf(word: string, rest: string)
    requires forall i :: 0 <= i < |word| ==> IsWordChar(word[i])
    requires rest != "" && !IsWordChar(rest[0])
    ensures WordLength(word + rest) == |word|
  {
    if word == "" {
      assert word + rest == rest;
    } else {
      assert (word + rest)[1..] == word[1..] + rest;
      WordLengthOf(word[1..], rest);
    }
  }

  lemma MatchesInside(name: string, after: string, rest: string)
    requires IsName(name) && forall c :: c in after ==> IsBlank(c)
    ensures MatchInside(name + (after + ("}}" + rest))) == Some((name, rest))
  {
    var closing := "}}" + rest;
    var afterName := after + closing;
    assert after != "" ==> after[0] in after;
    assert afterName[0] == if after == "" then '}' else after[0];
    WordLengthOf(name, afterName);
    assert (name + afterName)[..|name|] == name && (name + afterName)[|name|..] == afterName;
    SkipsAllBlanks(after, closing);
    assert closing[..2] == "}}" && closing[2..] == rest;
  }

  lemma PrintedPlaceholder(p: Part, rest: string)
    requires p.Placeholder?
    ensures PrintPart(p) + rest == "{{" + (p.before + (p.name + (p.after + ("}}" + rest))))
  {
    ConcatAssociative("{{" + p.before + p.name + p.after, "}}", rest);
    ConcatAssociative("{{" + p.before + p.name, p.after, "}}" + rest);
    ConcatAssociative("{{" + p.before, p.name, p.after + ("}}" + rest));
    ConcatAssociative("{{", p.before, p.name + (p.after + ("}}" + rest)));
  }

  lemma MatchesPlaceholder(p: Part, rest: string)
    requires p.Placeholder? && WellFormed(p)
    ensures Match(PrintPart(p) + rest) == Some((p.name, rest))
  {
    var s := PrintPart(p) + rest;
    var inside := p.name + (p.after + ("}}" + rest));
    PrintedPlaceholder(p, rest);
    assert s[..2] == "{{" && s[2..] == p.before + inside;
    SkipsAllBlanks(p.before, inside);
    MatchesInside(p.name, p.after, rest);
  }

  lemma {:induction false} SkipsOnlyBlanks(s: string) returns (blanks: string)
    ensures s == blanks + SkipBlanks(s)
    ensures forall c :: c in blanks ==> IsBlank(c)
  {
    if s != "" && IsBlank(s[0]) {
      var more := SkipsOnlyBlanks(s[1..]);
      blanks := [s[0]] + more;
      ConcatAssociative([s[0]], more, SkipBlanks(s[1..]));
      assert s == [s[0]] + s[1..];
    } else {
      blanks := "";
      assert s == "" + SkipBlanks(s);
    }
  }

  /** Nothing else matches: what does is a placeholder, of a letter and more letters, digits and underscores. */
  lemma MatchesNothingElse(s: string) returns (p: Part)
    requires Match(s).Some?
    ensures p.Placeholder? && WellFormed(p)
    ensures p.name == Match(s).value.0 && s == PrintPart(p) + Match(s).value.1
    ensures p.name != "" && ('a' <= p.name[0] <= 'z' || 'A' <= p.name[0] <= 'Z')
    ensures forall c :: c in p.name ==> 'a' <= c <= 'z' || 'A' <= c <= 'Z' || '0' <= c <= '9' || c == '_'
  {
    var inside := SkipBlanks(s[2..]);
    var before := SkipsOnlyBlanks(s[2..]);
    var name, after, rest := MatchesNothingElseInside(inside);
    p := Placeholder(before, name, after);
    PrintedPlaceholder(p, rest);
    assert s == "{{" + s[2..];
    assert name[0] in name;
  }

  lemma MatchesNothingElseInside(inside: string) returns (name: string, after: string, rest: string)
    requires MatchInside(inside).Some?
    ensures MatchInside(inside) == Some((name, rest)) && IsName(name) && (forall c :: c in after ==> IsBlank(c))
    ensures inside == name + (after + ("}}" + rest))
  {
    var n := WordLength(inside);
    name := inside[..n];
    after := SkipsOnlyBlanks(inside[n..]);
    rest := SkipBlanks(inside[n..])[2..];
    assert SkipBlanks(inside[n..]) == "}}" + rest;
    assert inside == name + inside[n..];
  }

  lemma ScanPlain(c: char, rest: string, vars: map<string, string>)
    requires c != '{'
    ensures Scan([c] + rest, vars) == ([c] + Scan(rest, vars).0, Scan(rest, vars).1)
  {
    var s := [c] + rest;
    assert s[0] == c && s[1..] == rest;
    assert |s| >= 2 ==> s[..2][0] != '{';
  }

  lemma {:induction false} ScanLiteral(text: string, rest: string, vars: map<string, string>)
    requires '{' !in text
    ensures Scan(text + rest, vars) == (text + Scan(rest, vars).0, Scan(rest, vars).1)
  {
    if text == "" {
      assert text + rest == rest;
      assert text + Scan(rest, vars).0 == Scan(rest, vars).0;
    } else {
      assert text[0] in text;
      assert text == [text[0]] + text[1..];
      ConcatAssociative([text[0]], text[1..], rest);
      ScanPlain(text[0], text[1..] + rest, vars);
      ScanLiteral(text[1..], rest, vars);
      ConcatAssociative([text[0]], text[1..], Scan(rest, vars).0);
    }
  }

  lemma {:induction false} ScanEvaluates(t: seq<Part>, vars: map<string, string>)
    requires WellFormedTemplate(t)
    ensures Names(t) <= vars.Keys ==> Scan(Print(t), vars) == (Evaluate(t, vars), [])
    ensures Scan(Print(t), vars).1 == [] <==> Names(t) <= vars.Keys
  {
    if t == [] {
    } else {
      assert Names(t) == Names(t[1..]) + if t[0].Placeholder? then {t[0].name} else {} by {
        assert forall i :: 0 <= i < |t| - 1 ==> t[1..][i] == t[i + 1];
        assert forall i :: 1 <= i < |t| ==> t[1..][i - 1] == t[i];
      }
      ScanEvaluates(t[1..], vars);
      var rest := Print(t[1..]);
      match t[0]
      case Literal(text) => ScanLiteral(text, rest, vars);
      case Placeholder(before, name, after) => MatchesPlaceholder(t[0], rest);
    }
  }

  /**
   * Substitution is the one-pass evaluation of the template, whatever the values hold: a value that looks
   * like a placeholder is not expanded again. It is given up exactly when a variable is missing or both
   * kinds of double braces are left over.
   */
  lemma SubstitutionEvaluates(t: seq<Part>, vars: map<string, string>)
    requires WellFormedTemplate(t)
    ensures Substituted(Print(t), vars) ==
            if Names(t) <= vars.Keys && !HasBraces(Evaluate(t, vars)) then Some(Evaluate(t, vars)) else None
  {
    ScanEvaluates(t, vars);
  }

  lemma {:induction false} EvaluatesBraceFree(t: seq<Part>, vars: map<string, string>)
    requires WellFormedTemplate(t) && Names(t) <= vars.Keys
    requires forall name :: name in vars ==> '{' !in vars[name]
    ensures '{' !in Evaluate(t, vars)
  {
    if t == [] {
    } else {
      assert Names(t[1..]) <= Names(t) by {
        assert forall i :: 0 <= i < |t| - 1 ==> t[1..][i] == t[i + 1];
      }
      assert t[0].Placeholder? ==> t[0].name in Names(t);
      EvaluatesBraceFree(t[1..], vars);
    }
  }

  /** With brace-free values, it is given up exactly when a variable is missing. */
  lemma SubstitutionFailsIffMissing(t: seq<Part>, vars: map<string, string>)
    requires WellFormedTemplate(t)
    requires forall name :: name in vars ==> '{' !in vars[name]
    ensures Substituted(Print(t), vars).None? <==> !(Names(t) <= vars.Keys)
    ensures Names(t) <= vars.Keys ==> Substituted(Print(t), vars) == Some(Evaluate(t, vars))
  {
    SubstitutionEvaluates(t, vars);
    if Names(t) <= vars.Keys {
      EvaluatesBraceFree(t, vars);
    }
  }

  // ----- Rewriting into a label -----

  predicate IsAlnum(c: char) {
    '0' <= c <= '9' || 'a' <= c <= 'z'
  }

  /** Every run of other characters becomes one hyphen. */
  function Collapse(s: string): string {
    if s == "" then ""
    else if IsAlnum(s[0]) then [s[0]] + Collapse(s[1..])
    else if |s| > 1 && !IsAlnum(s[1]) then Collapse(s[1..])
    else "-" + Collapse(s[1..])
  }

  /** The maximal runs of digits and lower-case letters. */
  function Words(s: string): (w: seq<string>)
    ensures s != "" && IsAlnum(s[0]) ==> w != []
  {
    if s == "" then []
    else
      var w := Words(s[1..]);
      if !IsAlnum(s[0]) then w
      else if |s| > 1 && IsAlnum(s[1]) then [[s[0]] + w[0]] + w[1..]
      else [[s[0]]] + w
  }

  function Join(w: seq<string>): string {
    if w == [] then ""
    else if |w| == 1 then w[0]
    else w[0] + "-" + Join(w[1..])
  }

  predicate AllWords(w: seq<string>) {
    forall i :: 0 <= i < |w| ==> w[i] != "" && forall j :: 0 <= j < |w[i]| ==> IsAlnum(w[i][j])
  }

  /** The label syntax of section 2.1 of RFC 1123, length aside, without doubled hyphens; or nothing. */
  predicate IsLabel(s: string) {
    && (forall i :: 0 <= i < |s| ==> '0' <= s[i] <= '9' || 'a' <= s[i] <= 'z' || s[i] == '-')
    && (s != "" ==> s[0] != '-' && s[|s| - 1] != '-')
    && !HasDouble(s, '-')
  }

  lemma {:induction false} WordsAreWords(s: string)
    ensures AllWords(Words(s))
    ensures Words(s) == [] <==> forall i :: 0 <= i < |s| ==> !IsAlnum(s[i])
  {
    if s == "" {
    } else {
      WordsAreWords(s[1..]);
      assert s == [s[0]] + s[1..];
    }
  }

  function Lead(s: string): string {
    if s != "" && !IsAlnum(s[0]) then "-" else ""
  }

  function Tail(s: string): string {
    if Words(s) != [] && !IsAlnum(s[|s| - 1]) then "-" else ""
  }

  lemma JoinCons(c: char, w: seq<string>)
    requires w != []
    ensures Join([[c] + w[0]] + w[1..]) == [c] + Join(w)
  {
    if |w| > 1 {
      assert ([[c] + w[0]] + w[1..])[1..] == w[1..];
    }
  }

  function Body(s: string): string {
    Join(Words(s)) + Tail(s)
  }

  lemma BodyInWord(s: string)
    requires |s| > 1 && IsAlnum(s[0]) && IsAlnum(s[1])
    ensures Body(s) == [s[0]] + Body(s[1..])
  {
    JoinCons(s[0], Words(s[1..]));
    ConcatAssociative([s[0]], Join(Words(s[1..])), Tail(s[1..]));
  }

  lemma BodyAtWordEnd(s: string)
    requires |s| > 1 && IsAlnum(s[0]) && !IsAlnum(s[1])
    ensures Body(s) == [s[0]] + ("-" + Body(s[1..]))
  {
    var w := Words(s[1..]);
    assert Words(s) == [[s[0]]] + w;
    if w == [] {
      WordsAreWords(s[1..]);
      assert Words(s) == [[s[0]]];
      assert !IsAlnum(s[1..][|s| - 2]);
      assert Body(s[1..]) == "";
    } else {
      assert Words(s)[1..] == w;
      ConcatAssociative([s[0]], "-", Join(w));
      ConcatAssociative([s[0]], "-" + Join(w), Tail(s));
      ConcatAssociative("-", Join(w), Tail(s));
    }
  }

  lemma BodyBetweenWords(s: string)
    requires s != "" && !IsAlnum(s[0])
    ensures Body(s) == Body(s[1..])
  {
  }

  /** Collapsing leaves the words joined by hyphens, with one more hyphen at either end where it applies. */
  lemma {:induction false} CollapseShape(s: string)
    ensures Collapse(s) == Lead(s) + Body(s)
  {
    if s == "" {
    } else {
      CollapseShape(s[1..]);
      if !IsAlnum(s[0]) {
        BodyBetweenWords(s);
        assert Lead(s) == "-";
        assert |s| > 1 && IsAlnum(s[1]) ==> "" + Body(s[1..]) == Body(s[1..]);
      } else {
        assert "" + Body(s) == Body(s);
        if |s| == 1 {
          assert Words(s) == [[s[0]]] && Words(s[1..]) == [];
        } else if IsAlnum(s[1]) {
          BodyInWord(s);
          assert "" + Body(s[1..]) == Body(s[1..]);
        } else {
          BodyAtWordEnd(s);
        }
      }
    }
  }

  lemma {:induction false} JoinIsLabel(w: seq<string>)
    requires AllWords(w)
    ensures IsLabel(Join(w))
    ensures Join(w) == "" <==> w == []
    ensures w != [] ==> Join(w)[0] == w[0][0]
  {
    if w == [] || |w| == 1 {
    } else {
      JoinIsLabel(w[1..]);
      var s := Join(w);
      var n := |w[0]|;
      assert s == w[0] + "-" + Join(w[1..]);
      assert forall i :: n < i < |s| ==> s[i] == Join(w[1..])[i - n - 1];
      assert s[n] == '-';
      forall i | 0 <= i < |s| - 1
        ensures !(s[i] == '-' && s[i + 1] == '-')
      {
        if i > n {
          assert !(Join(w[1..])[i - n - 1] == '-' && Join(w[1..])[i - n] == '-');
        }
      }
    }
  }

  /** The pod name for a candidate: lowered, collapsed and stripped. `lower` is Python's `str.lower`. */
  function Normalised(lower: string -> string, s: string): string {
    Join(Words(lower(s)))
  }

  function WithoutLeading(s: string): string {
    if s != "" && s[0] == '-' then WithoutLeading(s[1..]) else s
  }

  function WithoutTrailing(s: string): string {
    if s != "" && s[|s| - 1] == '-' then WithoutTrailing(s[..|s| - 1]) else s
  }

  lemma StrippingLeavesTheWords(s: string)
    ensures WithoutTrailing(WithoutLeading(Collapse(s))) == Join(Words(s))
  {
    CollapseShape(s);
    WordsAreWords(s);
    JoinIsLabel(Words(s));
    var words := Join(Words(s));
    assert words == "" ==> Words(s) == [] && Tail(s) == "";
    LeadGoes(Lead(s), words + Tail(s));
    TailGoes(words, Tail(s));
  }

  lemma LeadGoes(lead: string, body: string)
    requires lead in {"", "-"} && (body != "" ==> body[0] != '-')
    ensures WithoutLeading(lead + body) == body
  {
    if lead == "" {
      assert lead + body == body;
    } else {
      assert (lead + body)[0] == '-' && (lead + body)[1..] == body;
      assert WithoutLeading(body) == body;
    }
  }

  lemma TailGoes(body: string, tail: string)
    requires tail in {"", "-"} && (body != "" ==> body[|body| - 1] != '-')
    ensures WithoutTrailing(body + tail) == body
  {
    if tail == "" {
      assert body + tail == body;
    } else {
      assert (body + tail)[|body|] == '-' && (body + tail)[..|body|] == body;
      assert WithoutTrailing(body) == body;
    }
  }

  /** Collapse the runs, then strip hyphens from either end one at a time. */
  method Normalise(lower: string -> string, candidate: string) returns (podName: string)
    ensures podName == Normalised(lower, candidate)
  {
    podName := Collapse(lower(candidate));
    ghost var collapsed := podName;
    while podName != "" && podName[0] == '-'
      invariant WithoutLeading(podName) == WithoutLeading(collapsed)
      decreases |podName|
    {
      podName := podName[1..];
    }
    while podName != "" && podName[|podName| - 1] == '-'
      invariant WithoutTrailing(podName) == WithoutTrailing(WithoutLeading(collapsed))
      decreases |podName|
    {
      podName := podName[..|podName| - 1];
    }
    StrippingLeavesTheWords(lower(candidate));
  }

  /** Every pod name is a label, and an empty one comes exactly from a candidate without digits and letters. */
  lemma NormalisedIsLabel(lower: string -> string, s: string)
    ensures IsLabel(Normalised(lower, s))
    ensures Normalised(lower, s) == "" <==> forall i :: 0 <= i < |lower(s)| ==> !IsAlnum(lower(s)[i])
  {
    WordsAreWords(lower(s));
    JoinIsLabel(Words(lower(s)));
  }

  /** The digits and lower-case letters of a text, in order. */
  function Alnums(s: string): string {
    if s == "" then ""
    else if '0' <= s[0] <= '9' || 'a' <= s[0] <= 'z' then [s[0]] + Alnums(s[1..])
    else Alnums(s[1..])
  }

  lemma {:induction false} AlnumsAppend(a: string, b: string)
    ensures Alnums(a + b) == Alnums(a) + Alnums(b)
  {
    if a == "" {
      assert a + b == b && "" + Alnums(b) == Alnums(b);
    } else {
      assert (a + b)[1..] == a[1..] + b;
      AlnumsAppend(a[1..], b);
      ConcatAssociative([a[0]], Alnums(a[1..]), Alnums(b));
    }
  }

  lemma AlnumsOfCons(c: char, s: string)
    ensures Alnums([c] + s) == (if '0' <= c <= '9' || 'a' <= c <= 'z' then [c] else "") + Alnums(s)
  {
    assert ([c] + s)[1..] == s;
    assert "" + Alnums(s) == Alnums(s);
  }

  lemma {:induction false} AlnumsOfWords(s: string)
    ensures Alnums(Join(Words(s))) == Alnums(s)
  {
    if s == "" {
    } else {
      AlnumsOfWords(s[1..]);
      AlnumsOfCons(s[0], s[1..]);
      assert s == [s[0]] + s[1..];
      if IsAlnum(s[0]) {
        if |s| > 1 && IsAlnum(s[1]) {
          JoinCons(s[0], Words(s[1..]));
          AlnumsOfCons(s[0], Join(Words(s[1..])));
        } else {
          AlnumsOfNewWord(s[0], Words(s[1..]));
        }
      } else {
        assert "" + Alnums(s[1..]) == Alnums(s[1..]);
      }
    }
  }

  lemma AlnumsOfNewWord(c: char, w: seq<string>)
    requires IsAlnum(c)
    ensures Alnums(Join([[c]] + w)) == [c] + Alnums(Join(w))
  {
    AlnumsOfCons(c, "-" + Join(w));
    AlnumsOfCons('-', Join(w));
    AlnumsOfCons(c, "");
    assert "" + Alnums(Join(w)) == Alnums(Join(w));
    if w != [] {
      assert ([[c]] + w)[1..] == w;
      assert [c] + "-" + Join(w) == [c] + ("-" + Join(w));
    } else {
      assert [c] + "" == [c];
    }
  }

  /** A pod name has the candidate's digits and letters, all of them, in their order. */
  lemma NormalisedKeepsAlnums(lower: string -> string, s: string)
    ensures Alnums(Normalised(lower, s)) == Alnums(lower(s))
  {
    AlnumsOfWords(lower(s));
  }

  /** A leading character attaches to the words of what follows it in a way that depends on their start only. */
  function PutFirst(c: char, joins: bool, w: seq<string>): seq<string>
    requires joins ==> w != []
  {
    if !IsAlnum(c) then w
    else if joins then [[c] + w[0]] + w[1..]
    else [[c]] + w
  }

  lemma PutFirstConcat(c: char, joins: bool, w: seq<string>, more: seq<string>)
    requires joins ==> w != []
    ensures PutFirst(c, joins, w + more) == PutFirst(c, joins, w) + more
  {
    if joins {
      assert (w + more)[1..] == w[1..] + more;
    }
  }

  lemma WordsPutFirst(s: string)
    requires s != ""
    ensures var joins := |s| > 1 && IsAlnum(s[1]);
      Words(s) == PutFirst(s[0], joins, Words(s[1..]))
  {
  }

  lemma {:induction false} WordsAcrossHyphen(a: string, b: string)
    ensures Words(a + "-" + b) == Words(a) + Words(b)
  {
    var s := a + "-" + b;
    if a == "" {
      assert s == "-" + b && s[1..] == b;
      assert Words(a) + Words(b) == Words(b);
    } else {
      var rest := a[1..] + "-" + b;
      assert s[1..] == rest && s[0] == a[0];
      assert s[1] == if |a| > 1 then a[1] else '-';
      WordsAcrossHyphen(a[1..], b);
      WordsPutFirst(a);
      WordsPutFirst(s);
      PutFirstConcat(a[0], |a| > 1 && IsAlnum(a[1]), Words(a[1..]), Words(b));
    }
  }

  lemma {:induction false} WordIsItself(s: string)
    requires s != "" && forall i :: 0 <= i < |s| ==> IsAlnum(s[i])
    ensures Words(s) == [s]
  {
    if |s| == 1 {
      assert s == [s[0]];
      assert [[s[0]]] + [] == [s];
    } else {
      WordIsItself(s[1..]);
      assert [s[0]] + s[1..] == s;
    }
  }

  lemma {:induction false} WordsOfJoin(w: seq<string>)
    requires AllWords(w)
    ensures Words(Join(w)) == w
  {
    if w == [] {
    } else if |w| == 1 {
      WordIsItself(w[0]);
    } else {
      WordsOfJoin(w[1..]);
      WordIsItself(w[0]);
      WordsAcrossHyphen(w[0], Join(w[1..]));
      assert [w[0]] + w[1..] == w;
    }
  }

  lemma {:induction false} LabelIsItsWords(s: string)
    requires IsLabel(s)
    ensures Join(Words(s)) == s
  {
    CollapseShape(s);
    if s != "" {
      assert IsAlnum(s[0]) && IsAlnum(s[|s| - 1]);
      CollapseOfLabel(s);
    }
  }

  lemma {:induction false} CollapseOfLabel(s: string)
    requires forall i :: 0 <= i < |s| ==> IsAlnum(s[i]) || s[i] == '-'
    requires !HasDouble(s, '-')
    ensures Collapse(s) == s
  {
    if s == "" {
    } else {
      forall i | 0 <= i < |s| - 2
        ensures !(s[1..][i] == '-' && s[1..][i + 1] == '-')
      {
        assert !(s[i + 1] == '-' && s[i + 2] == '-');
      }
      CollapseOfLabel(s[1..]);
      assert |s| > 1 ==> !(s[0] == '-' && s[1] == '-');
      assert [s[0]] + s[1..] == s;
    }
  }

  predicate IsPlain(s: string) {
    forall i :: 0 <= i < |s| ==> IsAlnum(s[i]) || s[i] == '-'
  }

  /** Lowering leaves text over digits, lower-case letters and hyphens alone, also at the end of other text. */
  ghost predicate Lowers(lower: string -> string) {
    forall s, plain :: IsPlain(plain) ==>
      var t := lower(s + plain);
      |t| >= |plain| && t[|t| - |plain|..] == plain && (s == "" ==> t == plain)
  }

  /** Normalising a pod name again changes nothing. */
  lemma NormalisedIsIdempotent(lower: string -> string, s: string)
    requires Lowers(lower)
    ensures Normalised(lower, Normalised(lower, s)) == Normalised(lower, s)
  {
    NormalisedIsLabel(lower, s);
    var dnsLabel := Normalised(lower, s);
    assert "" + dnsLabel == dnsLabel;
    assert lower("" + dnsLabel) == dnsLabel;
    LabelIsItsWords(dnsLabel);
  }

  // ----- The pod name of a kernel -----

  /** The variables a template may use: the `KERNEL_` entries of the environment, lower-cased, and the id. */
  function Keywords(lower: string -> string, env: seq<(string, string)>, kernelId: string): map<string, string> {
    KernelEntries(lower, env)["kernel_id" := kernelId]
  }

  function KernelEntries(lower: string -> string, env: seq<(string, string)>): map<string, string> {
    if env == [] then map[]
    else
      var (name, value) := env[|env| - 1];
      var earlier := KernelEntries(lower, env[..|env| - 1]);
      if "KERNEL_" <= name then earlier[lower(name) := value] else earlier
  }

  /** Entry `i` gives the variable `name` its value. */
  predicate Gives(lower: string -> string, env: seq<(string, string)>, i: nat, name: string) {
    i < |env| && "KERNEL_" <= env[i].0 && lower(env[i].0) == name
  }

  predicate GivesLast(lower: string -> string, env: seq<(string, string)>, i: nat, name: string) {
    Gives(lower, env, i, name) && forall j :: i < j < |env| ==> !Gives(lower, env, j, name)
  }

  lemma GivenLastBefore(lower: string -> string, env: seq<(string, string)>, i: nat, name: string)
    requires GivesLast(lower, env, i, name) && !Gives(lower, env, |env| - 1, name)
    ensures GivesLast(lower, env[..|env| - 1], i, name)
  {
    var init := env[..|env| - 1];
    forall j | i < j < |init|
      ensures !Gives(lower, init, j, name)
    {
      assert !Gives(lower, env, j, name);
    }
  }

  /** A variable other than the id is there if and only if an entry gives it, and has the value last given. */
  lemma {:induction false} EntriesAreGiven(
      lower: string -> string, env: seq<(string, string)>, name: string)
    ensures name in KernelEntries(lower, env) <==> exists i: nat :: Gives(lower, env, i, name)
    ensures forall i: nat :: GivesLast(lower, env, i, name) ==>
              name in KernelEntries(lower, env) && KernelEntries(lower, env)[name] == env[i].1
  {
    if env != [] {
      var n, init := |env| - 1, env[..|env| - 1];
      EntriesAreGiven(lower, init, name);
      if i: nat :| Gives(lower, init, i, name) {
        assert Gives(lower, env, i, name);
      }
      if i: nat :| i < n && Gives(lower, env, i, name) {
        assert Gives(lower, init, i, name);
      }
      if !Gives(lower, env, n, name) {
        forall i: nat | GivesLast(lower, env, i, name)
          ensures GivesLast(lower, init, i, name)
        {
          GivenLastBefore(lower, env, i, name);
        }
      }
    }
  }

  lemma KeywordsAreGiven(
      lower: string -> string, env: seq<(string, string)>, kernelId: string, name: string)
    ensures name in Keywords(lower, env, kernelId) <==>
            name == "kernel_id" || exists i: nat :: Gives(lower, env, i, name)
    ensures Keywords(lower, env, kernelId)["kernel_id"] == kernelId
    ensures forall i: nat :: GivesLast(lower, env, i, name) && name != "kernel_id" ==>
              name in Keywords(lower, env, kernelId) && Keywords(lower, env, kernelId)[name] == env[i].1
  {
    EntriesAreGiven(lower, env, name);
  }

  function DefaultName(username: string, kernelId: string): string {
    username + "-" + kernelId
  }

  /** The text that is rewritten into the pod name. `asked` is the client's KERNEL_POD_NAME. */
  function Candidate(asked: Option<string>, vars: map<string, string>, username: string, kernelId: string): string {
    match asked
    case None => DefaultName(username, kernelId)
    case Some(name) =>
      if !HasBraces(name) then name
      else
        match Substituted(name, vars)
        case None => DefaultName(username, kernelId)
        case Some(text) => text
  }

  method DetermineKernelPodName(
      lower: string -> string, asked: Option<string>, env: seq<(string, string)>, username: string, kernelId: string)
    returns (podName: string)
    ensures podName == Normalised(lower, Candidate(asked, Keywords(lower, env, kernelId), username, kernelId))
    ensures asked.None? ==> podName == Normalised(lower, username + "-" + kernelId)
    ensures asked.Some? && !HasBraces(asked.value) ==> podName == Normalised(lower, asked.value)
  {
    if asked.None? {
      podName := username + "-" + kernelId;
    } else {
      podName := asked.value;
      if HasBraces(podName) {
        var keywords: map<string, string> := map[];
        for i := 0 to |env|
          invariant keywords == KernelEntries(lower, env[..i])
        {
          assert env[..i + 1][..i] == env[..i];
          if "KERNEL_" <= env[i].0 {
            keywords := keywords[lower(env[i].0) := env[i].1];
          }
        }
        assert env[..|env|] == env;
        keywords := keywords["kernel_id" := kernelId];
        var substituted := SafeTemplateSubstitute(podName, keywords);
        podName := if substituted.None? then username + "-" + kernelId else substituted.value;
      }
    }
    podName := Normalise(lower, podName);
  }

  lemma {:induction false} PlainPrint(t: seq<Part>, vars: map<string, string>)
    requires WellFormedTemplate(t) && forall i :: 0 <= i < |t| ==> t[i].Literal?
    ensures Names(t) == {} && Evaluate(t, vars) == Print(t) && '{' !in Print(t)
  {
    if t == [] {
    } else {
      PlainPrint(t[1..], vars);
    }
  }

  lemma DoubleInPart(a: string, b: string, c: char)
    ensures HasDouble(a, c) || HasDouble(b, c) ==> HasDouble(a + b, c)
  {
    if HasDouble(a, c) {
      var i :| 0 <= i < |a| - 1 && a[i] == c && a[i + 1] == c;
      assert (a + b)[i] == c && (a + b)[i + 1] == c;
    } else if HasDouble(b, c) {
      var i :| 0 <= i < |b| - 1 && b[i] == c && b[i + 1] == c;
      assert (a + b)[|a| + i] == c && (a + b)[|a| + i + 1] == c;
    }
  }

  lemma {:induction false} PlaceholderHasBraces(t: seq<Part>, i: nat)
    requires i < |t| && t[i].Placeholder?
    ensures HasBraces(Print(t))
  {
    DoubleInPart(PrintPart(t[0]), Print(t[1..]), '{');
    DoubleInPart(PrintPart(t[0]), Print(t[1..]), '}');
    if i == 0 {
      var s := PrintPart(t[0]);
      assert s[0] == '{' && s[1] == '{' && s[|s| - 2] == '}' && s[|s| - 1] == '}';
      assert s[|s| - 2 + 1] == '}';
    } else {
      PlaceholderHasBraces(t[1..], i - 1);
    }
  }

  /**
   * A kernel whose template prints `t` gets the label of what `t` evaluates to, unless a variable is
   * missing or braces are left over, in which case it gets the label of its default name.
   */
  lemma TemplateNamesThePod(t: seq<Part>, vars: map<string, string>, username: string, kernelId: string)
    requires WellFormedTemplate(t)
    ensures Candidate(Some(Print(t)), vars, username, kernelId) ==
            if Names(t) <= vars.Keys && !HasBraces(Evaluate(t, vars)) then Evaluate(t, vars)
            else DefaultName(username, kernelId)
  {
    if i: nat :| i < |t| && t[i].Placeholder? {
      PlaceholderHasBraces(t, i);
      SubstitutionEvaluates(t, vars);
    } else {
      PlainPrint(t, vars);
    }
  }

  lemma {:induction false} JoinEndsWith(w: seq<string>, more: seq<string>)
    requires more != []
    ensures |Join(w + more)| >= |Join(more)|
    ensures Join(w + more)[|Join(w + more)| - |Join(more)|..] == Join(more)
  {
    if w == [] {
      assert w + more == more;
    } else {
      assert (w + more)[1..] == w[1..] + more;
      JoinEndsWith(w[1..], more);
      var inner := Join(w[1..] + more);
      assert Join(w + more) == w[0] + "-" + inner;
      assert Join(w + more)[|Join(w + more)| - |inner|..] == inner;
      assert Join(w + more)[|Join(w + more)| - |Join(more)|..] == inner[|inner| - |Join(more)|..];
    }
  }

  /** A default pod name ends with the kernel's id, whatever the user is called. */
  lemma DefaultNameEndsWithId(lower: string -> string, username: string, kernelId: string)
    requires Lowers(lower) && IsLabel(kernelId) && kernelId != ""
    ensures var podName := Normalised(lower, DefaultName(username, kernelId));
      |podName| >= |kernelId| && podName[|podName| - |kernelId|..] == kernelId
  {
    var suffix := "-" + kernelId;
    assert username + suffix == DefaultName(username, kernelId);
    var s := lower(username + suffix);
    var front := s[..|s| - |suffix|];
    assert s == front + "-" + kernelId;
    WordsAcrossHyphen(front, kernelId);
    LabelIsItsWords(kernelId);
    JoinEndsWith(Words(front), Words(kernelId));
  }

  /** So ids of one length, as UUIDs are, give distinct default names, even to different users. */
  lemma DefaultNamesAreDistinct(
      lower: string -> string, username: string, kernelId: string, otherUser: string, otherId: string)
    requires Lowers(lower)
    requires IsLabel(kernelId) && IsLabel(otherId) && |kernelId| == |otherId| > 0 && kernelId != otherId
    ensures Normalised(lower, DefaultName(username, kernelId)) != Normalised(lower, DefaultName(otherUser, otherId))
  {
    DefaultNameEndsWithId(lower, username, kernelId);
    DefaultNameEndsWithId(lower, otherUser, otherId);
  }
}
