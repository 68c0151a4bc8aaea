/** Quoting one value as one shell word, and the shells that read it back.

The printer follows `shell_word` of openvtc-core/src/git_ns.rs. Its partner is a lexer written
independently of it: sections 2.2.1 to 2.2.3 of the POSIX Shell Command Language for sh, bash and
zsh, and fish's rule that `\'` and `\\` are escapes even between single quotes. The lexer accepts
only text a shell splits into literal words; anything a shell would expand, redirect or comment
out is `Stuck`. */
module ShellWords {
  import opened Common

  // ---------------------------------------------------------------------------------------------
  // The printer
  // ---------------------------------------------------------------------------------------------

  predicate Alphanumeric(c: char) {
    'a' <= c <= 'z' || 'A' <= c <= 'Z' || '0' <= c <= '9'
  }

  /** The characters that no supported shell interprets inside a word. */
  predicate PlainChar(c: char) {
    Alphanumeric(c) || c == '.' || c == '_' || c == '-' || c == '/' || c == ':'
    || c == '@' || c == '%' || c == '+' || c == '=' || c == ','
  }

  predicate Plain(s: string) {
    s != "" && s[0] != '-' && s[0] != '=' && s[0] != '%' && forall i :: 0 <= i < |s| ==> PlainChar(s[i])
  }

  /** What is still to be written when `run` is pending and `rest` is unread. */
  function Quoted(run: string, rest: string): string
    decreases |rest|
  {
    if rest == "" then Flushed(run)
    else if rest[0] == '\'' || rest[0] == '\\' then Flushed(run) + Mark(rest[0]) + Quoted("", rest[1..])
    else Quoted(run + [rest[0]], rest[1..])
  }

  function Flushed(run: string): string {
    if run == "" then "" else "'" + run + "'"
  }

  /** A quote or a backslash, between double quotes. */
  function Mark(c: char): string {
    if c == '\'' then "\"'\"" else "\"\\\\\""
  }

  function Word(s: string): string {
    if Plain(s) then s else if s == "" then "''" else Quoted("", s)
  }

  lemma QuotedNext(out: string, run: string, s: string, i: nat)
    requires i < |s|
    ensures out + Quoted(run, s[i..])
         == if s[i] == '\'' || s[i] == '\\' then out + Flushed(run) + Mark(s[i]) + Quoted("", s[i + 1..])
            else out + Quoted(run + [s[i]], s[i + 1..])
  {
    assert s[i..][0] == s[i] && s[i..][1..] == s[i + 1..];
    ConcatAssociative(out, Flushed(run) + Mark(s[i]), Quoted("", s[i + 1..]));
    ConcatAssociative(out, Flushed(run), Mark(s[i]));
  }

  /** `shell_word` as written: one pass filling `out`, with the pending single-quoted `run`. */
  method ShellWord(s: string) returns (out: string)
    ensures out == Word(s)
  {
    if Plain(s) {
      return s;
    }
    if s == "" {
      return "''";
    }
    out := "";
    var run := "";
    for i := 0 to |s|
      invariant out + Quoted(run, s[i..]) == Quoted("", s)
    {
      var c := s[i];
      QuotedNext(out, run, s, i);
      if c == '\'' {
        out, run := out + Flushed(run) + "\"'\"", "";
      } else if c == '\\' {
        out, run := out + Flushed(run) + "\"\\\\\"", "";
      } else {
        run := run + [c];
      }
    }
    out := out + Flushed(run);
  }

  // ---------------------------------------------------------------------------------------------
  // The readers
  // ---------------------------------------------------------------------------------------------

  datatype Shell = Posix | Fish

  /** Where a lexer stands: between words, inside a bare word, inside quotes, or after a backslash
      in one of these. */
  datatype Mode = Gap | Bare | Single | Double | BareEscape | SingleEscape | DoubleEscape

  datatype Lex = Lex(mode: Mode, word: string, words: seq<string>) | Stuck

  predicate Blank(c: char) { c == ' ' || c == '\t' }

  /** Unquoted characters that are not literal: operators, expansions, globs, newline, `!` and
      braces. `~` is here because it is literal only in some positions. */
  predicate Interpreted(c: char) {
    c == '|' || c == '&' || c == ';' || c == '<' || c == '>' || c == '(' || c == ')'
    || c == '$' || c == '`' || c == '*' || c == '?' || c == '[' || c == ']' || c == '{'
    || c == '}' || c == '!' || c == '~' || c == '^' || c == '\n' || c == '\r'
  }

  /** Characters that are special only at the start of a word: a comment, zsh's `=command`, fish's
      `%self` and job references. */
  predicate SpecialAtStart(c: char) { c == '#' || c == '=' || c == '%' }

  /** One unquoted character, the word so far being `w`. */
  function BareStep(c: char, w: string, ws: seq<string>, start: bool): Lex {
    if Blank(c) then (if start then Lex(Gap, "", ws) else Lex(Gap, "", ws + [w]))
    else if c == '\'' then Lex(Single, w, ws)
    else if c == '"' then Lex(Double, w, ws)
    else if c == '\\' then Lex(BareEscape, w, ws)
    else if Interpreted(c) || (start && SpecialAtStart(c)) then Stuck
    else Lex(Bare, w + [c], ws)
  }

  function Step(shell: Shell, l: Lex, c: char): Lex {
    match l
    case Stuck => Stuck
    case Lex(mode, w, ws) =>
      match mode
      case Gap => BareStep(c, "", ws, true)
      case Bare => BareStep(c, w, ws, false)
      // Section 2.2.2: every character literal up to the next single quote; in fish a backslash
      // may escape.
      case Single =>
        if c == '\'' then Lex(Bare, w, ws)
        else if shell == Fish && c == '\\' then Lex(SingleEscape, w, ws)
        else Lex(Single, w + [c], ws)
      case SingleEscape =>
        if c == '\'' || c == '\\' then Lex(Single, w + [c], ws) else Lex(Single, w + ['\\', c], ws)
      // Section 2.2.3: `$` and the backquote expand (the backquote not in fish); a backslash
      // escapes only the characters special between double quotes.
      case Double =>
        if c == '"' then Lex(Bare, w, ws)
        else if c == '\\' then Lex(DoubleEscape, w, ws)
        else if c == '$' || (shell == Posix && c == '`') then Stuck
        else Lex(Double, w + [c], ws)
      case DoubleEscape =>
        if c == '\n' then Lex(Double, w, ws)
        else if c == '"' || c == '\\' || c == '$' || (shell == Posix && c == '`') then Lex(Double, w + [c], ws)
        else Lex(Double, w + ['\\', c], ws)
      // Section 2.2.1: the next character literal, a newline removed. fish gives escaped letters
      // and digits meanings of their own.
      case BareEscape =>
        if c == '\n' then Lex(Bare, w, ws)
        else if shell == Fish && Alphanumeric(c) then Stuck
        else Lex(Bare, w + [c], ws)
  }

  function Run(shell: Shell, l: Lex, text: string): Lex
    decreases |text|
  {
    if text == "" then l else Run(shell, Step(shell, l, text[0]), text[1..])
  }

  /** The words `text` is split into, or `None` when the shell would do anything but split it. */
  function Words(shell: Shell, text: string): Option<seq<string>> {
    Read(Run(shell, Lex(Gap, "", []), text))
  }

  /** The words read when the text ends here. */
  function Read(l: Lex): Option<seq<string>> {
    if l.Lex? && l.mode == Gap then Some(l.words)
    else if l.Lex? && l.mode == Bare then Some(l.words + [l.word])
    else None
  }

  // ---------------------------------------------------------------------------------------------
  // The round trip
  // ---------------------------------------------------------------------------------------------

  lemma {:induction false} RunConcat(shell: Shell, l: Lex, a: string, b: string)
    ensures Run(shell, l, a + b) == Run(shell, Run(shell, l, a), b)
    decreases |a|
  {
    if a == "" {
      assert a + b == b;
    } else {
      TailOfConcat(a, b);
      RunConcat(shell, Step(shell, l, a[0]), a[1..], b);
    }
  }

  lemma RunOne(shell: Shell, l: Lex, c: char)
    ensures Run(shell, l, [c]) == Step(shell, l, c)
  {
    assert [c][1..] == "";
  }

  lemma RunTwo(shell: Shell, l: Lex, a: char, b: char)
    ensures Run(shell, l, [a, b]) == Step(shell, Step(shell, l, a), b)
  {
    assert [a, b] == [a] + [b];
    RunConcat(shell, l, [a], [b]);
    RunOne(shell, l, a);
    RunOne(shell, Step(shell, l, a), b);
  }

  lemma RunThree(shell: Shell, l: Lex, a: char, b: char, c: char)
    ensures Run(shell, l, [a, b, c]) == Step(shell, Step(shell, Step(shell, l, a), b), c)
  {
    assert [a, b, c] == [a] + [b] + [c];
    RunConcat(shell, l, [a] + [b], [c]);
    RunConcat(shell, l, [a], [b]);
    RunOne(shell, l, a);
    RunOne(shell, Step(shell, l, a), b);
    RunOne(shell, Step(shell, Step(shell, l, a), b), c);
  }

  /** Plain characters extend a bare word literally. */
  lemma {:induction false} PlainRun(shell: Shell, w: string, ws: seq<string>, s: string)
    requires forall i :: 0 <= i < |s| ==> PlainChar(s[i])
    ensures Run(shell, Lex(Bare, w, ws), s) == Lex(Bare, w + s, ws)
    decreases |s|
  {
    if s == "" {
      assert w + s == w;
    } else {
      assert PlainChar(s[0]);
      PlainRun(shell, w + [s[0]], ws, s[1..]);
      assert w + [s[0]] + s[1..] == w + s;
    }
  }

  /** A run without a quote, and for fish without a backslash, is literal between single quotes. */
  lemma {:induction false} SingleRun(shell: Shell, w: string, ws: seq<string>, s: string)
    requires '\'' !in s && (shell == Fish ==> '\\' !in s)
    ensures Run(shell, Lex(Single, w, ws), s + "'") == Lex(Bare, w + s, ws)
    decreases |s|
  {
    if s == "" {
      assert s + "'" == "'" && w + s == w;
      assert Run(shell, Lex(Bare, w, ws), "'"[1..]) == Lex(Bare, w, ws);
    } else {
      assert (s + "'")[0] == s[0] && (s + "'")[1..] == s[1..] + "'";
      SingleRun(shell, w + [s[0]], ws, s[1..]);
      assert w + [s[0]] + s[1..] == w + s;
    }
  }

  /** A state in which a word may start or go on, and the word it holds. */
  predicate Open(l: Lex) {
    l.Lex? && (l.mode == Bare || (l.mode == Gap && l.word == ""))
  }

  function Extended(l: Lex, w: string): Lex
    requires Open(l)
  {
    if w == "" then l else Lex(Bare, l.word + w, l.words)
  }

  lemma FlushedRun(shell: Shell, l: Lex, run: string)
    requires Open(l) && '\'' !in run && '\\' !in run
    ensures Run(shell, l, Flushed(run)) == Extended(l, run)
  {
    if run != "" {
      assert Flushed(run) == ['\''] + (run + "'");
      RunConcat(shell, l, ['\''], run + "'");
      RunOne(shell, l, '\'');
      SingleRun(shell, l.word, l.words, run);
    }
  }

  lemma MarkRun(shell: Shell, l: Lex, c: char)
    requires Open(l) && (c == '\'' || c == '\\')
    ensures Run(shell, l, Mark(c)) == Lex(Bare, l.word + [c], l.words)
  {
    if c == '\'' {
      assert Mark(c) == ['"', '\'', '"'];
      RunThree(shell, l, '"', '\'', '"');
    } else {
      assert Mark(c) == ['"', '\\'] + ['\\', '"'];
      RunConcat(shell, l, ['"', '\\'], ['\\', '"']);
      RunTwo(shell, l, '"', '\\');
      RunTwo(shell, Lex(DoubleEscape, l.word, l.words), '\\', '"');
    }
  }

  /** Whatever is pending, the quoted text reads back as the pending run followed by the rest. */
  lemma {:induction false} QuotedRun(shell: Shell, l: Lex, run: string, rest: string)
    requires Open(l) && '\'' !in run && '\\' !in run
    ensures Run(shell, l, Quoted(run, rest)) == Extended(l, run + rest)
    decreases |rest|
  {
    if rest == "" {
      FlushedRun(shell, l, run);
      assert run + rest == run;
    } else if rest[0] == '\'' || rest[0] == '\\' {
      QuotedMark(shell, l, run, rest);
      QuotedRun(shell, Lex(Bare, l.word + run + [rest[0]], l.words), "", rest[1..]);
      ExtendedTwice(l, run, rest);
    } else {
      QuotedRun(shell, l, run + [rest[0]], rest[1..]);
      assert (run + [rest[0]]) + rest[1..] == run + rest;
    }
  }

  lemma ExtendedTwice(l: Lex, run: string, rest: string)
    requires Open(l) && rest != ""
    ensures Extended(Lex(Bare, l.word + run + [rest[0]], l.words), "" + rest[1..]) == Extended(l, run + rest)
  {
    assert "" + rest[1..] == rest[1..];
    assert l.word + run + [rest[0]] + rest[1..] == l.word + (run + rest);
    if rest[1..] == "" { assert l.word + run + [rest[0]] == l.word + (run + rest); }
  }

  lemma QuotedMark(shell: Shell, l: Lex, run: string, rest: string)
    requires Open(l) && '\'' !in run && '\\' !in run
    requires rest != "" && (rest[0] == '\'' || rest[0] == '\\')
    ensures Run(shell, l, Quoted(run, rest))
         == Run(shell, Lex(Bare, l.word + run + [rest[0]], l.words), Quoted("", rest[1..]))
  {
    assert Quoted(run, rest) == Flushed(run) + Mark(rest[0]) + Quoted("", rest[1..]);
    MarkedRun(shell, l, run, rest[0], Quoted("", rest[1..]));
  }

  lemma MarkedRun(shell: Shell, l: Lex, run: string, c: char, tail: string)
    requires Open(l) && '\'' !in run && '\\' !in run && (c == '\'' || c == '\\')
    ensures Run(shell, l, Flushed(run) + Mark(c) + tail)
         == Run(shell, Lex(Bare, l.word + run + [c], l.words), tail)
  {
    FlushedRun(shell, l, run);
    var mid := Extended(l, run);
    assert mid.word == l.word + run;
    MarkRun(shell, mid, c);
    RunConcat(shell, l, Flushed(run) + Mark(c), tail);
    RunConcat(shell, l, Flushed(run), Mark(c));
  }

  /** One quoted value is one literal piece of a word, alone or after a bare prefix. */
  lemma WordRun(shell: Shell, l: Lex, s: string)
    requires Open(l)
    ensures Run(shell, l, Word(s)) == Lex(Bare, l.word + s, l.words)
  {
    if Plain(s) {
      assert PlainChar(s[0]) && !SpecialAtStart(s[0]);
      PlainRun(shell, l.word + [s[0]], l.words, s[1..]);
      assert l.word + [s[0]] + s[1..] == l.word + s;
    } else if s == "" {
      assert Run(shell, Lex(Single, l.word, l.words), "''"[1..]) == Lex(Bare, l.word, l.words) by {
        assert "''"[1..] == "'" && "'"[1..] == "";
      }
      assert l.word + s == l.word;
    } else {
      QuotedRun(shell, l, "", s);
      assert "" + s == s;
    }
  }

  /** Words printed one after another, separated by one space. */
  function CommandLine(ws: seq<string>): string {
    if ws == [] then "" else if |ws| == 1 then Word(ws[0]) else Word(ws[0]) + " " + CommandLine(ws[1..])
  }

  lemma WordThenGap(shell: Shell, done: seq<string>, s: string)
    ensures Run(shell, Lex(Gap, "", done), Word(s) + " ") == Lex(Gap, "", done + [s])
  {
    WordRun(shell, Lex(Gap, "", done), s);
    assert "" + s == s;
    RunConcat(shell, Lex(Gap, "", done), Word(s), " ");
    assert " "[1..] == "";
  }

  lemma {:induction false} CommandLineRun(shell: Shell, done: seq<string>, ws: seq<string>)
    requires ws != []
    ensures Run(shell, Lex(Gap, "", done), CommandLine(ws))
         == Lex(Bare, ws[|ws| - 1], done + ws[..|ws| - 1])
    decreases |ws|
  {
    if |ws| == 1 {
      WordRun(shell, Lex(Gap, "", done), ws[0]);
      assert "" + ws[0] == ws[0];
      assert done + ws[..0] == done;
    } else {
      var tail := CommandLine(ws[1..]);
      RunConcat(shell, Lex(Gap, "", done), Word(ws[0]) + " ", tail);
      WordThenGap(shell, done, ws[0]);
      CommandLineRun(shell, done + [ws[0]], ws[1..]);
      assert done + [ws[0]] + ws[1..][..|ws| - 2] == done + ws[..|ws| - 1];
    }
  }

  /** Every list of values, quoted and joined by spaces, is read back as exactly that list. */
  lemma RoundTrip(shell: Shell, ws: seq<string>)
    ensures Words(shell, CommandLine(ws)) == Some(ws)
  {
    if ws != [] {
      CommandLineRun(shell, [], ws);
      assert [] + ws[..|ws| - 1] + [ws[|ws| - 1]] == ws;
    }
  }

  /** Hence no two lists of values print alike. */
  lemma CommandLineInjective(a: seq<string>, b: seq<string>)
    requires CommandLine(a) == CommandLine(b)
    ensures a == b
  {
    RoundTrip(Posix, a);
    RoundTrip(Posix, b);
  }

  // ---------------------------------------------------------------------------------------------
  // The commands an administrator is shown
  // ---------------------------------------------------------------------------------------------

  /** Each option glued to its quoted value, a space before it. */
  function Options(os: seq<(string, string)>): string {
    if os == [] then "" else " " + os[0].0 + Word(os[0].1) + Options(os[1..])
  }

  /** The words those options should come back as. */
  function Given(os: seq<(string, string)>): (ws: seq<string>) {
    seq(|os|, i requires 0 <= i < |os| => os[i].0 + os[i].1)
  }

  /** One unratified break-glass record, as far as its commands go. `at` is the recorded instant
      already rendered. */
  datatype BreakGlassAlert = BreakGlassAlert(subject: string, right: string, resource: string, at: string) {

    function RatifyCommand(): string {
      "cnm git ratify" + Options([("--subject=", subject), ("--right=", right),
                                  ("--resource=", resource), ("--break-glass-at=", at)])
    }

    function RevokeCommand(): string {
      "cnm git revoke" + Options([("--subject=", subject), ("--right=", right), ("--resource=", resource)])
    }
  }

  /** An option starts with `-` and is otherwise plain, so it needs no quoting of its own. */
  predicate OptionName(opt: string) {
    opt != "" && opt[0] == '-' && forall i :: 0 <= i < |opt| ==> PlainChar(opt[i])
  }

  lemma OptionRun(shell: Shell, done: seq<string>, last: string, opt: string, value: string)
    requires OptionName(opt)
    ensures Run(shell, Lex(Bare, last, done), " " + opt + Word(value))
         == Lex(Bare, opt + value, done + [last])
  {
    var l := Lex(Bare, last, done);
    RunConcat(shell, l, " " + opt, Word(value));
    RunConcat(shell, l, " ", opt);
    RunOne(shell, l, ' ');
    OptionNameRun(shell, done + [last], opt);
    WordRun(shell, Lex(Bare, opt, done + [last]), value);
  }

  lemma OptionNameRun(shell: Shell, done: seq<string>, opt: string)
    requires OptionName(opt)
    ensures Run(shell, Lex(Gap, "", done), opt) == Lex(Bare, opt, done)
  {
    var gap := Lex(Gap, "", done);
    assert opt == "-" + opt[1..];
    RunConcat(shell, gap, "-", opt[1..]);
    RunOne(shell, gap, '-');
    assert "" + "-" == "-";
    assert Step(shell, gap, '-') == Lex(Bare, "-", done);
    PlainRun(shell, "-", done, opt[1..]);
  }

  /** A bare word or an option after another word. */
  lemma NextWord(shell: Shell, done: seq<string>, last: string, w: string)
    requires OptionName(w) || Plain(w)
    ensures Run(shell, Lex(Bare, last, done), " " + w) == Lex(Bare, w, done + [last])
  {
    RunConcat(shell, Lex(Bare, last, done), " ", w);
    RunOne(shell, Lex(Bare, last, done), ' ');
    if OptionName(w) {
      OptionNameRun(shell, done + [last], w);
    } else {
      WordRun(shell, Lex(Gap, "", done + [last]), w);
      assert "" + w == w;
    }
  }

  /** Text between single quotes after another word. */
  lemma NextQuoted(shell: Shell, done: seq<string>, last: string, w: string)
    requires '\'' !in w && (shell == Fish ==> '\\' !in w)
    ensures Run(shell, Lex(Bare, last, done), " '" + (w + "'")) == Lex(Bare, w, done + [last])
  {
    var l := Lex(Bare, last, done);
    RunConcat(shell, l, " '", w + "'");
    RunTwo(shell, l, ' ', '\'');
    assert " '" == [' ', '\''];
    SingleRun(shell, "", done + [last], w);
    assert "" + w == w;
  }

  lemma OptionThen(shell: Shell, done: seq<string>, last: string, opt: string, value: string, rest: string)
    requires OptionName(opt)
    ensures Run(shell, Lex(Bare, last, done), " " + opt + Word(value) + rest)
         == Run(shell, Lex(Bare, opt + value, done + [last]), rest)
  {
    RunConcat(shell, Lex(Bare, last, done), " " + opt + Word(value), rest);
    OptionRun(shell, done, last, opt, value);
  }

  lemma {:induction false} OptionsRun(shell: Shell, done: seq<string>, last: string, os: seq<(string, string)>)
    requires forall o :: o in os ==> OptionName(o.0)
    ensures var l := Run(shell, Lex(Bare, last, done), Options(os));
            l.Lex? && l.mode == Bare && l.words + [l.word] == done + [last] + Given(os)
    decreases |os|
  {
    if os != [] {
      OptionThen(shell, done, last, os[0].0, os[0].1, Options(os[1..]));
      forall o | o in os[1..] ensures OptionName(o.0) { assert o in os; }
      OptionsRun(shell, done + [last], os[0].0 + os[0].1, os[1..]);
      GivenNext(done + [last], os);
    }
  }

  lemma GivenNext(done: seq<string>, os: seq<(string, string)>)
    requires os != []
    ensures done + [os[0].0 + os[0].1] + Given(os[1..]) == done + Given(os)
  {
    assert Given(os) == [os[0].0 + os[0].1] + Given(os[1..]);
  }

  lemma VerbRun(shell: Shell, verb: string)
    requires Plain(verb)
    ensures Run(shell, Lex(Gap, "", []), "cnm git " + verb) == Lex(Bare, verb, ["cnm", "git"])
  {
    var ws := ["cnm", "git", verb];
    CommandLineRun(shell, [], ws);
    VerbLine(verb);
    assert [] + ws[..2] == ["cnm", "git"];
  }

  lemma VerbLine(verb: string)
    requires Plain(verb)
    ensures CommandLine(["cnm", "git", verb]) == "cnm git " + verb
  {
    var ws := ["cnm", "git", verb];
    assert ws[1..] == ["git", verb] && ws[1..][1..] == [verb];
    assert Plain("cnm") && Plain("git");
    assert CommandLine([verb]) == verb && CommandLine(["git", verb]) == "git" + " " + verb;
    assert "cnm" + " " + ("git" + " " + verb) == "cnm git " + verb;
  }

  lemma CommandWords(shell: Shell, verb: string, os: seq<(string, string)>)
    requires Plain(verb) && forall o :: o in os ==> OptionName(o.0)
    ensures Words(shell, "cnm git " + verb + Options(os)) == Some(["cnm", "git", verb] + Given(os))
  {
    VerbRun(shell, verb);
    RunConcat(shell, Lex(Gap, "", []), "cnm git " + verb, Options(os));
    OptionsRun(shell, ["cnm", "git"], verb, os);
    assert ["cnm", "git"] + [verb] == ["cnm", "git", verb];
  }

  lemma OptionNames()
    ensures OptionName("--subject=") && OptionName("--right=")
    ensures OptionName("--resource=") && OptionName("--break-glass-at=")
    ensures Plain("ratify") && Plain("revoke")
  {
  }

  /** The ratify command is read by every shell as its exact argument list. */
  lemma RatifyWords(shell: Shell, g: BreakGlassAlert)
    ensures Words(shell, g.RatifyCommand())
         == Some(["cnm", "git", "ratify", "--subject=" + g.subject, "--right=" + g.right,
                  "--resource=" + g.resource, "--break-glass-at=" + g.at])
  {
    var os := [("--subject=", g.subject), ("--right=", g.right),
               ("--resource=", g.resource), ("--break-glass-at=", g.at)];
    OptionNames();
    CommandWords(shell, "ratify", os);
    assert "cnm git " + "ratify" == "cnm git ratify";
    assert g.RatifyCommand() == "cnm git ratify" + Options(os);
    assert ["cnm", "git", "ratify"] + Given(os)
        == ["cnm", "git", "ratify", "--subject=" + g.subject, "--right=" + g.right,
            "--resource=" + g.resource, "--break-glass-at=" + g.at];
  }

  /** And so is the revoke command. */
  lemma RevokeWords(shell: Shell, g: BreakGlassAlert)
    ensures Words(shell, g.RevokeCommand())
         == Some(["cnm", "git", "revoke", "--subject=" + g.subject, "--right=" + g.right,
                  "--resource=" + g.resource])
  {
    var os := [("--subject=", g.subject), ("--right=", g.right), ("--resource=", g.resource)];
    OptionNames();
    CommandWords(shell, "revoke", os);
    assert "cnm git " + "revoke" == "cnm git revoke";
    assert g.RevokeCommand() == "cnm git revoke" + Options(os);
    assert ["cnm", "git", "revoke"] + Given(os)
        == ["cnm", "git", "revoke", "--subject=" + g.subject, "--right=" + g.right,
            "--resource=" + g.resource];
  }

  // ---------------------------------------------------------------------------------------------
  // Why POSIX's own quoting is not enough
  // ---------------------------------------------------------------------------------------------

  /** What is left to write inside single quotes, POSIX's way: each quote as `'\''`. */
  function PosixRest(s: string): string {
    if s == "" then "'"
    else if s[0] == '\'' then ['\'', '\\', '\'', '\''] + PosixRest(s[1..])
    else [s[0]] + PosixRest(s[1..])
  }

  function PosixQuoted(s: string): string { ['\''] + PosixRest(s) }

  /** No backslash is followed by a backslash, by a quote, or by nothing. */
  predicate FishSafe(s: string) {
    forall i :: 0 <= i < |s| && s[i] == '\\' ==> i + 1 < |s| && s[i + 1] != '\\' && s[i + 1] != '\''
  }

  lemma RunCons(shell: Shell, l: Lex, c: char, rest: string)
    ensures Run(shell, l, [c] + rest) == Run(shell, Step(shell, l, c), rest)
  {
    assert ([c] + rest)[1..] == rest;
  }

  /** A quote written POSIX's way is read back in both shells. */
  lemma QuoteRun(shell: Shell, w: string, rest: string)
    ensures Run(shell, Lex(Single, w, []), ['\'', '\\', '\'', '\''] + rest)
         == Run(shell, Lex(Single, w + ['\''], []), rest)
  {
    assert ['\'', '\\', '\'', '\''] + rest == ['\''] + (['\\'] + (['\''] + (['\''] + rest)));
    RunCons(shell, Lex(Single, w, []), '\'', ['\\'] + (['\''] + (['\''] + rest)));
    RunCons(shell, Lex(Bare, w, []), '\\', ['\''] + (['\''] + rest));
    RunCons(shell, Lex(BareEscape, w, []), '\'', ['\''] + rest);
    RunCons(shell, Lex(Bare, w + ['\''], []), '\'', rest);
  }

  /** A character fish does not read specially inside single quotes, or any in POSIX. */
  lemma CharRun(shell: Shell, w: string, c: char, rest: string)
    requires c != '\'' && (shell == Fish ==> c != '\\')
    ensures Run(shell, Lex(Single, w, []), [c] + rest) == Run(shell, Lex(Single, w + [c], []), rest)
  {
    RunCons(shell, Lex(Single, w, []), c, rest);
  }

  /** In fish, a backslash and the character after it. */
  lemma EscapeRun(w: string, c: char, rest: string)
    ensures Run(Fish, Lex(Single, w, []), ['\\'] + ([c] + rest))
         == Run(Fish, Lex(Single, w + (if c == '\'' || c == '\\' then [c] else ['\\', c]), []), rest)
  {
    RunCons(Fish, Lex(Single, w, []), '\\', [c] + rest);
    RunCons(Fish, Lex(SingleEscape, w, []), c, rest);
  }

  lemma PairRest(s: string)
    requires |s| > 1 && s[0] == '\\' && s[1] != '\''
    ensures PosixRest(s) == ['\\'] + ([s[1]] + PosixRest(s[2..]))
  {
    assert s[1..][0] == s[1] && s[1..][1..] == s[2..];
  }

  lemma {:induction false} PosixReads(w: string, s: string)
    ensures Run(Posix, Lex(Single, w, []), PosixRest(s)) == Lex(Bare, w + s, [])
    decreases |s|
  {
    if s == "" {
      RunOne(Posix, Lex(Single, w, []), '\'');
      assert w + s == w;
    } else {
      if s[0] == '\'' { QuoteRun(Posix, w, PosixRest(s[1..])); } else { CharRun(Posix, w, s[0], PosixRest(s[1..])); }
      PosixReads(w + [s[0]], s[1..]);
      assert w + [s[0]] + s[1..] == w + s;
    }
  }

  lemma {:induction false} FishReads(w: string, s: string)
    requires FishSafe(s)
    ensures Run(Fish, Lex(Single, w, []), PosixRest(s)) == Lex(Bare, w + s, [])
    decreases |s|
  {
    if s == "" {
      RunOne(Fish, Lex(Single, w, []), '\'');
      assert w + s == w;
    } else if s[0] == '\\' {
      var rest := s[2..];
      PairRest(s);
      EscapeRun(w, s[1], PosixRest(rest));
      assert forall i :: 0 <= i < |rest| ==> rest[i] == s[i + 2];
      FishReads(w + ['\\', s[1]], rest);
      assert w + ['\\', s[1]] + rest == w + s;
    } else {
      if s[0] == '\'' { QuoteRun(Fish, w, PosixRest(s[1..])); } else { CharRun(Fish, w, s[0], PosixRest(s[1..])); }
      assert forall i :: 0 <= i < |s[1..]| ==> s[1..][i] == s[i + 1];
      FishReads(w + [s[0]], s[1..]);
      assert w + [s[0]] + s[1..] == w + s;
    }
  }

  /** The first word starts with `w`, whatever follows. */
  predicate StartsWith(l: Lex, w: string) {
    l.Lex? ==> if l.words == [] then l.mode != Gap && w <= l.word else w <= l.words[0]
  }

  lemma {:induction false} KeepsStart(shell: Shell, l: Lex, text: string, w: string)
    requires StartsWith(l, w)
    ensures StartsWith(Run(shell, l, text), w)
    decreases |text|
  {
    if text != "" { KeepsStart(shell, Step(shell, l, text[0]), text[1..], w); }
  }

  /** The text does not come back as the one word `s`. */
  predicate Misread(l: Lex, s: string) { Read(l) != Some([s]) }

  lemma Diverges(w: string, rest: string, s: string)
    requires !(w <= s)
    ensures Misread(Run(Fish, Lex(Single, w, []), rest), s)
  {
    KeepsStart(Fish, Lex(Single, w, []), rest, w);
    var l := Run(Fish, Lex(Single, w, []), rest);
    assert Read(l).Some? ==> Read(l).value != [] && w <= Read(l).value[0];
  }

  /** Once a pair of backslashes was read as one, what is read lags behind, and never catches up. */
  lemma {:induction false} NeverCatchesUp(s: string, p: nat, q: nat)
    requires p < q <= |s| && forall i :: p <= i < q ==> s[i] == '\\'
    ensures Misread(Run(Fish, Lex(Single, s[..p], []), PosixRest(s[q..])), s)
    decreases |s| - q
  {
    var w, left := s[..p], s[q..];
    if q == |s| {
      RunOne(Fish, Lex(Single, w, []), '\'');
      assert [w] != [s] by { assert [w][0] != [s][0]; }
      assert [] + [w] == [w];
    } else if s[q] == '\'' {
      QuoteRun(Fish, w, PosixRest(left[1..]));
      Behind(s, p, '\'');
      Diverges(w + ['\''], PosixRest(left[1..]), s);
    } else if s[q] != '\\' {
      CharRun(Fish, w, s[q], PosixRest(left[1..]));
      Behind(s, p, s[q]);
      Diverges(w + [s[q]], PosixRest(left[1..]), s);
    } else if q + 1 < |s| && s[q + 1] == '\\' {
      assert left[2..] == s[q + 2..];
      PairRest(left);
      EscapeRun(w, '\\', PosixRest(s[q + 2..]));
      assert w + ['\\'] == s[..p + 1];
      NeverCatchesUp(s, p + 1, q + 2);
    } else {
      MisreadEscape(s, p, q);
    }
  }

  lemma Behind(s: string, p: nat, c: char)
    requires p < |s| && s[p] != c
    ensures !(s[..p] + [c] <= s)
  {
    assert (s[..p] + [c])[p] == c;
  }

  /** A backslash that no backslash follows, read at `p` or behind it. */
  lemma MisreadEscape(s: string, p: nat, q: nat)
    requires p <= q < |s| && s[p] == s[q] == '\\'
    requires q + 1 < |s| ==> s[q + 1] != '\\'
    requires (p < q && s[p + 1] == '\\') || q + 1 == |s| || s[q + 1] == '\''
    ensures Misread(Run(Fish, Lex(Single, s[..p], []), PosixRest(s[q..])), s)
  {
    var w, left := s[..p], s[q..];
    if q + 1 == |s| || s[q + 1] == '\'' {
      var rest := if q + 1 == |s| then "" else ['\\', '\'', '\''] + PosixRest(left[1..][1..]);
      assert PosixRest(left) == ['\\'] + PosixRest(left[1..]);
      assert PosixRest(left[1..]) == ['\''] + rest;
      EscapeRun(w, '\'', rest);
      Behind(s, p, '\'');
      Diverges(w + ['\''], rest, s);
    } else {
      var c, rest := s[q + 1], PosixRest(left[2..]);
      PairRest(left);
      EscapeRun(w, c, rest);
      assert w + ['\\', c] == s[..p + 1] + [c];
      Behind(s, p + 1, c);
      Diverges(w + ['\\', c], rest, s);
    }
  }

  /** A backslash fish reads specially, the first of them. */
  lemma {:induction false} FishMisreads(s: string, i: nat)
    requires i <= |s| && !FishSafe(s[i..])
    ensures Misread(Run(Fish, Lex(Single, s[..i], []), PosixRest(s[i..])), s)
    decreases |s| - i
  {
    var w, left := s[..i], s[i..];
    assert left != "";
    if s[i] == '\\' && i + 1 < |s| && s[i + 1] == '\\' {
      assert left[2..] == s[i + 2..];
      PairRest(left);
      EscapeRun(w, '\\', PosixRest(s[i + 2..]));
      assert w + ['\\'] == s[..i + 1];
      NeverCatchesUp(s, i + 1, i + 2);
    } else if s[i] == '\\' && (i + 1 == |s| || s[i + 1] == '\'') {
      MisreadEscape(s, i, i);
    } else if s[i] == '\\' {
      assert left[2..] == s[i + 2..];
      PairRest(left);
      EscapeRun(w, s[i + 1], PosixRest(s[i + 2..]));
      assert w + ['\\', s[i + 1]] == s[..i + 2];
      StillUnsafe(s, i, i + 2);
      FishMisreads(s, i + 2);
    } else {
      assert left[1..] == s[i + 1..] && left[0] == s[i];
      if s[i] == '\'' {
        QuoteRun(Fish, w, PosixRest(s[i + 1..]));
      } else {
        CharRun(Fish, w, s[i], PosixRest(s[i + 1..]));
      }
      assert w + [s[i]] == s[..i + 1];
      StillUnsafe(s, i, i + 1);
      FishMisreads(s, i + 1);
    }
  }

  /** What fish reads specially lies further on. */
  lemma StillUnsafe(s: string, i: nat, k: nat)
    requires i < k <= |s| && !FishSafe(s[i..])
    requires forall j :: i <= j < k && s[j] == '\\' ==> j + 1 < |s| && s[j + 1] != '\\' && s[j + 1] != '\''
    ensures !FishSafe(s[k..])
  {
    var left := s[i..];
    var j :| 0 <= j < |left| && left[j] == '\\' && !(j + 1 < |left| && left[j + 1] != '\\' && left[j + 1] != '\'');
    assert s[i + j] == '\\' && s[k..][i + j - k] == '\\';
  }

  /** POSIX's own quoting is read back by POSIX shells always, and by fish exactly when no backslash of
      the value is followed by a backslash, by a quote, or by nothing: fish reads `\\` and `\'` as
      escapes inside single quotes. */
  lemma PosixQuotingInFishIff(s: string)
    ensures Words(Posix, PosixQuoted(s)) == Some([s])
    ensures Words(Fish, PosixQuoted(s)) == Some([s]) <==> FishSafe(s)
  {
    var gap := Lex(Gap, "", []);
    RunCons(Posix, gap, '\'', PosixRest(s));
    RunCons(Fish, gap, '\'', PosixRest(s));
    PosixReads("", s);
    assert "" + s == s && [] + [s] == [s];
    if FishSafe(s) {
      FishReads("", s);
    } else {
      assert s[0..] == s && s[..0] == "";
      FishMisreads(s, 0);
    }
  }

  /** The shortest value it fails for: a backslash alone, whose closing quote fish takes as escaped. */
  lemma PosixQuotingFailsInFish()
    ensures PosixQuoted("\\") == ['\'', '\\', '\'']
    ensures Words(Posix, ['\'', '\\', '\'']) == Some(["\\"])
    ensures Words(Fish, ['\'', '\\', '\'']) == None
  {
    assert PosixRest("") == "'" && "\\"[1..] == "";
    PosixQuotingInFishIff("\\");
    RunThree(Fish, Lex(Gap, "", []), '\'', '\\', '\'');
  }
}
