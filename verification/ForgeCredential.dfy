/** The forge account a checkout uses, kept in its own git config, as
openvtc-core/src/forge_credential.rs writes and rewrites it. The config is a map from key to the
values in file order; git's `--add`, `--unset-all` and `--get` are the only ways it changes or is
read. */
module ForgeCredential {
  import opened Common
  import ShellWords

  datatype Result<+T> = Ok(value: T) | Err(why: string)

  /** The keys openvtc writes, and every other key by name. */
  datatype Key =
    | SshCommand
    | Helper(host: string)
    | Username(host: string)
    | UserName
    | UserEmail
    | AuthorMarker
    | Marker
    | Other(name: string)

  /** A value as written: plain text, the `ssh` command line offering one key and no other, or the
      helper asking gh for one account's token. */
  datatype Value = Plain(text: string) | SshWith(path: string) | GhHelper(host: string, login: string)

  type Config = map<Key, seq<Value>>

  datatype Credential = GitDefault | SshKey(path: string) | GhAccount(login: string, keepAuthor: bool)

  datatype Author = Author(name: string, email: string)

  // ---------------------------------------------------------------------------------------------
  // What may be written
  // ---------------------------------------------------------------------------------------------

  predicate Control(c: char) { c < ' ' || '\U{7f}' <= c <= '\U{9f}' }

  predicate Alphanumeric(c: char) { 'a' <= c <= 'z' || 'A' <= c <= 'Z' || '0' <= c <= '9' }

  predicate ValidLogin(login: string) {
    && 0 < |login| <= 39
    && login[0] != '-' && login[|login| - 1] != '-'
    && (forall i :: 0 <= i < |login| - 1 ==> !(login[i] == '-' && login[i + 1] == '-'))
    && (forall i :: 0 <= i < |login| ==> Alphanumeric(login[i]) || login[i] == '-')
  }

  predicate KeyPathText(path: string) {
    path != "" && path[0] == '/'
    && forall i :: 0 <= i < |path| ==> path[i] != '\'' && path[i] != '"' && !Control(path[i])
  }

  predicate AuthorField(s: string) { s != "" && forall i :: 0 <= i < |s| ==> !Control(s[i]) }

  predicate LetterOrDigit(c: char) { 48 <= c as int <= 57 || 65 <= c as int <= 90 || 97 <= c as int <= 122 }

  /** No control character, of either range. */
  predicate Printable(c: char) { 32 <= c as int <= 126 || 160 <= c as int }

  /** A letter or digit, or a hyphen between two of them. */
  predicate LoginCharAt(s: string, i: int) {
    0 <= i < |s| && (LetterOrDigit(s[i]) || (s[i] == '-' && 0 < i < |s| - 1
                                             && LetterOrDigit(s[i - 1]) && LetterOrDigit(s[i + 1])))
  }

  predicate Hyphenated(s: string) { forall i :: 0 <= i < |s| ==> LoginCharAt(s, i) }

  lemma LoginIff(login: string)
    ensures ValidLogin(login) <==> 1 <= |login| <= 39 && Hyphenated(login)
  {
    assert forall c: char :: Alphanumeric(c) <==> LetterOrDigit(c);
    if ValidLogin(login) {
      forall i | 0 <= i < |login| ensures LoginCharAt(login, i) {
        assert Alphanumeric(login[i]) || login[i] == '-';
        if 0 < i < |login| - 1 {
          assert !(login[i - 1] == '-' && login[i - 1 + 1] == '-') && !(login[i] == '-' && login[i + 1] == '-');
        }
      }
    } else if 1 <= |login| <= 39 && Hyphenated(login) {
      assert LoginCharAt(login, 0) && LoginCharAt(login, |login| - 1);
      forall i | 0 <= i < |login| - 1 ensures !(login[i] == '-' && login[i + 1] == '-') {
        assert LoginCharAt(login, i);
      }
      forall i | 0 <= i < |login| ensures Alphanumeric(login[i]) || login[i] == '-' { assert LoginCharAt(login, i); }
    }
  }

  /** A choice is refused exactly for a key path that is not absolute or could break out of its quotes, a
      login that is none, or an author's name or address that is empty or holds a control character. */
  lemma AcceptedIff(c: Credential, host: string, author: Option<Author>)
    ensures LocalSettings(c, host, author).Ok? <==> (
      && (c.SshKey? ==>
            "/" <= c.path && '\'' !in c.path && '"' !in c.path && forall ch :: ch in c.path ==> Printable(ch))
      && (c.GhAccount? ==> 1 <= |c.login| <= 39 && Hyphenated(c.login))
      && (author.Some? && !c.GitDefault? ==>
            && author.value.name != "" && (forall ch :: ch in author.value.name ==> Printable(ch))
            && author.value.email != "" && (forall ch :: ch in author.value.email ==> Printable(ch))))
  {
    if c.GhAccount? { LoginIff(c.login); }
    if c.SshKey? { KeyPathIff(c.path); }
    if author.Some? {
      AuthorFieldIff(author.value.name);
      AuthorFieldIff(author.value.email);
    }
  }

  lemma KeyPathIff(path: string)
    ensures KeyPathText(path)
       <==> "/" <= path && '\'' !in path && '"' !in path && forall ch :: ch in path ==> Printable(ch)
  {
    assert forall ch: char :: Control(ch) <==> !Printable(ch);
    assert forall i :: 0 <= i < |path| ==> path[i] in path;
  }

  lemma AuthorFieldIff(s: string)
    ensures AuthorField(s) <==> s != "" && forall ch :: ch in s ==> Printable(ch)
  {
    assert forall ch: char :: Control(ch) <==> !Printable(ch);
    assert forall i :: 0 <= i < |s| ==> s[i] in s;
  }

  /** Tells ssh to offer no key but the one named. */
  const NO_OTHER_KEY: string := "IdentitiesOnly=yes"

  /** `core.sshCommand` as it is written to the config. */
  function SshCommandLine(path: string): string { "ssh -i '" + path + "' -o " + NO_OTHER_KEY }

  /** A shell reads an accepted key path's command as ssh with that path for the key, whatever else the path
      holds, and no other key. */
  lemma SshCommandWords(path: string)
    requires KeyPathText(path)
    ensures ShellWords.Words(ShellWords.Posix, SshCommandLine(path)) == Some(["ssh", "-i", path, "-o", NO_OTHER_KEY])
  {
    var sh, start := ShellWords.Posix, ShellWords.Lex(ShellWords.Gap, "", []);
    var quoted, tail := " '" + (path + "'"), " -o" + (" " + NO_OTHER_KEY);
    SshPieces(path, NO_OTHER_KEY);
    SshHead();
    ShellWords.RunConcat(sh, start, "ssh" + " -i", quoted + tail);
    ShellWords.RunConcat(sh, ShellWords.Lex(ShellWords.Bare, "-i", ["ssh"]), quoted, tail);
    ShellWords.NextQuoted(sh, ["ssh"], "-i", path);
    NoOtherKeyIsPlain();
    SshTail(["ssh"] + ["-i"], path, NO_OTHER_KEY);
    assert ["ssh"] + ["-i"] + [path] + ["-o"] + [NO_OTHER_KEY] == ["ssh", "-i", path, "-o", NO_OTHER_KEY];
  }

  lemma SshPieces(path: string, option: string)
    ensures "ssh -i '" + path + "' -o " + option == "ssh" + " -i" + (" '" + (path + "'") + (" -o" + (" " + option)))
  {
    assert "ssh -i '" == "ssh" + " -i" + " '";
    assert "' -o " == "'" + " -o" + " ";
    var tail := " -o" + (" " + option);
    assert "' -o " + option == "'" + tail;
    ConcatAssociative("ssh -i '" + path, "' -o ", option);
    ConcatAssociative("ssh" + " -i", " '", path);
    ConcatAssociative("ssh" + " -i", " '" + path, "'" + tail);
    ConcatAssociative(" '" + path, "'", tail);
    ConcatAssociative(" '", path, "'");
  }

  lemma SshHead()
    ensures ShellWords.Run(ShellWords.Posix, ShellWords.Lex(ShellWords.Gap, "", []), "ssh" + " -i")
         == ShellWords.Lex(ShellWords.Bare, "-i", ["ssh"])
  {
    var sh, start := ShellWords.Posix, ShellWords.Lex(ShellWords.Gap, "", []);
    ShellWords.RunConcat(sh, start, "ssh", " -i");
    ShellWords.WordRun(sh, start, "ssh");
    assert ShellWords.Plain("ssh") && "" + "ssh" == "ssh";
    ShellWords.NextWord(sh, [], "ssh", "-i");
    assert " " + "-i" == " -i" && [] + ["ssh"] == ["ssh"];
  }

  lemma SshTail(done: seq<string>, last: string, option: string)
    requires ShellWords.Plain(option)
    ensures ShellWords.Run(ShellWords.Posix, ShellWords.Lex(ShellWords.Bare, last, done), " -o" + (" " + option))
         == ShellWords.Lex(ShellWords.Bare, option, done + [last] + ["-o"])
  {
    var sh, l := ShellWords.Posix, ShellWords.Lex(ShellWords.Bare, last, done);
    ShellWords.RunConcat(sh, l, " -o", " " + option);
    ShellWords.NextWord(sh, done, last, "-o");
    assert " " + "-o" == " -o";
    ShellWords.NextWord(sh, done + [last], "-o", option);
  }

  lemma NoOtherKeyIsPlain()
    ensures ShellWords.Plain(NO_OTHER_KEY)
  {
  }

  /** Nothing in a login is special to a shell: written as a word it stands for itself. */
  lemma LoginIsAWord(login: string)
    requires ValidLogin(login)
    ensures ShellWords.Word(login) == login
    ensures ShellWords.Words(ShellWords.Posix, login) == Some([login])
  {
    assert ShellWords.Plain(login);
    ShellWords.RoundTrip(ShellWords.Posix, [login]);
  }

  /** The value of the marker; `None` for the git default. */
  function MarkerText(c: Credential): Option<string> {
    match c
    case GitDefault => None
    case SshKey(path) => Some("ssh:" + path)
    case GhAccount(login, _) => Some("gh:" + login)
  }

  function FromMarker(text: string): Option<Credential> {
    if "ssh:" <= text then (if |text| > 4 then Some(SshKey(text[4..])) else None)
    else if "gh:" <= text && ValidLogin(text[3..]) then Some(GhAccount(text[3..], false))
    else None
  }

  /** The settings a checkout gets, in the order they are added. */
  function LocalSettings(c: Credential, host: string, author: Option<Author>): Result<seq<(Key, Value)>> {
    if c.GitDefault? then Ok([])
    else if c.SshKey? && !KeyPathText(c.path) then Err("not a key path")
    else if c.GhAccount? && !ValidLogin(c.login) then Err("not a forge login")
    else if author.Some? && !(AuthorField(author.value.name) && AuthorField(author.value.email)) then
      Err("the commit author has an empty or control-character field.")
    else Ok(AccountSettings(c, host) + AuthorSettings(author) + [(Marker, Plain(MarkerText(c).value))])
  }

  function AccountSettings(c: Credential, host: string): seq<(Key, Value)>
    requires !c.GitDefault?
  {
    if c.SshKey? then [(SshCommand, SshWith(c.path))]
    else [(Helper(host), Plain("")), (Helper(host), GhHelper(host, c.login)), (Username(host), Plain(c.login))]
  }

  function AuthorSettings(author: Option<Author>): seq<(Key, Value)> {
    match author
    case None => []
    case Some(a) => [(UserName, Plain(a.name)), (UserEmail, Plain(a.email)), (AuthorMarker, Plain("true"))]
  }

  // ---------------------------------------------------------------------------------------------
  // Reading the marker back
  // ---------------------------------------------------------------------------------------------

  predicate Whitespace(c: char) {
    c == ' ' || '\t' <= c <= '\r' || c == '\U{85}' || c == '\U{a0}' || c == '\U{1680}'
    || '\U{2000}' <= c <= '\U{200a}' || c == '\U{2028}' || c == '\U{2029}' || c == '\U{202f}'
    || c == '\U{205f}' || c == '\U{3000}'
  }

  function TrimEnd(s: string): string {
    if s != "" && Whitespace(s[|s| - 1]) then TrimEnd(s[..|s| - 1]) else s
  }

  function TrimStart(s: string): string {
    if s != "" && Whitespace(s[0]) then TrimStart(s[1..]) else s
  }

  /** `git config --get`: the last value. */
  function Get(config: Config, key: Key): Option<Value> {
    if key in config && config[key] != [] then Some(config[key][|config[key]| - 1]) else None
  }

  /** The credential the checkout says it uses. `answers` is whether git answered at all. */
  function AppliedIn(config: Config, answers: bool): Option<Credential> {
    var found := Get(config, Marker);
    if !answers || found.None? || !found.value.Plain? then None
    else FromMarker(TrimStart(TrimEnd(found.value.text + "\n")))
  }

  /** Reading a marker is the inverse of writing it, on what is a path or a login at all. */
  lemma FromMarkerIff(text: string, c: Credential)
    ensures FromMarker(text) == Some(c) <==> (
      && MarkerText(c) == Some(text) && (c.SshKey? ==> c.path != "")
      && (c.GhAccount? ==> ValidLogin(c.login) && !c.keepAuthor))
  {
    if c.SshKey? {
      assert text == "ssh:" + c.path ==> text[4..] == c.path;
      assert "ssh:" <= text ==> text == "ssh:" + text[4..];
    } else if c.GhAccount? {
      assert text == "gh:" + c.login ==> text[0] == 'g' && text[3..] == c.login;
      assert "gh:" <= text ==> text == "gh:" + text[3..];
    }
  }

  lemma {:induction false} TrimEndKeeps(s: string, i: nat)
    requires i < |s| && !Whitespace(s[i])
    ensures i < |TrimEnd(s)| && TrimEnd(s) <= s
    ensures i == |s| - 1 ==> TrimEnd(s) == s
  {
    if Whitespace(s[|s| - 1]) { TrimEndKeeps(s[..|s| - 1], i); }
  }

  lemma TrimEndNewline(s: string)
    ensures TrimEnd(s + "\n") == TrimEnd(s)
  {
    assert (s + "\n")[..|s|] == s;
  }

  /** Read back, a marker gives the same kind of choice, and the same account unless a key path ends
      in white space, which trimming takes off. */
  lemma MarkerReadsBack(c: Credential, host: string, author: Option<Author>)
    requires LocalSettings(c, host, author).Ok? && !c.GitDefault?
    ensures var back := FromMarker(TrimStart(TrimEnd(MarkerText(c).value + "\n")));
      && back.Some? && (c.SshKey? <==> back.value.SshKey?) && (c.GhAccount? <==> back.value.GhAccount?)
      && (c.GhAccount? ==> back.value.login == c.login)
      && (c.SshKey? ==> (back.value == c <==> !Whitespace(c.path[|c.path| - 1])))
  {
    if c.SshKey? { KeyMarkerReadsBack(c.path); } else { LoginMarkerReadsBack(c.login); }
  }

  lemma KeyMarkerReadsBack(path: string)
    requires KeyPathText(path)
    ensures var back := FromMarker(TrimStart(TrimEnd("ssh:" + path + "\n")));
      && back.Some? && back.value.SshKey?
      && (back.value == SshKey(path) <==> !Whitespace(path[|path| - 1]))
  {
    var text := "ssh:" + path;
    TrimEndNewline(text);
    var trimmed := TrimEnd(text);
    TrimmedPath(text, path);
    assert trimmed[0] == 's' && "ssh:" <= trimmed && |trimmed| > 4;
    assert trimmed[4..] == path <==> trimmed == text;
  }

  lemma TrimmedPath(text: string, path: string)
    requires KeyPathText(path) && text == "ssh:" + path
    ensures "ssh:" <= TrimEnd(text) <= text && |TrimEnd(text)| > 4
    ensures TrimEnd(text) == text <==> !Whitespace(path[|path| - 1])
  {
    assert text[4] == '/' && text[|text| - 1] == path[|path| - 1];
    TrimEndKeeps(text, 4);
    if !Whitespace(path[|path| - 1]) {
      TrimEndKeeps(text, |text| - 1);
    } else {
      TrimEndKeeps(text[..|text| - 1], 4);
    }
  }

  lemma LoginMarkerReadsBack(login: string)
    requires ValidLogin(login)
    ensures FromMarker(TrimStart(TrimEnd("gh:" + login + "\n"))) == Some(GhAccount(login, false))
  {
    var text := "gh:" + login;
    TrimEndNewline(text);
    assert text[|text| - 1] == login[|login| - 1] && text[3..] == login;
    TrimEndKeeps(text, |text| - 1);
    assert text[0] == 'g';
  }

  // ---------------------------------------------------------------------------------------------
  // Applying a choice
  // ---------------------------------------------------------------------------------------------

  function Add(config: Config, key: Key, value: Value): Config {
    config[key := (if key in config then config[key] else []) + [value]]
  }

  function AddAll(config: Config, settings: seq<(Key, Value)>): Config
    decreases |settings|
  {
    if settings == [] then config else AddAll(Add(config, settings[0].0, settings[0].1), settings[1..])
  }

  function Values(config: Config, k: Key): seq<Value> { if k in config then config[k] else [] }

  function AddedKeys(settings: seq<(Key, Value)>): set<Key> {
    if settings == [] then {} else {settings[0].0} + AddedKeys(settings[1..])
  }

  /** The keys a previous choice is undone by: those its marker says openvtc wrote. */
  function PreviousKeys(previous: Option<Credential>, host: string): seq<Key> {
    if previous.None? then []
    else match previous.value
      case GitDefault => []
      case SshKey(_) => [SshCommand]
      case GhAccount(_, _) => [Helper(host), Username(host)]
  }

  /** Every key unset, in order, before the new settings are added. */
  function Unsets(config: Config, host: string, c: Credential, markerAnswers: bool, authorAnswers: bool): seq<Key> {
    PreviousKeys(AppliedIn(config, markerAnswers), host)
    + (if authorAnswers && Get(config, AuthorMarker).Some? then [UserName, UserEmail, AuthorMarker] else [])
    + [Marker]
    + (if c.SshKey? then [SshCommand] else [])
  }

  function Keys(ks: seq<Key>): set<Key> { set k | k in ks }

  function Applied(config: Config, host: string, c: Credential, settings: seq<(Key, Value)>,
                   markerAnswers: bool, authorAnswers: bool): Config {
    AddAll(config - Keys(Unsets(config, host, c, markerAnswers, authorAnswers)), settings)
  }

  predicate Managed(host: string, k: Key) {
    k == SshCommand || k == Helper(host) || k == Username(host) || k == UserName || k == UserEmail
    || k == AuthorMarker || k == Marker
  }

  /** The config when git makes only the first `budget` changes: keys unset, then settings added. */
  function Stopped(config: Config, host: string, c: Credential, settings: seq<(Key, Value)>,
                   markerAnswers: bool, authorAnswers: bool, budget: nat): Config {
    var unsets := Unsets(config, host, c, markerAnswers, authorAnswers);
    if budget < |unsets| then config - Keys(unsets[..budget])
    else AddAll(config - Keys(unsets), FirstOf(settings, budget - |unsets|))
  }

  function FirstOf<T>(s: seq<T>, n: nat): seq<T> { if n < |s| then s[..n] else s }

  /** Unset in two goes. */
  lemma UnsetTwice(config: Config, first: seq<Key>, second: seq<Key>, budget: nat)
    ensures config - Keys(FirstOf(first + second, budget))
         == if budget < |first| then config - Keys(FirstOf(first, budget))
            else config - Keys(first) - Keys(FirstOf(second, budget - |first|))
  {
    if budget < |first| {
      assert FirstOf(first + second, budget) == FirstOf(first, budget);
    } else {
      var more := FirstOf(second, budget - |first|);
      assert FirstOf(first + second, budget) == first + more;
      assert Keys(first + more) == Keys(first) + Keys(more);
    }
  }

  lemma UnsetsManaged(config: Config, host: string, c: Credential, markerAnswers: bool, authorAnswers: bool, n: nat)
    ensures forall k :: k in FirstOf(Unsets(config, host, c, markerAnswers, authorAnswers), n) ==> Managed(host, k)
  {
  }

  /** The author's keys, the marker and, for a key, the ssh command: what is unset after the account's. */
  function RestOfUnsets(config: Config, c: Credential, authorAnswers: bool): seq<Key> {
    (if authorAnswers && Get(config, AuthorMarker).Some? then [UserName, UserEmail, AuthorMarker] else [])
    + [Marker] + (if c.SshKey? then [SshCommand] else [])
  }

  lemma UnsetsInTwo(config: Config, host: string, c: Credential, markerAnswers: bool, authorAnswers: bool)
    ensures Unsets(config, host, c, markerAnswers, authorAnswers)
         == PreviousKeys(AppliedIn(config, markerAnswers), host) + RestOfUnsets(config, c, authorAnswers)
  {
  }

  /** Unsetting the account's keys leaves the author's marker to be read. */
  lemma RestUntouched(config: Config, host: string, c: Credential, markerAnswers: bool, authorAnswers: bool, n: nat)
    ensures var previous := PreviousKeys(AppliedIn(config, markerAnswers), host);
      RestOfUnsets(config - Keys(FirstOf(previous, n)), c, authorAnswers) == RestOfUnsets(config, c, authorAnswers)
  {
  }

  class Checkout {
    var config: Config

    constructor (config: Config)
      ensures this.config == config
    {
      this.config := config;
    }

    /** `apply_to_checkout` as written. `markerAnswers` and `authorAnswers` say whether git answered
        the two read-backs, and `budget` how many changes git makes before it refuses one. */
    method Apply(host: string, c: Credential, author: Option<Author>,
                 markerAnswers: bool, authorAnswers: bool, budget: nat) returns (r: Result<()>)
      modifies this
      ensures r.Ok? ==> (
        LocalSettings(c, host, author).Ok?
        && config == Applied(old(config), host, c, LocalSettings(c, host, author).value, markerAnswers, authorAnswers))
      ensures LocalSettings(c, host, author).Err? ==> r.Err? && config == old(config)
      ensures LocalSettings(c, host, author).Ok? ==>
        config == Stopped(old(config), host, c, LocalSettings(c, host, author).value,
                          markerAnswers, authorAnswers, budget)
      ensures forall k :: !Managed(host, k) ==> Values(config, k) == Values(old(config), k)
      ensures forall k: Key :: k.Other? || ((k.Helper? || k.Username?) && k.host != host) ==>
        Values(config, k) == Values(old(config), k)
    {
      var settings := LocalSettings(c, host, author);
      if settings.Err? {
        return Err(settings.why);
      }
      var ok, left := Undo(host, c, markerAnswers, authorAnswers, budget);
      if !ok { return Err("git could not remove a key"); }
      ghost var undone := config;
      ok := AddEach(settings.value, left);
      AddedManaged(undone, host, Choice(c, author), left);
      if !ok { return Err("git could not set a key"); }
      r := Ok(());
    }

    /** Undo the previous choice: only what its marker says openvtc wrote, and for a key whatever
        `core.sshCommand` there is. */
    method Undo(host: string, c: Credential, markerAnswers: bool, authorAnswers: bool, budget: nat)
      returns (ok: bool, left: nat)
      modifies this
      ensures var unsets := Unsets(old(config), host, c, markerAnswers, authorAnswers);
        && ok == (budget >= |unsets|) && (ok ==> left == budget - |unsets|)
        && config == old(config) - Keys(FirstOf(unsets, budget))
      ensures forall k :: !Managed(host, k) ==> Values(config, k) == Values(old(config), k)
    {
      ghost var start := config;
      var previous := PreviousKeys(AppliedIn(config, markerAnswers), host);
      ok, left := UnsetEach(previous, budget);
      var rest := RestOfUnsets(config, c, authorAnswers);
      RestUntouched(start, host, c, markerAnswers, authorAnswers, budget);
      UnsetsInTwo(start, host, c, markerAnswers, authorAnswers);
      UnsetTwice(start, previous, rest, budget);
      UnsetsManaged(start, host, c, markerAnswers, authorAnswers, budget);
      if !ok { return; }
      ok, left := UnsetEach(rest, left);
    }

    /** `--unset-all` for each key; a key that is not there is nothing to undo. */
    method UnsetEach(keys: seq<Key>, budget: nat) returns (ok: bool, left: nat)
      modifies this
      ensures ok == (budget >= |keys|) && (ok ==> left == budget - |keys|)
      ensures config == old(config) - Keys(FirstOf(keys, budget))
    {
      left := budget;
      for i := 0 to |keys|
        invariant config == old(config) - Keys(keys[..i]) && left == budget - i
      {
        if left == 0 { return false, 0; }
        config := config - {keys[i]};
        left := left - 1;
        assert keys[..i + 1] == keys[..i] + [keys[i]];
        assert Keys(keys[..i + 1]) == Keys(keys[..i]) + {keys[i]};
      }
      assert keys[..|keys|] == keys;
      ok := true;
    }

    /** `--add` for each setting, in order. */
    method AddEach(settings: seq<(Key, Value)>, budget: nat) returns (ok: bool)
      modifies this
      ensures ok == (budget >= |settings|)
      ensures config == AddAll(old(config), FirstOf(settings, budget))
    {
      var left := budget;
      ghost var all := FirstOf(settings, budget);
      for i := 0 to |settings|
        invariant left == budget - i && i <= |all|
        invariant AddAll(config, all[i..]) == AddAll(old(config), all)
      {
        if left == 0 {
          assert all[i..] == [];
          return false;
        }
        assert all[i..][0] == settings[i] && all[i..][1..] == all[i + 1..];
        config := Add(config, settings[i].0, settings[i].1);
        left := left - 1;
      }
      assert all[|settings|..] == [];
      ok := true;
    }
  }

  /** Settings added as far as git goes touch only managed keys. */
  lemma AddedManaged(config: Config, host: string, ch: Choice, n: nat)
    requires Admissible(host, ch)
    ensures var some := FirstOf(Settings(host, ch), n);
      forall k :: !Managed(host, k) ==> Values(AddAll(config, some), k) == Values(config, k)
  {
    var settings := Settings(host, ch);
    var some := FirstOf(settings, n);
    forall k | !Managed(host, k) ensures Values(AddAll(config, some), k) == Values(config, k) {
      AddAllValues(config, some, k);
      WrittenKeys(host, ch);
      if k in AddedKeys(some) { FirstAdded(settings, n, k); }
      AddedToNonEmpty(some, k);
    }
  }

  lemma {:induction false} FirstAdded(settings: seq<(Key, Value)>, n: nat, k: Key)
    requires k in AddedKeys(FirstOf(settings, n))
    ensures k in AddedKeys(settings)
    decreases |settings|
  {
    var some := FirstOf(settings, n);
    if some[0].0 != k {
      assert some[1..] == FirstOf(settings[1..], if n < |settings| then n - 1 else n);
      FirstAdded(settings[1..], if n < |settings| then n - 1 else n, k);
    }
  }

  // ---------------------------------------------------------------------------------------------
  // Any sequence of choices
  // ---------------------------------------------------------------------------------------------

  datatype Choice = Choice(credential: Credential, author: Option<Author>)

  predicate Admissible(host: string, ch: Choice) { LocalSettings(ch.credential, host, ch.author).Ok? }

  function Settings(host: string, ch: Choice): seq<(Key, Value)>
    requires Admissible(host, ch)
  {
    LocalSettings(ch.credential, host, ch.author).value
  }

  function AccountKeySet(c: Credential, host: string): set<Key> {
    match c
    case GitDefault => {}
    case SshKey(_) => {SshCommand}
    case GhAccount(_, _) => {Helper(host), Username(host)}
  }

  function AuthorKeySet(author: Option<Author>): set<Key> {
    if author.Some? then {UserName, UserEmail, AuthorMarker} else {}
  }

  /** The keys a choice writes: its account's, the author's when given, the marker. */
  function Written(host: string, ch: Choice): set<Key> {
    if ch.credential.GitDefault? then {} else AccountKeySet(ch.credential, host) + AuthorKeySet(ch.author) + {Marker}
  }

  predicate AllAdmissible(host: string, run: seq<Choice>) {
    forall ch :: ch in run ==> Admissible(host, ch)
  }

  /** The config after applying the choices one after another, git answering and refusing nothing. */
  function Rerun(base: Config, host: string, run: seq<Choice>): Config
    requires AllAdmissible(host, run)
  {
    if run == [] then base
    else
      var last := run[|run| - 1];
      Applied(Rerun(base, host, run[..|run| - 1]), host, last.credential, Settings(host, last), true, true)
  }

  /** The keys written by any choice of the run. */
  function WrittenByRun(host: string, run: seq<Choice>): set<Key> {
    if run == [] then {} else WrittenByRun(host, run[..|run| - 1]) + Written(host, run[|run| - 1])
  }

  /** The keys of the base config the run has removed: all that an earlier choice wrote, and
      `core.sshCommand` when the last choice is a key. */
  function Cleared(host: string, run: seq<Choice>): set<Key>
    requires run != []
  {
    WrittenByRun(host, run[..|run| - 1]) + (if run[|run| - 1].credential.SshKey? then {SshCommand} else {})
  }

  predicate Unmarked(config: Config) { Marker !in config && AuthorMarker !in config }

  /** Adding appends, key by key. */
  lemma {:induction false} AddAllValues(config: Config, settings: seq<(Key, Value)>, k: Key)
    ensures Values(AddAll(config, settings), k) == Values(config, k) + AddedTo(settings, k)
    ensures k in AddAll(config, settings) <==> k in config || k in AddedKeys(settings)
    decreases |settings|
  {
    if settings != [] {
      AddAllValues(Add(config, settings[0].0, settings[0].1), settings[1..], k);
    }
  }

  function AddedTo(settings: seq<(Key, Value)>, k: Key): seq<Value> {
    if settings == [] then []
    else (if settings[0].0 == k then [settings[0].1] else []) + AddedTo(settings[1..], k)
  }

  lemma {:induction false} AddedToConcat(a: seq<(Key, Value)>, b: seq<(Key, Value)>, k: Key)
    ensures AddedTo(a + b, k) == AddedTo(a, k) + AddedTo(b, k)
    ensures AddedKeys(a + b) == AddedKeys(a) + AddedKeys(b)
  {
    if a == [] {
      assert a + b == b;
    } else {
      TailOfConcat(a, b);
      AddedToConcat(a[1..], b, k);
      ConcatAssociative(if a[0].0 == k then [a[0].1] else [], AddedTo(a[1..], k), AddedTo(b, k));
    }
  }

  lemma {:induction false} AddedToNonEmpty(settings: seq<(Key, Value)>, k: Key)
    ensures AddedTo(settings, k) != [] <==> k in AddedKeys(settings)
  {
    if settings != [] { AddedToNonEmpty(settings[1..], k); }
  }

  /** Removing at least the keys that were added leaves what removing them from the start leaves. */
  lemma AddThenRemove(config: Config, settings: seq<(Key, Value)>, gone: set<Key>)
    requires AddedKeys(settings) <= gone
    ensures AddAll(config, settings) - gone == config - gone
  {
    var after := AddAll(config, settings);
    forall k | k !in gone ensures k in after <==> k in config
      ensures k in config ==> after[k] == config[k]
    {
      AddAllValues(config, settings, k);
      AddedToNonEmpty(settings, k);
    }
  }

  lemma WrittenKeys(host: string, ch: Choice)
    requires Admissible(host, ch)
    ensures AddedKeys(Settings(host, ch)) == Written(host, ch)
    ensures !ch.credential.GitDefault?
      ==> AddedTo(Settings(host, ch), Marker) == [Plain(MarkerText(ch.credential).value)]
  {
    if !ch.credential.GitDefault? {
      var account := AccountSettings(ch.credential, host);
      var author := AuthorSettings(ch.author);
      var marker := [(Marker, Plain(MarkerText(ch.credential).value))];
      AddedToConcat(account + author, marker, Marker);
      AddedToConcat(account, author, Marker);
      AccountKeys(ch.credential, host);
      AuthorKeys(ch.author);
      assert marker[1..] == [];
    }
  }

  lemma AccountKeys(c: Credential, host: string)
    requires !c.GitDefault?
    ensures AddedKeys(AccountSettings(c, host)) == AccountKeySet(c, host)
    ensures AddedTo(AccountSettings(c, host), Marker) == []
  {
    var account := AccountSettings(c, host);
    AddedToNonEmpty(account, Marker);
    if c.SshKey? {
      assert account[1..] == [];
    } else {
      assert account[1..][1..] == [account[2]] && account[1..][1..][1..] == [];
      assert AddedKeys(account[1..][1..]) == {Username(host)};
      assert AddedKeys(account[1..]) == {Helper(host), Username(host)};
    }
  }

  lemma AuthorKeys(author: Option<Author>)
    ensures AddedKeys(AuthorSettings(author)) == AuthorKeySet(author)
    ensures AddedTo(AuthorSettings(author), Marker) == []
  {
    var settings := AuthorSettings(author);
    AddedToNonEmpty(settings, Marker);
    if author.Some? {
      assert settings[1..][1..] == [settings[2]] && settings[1..][1..][1..] == [];
      assert AddedKeys(settings[1..][1..]) == {AuthorMarker};
      assert AddedKeys(settings[1..]) == {UserEmail, AuthorMarker};
    }
  }

  /** What the next choice finds: the marker says which account's keys to undo, and the author's
      marker is there exactly when an author was written. */
  lemma ReadBack(base: Config, host: string, ch: Choice)
    requires Unmarked(base) && Admissible(host, ch)
    ensures var config := AddAll(base, Settings(host, ch));
      && Keys(PreviousKeys(AppliedIn(config, true), host)) == AccountKeySet(ch.credential, host)
      && (Get(config, AuthorMarker).Some? <==> AuthorMarker in Written(host, ch))
  {
    WrittenKeys(host, ch);
    AddAllValues(base, Settings(host, ch), AuthorMarker);
    AddedToNonEmpty(Settings(host, ch), AuthorMarker);
    MarkerFound(base, host, ch);
    if !ch.credential.GitDefault? { MarkerReadsBack(ch.credential, host, ch.author); }
  }

  lemma MarkerFound(base: Config, host: string, ch: Choice)
    requires Unmarked(base) && Admissible(host, ch)
    ensures var found := Get(AddAll(base, Settings(host, ch)), Marker);
      found == if ch.credential.GitDefault? then None else Some(Plain(MarkerText(ch.credential).value))
  {
    WrittenKeys(host, ch);
    AddAllValues(base, Settings(host, ch), Marker);
    if !ch.credential.GitDefault? {
      assert Values(AddAll(base, Settings(host, ch)), Marker) == [Plain(MarkerText(ch.credential).value)];
    }
  }

  /** Applying a choice on top of another one undoes exactly what the other wrote. */
  lemma ApplyOver(base: Config, host: string, previous: Choice, next: Choice)
    requires Unmarked(base) && Admissible(host, previous) && Admissible(host, next)
    ensures var ssh := if next.credential.SshKey? then {SshCommand} else {};
      Applied(AddAll(base, Settings(host, previous)), host, next.credential, Settings(host, next), true, true)
      == AddAll(base - (Written(host, previous) + ssh), Settings(host, next))
  {
    var config := AddAll(base, Settings(host, previous));
    var ssh := if next.credential.SshKey? then {SshCommand} else {};
    ReadBack(base, host, previous);
    WrittenKeys(host, previous);
    var gone := Keys(Unsets(config, host, next.credential, true, true));
    UnsetKeys(config, host, next.credential, true, true);
    GoneKeys(host, previous, gone, ssh);
    AddThenRemove(base, Settings(host, previous), gone);
    RemoveAbsent(base, Written(host, previous) + ssh, Marker);
  }

  lemma GoneKeys(host: string, previous: Choice, gone: set<Key>, ssh: set<Key>)
    requires gone == AccountKeySet(previous.credential, host)
                   + (if AuthorMarker in Written(host, previous) then {UserName, UserEmail, AuthorMarker} else {})
                   + {Marker} + ssh
    ensures gone == Written(host, previous) + ssh + {Marker} && Written(host, previous) <= gone
  {
  }

  lemma RemoveAbsent(config: Config, keys: set<Key>, absent: Key)
    requires absent !in config
    ensures config - (keys + {absent}) == config - keys
  {
  }

  lemma RemoveTwice(config: Config, first: set<Key>, second: set<Key>)
    ensures config - first - second == config - (first + second)
  {
  }

  lemma UnsetKeys(config: Config, host: string, c: Credential, markerAnswers: bool, authorAnswers: bool)
    ensures Keys(Unsets(config, host, c, markerAnswers, authorAnswers))
      == Keys(PreviousKeys(AppliedIn(config, markerAnswers), host))
       + (if authorAnswers && Get(config, AuthorMarker).Some? then {UserName, UserEmail, AuthorMarker} else {})
       + {Marker} + (if c.SshKey? then {SshCommand} else {})
  {
  }

  /** Any run of choices on a config openvtc has not marked: what remains of the base is what no
      earlier choice wrote, and on top of it stand the settings of the last choice alone. */
  lemma {:induction false} HistoryFormula(base: Config, host: string, run: seq<Choice>)
    requires Unmarked(base) && AllAdmissible(host, run) && run != []
    ensures Rerun(base, host, run) == AddAll(base - Cleared(host, run), Settings(host, run[|run| - 1]))
  {
    if |run| == 1 {
      FirstChoice(base, host, run);
    } else {
      HistoryFormula(base, host, run[..|run| - 1]);
      LaterChoice(base, host, run);
    }
  }

  lemma FirstChoice(base: Config, host: string, run: seq<Choice>)
    requires Unmarked(base) && AllAdmissible(host, run) && |run| == 1
    ensures Rerun(base, host, run) == AddAll(base - Cleared(host, run), Settings(host, run[0]))
  {
    // An unmarked config is one the git default left.
    var none := Choice(GitDefault, None);
    ApplyOver(base, host, none, run[0]);
    assert run[..0] == [] && Written(host, none) == {} && Settings(host, none) == [];
    assert Rerun(base, host, run[..0]) == base;
    assert {} + Cleared(host, run) == Cleared(host, run);
  }

  lemma LaterChoice(base: Config, host: string, run: seq<Choice>)
    requires Unmarked(base) && AllAdmissible(host, run) && |run| > 1
    requires Rerun(base, host, run[..|run| - 1])
          == AddAll(base - Cleared(host, run[..|run| - 1]), Settings(host, run[|run| - 2]))
    ensures Rerun(base, host, run) == AddAll(base - Cleared(host, run), Settings(host, run[|run| - 1]))
  {
    var before, previous, last := run[..|run| - 1], run[|run| - 2], run[|run| - 1];
    var ssh := if last.credential.SshKey? then {SshCommand} else {};
    var left := base - Cleared(host, before);
    ApplyOver(left, host, previous, last);
    ClearedStep(host, run);
    RemoveTwice(base, Cleared(host, before), Written(host, previous) + ssh);
    assert Cleared(host, before) + (Written(host, previous) + ssh) == Cleared(host, run);
  }

  lemma ClearedStep(host: string, run: seq<Choice>)
    requires |run| > 1
    ensures var before, previous := run[..|run| - 1], run[|run| - 2];
      Cleared(host, run) == Cleared(host, before) + Written(host, previous)
                          + (if run[|run| - 1].credential.SshKey? then {SshCommand} else {})
  {
    var before := run[..|run| - 1];
    assert before[|before| - 1] == run[|run| - 2];
    assert WrittenByRun(host, before) == WrittenByRun(host, before[..|before| - 1]) + Written(host, run[|run| - 2]);
  }

  /** `k` is among the keys the run wrote exactly when some choice of it wrote `k`. */
  lemma {:induction false} WrittenByRunIff(host: string, run: seq<Choice>, k: Key)
    ensures k in WrittenByRun(host, run) <==> exists ch :: ch in run && k in Written(host, ch)
  {
    if run != [] {
      var before, last := run[..|run| - 1], run[|run| - 1];
      assert run == before + [last];
      WrittenByRunIff(host, before, k);
    }
  }

  /** Every other setting, and another host's helper and account, is left alone by every run, whatever the
      config holds. */
  lemma {:induction false} OthersUntouched(base: Config, host: string, run: seq<Choice>, k: Key)
    requires AllAdmissible(host, run)
    requires k.Other? || ((k.Helper? || k.Username?) && k.host != host)
    ensures Values(Rerun(base, host, run), k) == Values(base, k)
  {
    if run != [] {
      var before, last := run[..|run| - 1], run[|run| - 1];
      OthersUntouched(base, host, before, k);
      OtherUntouched(Rerun(base, host, before), host, last, k);
    }
  }

  lemma OtherUntouched(config: Config, host: string, ch: Choice, k: Key)
    requires Admissible(host, ch) && !Managed(host, k)
    ensures Values(Applied(config, host, ch.credential, Settings(host, ch), true, true), k) == Values(config, k)
  {
    var unsets := Unsets(config, host, ch.credential, true, true);
    UnsetsManaged(config, host, ch.credential, true, true, |unsets|);
    assert k !in Keys(unsets);
    WrittenKeys(host, ch);
    AddAllValues(config - Keys(unsets), Settings(host, ch), k);
    AddedToNonEmpty(Settings(host, ch), k);
  }

  /** What a choice adds under each key. */
  lemma AddedUnder(host: string, ch: Choice, k: Key)
    requires Admissible(host, ch) && !ch.credential.GitDefault?
    ensures AddedTo(Settings(host, ch), k)
         == AddedTo(AccountSettings(ch.credential, host), k) + AddedTo(AuthorSettings(ch.author), k)
            + (if k == Marker then [Plain(MarkerText(ch.credential).value)] else [])
  {
    var marker := [(Marker, Plain(MarkerText(ch.credential).value))];
    var account, author := AccountSettings(ch.credential, host), AuthorSettings(ch.author);
    AddedToConcat(account + author, marker, k);
    AddedToConcat(account, author, k);
    assert marker[1..] == [] && AddedTo(marker[1..], k) == [];
  }

  lemma AccountAdds(c: Credential, host: string, k: Key)
    requires !c.GitDefault?
    ensures AddedTo(AccountSettings(c, host), k)
         == match c
            case SshKey(path) => if k == SshCommand then [SshWith(path)] else []
            case GhAccount(login, _) =>
              if k == Helper(host) then [Plain(""), GhHelper(host, login)]
              else if k == Username(host) then [Plain(login)] else []
  {
    var account := AccountSettings(c, host);
    if c.SshKey? {
      assert account[1..] == [];
    } else {
      assert account[1..] == [account[1], account[2]] && account[1..][1..] == [account[2]];
      assert account[1..][1..][1..] == [];
      assert AddedTo(account[1..][1..], k) == if k == Username(host) then [Plain(c.login)] else [];
    }
  }

  lemma AuthorAdds(author: Option<Author>, k: Key)
    ensures AddedTo(AuthorSettings(author), k)
         == if author.None? then []
            else if k == UserName then [Plain(author.value.name)]
            else if k == UserEmail then [Plain(author.value.email)]
            else if k == AuthorMarker then [Plain("true")] else []
  {
    var settings := AuthorSettings(author);
    if author.Some? {
      assert settings[1..] == [settings[1], settings[2]] && settings[1..][1..] == [settings[2]];
      assert settings[1..][1..][1..] == [];
      assert AddedTo(settings[1..][1..], k) == if k == AuthorMarker then [Plain("true")] else [];
    }
  }

  /** git reaches the forge as `c` says: with one key and no other, or with the account's own helper after an
      empty one that resets what the machine's config lists; and the marker names the choice. */
  predicate UsesAccount(config: Config, host: string, c: Credential) {
    match c
    case GitDefault => Marker !in config
    case SshKey(path) =>
      Values(config, SshCommand) == [SshWith(path)] && Get(config, Marker) == Some(Plain("ssh:" + path))
    case GhAccount(login, _) =>
      && Get(config, Username(host)) == Some(Plain(login)) && Get(config, Marker) == Some(Plain("gh:" + login))
      && var helpers := Values(config, Helper(host));
         |helpers| >= 2 && helpers[|helpers| - 2..] == [Plain(""), GhHelper(host, login)]
  }

  /** Commits are authored as the choice says; without an author nothing says that openvtc set one. */
  predicate UsesAuthor(config: Config, ch: Choice) {
    if ch.credential.GitDefault? || ch.author.None? then AuthorMarker !in config
    else
      && Get(config, UserName) == Some(Plain(ch.author.value.name))
      && Get(config, UserEmail) == Some(Plain(ch.author.value.email))
      && Get(config, AuthorMarker) == Some(Plain("true"))
  }

  lemma LastGot(config: Config, settings: seq<(Key, Value)>, k: Key)
    ensures var added := AddedTo(settings, k);
      added != [] ==> Get(AddAll(config, settings), k) == Some(added[|added| - 1])
    ensures k !in config && AddedTo(settings, k) == [] ==> k !in AddAll(config, settings)
  {
    AddAllValues(config, settings, k);
    AddedToNonEmpty(settings, k);
  }

  /** After any run of choices git uses the last one's account, and its author. */
  lemma LastChoiceUsed(base: Config, host: string, run: seq<Choice>)
    requires Unmarked(base) && AllAdmissible(host, run) && run != []
    ensures var end, last := Rerun(base, host, run), run[|run| - 1];
      UsesAccount(end, host, last.credential) && UsesAuthor(end, last)
  {
    var last := run[|run| - 1];
    var left := base - Cleared(host, run);
    HistoryFormula(base, host, run);
    assert last in run;
    if last.credential.GitDefault? {
      assert Settings(host, last) == [];
    } else {
      AccountUsed(left, host, last);
      AuthorUsed(left, host, last);
    }
  }

  lemma AccountUsed(left: Config, host: string, ch: Choice)
    requires Unmarked(left) && Admissible(host, ch) && !ch.credential.GitDefault?
    requires ch.credential.SshKey? ==> SshCommand !in left
    ensures UsesAccount(AddAll(left, Settings(host, ch)), host, ch.credential)
  {
    var settings := Settings(host, ch);
    var k := if ch.credential.SshKey? then SshCommand else Helper(host);
    AddedBy(host, ch, Marker);
    AddedBy(host, ch, k);
    AccountAdds(ch.credential, host, k);
    LastGot(left, settings, Marker);
    AddAllValues(left, settings, k);
    if ch.credential.GhAccount? {
      AddedBy(host, ch, Username(host));
      AccountAdds(ch.credential, host, Username(host));
      LastGot(left, settings, Username(host));
    }
  }

  lemma AuthorUsed(left: Config, host: string, ch: Choice)
    requires Unmarked(left) && Admissible(host, ch) && !ch.credential.GitDefault?
    ensures UsesAuthor(AddAll(left, Settings(host, ch)), ch)
  {
    var settings := Settings(host, ch);
    AddedBy(host, ch, UserName);
    AddedBy(host, ch, UserEmail);
    AddedBy(host, ch, AuthorMarker);
    LastGot(left, settings, UserName);
    LastGot(left, settings, UserEmail);
    LastGot(left, settings, AuthorMarker);
  }

  lemma AddedBy(host: string, ch: Choice, k: Key)
    requires Admissible(host, ch) && !ch.credential.GitDefault?
    ensures AddedTo(Settings(host, ch), k)
         == match k
            case Marker => [Plain(MarkerText(ch.credential).value)]
            case UserName => if ch.author.None? then [] else [Plain(ch.author.value.name)]
            case UserEmail => if ch.author.None? then [] else [Plain(ch.author.value.email)]
            case AuthorMarker => if ch.author.None? then [] else [Plain("true")]
            case _ => AddedTo(AccountSettings(ch.credential, host), k)
  {
    AddedUnder(host, ch, k);
    AccountAdds(ch.credential, host, k);
    AuthorAdds(ch.author, k);
  }

  /** With none of the managed keys set beforehand, the history does not matter at all. */
  lemma HistoryIndependent(base: Config, host: string, run: seq<Choice>)
    requires AllAdmissible(host, run) && run != []
    requires forall k :: k in base ==> !Managed(host, k)
    ensures Rerun(base, host, run) == AddAll(base, Settings(host, run[|run| - 1]))
  {
    HistoryFormula(base, host, run);
    forall k | k in Cleared(host, run) ensures k !in base {
      ClearedManaged(host, run, k);
    }
    RemoveNone(base, Cleared(host, run));
  }

  lemma RemoveNone(config: Config, keys: set<Key>)
    requires forall k :: k in keys ==> k !in config
    ensures config - keys == config
  {
  }

  lemma ClearedManaged(host: string, run: seq<Choice>, k: Key)
    requires run != [] && k in Cleared(host, run)
    ensures Managed(host, k)
  {
    WrittenByRunIff(host, run[..|run| - 1], k);
  }

  /** A member's own `core.sshCommand` survives every run that never chooses an SSH key. */
  lemma OwnSshCommandSurvives(base: Config, host: string, run: seq<Choice>)
    requires Unmarked(base) && AllAdmissible(host, run) && run != []
    requires forall ch :: ch in run ==> !ch.credential.SshKey?
    ensures SshCommand in Rerun(base, host, run) <==> SshCommand in base
    ensures Values(Rerun(base, host, run), SshCommand) == Values(base, SshCommand)
  {
    HistoryFormula(base, host, run);
    var last := run[|run| - 1];
    NoSshWritten(host, run);
    WrittenKeys(host, last);
    AddAllValues(base - Cleared(host, run), Settings(host, last), SshCommand);
    AddedToNonEmpty(Settings(host, last), SshCommand);
  }

  lemma NoSshWritten(host: string, run: seq<Choice>)
    requires run != [] && forall ch :: ch in run ==> !ch.credential.SshKey?
    ensures SshCommand !in Cleared(host, run) && SshCommand !in Written(host, run[|run| - 1])
  {
    assert run[|run| - 1] in run;
    WrittenByRunIff(host, run[..|run| - 1], SshCommand);
  }

  /** Going back to the git default gives a member's setting back exactly when no choice of the run
      wrote its key. */
  lemma OwnSettingSurvivesIff(base: Config, host: string, run: seq<Choice>, k: Key)
    requires Unmarked(base) && AllAdmissible(host, run) && run != []
    requires run[|run| - 1].credential.GitDefault? && k in base
    ensures (k in Rerun(base, host, run) && Rerun(base, host, run)[k] == base[k])
       <==> !exists ch :: ch in run && k in Written(host, ch)
  {
    HistoryFormula(base, host, run);
    assert Settings(host, run[|run| - 1]) == [];
    WrittenBeforeDefault(host, run, k);
  }

  lemma WrittenBeforeDefault(host: string, run: seq<Choice>, k: Key)
    requires run != [] && run[|run| - 1].credential.GitDefault?
    ensures k in Cleared(host, run) <==> exists ch :: ch in run && k in Written(host, ch)
  {
    var before, last := run[..|run| - 1], run[|run| - 1];
    WrittenByRunIff(host, before, k);
    assert run == before + [last];
    assert Written(host, last) == {};
  }

  /** So a member's own `user.name` does not survive a choice that set an author. */
  lemma OwnUserNameLost(base: Config, host: string, login: string, a: Author)
    requires Unmarked(base) && UserName in base && ValidLogin(login)
    requires AuthorField(a.name) && AuthorField(a.email)
    ensures var run := [Choice(GhAccount(login, false), Some(a)), Choice(GitDefault, None)];
      AllAdmissible(host, run)
      && !(UserName in Rerun(base, host, run) && Rerun(base, host, run)[UserName] == base[UserName])
  {
    var first := Choice(GhAccount(login, false), Some(a));
    var run := [first, Choice(GitDefault, None)];
    assert Admissible(host, first) && Admissible(host, run[1]);
    OwnSettingSurvivesIff(base, host, run, UserName);
    assert first in run && UserName in Written(host, first);
  }

  /** When git leaves a read-back unanswered and yet makes every change, the outcome is the right one
      exactly when the marker was answered, there was nothing to undo for the account, or one key
      replaces another; and the author's was answered, or no author was written. */
  lemma UnansweredReadBack(base: Config, host: string, previous: Choice, next: Choice, marker: bool, author: bool)
    requires Unmarked(base) && Admissible(host, previous) && Admissible(host, next)
    ensures var config := AddAll(base, Settings(host, previous));
      Applied(config, host, next.credential, Settings(host, next), marker, author)
        == Applied(config, host, next.credential, Settings(host, next), true, true)
      <==> AccountUndone(previous.credential, next.credential, marker) && AuthorUndone(previous, author)
  {
    var config := AddAll(base, Settings(host, previous));
    var ssh := next.credential.SshKey?;
    var blind, seeing := Undone(host, previous, ssh, marker, author), Undone(host, previous, ssh, true, true);
    UndoneKeys(base, host, previous, next.credential, marker, author);
    UndoneKeys(base, host, previous, next.credential, true, true);
    if !(AccountUndone(previous.credential, next.credential, marker) && AuthorUndone(previous, author)) {
      var stale := StaleKey(host, previous, next.credential, marker, author);
      StaleHeld(base, host, previous, stale);
      StaleValues(config, blind, seeing, Settings(host, next), stale);
    } else {
      NothingStale(host, previous, next.credential, marker, author);
    }
  }

  /** A key that is left because a read-back was not answered. */
  lemma StaleKey(host: string, previous: Choice, next: Credential, marker: bool, author: bool) returns (stale: Key)
    requires !(AccountUndone(previous.credential, next, marker) && AuthorUndone(previous, author))
    ensures stale in Written(host, previous) && stale in Undone(host, previous, next.SshKey?, true, true)
    ensures stale !in Undone(host, previous, next.SshKey?, marker, author)
  {
    if AccountUndone(previous.credential, next, marker) { return UserName; }
    stale := if previous.credential.SshKey? then SshCommand else Helper(host);
  }

  lemma NothingStale(host: string, previous: Choice, next: Credential, marker: bool, author: bool)
    requires AccountUndone(previous.credential, next, marker) && AuthorUndone(previous, author)
    ensures Undone(host, previous, next.SshKey?, marker, author) == Undone(host, previous, next.SshKey?, true, true)
  {
  }

  lemma StaleHeld(base: Config, host: string, previous: Choice, stale: Key)
    requires Admissible(host, previous) && stale in Written(host, previous)
    ensures Values(AddAll(base, Settings(host, previous)), stale) != []
  {
    WrittenKeys(host, previous);
    AddAllValues(base, Settings(host, previous), stale);
    AddedToNonEmpty(Settings(host, previous), stale);
  }

  predicate AccountUndone(previous: Credential, next: Credential, answers: bool) {
    answers || previous.GitDefault? || (previous.SshKey? && next.SshKey?)
  }

  predicate AuthorUndone(previous: Choice, answers: bool) {
    answers || previous.credential.GitDefault? || previous.author.None?
  }

  /** The keys a previous choice's author is undone by. */
  function AuthorGone(previous: Choice): set<Key> {
    if previous.credential.GitDefault? then {} else AuthorKeySet(previous.author)
  }

  /** What is unset on top of a previous choice, with and without git's answers. */
  function Undone(host: string, previous: Choice, ssh: bool, marker: bool, author: bool): set<Key> {
    (if marker then AccountKeySet(previous.credential, host) else {})
    + (if author then AuthorGone(previous) else {}) + {Marker} + (if ssh then {SshCommand} else {})
  }

  lemma UndoneKeys(base: Config, host: string, previous: Choice, next: Credential, marker: bool, author: bool)
    requires Unmarked(base) && Admissible(host, previous)
    ensures Keys(Unsets(AddAll(base, Settings(host, previous)), host, next, marker, author))
         == Undone(host, previous, next.SshKey?, marker, author)
  {
    var config := AddAll(base, Settings(host, previous));
    UnsetKeys(config, host, next, marker, author);
    ReadBack(base, host, previous);
    AuthorWritten(host, previous);
    assert !marker ==> Keys(PreviousKeys(AppliedIn(config, marker), host)) == {};
  }

  lemma AuthorWritten(host: string, previous: Choice)
    ensures AuthorGone(previous)
         == if AuthorMarker in Written(host, previous) then {UserName, UserEmail, AuthorMarker} else {}
  {
  }

  /** So a choice that does not read the author's marker leaves the author it should have removed. */
  lemma AuthorLeftBehind(host: string, login: string, a: Author)
    requires ValidLogin(login) && AuthorField(a.name) && AuthorField(a.email)
    ensures var config := AddAll(map[], Settings(host, Choice(GhAccount(login, false), Some(a))));
      Applied(config, host, GitDefault, [], true, false) != Applied(config, host, GitDefault, [], true, true)
  {
    var previous, next := Choice(GhAccount(login, false), Some(a)), Choice(GitDefault, None);
    UnansweredReadBack(map[], host, previous, next, true, false);
    assert Settings(host, next) == [];
  }

  lemma StaleValues(config: Config, blind: set<Key>, seeing: set<Key>, settings: seq<(Key, Value)>, stale: Key)
    requires stale !in blind && stale in seeing && Values(config, stale) != []
    ensures AddAll(config - blind, settings) != AddAll(config - seeing, settings)
  {
    AddAllValues(config - blind, settings, stale);
    AddAllValues(config - seeing, settings, stale);
    var a, b := AddAll(config - blind, settings), AddAll(config - seeing, settings);
    assert |Values(a, stale)| > |Values(b, stale)|;
  }

  // ---------------------------------------------------------------------------------------------
  // When git stops half-way
  // ---------------------------------------------------------------------------------------------

  /** None of the managed keys is set. */
  predicate Bare(base: Config, host: string) { forall k :: k in base ==> !Managed(host, k) }

  /** The next choice sets a choice right that stopped after `n` of its settings: it added none or all of
      them, or one key replaces another and the author was not begun or was finished. */
  predicate SetRight(ch: Choice, next: Choice, n: nat) {
    ch.credential.GitDefault? || n == 0
    || (ch.credential.SshKey? && (n > (if ch.author.Some? then 4 else 1)
                                  || (next.credential.SshKey? && (n == 1 || (ch.author.Some? && n == 4)))))
    || (ch.credential.GhAccount? && n > (if ch.author.Some? then 6 else 3))
  }

  /** The next choice leaves the config it should. */
  predicate Recovers(left: Config, base: Config, host: string, next: Choice)
    requires Admissible(host, next)
  {
    Applied(left, host, next.credential, Settings(host, next), true, true) == AddAll(base, Settings(host, next))
  }

  /** Git stops after everything of the previous choice was undone, on a config that held none of the
      managed keys, while a choice's settings are added: the next choice that succeeds leaves the config
      it should exactly when it sets that choice right. The marker is written last, so an account's keys
      written without it are not undone. */
  lemma StoppedAddingIff(base: Config, host: string, previous: Choice, ch: Choice, next: Choice, budget: nat)
    requires Bare(base, host) && Admissible(host, previous) && Admissible(host, ch) && Admissible(host, next)
    requires budget >= |Unsets(AddAll(base, Settings(host, previous)), host, ch.credential, true, true)|
    ensures var config := AddAll(base, Settings(host, previous));
      var unsets := |Unsets(config, host, ch.credential, true, true)|;
      Recovers(Stopped(config, host, ch.credential, Settings(host, ch), true, true, budget), base, host, next)
      <==> SetRight(ch, next, budget - unsets)
  {
    var config := AddAll(base, Settings(host, previous));
    var n := budget - |Unsets(config, host, ch.credential, true, true)|;
    AllUndone(base, host, previous, ch);
    StoppedPastUnsets(config, host, ch, base, budget);
    StoppedAdding(base, host, ch, next, n);
  }

  lemma StoppedPastUnsets(config: Config, host: string, ch: Choice, undone: Config, budget: nat)
    requires Admissible(host, ch) && config - Keys(Unsets(config, host, ch.credential, true, true)) == undone
    requires budget >= |Unsets(config, host, ch.credential, true, true)|
    ensures Stopped(config, host, ch.credential, Settings(host, ch), true, true, budget)
         == AddAll(undone, FirstOf(Settings(host, ch), budget - |Unsets(config, host, ch.credential, true, true)|))
  {
  }

  /** A list of keys is cut after all that comes before one of them, or before it. */
  lemma CutAfter(keys: seq<Key>, n: nat, i: nat, j: nat)
    requires j <= i < |keys| && n <= |keys| && keys[i] in keys[..n] && forall m :: 0 <= m < i ==> keys[m] != keys[i]
    ensures keys[j] in keys[..n]
  {
    var m :| 0 <= m < n && keys[m] == keys[i];
    assert i <= m;
    assert keys[..n][j] == keys[j];
  }

  /** Git stops at any point while the previous choice is still undone: what it did not undo yet the next
      choice still finds, and that leaves the config it should. */
  lemma StoppedUndoing(base: Config, host: string, previous: Choice, ch: Choice, next: Choice, budget: nat)
    requires Bare(base, host) && Admissible(host, previous) && Admissible(host, ch) && Admissible(host, next)
    requires budget < |Unsets(AddAll(base, Settings(host, previous)), host, ch.credential, true, true)|
    ensures var config := AddAll(base, Settings(host, previous));
      var left := Stopped(config, host, ch.credential, Settings(host, ch), true, true, budget);
      Recovers(left, base, host, next)
  {
    var config := AddAll(base, Settings(host, previous));
    var unsets := Unsets(config, host, ch.credential, true, true);
    var undone := Keys(unsets[..budget]);
    var again := Keys(Unsets(config - undone, host, next.credential, true, true));
    forall k | k in Written(host, previous) ensures k in undone || k in again {
      StillFound(base, host, previous, ch, next.credential, budget, k);
    }
    UnsetsManaged(config, host, ch.credential, true, true, budget);
    UnsetManaged(config - undone, host, next.credential);
    BareAgain(base, host, previous, undone, again);
    AppliedTo(config - undone, base, host, next);
  }

  lemma UnsetManaged(config: Config, host: string, c: Credential)
    ensures forall k :: k in Keys(Unsets(config, host, c, true, true)) ==> Managed(host, k)
  {
    UnsetsManaged(config, host, c, true, true, |Unsets(config, host, c, true, true)|);
  }

  lemma AppliedTo(config: Config, base: Config, host: string, next: Choice)
    requires Admissible(host, next) && config - Keys(Unsets(config, host, next.credential, true, true)) == base
    ensures Recovers(config, base, host, next)
  {
  }

  /** With all that was written gone, the base is left. */
  lemma BareAgain(base: Config, host: string, previous: Choice, undone: set<Key>, again: set<Key>)
    requires Bare(base, host) && Admissible(host, previous)
    requires forall k :: k in undone || k in again ==> Managed(host, k)
    requires forall k :: k in Written(host, previous) ==> k in undone || k in again
    ensures AddAll(base, Settings(host, previous)) - undone - again == base
  {
    RemoveTwice(AddAll(base, Settings(host, previous)), undone, again);
    WrittenKeys(host, previous);
    AddThenRemove(base, Settings(host, previous), undone + again);
    RemoveNone(base, undone + again);
  }

  /** Where the markers stand among the keys unset: first the account's, then the author's. */
  lemma UnsetPlaces(config: Config, host: string, c: Credential)
    ensures var unsets, previous := Unsets(config, host, c, true, true), PreviousKeys(AppliedIn(config, true), host);
      var i := |previous| + (if Get(config, AuthorMarker).Some? then 3 else 0);
      && previous <= unsets && i < |unsets| && unsets[i] == Marker && (forall m :: 0 <= m < i ==> unsets[m] != Marker)
      && (forall m :: 0 <= m < |previous| ==> unsets[m] != AuthorMarker)
      && (Get(config, AuthorMarker).Some?
          ==> unsets[|previous|..|previous| + 3] == [UserName, UserEmail, AuthorMarker])
  {
    UnsetsInTwo(config, host, c, true, true);
  }

  /** The keys unset before the marker are gone once the marker is, and the author's once its marker is. */
  lemma UnsetOrder(config: Config, host: string, c: Credential, n: nat, k: Key)
    requires n <= |Unsets(config, host, c, true, true)|
    ensures var unsets := Unsets(config, host, c, true, true);
      && (k in PreviousKeys(AppliedIn(config, true), host) && Marker in unsets[..n] ==> k in unsets[..n])
      && (Get(config, AuthorMarker).Some? && k in AuthorKeySet(Some(Author("", ""))) && AuthorMarker in unsets[..n]
          ==> k in unsets[..n])
  {
    var unsets, previous := Unsets(config, host, c, true, true), PreviousKeys(AppliedIn(config, true), host);
    var author := Get(config, AuthorMarker).Some?;
    UnsetPlaces(config, host, c);
    if k in previous && Marker in unsets[..n] {
      AccountCut(unsets, n, |previous| + (if author then 3 else 0), previous, k);
    }
    if author && k in AuthorKeySet(Some(Author("", ""))) && AuthorMarker in unsets[..n] {
      AuthorCut(unsets, n, |previous|, k);
    }
  }

  lemma AccountCut(keys: seq<Key>, n: nat, i: nat, previous: seq<Key>, k: Key)
    requires n <= |keys| && |previous| <= i < |keys| && previous <= keys && k in previous
    requires keys[i] in keys[..n] && forall m :: 0 <= m < i ==> keys[m] != keys[i]
    ensures k in keys[..n]
  {
    var j :| 0 <= j < |previous| && previous[j] == k;
    assert keys[j] == k;
    CutAfter(keys, n, i, j);
  }

  lemma AuthorCut(keys: seq<Key>, n: nat, at: nat, k: Key)
    requires at + 3 <= |keys| && keys[at..at + 3] == [UserName, UserEmail, AuthorMarker] && n <= |keys|
    requires (forall m :: 0 <= m < at ==> keys[m] != AuthorMarker) && AuthorMarker in keys[..n]
    requires k in AuthorKeySet(Some(Author("", "")))
    ensures k in keys[..n]
  {
    var author := keys[at..at + 3];
    assert keys[at] == author[0] && keys[at + 1] == author[1] && keys[at + 2] == author[2];
    var j := if k == UserName then at else if k == UserEmail then at + 1 else at + 2;
    CutAfter(keys, n, at + 2, j);
  }

  lemma StillFound(base: Config, host: string, previous: Choice, ch: Choice, next: Credential, n: nat, k: Key)
    requires Bare(base, host) && Admissible(host, previous) && k in Written(host, previous)
    requires n <= |Unsets(AddAll(base, Settings(host, previous)), host, ch.credential, true, true)|
    ensures var config := AddAll(base, Settings(host, previous));
      var undone := Keys(Unsets(config, host, ch.credential, true, true)[..n]);
      k in undone || k in Keys(Unsets(config - undone, host, next, true, true))
  {
    var config := AddAll(base, Settings(host, previous));
    var unsets := Unsets(config, host, ch.credential, true, true);
    var undone := Keys(unsets[..n]);
    ReadBack(base, host, previous);
    UnsetOrder(config, host, ch.credential, n, k);
    UnsetKeys(config - undone, host, next, true, true);
    if k !in undone {
      if k in AccountKeySet(previous.credential, host) {
        assert k in PreviousKeys(AppliedIn(config, true), host) && Marker !in undone;
        SameMarkers(config, undone);
      } else if k != Marker {
        assert k in AuthorKeySet(Some(Author("", ""))) && AuthorMarker !in undone;
        SameMarkers(config, undone);
      }
    }
  }

  lemma SameMarkers(config: Config, undone: set<Key>)
    ensures Marker !in undone ==> AppliedIn(config - undone, true) == AppliedIn(config, true)
    ensures AuthorMarker !in undone ==> Get(config - undone, AuthorMarker) == Get(config, AuthorMarker)
  {
    assert Marker !in undone ==> Get(config - undone, Marker) == Get(config, Marker);
  }

  lemma AllUndone(base: Config, host: string, previous: Choice, ch: Choice)
    requires Bare(base, host) && Admissible(host, previous)
    ensures var config := AddAll(base, Settings(host, previous));
      config - Keys(Unsets(config, host, ch.credential, true, true)) == base
  {
    var config := AddAll(base, Settings(host, previous));
    var undone := Keys(Unsets(config, host, ch.credential, true, true));
    UndoneKeys(base, host, previous, ch.credential, true, true);
    WrittenUndone(host, previous, ch.credential.SshKey?);
    BareAgain(base, host, previous, undone, {});
    RemoveNone(config - undone, {});
  }

  lemma WrittenUndone(host: string, previous: Choice, ssh: bool)
    ensures Written(host, previous) <= Undone(host, previous, ssh, true, true)
    ensures forall k :: k in Undone(host, previous, ssh, true, true) ==> Managed(host, k)
  {
  }

  lemma {:induction false} AddedAt(settings: seq<(Key, Value)>, k: Key)
    ensures k in AddedKeys(settings) <==> exists i :: 0 <= i < |settings| && settings[i].0 == k
  {
    if settings != [] {
      AddedAt(settings[1..], k);
      if i :| 0 <= i < |settings| && settings[i].0 == k && i > 0 {
        assert settings[1..][i - 1].0 == k;
      }
    }
  }

  /** What the next choice undoes of a choice whose marker is missing. */
  function Unmarking(some: seq<(Key, Value)>, next: Credential): set<Key> {
    (if AuthorMarker in AddedKeys(some) then {UserName, UserEmail, AuthorMarker} else {})
    + {Marker} + (if next.SshKey? then {SshCommand} else {})
  }

  lemma UnmarkedUndone(base: Config, host: string, some: seq<(Key, Value)>, next: Credential)
    requires Bare(base, host) && Marker !in AddedKeys(some)
    ensures Keys(Unsets(AddAll(base, some), host, next, true, true)) == Unmarking(some, next)
  {
    var config := AddAll(base, some);
    UnsetKeys(config, host, next, true, true);
    AddAllValues(base, some, Marker);
    AddAllValues(base, some, AuthorMarker);
    AddedToNonEmpty(some, AuthorMarker);
    assert Get(config, Marker).None?;
  }

  /** Some settings are set right exactly when all of their keys are undone. */
  lemma RightIffUndone(base: Config, host: string, some: seq<(Key, Value)>, next: Choice)
    requires Bare(base, host) && Admissible(host, next) && Marker !in AddedKeys(some)
    ensures Recovers(AddAll(base, some), base, host, next) <==> AddedKeys(some) <= Unmarking(some, next.credential)
  {
    if AddedKeys(some) <= Unmarking(some, next.credential) {
      RightIfUndone(base, host, some, next);
    } else {
      WrongUnlessUndone(base, host, some, next);
    }
  }

  lemma RightIfUndone(base: Config, host: string, some: seq<(Key, Value)>, next: Choice)
    requires Bare(base, host) && Admissible(host, next) && Marker !in AddedKeys(some)
    requires AddedKeys(some) <= Unmarking(some, next.credential)
    ensures Recovers(AddAll(base, some), base, host, next)
  {
    UnmarkedUndone(base, host, some, next.credential);
    AddedAndGone(base, host, some, Unmarking(some, next.credential));
    AppliedTo(AddAll(base, some), base, host, next);
  }

  lemma WrongUnlessUndone(base: Config, host: string, some: seq<(Key, Value)>, next: Choice)
    requires Bare(base, host) && Admissible(host, next) && Marker !in AddedKeys(some)
    requires !(AddedKeys(some) <= Unmarking(some, next.credential))
    ensures !Recovers(AddAll(base, some), base, host, next)
  {
    var gone := Unmarking(some, next.credential);
    UnmarkedUndone(base, host, some, next.credential);
    var stale :| stale in AddedKeys(some) && stale !in gone;
    StaleKept(base, host, some, gone, Settings(host, next), stale);
  }

  lemma AddedAndGone(base: Config, host: string, some: seq<(Key, Value)>, gone: set<Key>)
    requires Bare(base, host) && AddedKeys(some) <= gone && forall k :: k in gone ==> Managed(host, k)
    ensures AddAll(base, some) - gone == base
  {
    AddThenRemove(base, some, gone);
    RemoveNone(base, gone);
  }

  lemma StaleKept(base: Config, host: string, some: seq<(Key, Value)>, gone: set<Key>, settings: seq<(Key, Value)>,
                  stale: Key)
    requires stale in AddedKeys(some) && stale !in gone
    ensures AddAll(AddAll(base, some) - gone, settings) != AddAll(base, settings)
  {
    AddAllValues(base, some, stale);
    AddedToNonEmpty(some, stale);
    var left := AddAll(base, some) - gone;
    AddAllValues(left, settings, stale);
    AddAllValues(base, settings, stale);
    assert |Values(AddAll(left, settings), stale)| > |Values(AddAll(base, settings), stale)|;
  }

  /** The first `n` settings, the marker not among them, are undone by the next choice exactly if so. */
  lemma UndoneIff(host: string, ch: Choice, next: Choice, n: nat)
    requires Admissible(host, ch) && 0 < n < |Settings(host, ch)|
    ensures var some := FirstOf(Settings(host, ch), n);
      Marker !in AddedKeys(some) && (AddedKeys(some) <= Unmarking(some, next.credential) <==> SetRight(ch, next, n))
  {
    var all := Settings(host, ch);
    var some := FirstOf(all, n);
    forall k ensures k in AddedKeys(some) <==> exists i :: 0 <= i < n && all[i].0 == k {
      AddedAt(some, k);
      if i :| 0 <= i < n && all[i].0 == k { assert some[i].0 == k; }
    }
    assert all[0].0 in AddedKeys(some);
    if ch.credential.SshKey? {
      SshOrder(host, ch);
      assert ch.author.Some? && n > 1 ==> all[1].0 in AddedKeys(some);
      assert ch.author.Some? && n > 3 ==> all[3].0 in AddedKeys(some);
    } else {
      GhOrder(host, ch);
    }
  }

  lemma SshOrder(host: string, ch: Choice)
    requires Admissible(host, ch) && ch.credential.SshKey?
    ensures var all := Settings(host, ch);
      && all[0].0 == SshCommand && |all| == (if ch.author.Some? then 5 else 2) && all[|all| - 1].0 == Marker
      && (ch.author.Some? ==> all[1].0 == UserName && all[2].0 == UserEmail && all[3].0 == AuthorMarker)
  {
  }

  lemma GhOrder(host: string, ch: Choice)
    requires Admissible(host, ch) && ch.credential.GhAccount?
    ensures var all := Settings(host, ch);
      && all[0].0 == Helper(host) && |all| == (if ch.author.Some? then 7 else 4) && all[|all| - 1].0 == Marker
      && forall i :: 0 <= i < |all| - 1 ==> all[i].0 != Marker
  {
  }

  lemma AllAdded(base: Config, host: string, ch: Choice, next: Choice)
    requires Bare(base, host) && Admissible(host, ch) && Admissible(host, next)
    ensures Recovers(AddAll(base, Settings(host, ch)), base, host, next)
  {
    ApplyOver(base, host, ch, next);
    NothingToRemove(base, host, ch, if next.credential.SshKey? then {SshCommand} else {});
  }

  lemma NothingToRemove(base: Config, host: string, ch: Choice, ssh: set<Key>)
    requires Bare(base, host) && ssh <= {SshCommand}
    ensures base - (Written(host, ch) + ssh) == base
  {
    WrittenUndone(host, ch, true);
    RemoveNone(base, Written(host, ch) + ssh);
  }

  lemma SettingsCount(host: string, ch: Choice)
    requires Admissible(host, ch)
    ensures |Settings(host, ch)| == if ch.credential.GitDefault? then 0
                                    else (if ch.credential.SshKey? then 2 else 4) + (if ch.author.Some? then 3 else 0)
  {
  }

  lemma StoppedAdding(base: Config, host: string, ch: Choice, next: Choice, n: nat)
    requires Bare(base, host) && Admissible(host, ch) && Admissible(host, next)
    ensures Recovers(AddAll(base, FirstOf(Settings(host, ch), n)), base, host, next) <==> SetRight(ch, next, n)
  {
    var all := Settings(host, ch);
    var some := FirstOf(all, n);
    if n >= |all| {
      assert some == all;
      AllAdded(base, host, ch, next);
      SettingsCount(host, ch);
    } else if n == 0 {
      assert some == [];
      RightIffUndone(base, host, some, next);
    } else {
      UndoneIff(host, ch, next, n);
      RightIffUndone(base, host, some, next);
    }
  }
}
