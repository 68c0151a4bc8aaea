/** The release train: cutting a release branch, preparing the next rc, GA or patch on it, and the
guard every change is checked against, as scripts/cut-release.py, scripts/prepare-release.py and
scripts/check-release-guards.py do it with scripts/release_lib.py. CHANGELOG.md is a list of lines,
each ending in a newline and already classified by the heading patterns the scripts look for. */
module ReleaseTrain {
  import opened Common

  datatype Version = Version(major: nat, minor: nat, patch: nat)

  /** What the RELEASE file names: `0.7.0-rc.1`, or `0.7.0` with no rc. */
  datatype Release = Release(version: Version, rc: Option<nat>)

  /** A line: the `## [Unreleased]` heading, a version's heading, another `## ` heading, a blank line,
      the `### Commits` line a patch writes, or any other text. */
  datatype Line = Unreleased | Section(version: Version) | Heading(name: string) | Blank | Commits | Note(text: string)

  /** A checkout, as far as the scripts read and write it. */
  datatype Tree = Tree(version: Version, release: Option<Release>, changelog: Option<seq<Line>>)

  // ---------------------------------------------------------------------------------------------
  // The changelog
  // ---------------------------------------------------------------------------------------------

  predicate IsHeading(l: Line) { l.Unreleased? || l.Section? || l.Heading? }

  /** The lines before the first that is a heading. */
  function BeforeHeading(lines: seq<Line>): nat
    ensures BeforeHeading(lines) <= |lines|
  {
    if lines == [] || IsHeading(lines[0]) then 0 else 1 + BeforeHeading(lines[1..])
  }

  function BeforeUnreleased(lines: seq<Line>): (n: nat)
    ensures n <= |lines| && (n < |lines| ==> lines[n] == Unreleased)
  {
    if lines == [] || lines[0].Unreleased? then 0 else 1 + BeforeUnreleased(lines[1..])
  }

  datatype Split = Split(before: seq<Line>, body: seq<Line>, after: seq<Line>)

  /** `unreleased_split`: around the first `## [Unreleased]` section, or nothing. */
  function UnreleasedSplit(lines: seq<Line>): Option<Split> {
    var m := BeforeUnreleased(lines);
    if m == |lines| then None
    else
      var rest := lines[m + 1..];
      var n := BeforeHeading(rest);
      Some(Split(lines[..m], rest[..n], rest[n..]))
  }

  function TrimBlank(lines: seq<Line>): seq<Line> {
    if lines != [] && lines[|lines| - 1].Blank? then TrimBlank(lines[..|lines| - 1]) else lines
  }

  predicate HasSection(lines: seq<Line>, v: Version) { Section(v) in lines }

  function Entries(subjects: seq<string>): seq<Line> {
    seq(|subjects|, i requires 0 <= i < |subjects| => Note("- " + subjects[i]))
  }

  /** A patch's section where the branch has no `## [Unreleased]`: before the first heading that is
      not the first line, and at the end when there is none. */
  function Inserted(lines: seq<Line>, v: Version, entries: seq<Line>): seq<Line> {
    var i := if lines == [] then 0 else 1 + BeforeHeading(lines[1..]);
    if i < |lines| then lines[..i] + [Section(v), Blank] + entries + [Blank] + lines[i..]
    else lines + [Blank, Section(v), Blank] + entries
  }

  /** The changelog a patch writes. A backport's own `## [Unreleased]` notes become the patch's. */
  function PatchedLog(lines: seq<Line>, v: Version, entries: seq<Line>): seq<Line> {
    var parts := UnreleasedSplit(lines);
    if parts.None? then Inserted(lines, v, entries)
    else
      var body := TrimBlank(parts.value.body);
      parts.value.before + [Section(v)] + (if body == [] then [Blank] else body)
      + [Blank, Commits, Blank] + entries + [Blank] + parts.value.after
  }

  // ---------------------------------------------------------------------------------------------
  // The guard
  // ---------------------------------------------------------------------------------------------

  datatype Problem = ChangelogMissing | NoUnreleased | VersionMismatch | NoSection | MovesBackwards

  /** The order `release_problems` compares by: an rc comes before its GA. */
  predicate Before(a: Release, b: Release) {
    var u, v := a.version, b.version;
    u.major < v.major || (u.major == v.major && (
      u.minor < v.minor || (u.minor == v.minor && (
        u.patch < v.patch || (u.patch == v.patch &&
          a.rc.Some? && (b.rc.None? || a.rc.value < b.rc.value))))))
  }

  lemma BeforeStrictOrder(a: Release, b: Release, c: Release)
    ensures !Before(a, a)
    ensures Before(a, b) && Before(b, c) ==> Before(a, c)
    ensures Before(a, b) || Before(b, a) || a == b
  {
  }

  /** What the guard stands for. `base` is the RELEASE of the commit a change starts from. */
  predicate Guarded(t: Tree, base: Option<Release>) {
    && t.changelog.Some?
    && (t.release.None? ==> Unreleased in t.changelog.value)
    && (t.release.Some? ==>
          && t.version == t.release.value.version
          && (t.release.value.rc.None? ==> HasSection(t.changelog.value, t.version))
          && (base.Some? && base != t.release ==> Before(base.value, t.release.value)))
  }

  /** `release_problems` as written: the problems, in the order the checks append them. */
  method ReleaseProblems(t: Tree, base: Option<Release>) returns (problems: seq<Problem>)
    ensures problems == [] <==> Guarded(t, base)
    ensures ChangelogMissing in problems <==> t.changelog.None?
    ensures NoUnreleased in problems
       <==> t.changelog.Some? && t.release.None? && Unreleased !in t.changelog.value
    ensures t.changelog.Some? && t.release.Some? ==>
      && (VersionMismatch in problems <==> t.version != t.release.value.version)
      && (NoSection in problems
          <==> t.release.value.rc.None? && !HasSection(t.changelog.value, t.release.value.version))
      && (MovesBackwards in problems <==> base.Some? && base != t.release && !Before(base.value, t.release.value))
  {
    problems := [];
    if t.changelog.None? {
      return [ChangelogMissing];
    }
    var text := t.changelog.value;
    if t.release.None? {
      if Unreleased !in text {
        problems := problems + [NoUnreleased];
      }
      return;
    }
    var current := t.release.value;
    if current.version != t.version {
      problems := problems + [VersionMismatch];
    }
    if current.rc.None? && !HasSection(text, current.version) {
      problems := problems + [NoSection];
    }
    if base.Some? && base.value != current {
      if !Before(base.value, current) {
        problems := problems + [MovesBackwards];
      }
    }
  }

  // ---------------------------------------------------------------------------------------------
  // Preparing the next release
  // ---------------------------------------------------------------------------------------------

  datatype Kind = Rc | Ga | Patch

  /** What the script meets: the branch (`None` for a detached HEAD), the commits since the last tag
      (`None` when the tag is missing), and how moving the workspace version goes. */
  datatype Setting = Setting(branch: Option<(nat, nat)>, since: Option<seq<string>>, move: Move)

  /** The move succeeds, stops before it wrote a manifest, or stops after. */
  datatype Move = Moves | StopsAtOnce | StopsHalfWay

  /** The tree a successful preparation leaves; `None` when the script exits. */
  function Prepared(t: Tree, kind: Kind, s: Setting): Option<Tree> {
    if t.release.None? then None
    else
      var r := t.release.value;
      var v := r.version;
      if s.branch.Some? && s.branch.value != (v.major, v.minor) then None
      else if t.version != v || t.changelog.None? then None
      else match kind
        case Rc => if r.rc.None? then None else Some(t.(release := Some(Release(v, Some(r.rc.value + 1)))))
        case Ga =>
          var parts := UnreleasedSplit(t.changelog.value);
          if r.rc.None? || parts.None? then None
          else Some(Tree(v, Some(Release(v, None)),
                         Some(parts.value.before + [Section(v)] + parts.value.body + parts.value.after)))
        case Patch =>
          if r.rc.Some? || s.since.None? || s.since.value == [] || !s.move.Moves? then None
          else
            var next := Version(v.major, v.minor, v.patch + 1);
            Some(Tree(next, Some(Release(next, None)),
                      Some(PatchedLog(t.changelog.value, next, Entries(s.since.value)))))
  }

  /** The preparation gets as far as moving the version, and stops half-way. */
  predicate HalfMoved(t: Tree, kind: Kind, s: Setting) {
    kind == Patch && s.move.StopsHalfWay? && Prepared(t, kind, s.(move := Moves)).Some?
  }

  /** The tree the script leaves, whether it succeeds or exits. */
  function Left(t: Tree, kind: Kind, s: Setting): Tree {
    if Prepared(t, kind, s).Some? then Prepared(t, kind, s).value
    else if HalfMoved(t, kind, s) then t.(version := Version(t.version.major, t.version.minor, t.version.patch + 1))
    else t
  }

  /** A patch that stops half-way leaves RELEASE and the changelog as they were, and a tree that no
      preparation starts from and the guard refuses, whatever it is compared with. */
  lemma HalfMovedIsCaught(t: Tree, kind: Kind, s: Setting, again: Kind, s': Setting, base: Option<Release>)
    requires HalfMoved(t, kind, s)
    ensures var left := Left(t, kind, s);
      && left.release == t.release && left.changelog == t.changelog
      && Prepared(left, again, s').None? && Left(left, again, s') == left && !Guarded(left, base)
  {
  }

  /** A preparation that does not succeed changes the tree exactly when it is a patch that could be prepared
      and whose version move stops half-way; the crates are then a patch ahead. */
  lemma LeftIs(t: Tree, kind: Kind, s: Setting)
    requires Prepared(t, kind, s).None?
    ensures Left(t, kind, s) != t <==> (
      && kind.Patch? && s.move.StopsHalfWay? && s.since.Some? && s.since.value != []
      && t.release.Some? && t.release.value.rc.None? && t.version == t.release.value.version && t.changelog.Some?
      && (s.branch.None? || s.branch == Some((t.version.major, t.version.minor))))
    ensures Left(t, kind, s) != t ==>
      Left(t, kind, s) == t.(version := Version(t.version.major, t.version.minor, t.version.patch + 1))
  {
    if HalfMoved(t, kind, s) { assert Left(t, kind, s).version.patch == t.version.patch + 1; }
  }

  class Checkout {
    var tree: Tree

    /** `prepare-release.py` as written: the files are read, checked and rewritten in place. */
    method Prepare(kind: Kind, s: Setting) returns (prepared: bool)
      modifies this
      ensures prepared == Prepared(old(tree), kind, s).Some?
      ensures tree == Left(old(tree), kind, s)
    {
      if tree.release.None? {
        return false;
      }
      var current := tree.release.value;
      var Version(major, minor, patch) := current.version;
      if s.branch.Some? && s.branch.value != (major, minor) {
        return false;
      }
      if tree.version != current.version {
        return false;
      }
      if tree.changelog.None? {
        return false;
      }
      var text := tree.changelog.value;
      var target: Release;
      match kind {
        case Rc =>
          if current.rc.None? { return false; }
          target := current.(rc := Some(current.rc.value + 1));
        case Ga =>
          if current.rc.None? { return false; }
          target := current.(rc := None);
          var parts := UnreleasedSplit(text);
          if parts.None? { return false; }
          var Split(before, body, after) := parts.value;
          tree := tree.(changelog := Some(before + [Section(target.version)] + body + after));
        case Patch =>
          if current.rc.Some? || s.since.None? || s.since.value == [] { return false; }
          target := Release(Version(major, minor, patch + 1), None);
          if s.move.StopsAtOnce? { return false; }
          tree := tree.(version := target.version);
          if s.move.StopsHalfWay? { return false; }
          tree := tree.(changelog := Some(PatchedLog(text, target.version, Entries(s.since.value))));
      }
      tree := tree.(release := Some(target));
      prepared := true;
    }
  }

  /** Every successful preparation, whatever tree it starts from, moves RELEASE forward and leaves a
      tree that passes the guard against the tree before it. */
  lemma PreparationGuarded(t: Tree, kind: Kind, s: Setting)
    requires Prepared(t, kind, s).Some?
    ensures var t' := Prepared(t, kind, s).value;
      && t.release.Some? && t'.release.Some? && Before(t.release.value, t'.release.value)
      && Guarded(t', t.release)
      && t'.release.value.version.major == t.release.value.version.major
      && t'.release.value.version.minor == t.release.value.version.minor
  {
    if kind == Patch {
      PatchedHasSection(t.changelog.value, Prepared(t, kind, s).value.version, Entries(s.since.value));
    }
  }

  lemma PatchedHasSection(lines: seq<Line>, v: Version, entries: seq<Line>)
    ensures HasSection(PatchedLog(lines, v, entries), v)
  {
    var parts := UnreleasedSplit(lines);
    if parts.Some? {
      assert PatchedLog(lines, v, entries)[|parts.value.before|] == Section(v);
    } else {
      var i := if lines == [] then 0 else 1 + BeforeHeading(lines[1..]);
      assert PatchedLog(lines, v, entries)[if i < |lines| then i else |lines| + 1] == Section(v);
    }
  }

  /** A preparation succeeds exactly on the release's own branch or a detached HEAD, with the crates at the
      version RELEASE names and a changelog there; a candidate or the GA only before the GA, which also
      needs unreleased notes; a patch only after it, with commits since the last tag. */
  lemma PreparesIff(t: Tree, kind: Kind, s: Setting)
    ensures Prepared(t, kind, s).Some? <==> (
      && t.release.Some? && t.version == t.release.value.version && t.changelog.Some?
      && (s.branch.None? || s.branch == Some((t.version.major, t.version.minor)))
      && (t.release.value.rc.Some? <==> !kind.Patch?)
      && (kind.Ga? ==> Unreleased in t.changelog.value)
      && (kind.Patch? ==> s.since.Some? && s.since.value != [] && s.move.Moves?))
  {
    if t.changelog.Some? { SplitWhole(t.changelog.value); }
  }

  // ---------------------------------------------------------------------------------------------
  // Which notes a release gets
  // ---------------------------------------------------------------------------------------------

  /** The lines up to the first `## ` heading. */
  function Body(lines: seq<Line>): seq<Line> {
    if lines == [] || lines[0].Unreleased? || lines[0].Section? || lines[0].Heading? then []
    else [lines[0]] + Body(lines[1..])
  }

  /** The lines under the first such heading. */
  function Under(lines: seq<Line>, heading: Line): seq<Line> {
    if lines == [] then [] else if lines[0] == heading then Body(lines[1..]) else Under(lines[1..], heading)
  }

  lemma {:induction false} BodyIs(lines: seq<Line>)
    ensures Body(lines) == lines[..BeforeHeading(lines)]
    ensures BeforeHeading(lines) < |lines| ==> IsHeading(lines[BeforeHeading(lines)])
  {
    if lines != [] && !IsHeading(lines[0]) {
      BodyIs(lines[1..]);
      assert lines == [lines[0]] + lines[1..];
    }
  }

  lemma {:induction false} UnderAfter(before: seq<Line>, heading: Line, rest: seq<Line>)
    requires heading !in before
    ensures Under(before + [heading] + rest, heading) == Body(rest)
  {
    var lines := before + [heading] + rest;
    if before == [] {
      assert lines[1..] == rest;
    } else {
      assert lines[1..] == before[1..] + [heading] + rest;
      UnderAfter(before[1..], heading, rest);
    }
  }

  /** Text without headings, and then a heading or nothing. */
  lemma {:induction false} BodyOf(text: seq<Line>, rest: seq<Line>)
    requires forall l :: l in text ==> !IsHeading(l)
    requires rest == [] || IsHeading(rest[0])
    ensures Body(text + rest) == text
  {
    if text == [] {
      assert text + rest == rest;
    } else {
      TailOfConcat(text, rest);
      assert text[0] in text;
      BodyOf(text[1..], rest);
    }
  }

  lemma {:induction false} TextBeforeHeading(lines: seq<Line>)
    ensures forall l :: l in lines[..BeforeHeading(lines)] ==> !IsHeading(l)
  {
    if lines != [] && !IsHeading(lines[0]) {
      TextBeforeHeading(lines[1..]);
      assert lines[..BeforeHeading(lines)] == [lines[0]] + lines[1..][..BeforeHeading(lines[1..])];
    }
  }

  /** The unreleased notes, and what surrounds them. */
  lemma SplitIs(lines: seq<Line>)
    requires UnreleasedSplit(lines).Some?
    ensures var parts := UnreleasedSplit(lines).value;
      && lines == parts.before + [Unreleased] + parts.body + parts.after && Unreleased !in parts.before
      && parts.body == Under(lines, Unreleased) && (forall l :: l in parts.body ==> !IsHeading(l))
      && (parts.after == [] || IsHeading(parts.after[0]))
  {
    var m := BeforeUnreleased(lines);
    SplitWhole(lines);
    NoneBefore(lines);
    SplitBody(lines[m + 1..]);
    Around(lines, m);
    UnderAfter(lines[..m], Unreleased, lines[m + 1..]);
  }

  lemma Around(lines: seq<Line>, m: nat)
    requires m < |lines| && lines[m] == Unreleased
    ensures lines == lines[..m] + [Unreleased] + lines[m + 1..]
  {
  }

  lemma SplitBody(rest: seq<Line>)
    ensures var n := BeforeHeading(rest);
      && rest[..n] == Body(rest) && (forall l :: l in rest[..n] ==> !IsHeading(l))
      && (rest[n..] == [] || IsHeading(rest[n..][0]))
  {
    BodyIs(rest);
    TextBeforeHeading(rest);
  }

  lemma {:induction false} NoneBefore(lines: seq<Line>)
    ensures Unreleased !in lines[..BeforeUnreleased(lines)]
  {
    if lines != [] && !lines[0].Unreleased? {
      NoneBefore(lines[1..]);
      assert lines[..BeforeUnreleased(lines)] == [lines[0]] + lines[1..][..BeforeUnreleased(lines[1..])];
    }
  }

  /** A GA's section has exactly the notes that were unreleased. */
  lemma GaNotes(t: Tree, s: Setting)
    requires Prepared(t, Ga, s).Some? && Section(t.version) !in t.changelog.value
    ensures Under(Prepared(t, Ga, s).value.changelog.value, Section(t.version)) == Under(t.changelog.value, Unreleased)
  {
    var lines := t.changelog.value;
    var Split(before, body, after) := UnreleasedSplit(lines).value;
    SplitIs(lines);
    assert Section(t.version) !in before by { assert forall l :: l in before ==> l in lines; }
    ConcatAssociative(before + [Section(t.version)], body, after);
    UnderAfter(before, Section(t.version), body + after);
    BodyOf(body, after);
  }

  /** `notes` lists the subjects, one line each, in order, after `before`. */
  predicate Lists(notes: seq<Line>, before: seq<Line>, subjects: seq<string>) {
    |notes| == |before| + |subjects| && notes[..|before|] == before
    && forall k :: 0 <= k < |subjects| ==> notes[|before| + k] == Note("- " + subjects[k])
  }

  lemma EntriesListed(before: seq<Line>, subjects: seq<string>)
    ensures Lists(before + Entries(subjects), before, subjects)
    ensures forall l :: l in Entries(subjects) ==> l.Note?
  {
  }

  /** A patch's section lists its commits, after the unreleased notes a backport brought, if any. */
  lemma PatchNotes(t: Tree, s: Setting)
    requires Prepared(t, Patch, s).Some?
    requires Section(Prepared(t, Patch, s).value.version) !in t.changelog.value
    ensures var t' := Prepared(t, Patch, s).value;
      var brought := Kept(Under(t.changelog.value, Unreleased));
      Lists(Kept(Under(t'.changelog.value, Section(t'.version))),
            if Unreleased in t.changelog.value then brought + [Commits] else [], s.since.value)
  {
    var lines, v, entries := t.changelog.value, Prepared(t, Patch, s).value.version, Entries(s.since.value);
    SplitWhole(lines);
    EntriesListed([], s.since.value);
    if UnreleasedSplit(lines).None? {
      InsertedUnder(lines, v, entries);
      assert [] + entries == entries;
    } else {
      TakenOverUnder(lines, v, entries);
      EntriesListed(Kept(Under(lines, Unreleased)) + [Commits], s.since.value);
    }
  }

  /** A section put between `before` and `after`. */
  lemma Placed(before: seq<Line>, heading: Line, text: seq<Line>, after: seq<Line>, whole: seq<Line>)
    requires heading !in before && (forall l :: l in text ==> !IsHeading(l)) && (after == [] || IsHeading(after[0]))
    requires whole == before + [heading] + (text + after)
    ensures Under(whole, heading) == text
  {
    UnderAfter(before, heading, text + after);
    BodyOf(text, after);
  }

  lemma Regrouped(before: seq<Line>, heading: Line, entries: seq<Line>, after: seq<Line>)
    ensures before + [heading, Blank] + entries + [Blank] + after
         == before + [heading] + (([Blank] + entries + [Blank]) + after)
    ensures before + [Blank, heading, Blank] + entries == before + [Blank] + [heading] + (([Blank] + entries) + [])
  {
  }

  lemma InsertedUnder(lines: seq<Line>, v: Version, entries: seq<Line>)
    requires Section(v) !in lines && forall l :: l in entries ==> l.Note?
    ensures Kept(Under(Inserted(lines, v, entries), Section(v))) == entries
  {
    var i := if lines == [] then 0 else 1 + BeforeHeading(lines[1..]);
    EntriesKept(entries);
    KeptOne(Blank);
    if i < |lines| {
      BodyIs(lines[1..]);
      assert IsHeading(lines[i..][0]);
      Regrouped(lines[..i], Section(v), entries, lines[i..]);
      Placed(lines[..i], Section(v), [Blank] + entries + [Blank], lines[i..], Inserted(lines, v, entries));
      KeptThree([Blank], entries, [Blank]);
    } else {
      Regrouped(lines, Section(v), entries, []);
      Placed(lines + [Blank], Section(v), [Blank] + entries, [], Inserted(lines, v, entries));
      KeptConcat([Blank], entries);
    }
  }

  lemma TakenOverUnder(lines: seq<Line>, v: Version, entries: seq<Line>)
    requires UnreleasedSplit(lines).Some? && Section(v) !in lines && forall l :: l in entries ==> l.Note?
    ensures Kept(Under(PatchedLog(lines, v, entries), Section(v)))
         == Kept(Under(lines, Unreleased)) + [Commits] + entries
  {
    var Split(before, body, after) := UnreleasedSplit(lines).value;
    SplitIs(lines);
    assert Section(v) !in before by { assert forall l :: l in before ==> l in lines; }
    TakenOverText(before, v, body, entries, after);
    TakenOverKept(body, entries);
  }

  lemma TakenOverText(before: seq<Line>, v: Version, body: seq<Line>, entries: seq<Line>, after: seq<Line>)
    requires Section(v) !in before && (forall l :: l in body ==> !IsHeading(l))
    requires (forall l :: l in entries ==> l.Note?) && (after == [] || IsHeading(after[0]))
    ensures var trimmed := if TrimBlank(body) == [] then [Blank] else TrimBlank(body);
      Under(before + [Section(v)] + trimmed + [Blank, Commits, Blank] + entries + [Blank] + after, Section(v))
      == trimmed + ([Blank, Commits, Blank] + entries + [Blank])
  {
    var trimmed := if TrimBlank(body) == [] then [Blank] else TrimBlank(body);
    TrimBlankWithin(body);
    PatchText(before, Section(v), trimmed, entries, after);
    Placed(before, Section(v), trimmed + ([Blank, Commits, Blank] + entries + [Blank]), after,
           before + [Section(v)] + trimmed + [Blank, Commits, Blank] + entries + [Blank] + after);
  }

  lemma TakenOverKept(body: seq<Line>, entries: seq<Line>)
    requires forall l :: l in entries ==> l.Note?
    ensures var trimmed := if TrimBlank(body) == [] then [Blank] else TrimBlank(body);
      Kept(trimmed + ([Blank, Commits, Blank] + entries + [Blank])) == Kept(body) + [Commits] + entries
  {
    var trimmed := if TrimBlank(body) == [] then [Blank] else TrimBlank(body);
    TrimBlankKeeps(body);
    KeptOne(Blank);
    CommitsKept(entries);
    KeptConcat(trimmed, [Blank, Commits, Blank] + entries + [Blank]);
    ConcatAssociative(Kept(body), [Commits], entries);
  }

  lemma PatchText(before: seq<Line>, heading: Line, text: seq<Line>, entries: seq<Line>, after: seq<Line>)
    ensures before + [heading] + text + [Blank, Commits, Blank] + entries + [Blank] + after
         == before + [heading] + ((text + ([Blank, Commits, Blank] + entries + [Blank])) + after)
  {
  }

  lemma {:induction false} TrimBlankWithin(lines: seq<Line>)
    ensures TrimBlank(lines) <= lines
  {
    if lines != [] && lines[|lines| - 1].Blank? { TrimBlankWithin(lines[..|lines| - 1]); }
  }

  /** A patch of a branch without unreleased notes comes before every other section, except for a heading on
      the first line. */
  lemma PatchOnTop(t: Tree, s: Setting)
    requires Prepared(t, Patch, s).Some? && Unreleased !in t.changelog.value
    ensures var t' := Prepared(t, Patch, s).value;
      var lines := t'.changelog.value;
      exists i :: 0 <= i < |lines| && lines[i] == Section(t'.version)
        && forall k :: 0 < k < i ==> !(lines[k].Unreleased? || lines[k].Section? || lines[k].Heading?)
  {
    var lines, v := t.changelog.value, Prepared(t, Patch, s).value.version;
    SplitWhole(lines);
    var i := if lines == [] then 0 else 1 + BeforeHeading(lines[1..]);
    var whole := Inserted(lines, v, Entries(s.since.value));
    if lines != [] {
      TextBeforeHeading(lines[1..]);
      forall k | 0 < k < i ensures !IsHeading(whole[k]) {
        assert whole[k] == lines[k] == lines[1..][..i - 1][k - 1];
      }
    }
    assert whole[if i < |lines| then i else |lines| + 1] == Section(v);
  }

  // ---------------------------------------------------------------------------------------------
  // Nothing is lost from the changelog
  // ---------------------------------------------------------------------------------------------

  /** The notes and headings other than `## [Unreleased]`: what a reader must not lose. */
  function Kept(lines: seq<Line>): seq<Line> {
    if lines == [] then [] else KeptLine(lines[0]) + Kept(lines[1..])
  }

  function KeptLine(l: Line): seq<Line> { if l.Blank? || l.Unreleased? then [] else [l] }

  lemma {:induction false} KeptConcat(a: seq<Line>, b: seq<Line>)
    ensures Kept(a + b) == Kept(a) + Kept(b)
  {
    if a == [] {
      assert a + b == b;
    } else {
      TailOfConcat(a, b);
      KeptConcat(a[1..], b);
      ConcatAssociative(KeptLine(a[0]), Kept(a[1..]), Kept(b));
    }
  }

  lemma {:induction false} TrimBlankKeeps(lines: seq<Line>)
    ensures Kept(TrimBlank(lines)) == Kept(lines)
  {
    if lines != [] && lines[|lines| - 1].Blank? {
      var n := |lines| - 1;
      assert lines == lines[..n] + [lines[n]];
      KeptConcat(lines[..n], [lines[n]]);
      TrimBlankKeeps(lines[..n]);
      assert Kept([lines[n]]) == [] + Kept([lines[n]][1..]) == [];
    }
  }

  lemma SplitWhole(lines: seq<Line>)
    ensures var parts := UnreleasedSplit(lines);
      parts.Some? ==> lines == parts.value.before + [Unreleased] + parts.value.body + parts.value.after
    ensures UnreleasedSplit(lines).None? <==> Unreleased !in lines
  {
    FirstUnreleased(lines);
  }

  lemma {:induction false} FirstUnreleased(lines: seq<Line>)
    ensures BeforeUnreleased(lines) == |lines| <==> Unreleased !in lines
  {
    if lines != [] && !lines[0].Unreleased? { FirstUnreleased(lines[1..]); }
  }

  /** `a` is what is left of `b` after leaving some lines out: the same lines in the same order. */
  predicate WithinInOrder(a: seq<Line>, b: seq<Line>) {
    a == [] || (b != [] && ((a[0] == b[0] && WithinInOrder(a[1..], b[1..])) || WithinInOrder(a, b[1..])))
  }

  lemma {:induction false} WithinItself(a: seq<Line>)
    ensures WithinInOrder(a, a)
  {
    if a != [] { WithinItself(a[1..]); }
  }

  lemma {:induction false} WithinTransitive(a: seq<Line>, b: seq<Line>, c: seq<Line>)
    requires WithinInOrder(a, b) && WithinInOrder(b, c)
    ensures WithinInOrder(a, c)
    decreases |b| + |c|
  {
    if a != [] {
      if b[0] == c[0] && WithinInOrder(b[1..], c[1..]) {
        if a[0] == b[0] && WithinInOrder(a[1..], b[1..]) {
          WithinTransitive(a[1..], b[1..], c[1..]);
        } else {
          WithinTransitive(a, b[1..], c[1..]);
        }
      } else {
        WithinTransitive(a, b, c[1..]);
      }
    }
  }

  lemma {:induction false} WithinMore(a: seq<Line>, extra: seq<Line>, b: seq<Line>)
    ensures WithinInOrder(a + b, a + extra + b)
    decreases |a| + |extra|
  {
    if a != [] {
      var whole, more := a + b, a + extra + b;
      assert whole[0] == a[0] && whole[1..] == a[1..] + b;
      assert more[0] == a[0] && more[1..] == a[1..] + extra + b;
      WithinMore(a[1..], extra, b);
    } else if extra != [] {
      assert a + b == b && a + extra + b == extra + b;
      assert (extra + b)[1..] == extra[1..] + b && a + extra[1..] + b == extra[1..] + b;
      WithinMore(a, extra[1..], b);
    } else {
      assert a + b == b && a + extra + b == b;
      WithinItself(b);
    }
  }

  lemma {:induction false} WithinContains(a: seq<Line>, b: seq<Line>, l: Line)
    requires WithinInOrder(a, b) && l in a
    ensures l in b
    decreases |b|
  {
    if a[0] == b[0] && WithinInOrder(a[1..], b[1..]) {
      if l != a[0] { WithinContains(a[1..], b[1..], l); }
    } else {
      WithinContains(a, b[1..], l);
    }
  }

  /** An entry is a note. */
  lemma {:induction false} EntriesKept(entries: seq<Line>)
    requires forall l :: l in entries ==> l.Note?
    ensures Kept(entries) == entries
  {
    if entries != [] {
      assert entries == [entries[0]] + entries[1..];
      assert entries[0] in entries;
      EntriesKept(entries[1..]);
    }
  }

  lemma KeptThree(a: seq<Line>, b: seq<Line>, c: seq<Line>)
    ensures Kept(a + b + c) == Kept(a) + Kept(b) + Kept(c)
  {
    KeptConcat(a + b, c);
    KeptConcat(a, b);
  }

  lemma KeptOne(l: Line)
    ensures Kept([l]) == if l.Blank? || l.Unreleased? then [] else [l]
  {
    assert [l][1..] == [];
  }

  lemma KeptTwo(a: Line, b: Line)
    ensures Kept([a, b]) == Kept([a]) + Kept([b])
  {
    assert [a, b] == [a] + [b];
    KeptConcat([a], [b]);
  }

  lemma BlockKept(v: Version, entries: seq<Line>)
    requires forall l :: l in entries ==> l.Note?
    ensures Kept([Section(v), Blank] + entries + [Blank]) == [Section(v)] + entries
    ensures Kept([Blank, Section(v), Blank] + entries) == [Section(v)] + entries
  {
    EntriesKept(entries);
    KeptOne(Blank);
    SectionHeadKept(v);
    KeptThree([Section(v), Blank], entries, [Blank]);
    KeptConcat([Blank, Section(v), Blank], entries);
  }

  lemma SectionHeadKept(v: Version)
    ensures Kept([Section(v), Blank]) == Kept([Blank, Section(v), Blank]) == [Section(v)]
  {
    KeptOne(Section(v));
    KeptOne(Blank);
    KeptTwo(Section(v), Blank);
    assert [Blank, Section(v), Blank] == [Blank] + [Section(v), Blank];
    KeptConcat([Blank], [Section(v), Blank]);
  }

  /** A patch's section and entries stand together, put in at one place. */
  lemma InsertedKeeps(lines: seq<Line>, v: Version, entries: seq<Line>) returns (a: seq<Line>, b: seq<Line>)
    requires forall l :: l in entries ==> l.Note?
    ensures Kept(lines) == a + b
    ensures Kept(Inserted(lines, v, entries)) == a + ([Section(v)] + entries) + b
  {
    var i := if lines == [] then 0 else 1 + BeforeHeading(lines[1..]);
    if i < |lines| {
      var head, tail := lines[..i], lines[i..];
      assert lines == head + tail;
      a, b := Kept(head), Kept(tail);
      KeptConcat(head, tail);
      InsertedBetween(head, tail, v, entries);
    } else {
      a, b := Kept(lines), [];
      assert Kept(lines) + [] == Kept(lines);
      InsertedAtEnd(lines, v, entries);
    }
  }

  lemma InsertedBetween(head: seq<Line>, tail: seq<Line>, v: Version, entries: seq<Line>)
    requires forall l :: l in entries ==> l.Note?
    ensures Kept(head + [Section(v), Blank] + entries + [Blank] + tail)
         == Kept(head) + ([Section(v)] + entries) + Kept(tail)
  {
    BlockKept(v, entries);
    var block := [Section(v), Blank] + entries + [Blank];
    ConcatAssociative(head, [Section(v), Blank], entries);
    ConcatAssociative(head, [Section(v), Blank] + entries, [Blank]);
    KeptThree(head, block, tail);
  }

  lemma InsertedAtEnd(lines: seq<Line>, v: Version, entries: seq<Line>)
    requires forall l :: l in entries ==> l.Note?
    ensures Kept(lines + [Blank, Section(v), Blank] + entries) == Kept(lines) + ([Section(v)] + entries) + []
  {
    BlockKept(v, entries);
    ConcatAssociative(lines, [Blank, Section(v), Blank], entries);
    KeptConcat(lines, [Blank, Section(v), Blank] + entries);
    assert Kept(lines) + ([Section(v)] + entries) + [] == Kept(lines) + ([Section(v)] + entries);
  }

  /** A patch that takes the branch's unreleased notes puts its heading before them and its commits
      after them. */
  lemma TakenOverKeeps(lines: seq<Line>, v: Version, entries: seq<Line>)
    requires UnreleasedSplit(lines).Some? && forall l :: l in entries ==> l.Note?
    ensures var parts := UnreleasedSplit(lines).value;
      Kept(PatchedLog(lines, v, entries))
      == Kept(parts.before) + [Section(v)] + Kept(parts.body) + ([Commits] + entries) + Kept(parts.after)
  {
    var parts := UnreleasedSplit(lines).value;
    var trimmed := if TrimBlank(parts.body) == [] then [Blank] else TrimBlank(parts.body);
    var top := parts.before + [Section(v)] + trimmed;
    TopKept(parts.before, v, parts.body);
    CommitsKept(entries);
    var block := [Blank, Commits, Blank] + entries + [Blank];
    KeptThree(top, block, parts.after);
    ConcatAssociative(top, [Blank, Commits, Blank] + entries, [Blank]);
    ConcatAssociative(top, [Blank, Commits, Blank], entries);
  }

  lemma TopKept(before: seq<Line>, v: Version, body: seq<Line>)
    ensures Kept(before + [Section(v)] + (if TrimBlank(body) == [] then [Blank] else TrimBlank(body)))
         == Kept(before) + [Section(v)] + Kept(body)
  {
    TrimBlankKeeps(body);
    KeptOne(Section(v));
    KeptOne(Blank);
    KeptThree(before, [Section(v)], if TrimBlank(body) == [] then [Blank] else TrimBlank(body));
  }

  lemma CommitsKept(entries: seq<Line>)
    requires forall l :: l in entries ==> l.Note?
    ensures Kept([Blank, Commits, Blank] + entries + [Blank]) == [Commits] + entries
  {
    EntriesKept(entries);
    KeptOne(Blank);
    CommitsHeadKept();
    KeptThree([Blank, Commits, Blank], entries, [Blank]);
  }

  lemma CommitsHeadKept()
    ensures Kept([Blank, Commits, Blank]) == [Commits]
  {
    KeptOne(Blank);
    KeptOne(Commits);
    assert [Blank, Commits, Blank] == [Blank] + [Commits] + [Blank];
    KeptThree([Blank], [Commits], [Blank]);
  }

  /** With its heading replaced or blank, the unreleased section's notes stay between the rest. */
  lemma RenamedKeeps(lines: seq<Line>, heading: Line)
    requires UnreleasedSplit(lines).Some?
    ensures var parts := UnreleasedSplit(lines).value;
      Kept(parts.before + [heading] + parts.body + parts.after)
      == Kept(parts.before) + Kept([heading]) + (Kept(parts.body) + Kept(parts.after))
  {
    var Split(before, body, after) := UnreleasedSplit(lines).value;
    KeptConcat(body, after);
    KeptThree(before, [heading], body + after);
    ConcatAssociative(before + [heading], body, after);
  }

  /** Whatever is prepared, every note and every version's section of the changelog is still there,
      in the order it was in. */
  lemma PreparationKeepsNotes(t: Tree, kind: Kind, s: Setting)
    requires Prepared(t, kind, s).Some?
    ensures var t' := Prepared(t, kind, s).value;
      && t.changelog.Some? && t'.changelog.Some?
      && WithinInOrder(Kept(t.changelog.value), Kept(t'.changelog.value))
      && (kind == Rc ==> t'.changelog == t.changelog)
  {
    match kind
    case Rc => WithinItself(Kept(t.changelog.value));
    case Ga => GaKeepsNotes(t.changelog.value, t.version);
    case Patch =>
      PatchKeepsNotes(t.changelog.value, Prepared(t, kind, s).value.version, Entries(s.since.value));
  }

  lemma GaKeepsNotes(lines: seq<Line>, v: Version)
    requires UnreleasedSplit(lines).Some?
    ensures var parts := UnreleasedSplit(lines).value;
      WithinInOrder(Kept(lines), Kept(parts.before + [Section(v)] + parts.body + parts.after))
  {
    var Split(before, body, after) := UnreleasedSplit(lines).value;
    SplitWhole(lines);
    RenamedKeeps(lines, Unreleased);
    RenamedKeeps(lines, Section(v));
    KeptOne(Unreleased);
    KeptOne(Section(v));
    assert Kept(before) + [] == Kept(before);
    WithinMore(Kept(before), [Section(v)], Kept(body) + Kept(after));
  }

  lemma PatchKeepsNotes(lines: seq<Line>, v: Version, entries: seq<Line>)
    requires forall l :: l in entries ==> l.Note?
    ensures WithinInOrder(Kept(lines), Kept(PatchedLog(lines, v, entries)))
  {
    if UnreleasedSplit(lines).None? {
      var a, b := InsertedKeeps(lines, v, entries);
      WithinMore(a, [Section(v)] + entries, b);
    } else {
      TakenOverKeepsNotes(lines, v, entries);
    }
  }

  lemma TakenOverKeepsNotes(lines: seq<Line>, v: Version, entries: seq<Line>)
    requires UnreleasedSplit(lines).Some? && forall l :: l in entries ==> l.Note?
    ensures WithinInOrder(Kept(lines), Kept(PatchedLog(lines, v, entries)))
  {
    var Split(before, body, after) := UnreleasedSplit(lines).value;
    TakenOverKeeps(lines, v, entries);
    GaKeepsNotes(lines, v);
    RenamedKeeps(lines, Section(v));
    KeptOne(Section(v));
    ConcatAssociative(Kept(before) + [Section(v)], Kept(body), Kept(after));
    var named := Kept(before) + [Section(v)] + Kept(body);
    WithinMore(named, [Commits] + entries, Kept(after));
    WithinTransitive(Kept(lines), named + Kept(after), named + ([Commits] + entries) + Kept(after));
  }

  // ---------------------------------------------------------------------------------------------
  // The cut, and every run after it
  // ---------------------------------------------------------------------------------------------

  /** The release branch's first tree. */
  function CutBranch(source: Tree, major: nat, minor: nat): Tree {
    var v := Version(major, minor, 0);
    Tree(v, Some(Release(v, Some(0))), source.changelog)
  }

  /** main's tree after the cut: the next minor, and the unreleased notes moved under the release's
      heading when they are the ones that were cut. */
  function CutMain(main: Tree, source: Tree, major: nat, minor: nat): Tree {
    var next := main.(version := Version(major, minor + 1, 0));
    if main.changelog.None? || source.changelog.None? then next
    else
      var cur, src := UnreleasedSplit(main.changelog.value), UnreleasedSplit(source.changelog.value);
      if cur.None? || src.None? || cur.value.body != src.value.body then next
      else next.(changelog := Some(cur.value.before + [Unreleased, Blank, Section(Version(major, minor, 0))]
                                   + cur.value.body + cur.value.after))
  }

  /** A cut keeps main's guard and leaves a branch that passes its own. */
  lemma CutGuarded(main: Tree, source: Tree, major: nat, minor: nat)
    requires Guarded(main, None) && main.release.None? && source.changelog.Some?
    ensures Guarded(CutBranch(source, major, minor), None)
    ensures Guarded(CutMain(main, source, major, minor), None)
  {
    var lines := CutMain(main, source, major, minor).changelog.value;
    var cur := UnreleasedSplit(main.changelog.value);
    if cur.Some? && lines != main.changelog.value {
      assert lines[|cur.value.before|] == Unreleased;
    }
  }

  /** The split on main loses no note, and puts the notes that were cut under the release's heading. */
  lemma CutMainKeepsNotes(main: Tree, source: Tree, major: nat, minor: nat)
    requires main.changelog.Some?
    ensures var cut := CutMain(main, source, major, minor);
      && cut.changelog.Some? && WithinInOrder(Kept(main.changelog.value), Kept(cut.changelog.value))
      && (cut.changelog == main.changelog || HasSection(cut.changelog.value, Version(major, minor, 0)))
  {
    var lines := main.changelog.value;
    if CutMain(main, source, major, minor).changelog == main.changelog {
      WithinItself(Kept(lines));
    } else {
      var Split(before, body, after) := UnreleasedSplit(lines).value;
      var v := Version(major, minor, 0);
      GaKeepsNotes(lines, v);
      HeadingKept(Section(v));
      SameKept(before, [Section(v)], [Unreleased, Blank, Section(v)], body, after);
      assert (before + [Unreleased, Blank, Section(v)] + body + after)[|before| + 2] == Section(v);
    }
  }

  /** main moves to the next minor, and its unreleased notes under the release's heading exactly when they
      are those that were cut; nothing is then unreleased. */
  lemma CutMainMoves(main: Tree, source: Tree, major: nat, minor: nat)
    requires main.changelog.Some? && source.changelog.Some?
    requires Section(Version(major, minor, 0)) !in main.changelog.value
    ensures var cut := CutMain(main, source, major, minor);
      var lines, v := main.changelog.value, Version(major, minor, 0);
      && cut.version.major == major && cut.version.minor == minor + 1 && cut.version.patch == 0
      && cut.release == main.release
      && (if Unreleased in lines && Unreleased in source.changelog.value
             && Under(lines, Unreleased) == Under(source.changelog.value, Unreleased)
          then Under(cut.changelog.value, Section(v)) == Under(lines, Unreleased)
               && Kept(Under(cut.changelog.value, Unreleased)) == []
          else cut.changelog == main.changelog)
  {
    var lines, v := main.changelog.value, Version(major, minor, 0);
    SplitWhole(lines);
    SplitWhole(source.changelog.value);
    if Unreleased in lines && Unreleased in source.changelog.value {
      SplitIs(lines);
      SplitIs(source.changelog.value);
      var Split(before, body, after) := UnreleasedSplit(lines).value;
      if Under(lines, Unreleased) == Under(source.changelog.value, Unreleased) {
        assert Section(v) !in before by { assert forall l :: l in before ==> l in lines; }
        CutUnder(before, v, body, after);
      }
    }
  }

  lemma CutUnder(before: seq<Line>, v: Version, body: seq<Line>, after: seq<Line>)
    requires Section(v) !in before && Unreleased !in before && (forall l :: l in body ==> !IsHeading(l))
    requires after == [] || IsHeading(after[0])
    ensures var lines := before + [Unreleased, Blank, Section(v)] + body + after;
      Under(lines, Section(v)) == body && Kept(Under(lines, Unreleased)) == []
  {
    var lines := before + [Unreleased, Blank, Section(v)] + body + after;
    assert lines == (before + [Unreleased, Blank]) + [Section(v)] + (body + after);
    UnderAfter(before + [Unreleased, Blank], Section(v), body + after);
    BodyOf(body, after);
    var rest := [Section(v)] + body + after;
    assert lines == before + [Unreleased] + ([Blank] + rest);
    UnderAfter(before, Unreleased, [Blank] + rest);
    BodyOf([Blank], rest);
    KeptOne(Blank);
  }


  lemma SameKept(before: seq<Line>, one: seq<Line>, other: seq<Line>, body: seq<Line>, after: seq<Line>)
    requires Kept(one) == Kept(other)
    ensures Kept(before + one + body + after) == Kept(before + other + body + after)
  {
    KeptThree(before + one, body, after);
    KeptThree(before + other, body, after);
    KeptConcat(before, one);
    KeptConcat(before, other);
  }

  lemma HeadingKept(heading: Line)
    requires heading.Section?
    ensures Kept([Unreleased, Blank, heading]) == Kept([heading])
  {
    assert [Unreleased, Blank, heading][1..] == [Blank, heading] && [Blank, heading][1..] == [heading];
  }

  datatype Preparation = Preparation(kind: Kind, setting: Setting)

  /** The trees of a run, the first one included; shorter when a preparation does not succeed. */
  function Trees(t: Tree, run: seq<Preparation>): seq<Tree>
    decreases |run|
  {
    if run == [] then [t]
    else
      var next := Prepared(t, run[0].kind, run[0].setting);
      if next.None? then [t] else [t] + Trees(next.value, run[1..])
  }

  /** In every run of preparations from a cut, each tree passes the guard against the tree before it,
      and RELEASE strictly increases from any tree to any later one. */
  lemma {:induction false} RunGuarded(t: Tree, run: seq<Preparation>)
    requires t.release.Some?
    ensures var ts := Trees(t, run);
      && ts[0] == t && (forall i :: 0 <= i < |ts| ==> ts[i].release.Some?)
      && (forall i :: 0 <= i < |ts| - 1 ==> Guarded(ts[i + 1], ts[i].release))
      && (forall i, j :: 0 <= i < j < |ts| ==> Before(ts[i].release.value, ts[j].release.value))
    decreases |run|
  {
    if run != [] {
      var next := Prepared(t, run[0].kind, run[0].setting);
      if next.Some? {
        PreparationGuarded(t, run[0].kind, run[0].setting);
        RunGuarded(next.value, run[1..]);
        var ts, tail := Trees(t, run), Trees(next.value, run[1..]);
        assert forall i :: 0 < i < |ts| ==> ts[i] == tail[i - 1];
        forall i, j | 0 <= i < j < |ts| ensures Before(ts[i].release.value, ts[j].release.value) {
          if i == 0 && j > 1 {
            BeforeStrictOrder(t.release.value, tail[0].release.value, tail[j - 1].release.value);
          }
        }
      }
    }
  }

  lemma CutRunGuarded(source: Tree, major: nat, minor: nat, run: seq<Preparation>)
    requires source.changelog.Some?
    ensures var ts := Trees(CutBranch(source, major, minor), run);
      && Guarded(ts[0], None)
      && (forall i :: 0 <= i < |ts| ==> ts[i].release.Some?)
      && (forall i :: 0 <= i < |ts| - 1 ==> Guarded(ts[i + 1], ts[i].release))
      && (forall i, j :: 0 <= i < j < |ts| ==> Before(ts[i].release.value, ts[j].release.value))
  {
    RunGuarded(CutBranch(source, major, minor), run);
  }

  /** How many of the kinds are patches. */
  function Patches(kinds: seq<Kind>): nat {
    if kinds == [] then 0 else Patches(kinds[..|kinds| - 1]) + (if kinds[|kinds| - 1].Patch? then 1 else 0)
  }

  /** The release a train from a cut has reached after preparations of these kinds. */
  predicate ReachedBy(r: Release, major: nat, minor: nat, kinds: seq<Kind>) {
    r == if Ga in kinds then Release(Version(major, minor, Patches(kinds)), None)
         else Release(Version(major, minor, 0), Some(|kinds|))
  }

  /** In every run from a cut, however far it gets: the candidates are numbered from the cut's rc.0 on
      without a gap, the GA is the version that was cut, and the patches after it are numbered from one on
      without a gap; the crates are at the same version throughout. */
  lemma RunNumbered(source: Tree, major: nat, minor: nat, run: seq<Preparation>, i: nat)
    requires source.changelog.Some? && i < |Trees(CutBranch(source, major, minor), run)|
    ensures var t := Trees(CutBranch(source, major, minor), run)[i];
      && i <= |run| && t.release.Some? && ReachedBy(t.release.value, major, minor, Kinds(run)[..i])
      && t.version == t.release.value.version
  {
    assert Kinds(run)[..0] == [];
    NumberedFrom(CutBranch(source, major, minor), major, minor, [], run, i);
    assert [] + Kinds(run)[..i] == Kinds(run)[..i];
  }

  lemma NextNumbered(t: Tree, major: nat, minor: nat, past: seq<Kind>, kind: Kind, s: Setting)
    requires t.release.Some? && t.version == t.release.value.version && Prepared(t, kind, s).Some?
    requires ReachedBy(t.release.value, major, minor, past) && (Ga !in past ==> Patches(past) == 0)
    ensures var q := Prepared(t, kind, s).value;
      && q.release.Some? && q.version == q.release.value.version
      && ReachedBy(q.release.value, major, minor, past + [kind])
      && (Ga !in past + [kind] ==> Patches(past + [kind]) == 0)
  {
    assert (past + [kind])[..|past|] == past;
    assert Ga in past + [kind] <==> Ga in past || kind == Ga;
  }

  lemma {:induction false} NumberedFrom(t: Tree, major: nat, minor: nat, past: seq<Kind>, run: seq<Preparation>, i: nat)
    requires t.release.Some? && t.version == t.release.value.version
    requires ReachedBy(t.release.value, major, minor, past) && (Ga !in past ==> Patches(past) == 0)
    requires i < |Trees(t, run)|
    ensures var q := Trees(t, run)[i];
      && i <= |run| && q.release.Some? && ReachedBy(q.release.value, major, minor, past + Kinds(run)[..i])
      && q.version == q.release.value.version
    decreases |run|
  {
    if i == 0 {
      assert past + Kinds(run)[..0] == past;
    } else {
      var kind := run[0].kind;
      var next := Prepared(t, kind, run[0].setting).value;
      NextNumbered(t, major, minor, past, kind, run[0].setting);
      NumberedFrom(next, major, minor, past + [kind], run[1..], i - 1);
      KindsNext(past, run, i);
    }
  }

  lemma KindsNext(past: seq<Kind>, run: seq<Preparation>, i: nat)
    requires 0 < i <= |run|
    ensures past + [run[0].kind] + Kinds(run[1..])[..i - 1] == past + Kinds(run)[..i]
  {
    assert Kinds(run)[..i] == [run[0].kind] + Kinds(run[1..])[..i - 1];
    ConcatAssociative(past, [run[0].kind], Kinds(run[1..])[..i - 1]);
  }

  /** The changelog at the end of a run still holds every note it began with, in order, and a section
      for every GA and patch the run released. */
  ghost predicate NotesKept(start: Tree, ts: seq<Tree>)
    requires ts != [] && start.changelog.Some?
  {
    var last := ts[|ts| - 1];
    && last.changelog.Some?
    && WithinInOrder(Kept(start.changelog.value), Kept(last.changelog.value))
    && forall i :: 0 < i < |ts| && ts[i].release.Some? && ts[i].release.value.rc.None? ==>
         HasSection(last.changelog.value, ts[i].version)
  }

  lemma {:induction false} RunKeepsNotes(t: Tree, run: seq<Preparation>)
    requires t.release.Some? && t.changelog.Some?
    ensures NotesKept(t, Trees(t, run))
    decreases |run|
  {
    var next := if run == [] then None else Prepared(t, run[0].kind, run[0].setting);
    if next.None? {
      WithinItself(Kept(t.changelog.value));
    } else {
      PreparationGuarded(t, run[0].kind, run[0].setting);
      PreparationKeepsNotes(t, run[0].kind, run[0].setting);
      RunKeepsNotes(next.value, run[1..]);
      NotesKeptStep(t, next.value, Trees(next.value, run[1..]));
    }
  }

  lemma NotesKeptStep(t: Tree, next: Tree, tail: seq<Tree>)
    requires t.changelog.Some? && next.changelog.Some? && tail != [] && tail[0] == next
    requires WithinInOrder(Kept(t.changelog.value), Kept(next.changelog.value))
    requires next.release.Some? && Guarded(next, t.release)
    requires NotesKept(next, tail)
    ensures NotesKept(t, [t] + tail)
  {
    var last := tail[|tail| - 1].changelog.value;
    WithinTransitive(Kept(t.changelog.value), Kept(next.changelog.value), Kept(last));
    if next.release.value.rc.None? {
      SectionKept(next.changelog.value, next.version);
      WithinContains(Kept(next.changelog.value), Kept(last), Section(next.version));
      SectionKept(last, next.version);
    }
    assert forall i :: 0 < i < |[t] + tail| ==> ([t] + tail)[i] == tail[i - 1];
  }

  lemma {:induction false} SectionKept(lines: seq<Line>, v: Version)
    ensures Section(v) in Kept(lines) <==> HasSection(lines, v)
  {
    if lines != [] {
      SectionKept(lines[1..], v);
      assert lines == [lines[0]] + lines[1..];
    }
  }

  /** The kinds of a run that succeeds to its end: candidates, then one GA, then patches. */
  predicate TrainShape(kinds: seq<Kind>, candidate: bool)
  {
    if kinds == [] then true
    else match kinds[0]
      case Rc => candidate && TrainShape(kinds[1..], true)
      case Ga => candidate && TrainShape(kinds[1..], false)
      case Patch => !candidate && TrainShape(kinds[1..], false)
  }

  function Kinds(run: seq<Preparation>): seq<Kind> {
    seq(|run|, i requires 0 <= i < |run| => run[i].kind)
  }

  lemma {:induction false} RunShape(t: Tree, run: seq<Preparation>)
    requires t.release.Some? && |Trees(t, run)| == |run| + 1
    ensures TrainShape(Kinds(run), t.release.value.rc.Some?)
    decreases |run|
  {
    if run != [] {
      var next := Prepared(t, run[0].kind, run[0].setting);
      assert Kinds(run)[1..] == Kinds(run[1..]);
      RunShape(next.value, run[1..]);
    }
  }
}
