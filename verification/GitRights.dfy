/** Who holds which git right on what, as openvtc-core/src/git_ns.rs reads one `git-ns/view`
answer: containment of resources, a member's own right, and the list of people on a repository. */
module GitRights {
  import opened Common
  import opened Sorting

  /** Weakest first: the derived order of the source's enum. */
  datatype GitRight = CommitSign | RepoMaintain | RepoOwn | RepoCreate | NsAdmin {
    function Rank(): nat {
      match this
      case CommitSign => 0
      case RepoMaintain => 1
      case RepoOwn => 2
      case RepoCreate => 3
      case NsAdmin => 4
    }
  }

  /** A recorded right; `right` is `None` for a wire string that names none of the five. */
  datatype Right = Right(subject: string, right: Option<GitRight>, resource: string, grant: Grant)

  /** What is on record of a grant. A right taken for oneself is ratified once somebody is named. */
  datatype Grant = Grant(
    grantedBy: string, grantedAt: int, expiresAt: Option<int>, reason: Option<string>,
    brokenGlass: Option<Option<string>>)

  datatype Repo = Repo(resource: string, owners: seq<string>, state: RepoState, sync: Sync)

  datatype RepoState = PendingCreate(creation: Creation) | Archived | Detached | Orphaned | Unmanaged | Active

  /** What of a repository's creation is on record: its forge id, and what turns commit trust on. */
  datatype Creation = Creation(forgeId: Option<string>, workflow: bool, keyring: bool, variables: bool, check: bool)

  datatype Sync = Differs(count: nat) | InSync | NotCompared

  datatype Namespace = Namespace(forge: string, owner: string) {
    function Resource(): string { forge + "/" + owner }
  }

  datatype View = View(namespaces: seq<Namespace>, repos: seq<Repo>, rights: seq<Right>)

  // ---------------------------------------------------------------------------------------------
  // Containment
  // ---------------------------------------------------------------------------------------------

  function Slashes(s: string): nat {
    if s == "" then 0 else (if s[0] == '/' then 1 else 0) + Slashes(s[1..])
  }

  /** `outer` is `inner`, or a namespace whose path `inner` goes on from with a slash. */
  predicate Contains(outer: string, inner: string) {
    inner == outer
    || (Slashes(outer) == 1 && outer <= inner && |outer| < |inner| && inner[|outer|] == '/')
  }

  lemma {:induction false} SlashesConcat(a: string, b: string)
    ensures Slashes(a + b) == Slashes(a) + Slashes(b)
  {
    if a == "" {
      assert a + b == b;
    } else {
      TailOfConcat(a, b);
      SlashesConcat(a[1..], b);
    }
  }

  /** Below a strict container there is a slash more than in it. */
  lemma StrictlyContained(outer: string, inner: string)
    requires outer <= inner && |outer| < |inner| && inner[|outer|] == '/'
    ensures Slashes(inner) > Slashes(outer)
  {
    var rest := inner[|outer|..];
    assert inner == outer + rest && rest[0] == '/';
    SlashesConcat(outer, rest);
  }

  lemma ContainsPartialOrder(a: string, b: string, c: string)
    ensures Contains(a, a)
    ensures Contains(a, b) && Contains(b, a) ==> a == b
    ensures Contains(a, b) && Contains(b, c) ==> Contains(a, c)
  {
    if Contains(a, b) && a != b {
      StrictlyContained(a, b);
    }
  }

  /** The containers of one resource are all comparable, so containment is a forest. */
  lemma ContainersComparable(a: string, b: string, r: string)
    requires Contains(a, r) && Contains(b, r)
    ensures Contains(a, b) || Contains(b, a)
  {
    if a != r && b != r && a != b {
      var s, l := if |a| <= |b| then a else b, if |a| <= |b| then b else a;
      assert s == r[..|s|] && l == r[..|l|];
      if |s| < |l| {
        assert l[|s|] == r[|s|] == '/';
        assert s <= l;
        StrictlyContained(s, l);
      }
    }
  }

  /** What a namespace's forge and owner are: path segments. */
  predicate WellFormed(ns: Namespace) { '/' !in ns.forge && '/' !in ns.owner }

  lemma {:induction false} NoSlashes(s: string)
    ensures Slashes(s) == 0 <==> '/' !in s
  {
    if s != "" {
      assert s == [s[0]] + s[1..];
      NoSlashes(s[1..]);
    }
  }

  lemma NamespaceSlashes(ns: Namespace)
    requires WellFormed(ns)
    ensures Slashes(ns.Resource()) == 1
  {
    NoSlashes(ns.forge);
    NoSlashes(ns.owner);
    SlashesConcat(ns.forge, "/");
    SlashesConcat(ns.forge + "/", ns.owner);
    assert "/"[1..] == "" && Slashes("/") == 1;
  }

  /** `<forge>/<owner>` contains itself and every path that goes on below it, and nothing else: not the
      paths of an owner whose name only begins alike. */
  lemma NamespaceContainsIff(forge: string, owner: string, inner: string)
    requires '/' !in forge && '/' !in owner
    ensures Contains(forge + "/" + owner, inner)
       <==> inner == forge + "/" + owner || exists rest: string :: inner == forge + "/" + owner + "/" + rest
  {
    var outer := Namespace(forge, owner).Resource();
    NamespaceSlashes(Namespace(forge, owner));
    if Contains(outer, inner) && inner != outer {
      assert inner == outer + inner[|outer|..] && inner[|outer|..] == "/" + inner[|outer| + 1..];
      assert inner == outer + "/" + inner[|outer| + 1..];
    }
    if rest: string :| inner == outer + "/" + rest {
      assert inner[|outer|] == '/' && inner[..|outer|] == outer;
    }
  }

  /** What is no namespace, a repository, or one in a nested group, or a forge, contains only itself. */
  lemma OthersContainThemselves(outer: string, inner: string)
    requires '/' !in outer || exists a: string, b: string, c: string :: outer == a + "/" + b + "/" + c
    ensures Contains(outer, inner) <==> inner == outer
  {
    if '/' !in outer {
      NoSlashes(outer);
    } else {
      var a: string, b: string, c: string :| outer == a + "/" + b + "/" + c;
      assert outer == a + ("/" + b + ("/" + c));
      SlashesConcat(a, "/" + b + ("/" + c));
      SlashesConcat("/" + b, "/" + c);
    }
  }

  /** Two different namespaces have no resource in common. */
  lemma NamespacesDisjoint(n1: Namespace, n2: Namespace, resource: string)
    requires WellFormed(n1) && WellFormed(n2)
    requires Contains(n1.Resource(), resource) && Contains(n2.Resource(), resource)
    ensures n1.Resource() == n2.Resource()
  {
    NamespaceSlashes(n1);
    NamespaceSlashes(n2);
    var a, b := n1.Resource(), n2.Resource();
    ContainersComparable(a, b, resource);
    if a != b {
      if Contains(a, b) { StrictlyContained(a, b); } else { StrictlyContained(b, a); }
    }
  }

  /** `namespace_of`: the first namespace of the list that contains the resource. */
  function NamespaceOf(namespaces: seq<Namespace>, resource: string): Option<Namespace> {
    if namespaces == [] then None
    else if Contains(namespaces[0].Resource(), resource) then Some(namespaces[0])
    else NamespaceOf(namespaces[1..], resource)
  }

  predicate DistinctResources(namespaces: seq<Namespace>) {
    forall i, j :: 0 <= i < j < |namespaces| ==> namespaces[i].Resource() != namespaces[j].Resource()
  }

  /** Which namespace is found does not depend on where in the list it stands. */
  lemma {:induction false} NamespaceOfIsTheContainer(namespaces: seq<Namespace>, resource: string, ns: Namespace)
    requires DistinctResources(namespaces) && forall n :: n in namespaces ==> WellFormed(n)
    ensures NamespaceOf(namespaces, resource) == Some(ns)
       <==> ns in namespaces && Contains(ns.Resource(), resource)
  {
    if namespaces != [] {
      var first := namespaces[0];
      if Contains(first.Resource(), resource) {
        if ns in namespaces && Contains(ns.Resource(), resource) {
          NamespacesDisjoint(first, ns, resource);
        }
      } else {
        NamespaceOfIsTheContainer(namespaces[1..], resource, ns);
      }
    }
  }

  lemma NamespaceOfOrderIndependent(a: seq<Namespace>, b: seq<Namespace>, resource: string)
    requires DistinctResources(a) && DistinctResources(b)
    requires forall n :: n in a ==> WellFormed(n)
    requires forall n :: n in a <==> n in b
    ensures NamespaceOf(a, resource) == NamespaceOf(b, resource)
  {
    var fa, fb := NamespaceOf(a, resource), NamespaceOf(b, resource);
    if fa.Some? {
      NamespaceOfIsTheContainer(a, resource, fa.value);
      NamespaceOfIsTheContainer(b, resource, fa.value);
    } else if fb.Some? {
      NamespaceOfIsTheContainer(b, resource, fb.value);
      NamespaceOfIsTheContainer(a, resource, fb.value);
    }
  }

  // ---------------------------------------------------------------------------------------------
  // A member's own right on a repository
  // ---------------------------------------------------------------------------------------------

  function Stronger(a: Option<GitRight>, b: Option<GitRight>): Option<GitRight> {
    if a.None? then b else if b.None? then a
    else if a.value.Rank() <= b.value.Rank() then b else a
  }

  /** The right a record gives on `resource`. `repo.create` says nothing about one repository. */
  function Effective(r: Right, resource: string): Option<GitRight> {
    if r.right.None? || r.right.value == RepoCreate || !Contains(r.resource, resource) then None else r.right
  }

  function BestOf(rights: seq<Right>, me: string, resource: string): Option<GitRight> {
    if rights == [] then None
    else Stronger(if rights[0].subject == me then Effective(rights[0], resource) else None,
                  BestOf(rights[1..], me, resource))
  }

  function OwnRight(view: View, me: string, repo: Repo): Option<GitRight> {
    Stronger(if me in repo.owners then Some(RepoOwn) else None, BestOf(view.rights, me, repo.resource))
  }

  /** `my_right_on` as written: one pass over the rights, keeping the best so far. */
  method MyRightOn(view: View, me: string, repo: Repo) returns (best: Option<GitRight>)
    ensures best == OwnRight(view, me, repo)
  {
    best := if me in repo.owners then Some(RepoOwn) else None;
    var rights := view.rights;
    for i := 0 to |rights|
      invariant Stronger(best, BestOf(rights[i..], me, repo.resource)) == OwnRight(view, me, repo)
    {
      var r := rights[i];
      assert rights[i..][0] == r && rights[i..][1..] == rights[i + 1..];
      if r.subject != me || r.right.None? || !Contains(r.resource, repo.resource) {
        continue;
      }
      if r.right.value == RepoCreate {
        continue;
      }
      best := Stronger(best, r.right);
    }
  }

  /** `did` holds `right` on the repository: by being listed as an owner, or by a record on it or
      on its namespace. */
  ghost predicate Holds(view: View, did: string, repo: Repo, right: GitRight) {
    (right == RepoOwn && did in repo.owners)
    || (right != RepoCreate
        && exists r :: r in view.rights && r.subject == did && r.right == Some(right)
                    && Contains(r.resource, repo.resource))
  }

  lemma {:induction false} BestOfIsStrongest(rights: seq<Right>, me: string, resource: string)
    ensures var best := BestOf(rights, me, resource);
      && (best.Some? ==> exists r :: r in rights && r.subject == me && Effective(r, resource) == best)
      && (forall r :: r in rights && r.subject == me && Effective(r, resource).Some? ==>
            best.Some? && Effective(r, resource).value.Rank() <= best.value.Rank())
  {
    if rights != [] {
      BestOfIsStrongest(rights[1..], me, resource);
      var best, tail := BestOf(rights, me, resource), BestOf(rights[1..], me, resource);
      if best.Some? {
        if rights[0].subject == me && Effective(rights[0], resource) == best {
          assert rights[0] in rights;
        } else {
          var r :| r in rights[1..] && r.subject == me && Effective(r, resource) == tail;
          assert r in rights;
        }
      }
    }
  }

  /** The right computed is one held, and no right held is stronger; none exactly when none is. */
  lemma OwnRightIsStrongest(view: View, me: string, repo: Repo)
    ensures var best := OwnRight(view, me, repo);
      && (best.Some? ==> Holds(view, me, repo, best.value))
      && (forall right :: Holds(view, me, repo, right) ==> best.Some? && right.Rank() <= best.value.Rank())
  {
    BestOfIsStrongest(view.rights, me, repo.resource);
  }

  /** So a namespace's admin comes before an owner, an owner before a maintainer, and a maintainer before
      a committer. */
  lemma OwnRightIs(view: View, me: string, repo: Repo)
    ensures OwnRight(view, me, repo)
         == if Holds(view, me, repo, NsAdmin) then Some(NsAdmin)
            else if Holds(view, me, repo, RepoOwn) then Some(RepoOwn)
            else if Holds(view, me, repo, RepoMaintain) then Some(RepoMaintain)
            else if Holds(view, me, repo, CommitSign) then Some(CommitSign)
            else None
  {
    OwnRightIsStrongest(view, me, repo);
    assert !Holds(view, me, repo, RepoCreate);
  }

  // ---------------------------------------------------------------------------------------------
  // The people on a repository
  // ---------------------------------------------------------------------------------------------

  /** A grant as a row shows it. */
  datatype Entry = Entry(
    grantedBy: string, grantedAt: int, expiresAt: Option<int>, reason: Option<string>,
    breakGlass: Option<BreakGlassState>)

  datatype BreakGlassState = Unratified | Ratified

  function Shown(g: Grant): Entry {
    Entry(g.grantedBy, g.grantedAt, g.expiresAt, g.reason,
          match g.brokenGlass
          case None => None
          case Some(ratifiedBy) => Some(if ratifiedBy.Some? then Ratified else Unratified))
  }

  /** One row; `grant` is `None` for an owner named without a record. */
  datatype Person = Person(did: string, right: GitRight, grant: Option<Entry>, namespaceWide: bool)

  /** Strongest right first, then by DID. */
  predicate RowLe(a: Person, b: Person) {
    a.right.Rank() > b.right.Rank() || (a.right == b.right && StringLe(a.did, b.did))
  }

  lemma RowOrder()
    ensures TotalPreorder(RowLe)
  {
    StringOrder();
    forall a: Person, b: Person ensures RowLe(a, b) || RowLe(b, a) {
      assert a.right.Rank() == b.right.Rank() ==> a.right == b.right;
    }
  }

  /** The row of one record, if it reaches the repository. */
  function Row(r: Right, resource: string): seq<Person> {
    var right := Effective(r, resource);
    if right.None? then []
    else [Person(r.subject, right.value, Some(Shown(r.grant)), r.resource != resource)]
  }

  function Recorded(rights: seq<Right>, resource: string): seq<Person> {
    if rights == [] then [] else Row(rights[0], resource) + Recorded(rights[1..], resource)
  }

  lemma RecordedNext(people: seq<Person>, rights: seq<Right>, i: nat, resource: string)
    requires i < |rights|
    ensures people + Recorded(rights[i..], resource)
         == people + Row(rights[i], resource) + Recorded(rights[i + 1..], resource)
  {
    assert rights[i..][0] == rights[i] && rights[i..][1..] == rights[i + 1..];
  }

  lemma OwnersNext(people: seq<Person>, owners: seq<string>, i: nat)
    requires i < |owners|
    ensures WithOwners(people, owners[i..])
         == WithOwners(if ListedAsOwner(people, owners[i]) then people
                       else people + [Person(owners[i], RepoOwn, None, false)], owners[i + 1..])
  {
    assert owners[i..][0] == owners[i] && owners[i..][1..] == owners[i + 1..];
  }

  predicate ListedAsOwner(people: seq<Person>, owner: string) {
    exists i :: 0 <= i < |people| && people[i].did == owner && people[i].right == RepoOwn
  }

  function WithOwners(people: seq<Person>, owners: seq<string>): seq<Person>
    decreases |owners|
  {
    if owners == [] then people
    else if ListedAsOwner(people, owners[0]) then WithOwners(people, owners[1..])
    else WithOwners(people + [Person(owners[0], RepoOwn, None, false)], owners[1..])
  }

  /** The first repository of the list at `resource`. */
  function RepoAt(repos: seq<Repo>, resource: string): Option<Repo> {
    if repos == [] then None
    else if repos[0].resource == resource then Some(repos[0]) else RepoAt(repos[1..], resource)
  }

  function PeopleRows(view: View, resource: string): seq<Person> {
    var repo := RepoAt(view.repos, resource);
    var recorded := Recorded(view.rights, resource);
    Sorted(RowLe, if repo.None? then recorded else WithOwners(recorded, repo.value.owners))
  }

  /** `people_on` as written: collect the records, add the owners not listed, sort. */
  method PeopleOn(view: View, resource: string) returns (people: seq<Person>)
    ensures people == PeopleRows(view, resource)
  {
    people := [];
    var rights := view.rights;
    for i := 0 to |rights|
      invariant people + Recorded(rights[i..], resource) == Recorded(rights, resource)
    {
      var r := rights[i];
      RecordedNext(people, rights, i, resource);
      if Contains(r.resource, resource) && r.right.Some? && r.right.value != RepoCreate {
        people := people + [Person(r.subject, r.right.value, Some(Shown(r.grant)), r.resource != resource)];
      } else {
        assert people + [] == people;
      }
    }
    assert rights[|rights|..] == [] && people + [] == people;
    var repo := RepoAt(view.repos, resource);
    if repo.Some? {
      var owners := repo.value.owners;
      ghost var recorded := people;
      assert owners[0..] == owners;
      for i := 0 to |owners|
        invariant WithOwners(people, owners[i..]) == WithOwners(recorded, owners)
      {
        OwnersNext(people, owners, i);
        if !ListedAsOwner(people, owners[i]) {
          people := people + [Person(owners[i], RepoOwn, None, false)];
        }
      }
      assert owners[|owners|..] == [];
    }
    people := Sorted(RowLe, people);
  }

  predicate Names(p: Person, did: string, right: GitRight) { p.did == did && p.right == right }

  /** The row tells who granted the right, when, until when and why, and, of one taken for oneself, whether
      somebody ratified it. */
  predicate Tells(p: Person, g: Grant) {
    && p.grant.Some? && p.grant.value.grantedBy == g.grantedBy && p.grant.value.grantedAt == g.grantedAt
    && p.grant.value.expiresAt == g.expiresAt && p.grant.value.reason == g.reason
    && (p.grant.value.breakGlass.Some? <==> g.brokenGlass.Some?)
    && (p.grant.value.breakGlass == Some(Ratified) <==> g.brokenGlass.Some? && g.brokenGlass.value.Some?)
  }

  /** `p` is the row of one record, saying whose grant it is and whether it is on the repository itself. */
  predicate RowOf(p: Person, r: Right, resource: string) {
    && p.did == r.subject && r.right == Some(p.right) && p.right != RepoCreate && Contains(r.resource, resource)
    && Tells(p, r.grant) && (p.namespaceWide <==> r.resource != resource)
  }

  ghost predicate RecordRow(rights: seq<Right>, resource: string, p: Person) {
    exists r :: r in rights && RowOf(p, r, resource)
  }

  lemma RowIs(r: Right, resource: string, p: Person)
    ensures p in Row(r, resource) <==> RowOf(p, r, resource)
  {
    TellsIff(p, r.grant);
    if RowOf(p, r, resource) {
      assert p == Person(r.subject, r.right.value, Some(Shown(r.grant)), r.resource != resource);
    }
  }

  lemma TellsIff(p: Person, g: Grant)
    ensures Tells(p, g) <==> p.grant == Some(Shown(g))
  {
    if Tells(p, g) {
      var shown := p.grant.value.breakGlass;
      if shown.Some? { assert shown.value == Ratified || shown.value == Unratified; }
      assert p.grant.value == Shown(g);
    }
  }

  lemma {:induction false} RecordedRows(rights: seq<Right>, resource: string, p: Person)
    ensures p in Recorded(rights, resource) <==> RecordRow(rights, resource, p)
  {
    if rights != [] {
      RecordedRows(rights[1..], resource, p);
      RowIs(rights[0], resource, p);
      if RecordRow(rights, resource, p) {
        var r :| r in rights && RowOf(p, r, resource);
        assert r == rights[0] || r in rights[1..];
      }
    }
  }

  lemma {:induction false} WithOwnersRows(people: seq<Person>, owners: seq<string>, p: Person)
    ensures p in WithOwners(people, owners)
       <==> (p in people
             || (p == Person(p.did, RepoOwn, None, false) && p.did in owners && !ListedAsOwner(people, p.did)))
    decreases |owners|
  {
    if owners != [] {
      var owner := owners[0];
      if ListedAsOwner(people, owner) {
        WithOwnersRows(people, owners[1..], p);
      } else {
        var row := Person(owner, RepoOwn, None, false);
        WithOwnersRows(people + [row], owners[1..], p);
        assert (people + [row])[|people|] == row;
        assert ListedAsOwner(people + [row], p.did) <==> ListedAsOwner(people, p.did) || p.did == owner by {
          if i :| 0 <= i < |people| && people[i].did == p.did && people[i].right == RepoOwn {
            assert (people + [row])[i] == people[i];
          }
        }
      }
    }
  }

  predicate UniqueRepos(repos: seq<Repo>) {
    forall i, j :: 0 <= i < j < |repos| ==> repos[i].resource != repos[j].resource
  }

  lemma {:induction false} RepoAtFinds(repos: seq<Repo>, repo: Repo)
    requires UniqueRepos(repos) && repo in repos
    ensures RepoAt(repos, repo.resource) == Some(repo)
  {
    if repos[0] != repo {
      RepoAtFinds(repos[1..], repo);
    }
  }

  /** A record makes `did` an owner of the repository. */
  ghost predicate OwnerByRecord(rights: seq<Right>, resource: string, did: string) {
    exists r :: r in rights && r.subject == did && r.right == Some(RepoOwn) && Contains(r.resource, resource)
  }

  /** The rows are exactly the records on the repository or its namespace and one row, without a
      grantor, for each owner that no such record makes an owner. */
  lemma PeopleRowsExact(view: View, repo: Repo, p: Person)
    requires UniqueRepos(view.repos) && repo in view.repos
    ensures p in PeopleRows(view, repo.resource)
       <==> (RecordRow(view.rights, repo.resource, p)
             || (p == Person(p.did, RepoOwn, None, false) && p.did in repo.owners
                 && !OwnerByRecord(view.rights, repo.resource, p.did)))
  {
    RepoAtFinds(view.repos, repo);
    var recorded := Recorded(view.rights, repo.resource);
    RowOrder();
    SortedElements(RowLe, WithOwners(recorded, repo.owners));
    WithOwnersRows(recorded, repo.owners, p);
    RecordedRows(view.rights, repo.resource, p);
    OwnerListed(view.rights, repo.resource, p.did);
  }

  /** So the list names a person with a right exactly when they hold it. */
  lemma PeopleRowsNames(view: View, repo: Repo, did: string, right: GitRight)
    requires UniqueRepos(view.repos) && repo in view.repos
    ensures (exists p :: p in PeopleRows(view, repo.resource) && Names(p, did, right))
       <==> Holds(view, did, repo, right)
  {
    if p :| p in PeopleRows(view, repo.resource) && Names(p, did, right) {
      PeopleRowsExact(view, repo, p);
    }
    if r :| r in view.rights && r.subject == did && r.right == Some(right) && right != RepoCreate
          && Contains(r.resource, repo.resource) {
      var row := Row(r, repo.resource)[0];
      RowIs(r, repo.resource, row);
      PeopleRowsExact(view, repo, row);
      assert Names(row, did, right);
    } else if right == RepoOwn && did in repo.owners {
      var row := Person(did, RepoOwn, None, false);
      PeopleRowsExact(view, repo, row);
      assert Names(row, did, right);
    }
  }

  /** The rows of the people on a repository stand strongest right first, then by DID. */
  lemma PeopleOrdered(view: View, resource: string, i: nat, j: nat)
    requires i < j < |PeopleRows(view, resource)|
    ensures var a, b := PeopleRows(view, resource)[i], PeopleRows(view, resource)[j];
      a.right.Rank() > b.right.Rank() || (a.right == b.right && exists k: nat :: FirstDiffers(a.did, b.did, k))
  {
    var repo := RepoAt(view.repos, resource);
    var recorded := Recorded(view.rights, resource);
    RowOrder();
    SortedKeeps(RowLe, if repo.None? then recorded else WithOwners(recorded, repo.value.owners));
    var a, b := PeopleRows(view, resource)[i], PeopleRows(view, resource)[j];
    assert RowLe(a, b);
    StringLeIff(a.did, b.did);
  }

  /** How many of the records give a right on the repository. */
  function Reaching(rights: seq<Right>, resource: string): nat {
    if rights == [] then 0
    else
      var r := rights[0];
      (if r.right.Some? && r.right.value != RepoCreate && Contains(r.resource, resource) then 1 else 0)
      + Reaching(rights[1..], resource)
  }

  lemma {:induction false} RecordedCounted(rights: seq<Right>, resource: string)
    ensures |Recorded(rights, resource)| == Reaching(rights, resource)
  {
    if rights != [] { RecordedCounted(rights[1..], resource); }
  }

  /** The owners whom no row makes one. */
  function Unlisted(people: seq<Person>, owners: seq<string>): set<string> {
    set o | o in owners && !ListedAsOwner(people, o)
  }

  lemma {:induction false} OwnersCounted(people: seq<Person>, owners: seq<string>)
    ensures |WithOwners(people, owners)| == |people| + |Unlisted(people, owners)|
    decreases |owners|
  {
    if owners != [] {
      var owner, rest := owners[0], owners[1..];
      if ListedAsOwner(people, owner) {
        OwnersCounted(people, rest);
        assert Unlisted(people, owners) == Unlisted(people, rest);
      } else {
        var more := people + [Person(owner, RepoOwn, None, false)];
        OwnersCounted(more, rest);
        ListedMore(people, owner);
        assert Unlisted(people, owners) == Unlisted(more, rest) + {owner};
      }
    }
  }

  lemma ListedMore(people: seq<Person>, owner: string)
    ensures forall o :: ListedAsOwner(people + [Person(owner, RepoOwn, None, false)], o)
                   <==> ListedAsOwner(people, o) || o == owner
  {
    var row := Person(owner, RepoOwn, None, false);
    var more := people + [row];
    assert more[|people|] == row;
    forall o ensures ListedAsOwner(more, o) <==> ListedAsOwner(people, o) || o == owner {
      if i :| 0 <= i < |people| && people[i].did == o && people[i].right == RepoOwn { assert more[i] == people[i]; }
    }
  }

  /** There are as many rows as records that reach the repository, and owners that none of these makes
      one. */
  lemma PeopleCounted(view: View, repo: Repo)
    requires UniqueRepos(view.repos) && repo in view.repos
    ensures |PeopleRows(view, repo.resource)|
         == Reaching(view.rights, repo.resource)
            + |(set o | o in repo.owners && !OwnerByRecord(view.rights, repo.resource, o))|
  {
    RepoAtFinds(view.repos, repo);
    var recorded := Recorded(view.rights, repo.resource);
    RecordedCounted(view.rights, repo.resource);
    OwnersCounted(recorded, repo.owners);
    RowOrder();
    SortedKeeps(RowLe, WithOwners(recorded, repo.owners));
    assert |multiset(PeopleRows(view, repo.resource))| == |multiset(WithOwners(recorded, repo.owners))|;
    forall o | o in repo.owners
      ensures ListedAsOwner(recorded, o) <==> OwnerByRecord(view.rights, repo.resource, o)
    {
      OwnerListed(view.rights, repo.resource, o);
    }
    assert Unlisted(recorded, repo.owners)
        == set o | o in repo.owners && !OwnerByRecord(view.rights, repo.resource, o);
  }

  lemma OwnerListed(rights: seq<Right>, resource: string, owner: string)
    ensures ListedAsOwner(Recorded(rights, resource), owner) <==> OwnerByRecord(rights, resource, owner)
  {
    var recorded := Recorded(rights, resource);
    if i :| 0 <= i < |recorded| && recorded[i].did == owner && recorded[i].right == RepoOwn {
      RecordedRows(rights, resource, recorded[i]);
      var r :| r in rights && RowOf(recorded[i], r, resource);
    }
    if r :| r in rights && r.subject == owner && r.right == Some(RepoOwn) && Contains(r.resource, resource) {
      var row := Row(r, resource)[0];
      RowIs(r, resource, row);
      RecordedRows(rights, resource, row);
      var i :| 0 <= i < |recorded| && recorded[i] == row;
    }
  }

  /** The right on the first row naming `did`. */
  function FirstRow(people: seq<Person>, did: string): Option<GitRight> {
    if people == [] then None
    else if people[0].did == did then Some(people[0].right) else FirstRow(people[1..], did)
  }

  lemma {:induction false} FirstRowIsStrongest(people: seq<Person>, did: string)
    requires Ordered(RowLe, people)
    ensures var first := FirstRow(people, did);
      && (first.Some? ==> exists p :: p in people && Names(p, did, first.value))
      && (forall p :: p in people && p.did == did ==> first.Some? && p.right.Rank() <= first.value.Rank())
  {
    if people != [] {
      if people[0].did == did {
        assert people[0] in people && Names(people[0], did, people[0].right);
        forall p | p in people && p.did == did ensures p.right.Rank() <= people[0].right.Rank() {
          var i :| 0 <= i < |people| && people[i] == p;
          assert i > 0 ==> RowLe(people[0], people[i]);
        }
      } else {
        FirstRowIsStrongest(people[1..], did);
        var first := FirstRow(people[1..], did);
        if first.Some? {
          var p :| p in people[1..] && Names(p, did, first.value);
          assert p in people;
        }
      }
    }
  }

  lemma RankInjective(a: GitRight, b: GitRight)
    requires a.Rank() == b.Rank()
    ensures a == b
  {
  }

  /** The two views agree: a member's own right on a repository is the right on the first row of its
      people that names them, and there is none exactly when no row does. */
  lemma OwnRightHeadsThePeople(view: View, me: string, repo: Repo)
    requires UniqueRepos(view.repos) && repo in view.repos
    ensures OwnRight(view, me, repo) == FirstRow(PeopleRows(view, repo.resource), me)
  {
    var people := PeopleRows(view, repo.resource);
    var first, best := FirstRow(people, me), OwnRight(view, me, repo);
    RowOrder();
    RepoAtFinds(view.repos, repo);
    SortedKeeps(RowLe, WithOwners(Recorded(view.rights, repo.resource), repo.owners));
    FirstRowIsStrongest(people, me);
    OwnRightIsStrongest(view, me, repo);
    if first.Some? { PeopleRowsNames(view, repo, me, first.value); }
    if best.Some? { PeopleRowsNames(view, repo, me, best.value); }
    if first.Some? && best.Some? { RankInjective(first.value, best.value); }
  }

  // ---------------------------------------------------------------------------------------------
  // My repositories
  // ---------------------------------------------------------------------------------------------

  datatype RepoStatus =
    | Creating(done: nat, total: nat) | Matching | Drift(count: nat) | Checking
    | IsArchived | IsDetached | IsOrphaned | IsUnmanaged

  /** The steps of creating a repository, and whether each is done; its name is reserved by then. */
  function CreationSteps(c: Creation): seq<bool> {
    [true, c.forgeId.Some?, c.workflow, c.keyring, c.variables, c.check]
  }

  function Count(steps: seq<bool>): nat {
    if steps == [] then 0 else (if steps[0] then 1 else 0) + Count(steps[1..])
  }

  /** A creation shows as many steps done as are, at least one, and all of them only when all are. */
  lemma {:induction false} CountShows(steps: seq<bool>)
    ensures Count(steps) <= |steps|
    ensures Count(steps) == |steps| <==> forall i :: 0 <= i < |steps| ==> steps[i]
    ensures Count(steps) > 0 <==> true in steps
  {
    if steps != [] {
      CountShows(steps[1..]);
      assert steps == [steps[0]] + steps[1..];
    }
  }

  function StatusOf(repo: Repo): RepoStatus {
    match repo.state
    case PendingCreate(c) => Creating(Count(CreationSteps(c)), |CreationSteps(c)|)
    case Archived => IsArchived
    case Detached => IsDetached
    case Orphaned => IsOrphaned
    case Unmanaged => IsUnmanaged
    case Active => (
      match repo.sync
      case Differs(count) => Drift(count)
      case InSync => Matching
      case NotCompared => Checking)
  }

  /** A creation shows all its six steps done exactly when the forge has made the repository and commit
      trust is on; any other state shows as itself, and an active repository as its trust list compares. */
  lemma StatusSays(repo: Repo)
    ensures repo.state.PendingCreate? ==>
      var c, status := repo.state.creation, StatusOf(repo);
      && status.Creating? && status.total == 6 && 1 <= status.done <= 6
      && (status.done == 6 <==> c.forgeId.Some? && c.workflow && c.keyring && c.variables && c.check)
    ensures StatusOf(repo).Creating? <==> repo.state.PendingCreate?
    ensures StatusOf(repo).IsArchived? <==> repo.state.Archived?
    ensures StatusOf(repo).IsDetached? <==> repo.state.Detached?
    ensures StatusOf(repo).IsOrphaned? <==> repo.state.Orphaned?
    ensures StatusOf(repo).IsUnmanaged? <==> repo.state.Unmanaged?
    ensures forall n :: StatusOf(repo) == Drift(n) <==> repo.state.Active? && repo.sync == Differs(n)
    ensures StatusOf(repo).Matching? <==> repo.state.Active? && repo.sync.InSync?
  {
    if repo.state.PendingCreate? {
      var c := repo.state.creation;
      var steps := CreationSteps(c);
      CountShows(steps);
      assert steps[0] && steps[1] == c.forgeId.Some? && steps[2] == c.workflow && steps[3] == c.keyring
          && steps[4] == c.variables && steps[5] == c.check;
    }
  }

  datatype MyRepo = MyRepo(resource: string, right: GitRight, status: RepoStatus)

  predicate MyRepoLe(a: MyRepo, b: MyRepo) {
    a.right.Rank() > b.right.Rank() || (a.right == b.right && StringLe(a.resource, b.resource))
  }

  lemma MyRepoOrder()
    ensures TotalPreorder(MyRepoLe)
  {
    StringOrder();
    forall a: MyRepo, b: MyRepo ensures MyRepoLe(a, b) || MyRepoLe(b, a) {
      assert a.right.Rank() == b.right.Rank() ==> a.right == b.right;
    }
  }

  /** The row of a repository, for a member with a right on it. */
  function MineOn(view: View, me: string, repo: Repo): seq<MyRepo> {
    var right := OwnRight(view, me, repo);
    if right.None? then [] else [MyRepo(repo.resource, right.value, StatusOf(repo))]
  }

  function MineOf(view: View, me: string, repos: seq<Repo>): seq<MyRepo> {
    if repos == [] then [] else MineOn(view, me, repos[0]) + MineOf(view, me, repos[1..])
  }

  function MyRepoRows(view: View, me: string): seq<MyRepo> { Sorted(MyRepoLe, MineOf(view, me, view.repos)) }

  /** `my_repos` as written: keep the repositories with any right of `me`, and sort. */
  method MyRepos(view: View, me: string) returns (mine: seq<MyRepo>)
    ensures mine == MyRepoRows(view, me)
  {
    mine := [];
    var repos := view.repos;
    for i := 0 to |repos|
      invariant mine + MineOf(view, me, repos[i..]) == MineOf(view, me, repos)
    {
      MineNext(mine, view, me, repos, i);
      var right := MyRightOn(view, me, repos[i]);
      if right.Some? {
        mine := mine + [MyRepo(repos[i].resource, right.value, StatusOf(repos[i]))];
      } else {
        assert mine + [] == mine;
      }
    }
    assert repos[|repos|..] == [] && mine + [] == mine;
    mine := Sorted(MyRepoLe, mine);
  }

  lemma MineNext(mine: seq<MyRepo>, view: View, me: string, repos: seq<Repo>, i: nat)
    requires i < |repos|
    ensures mine + MineOf(view, me, repos[i..]) == mine + MineOn(view, me, repos[i]) + MineOf(view, me, repos[i + 1..])
  {
    assert repos[i..][0] == repos[i] && repos[i..][1..] == repos[i + 1..];
  }

  ghost predicate IsMine(view: View, me: string, repos: seq<Repo>, m: MyRepo) {
    exists repo :: repo in repos && MineOn(view, me, repo) == [m]
  }

  lemma {:induction false} MineOfContains(view: View, me: string, repos: seq<Repo>, m: MyRepo)
    ensures m in MineOf(view, me, repos) <==> IsMine(view, me, repos, m)
  {
    if repos != [] {
      MineOfContains(view, me, repos[1..], m);
      if repo :| repo in repos && MineOn(view, me, repo) == [m] {
        assert repo == repos[0] || repo in repos[1..];
      }
      assert repos[0] in repos;
    }
  }

  /** The rows are exactly those of the repositories the member holds a right on, one for each
      repository, strongest first, then by name. */
  lemma MyRepoRowsExact(view: View, me: string, m: MyRepo)
    ensures forall i, j :: 0 <= i < j < |MyRepoRows(view, me)| ==>
      var a, b := MyRepoRows(view, me)[i], MyRepoRows(view, me)[j];
      a.right.Rank() > b.right.Rank() || (a.right == b.right && StringLe(a.resource, b.resource))
    ensures m in MyRepoRows(view, me) <==> IsMine(view, me, view.repos, m)
    ensures UniqueRepos(view.repos) ==> multiset(MyRepoRows(view, me))[m] <= 1
  {
    MyRepoOrder();
    var rows := MineOf(view, me, view.repos);
    SortedKeeps(MyRepoLe, rows);
    SortedElements(MyRepoLe, rows);
    MineOfContains(view, me, view.repos, m);
    assert forall i, j :: 0 <= i < j < |MyRepoRows(view, me)| ==>
      MyRepoLe(MyRepoRows(view, me)[i], MyRepoRows(view, me)[j]);
    if UniqueRepos(view.repos) { MineOnce(view, me, view.repos, m); }
  }

  lemma {:induction false} MineOnce(view: View, me: string, repos: seq<Repo>, m: MyRepo)
    requires UniqueRepos(repos)
    ensures multiset(MineOf(view, me, repos))[m] <= 1
  {
    if repos != [] {
      var first, rest := MineOn(view, me, repos[0]), MineOf(view, me, repos[1..]);
      assert forall i :: 0 <= i < |repos[1..]| ==> repos[1..][i] == repos[i + 1];
      MineOnce(view, me, repos[1..], m);
      MineOfContains(view, me, repos[1..], m);
      assert multiset(first + rest) == multiset(first) + multiset(rest);
      if m in rest {
        var repo :| repo in repos[1..] && MineOn(view, me, repo) == [m];
        var i :| 0 <= i < |repos[1..]| && repos[1..][i] == repo;
        assert repos[0].resource != repos[i + 1].resource;
        assert first != [m];
      } else {
        assert multiset(rest)[m] == 0;
      }
    }
  }

  /** A repository is on the member's list, with a right, exactly when the people on it name the
      member and that right stands on the first such row. */
  lemma MyReposMatchPeople(view: View, me: string, m: MyRepo)
    requires UniqueRepos(view.repos)
    ensures m in MyRepoRows(view, me) <==>
      (exists repo :: repo in view.repos && repo.resource == m.resource && StatusOf(repo) == m.status)
      && FirstRow(PeopleRows(view, m.resource), me) == Some(m.right)
  {
    MyRepoRowsExact(view, me, m);
    forall repo | repo in view.repos
      ensures OwnRight(view, me, repo) == FirstRow(PeopleRows(view, repo.resource), me)
    {
      OwnRightHeadsThePeople(view, me, repo);
    }
  }
}
