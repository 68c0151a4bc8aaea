/** A device's access to one community's context and its revocation, as
openvtc-core/src/community_access.rs reads and changes the VTA's access list. An empty context list
means everywhere for an admin and nowhere for every other role. */
module DeviceAccess {
  import opened Common
  import opened Sorting

  datatype Entry = Entry(did: string, role: string, contexts: seq<string>)

  datatype ActScope = All | Nowhere | Contexts(named: seq<string>)

  const DEVICE_ROLE: string := "application"

  // ---------------------------------------------------------------------------------------------
  // Scopes
  // ---------------------------------------------------------------------------------------------

  /** A context covers itself and the contexts beneath it, segment by segment. */
  predicate AncestorOrSelf(a: string, c: string) { c == a || a + "/" <= c }

  function Scope(e: Entry): ActScope {
    if e.contexts == [] then (if e.role == "admin" then All else Nowhere) else Contexts(e.contexts)
  }

  /** The entry names a context at or beneath `context`. */
  predicate ActsWithin(scope: ActScope, context: string) {
    scope.Contexts? && exists i :: 0 <= i < |scope.named| && AncestorOrSelf(context, scope.named[i])
  }

  /** The entry may act in `x`. */
  predicate ActsIn(scope: ActScope, x: string) {
    match scope
    case All => true
    case Nowhere => false
    case Contexts(named) => exists i :: 0 <= i < |named| && AncestorOrSelf(named[i], x)
  }

  /** An admin whose entry names no context may act everywhere; anybody else at and beneath the contexts
      their entry names. */
  lemma ActsIff(e: Entry, x: string)
    ensures ActsIn(Scope(e), x)
       <==> (e.role == "admin" && e.contexts == []) || exists c :: c in e.contexts && AncestorOrSelf(c, x)
  {
    if c :| c in e.contexts && AncestorOrSelf(c, x) {
      var i :| 0 <= i < |e.contexts| && e.contexts[i] == c;
      assert AncestorOrSelf(e.contexts[i], x);
    }
  }

  lemma AncestorTransitive(a: string, b: string, c: string)
    requires AncestorOrSelf(a, b) && AncestorOrSelf(b, c)
    ensures AncestorOrSelf(a, c)
  {
    if a != b && b != c {
      assert (a + "/") <= b && b + "/" <= c;
      assert b <= b + "/";
    }
  }

  // ---------------------------------------------------------------------------------------------
  // Grants
  // ---------------------------------------------------------------------------------------------

  datatype Grant = Grant(did: string, role: string, contexts: seq<string>, elsewhere: seq<string>)

  function Inside(context: string, named: seq<string>): seq<string> {
    if named == [] then []
    else (if AncestorOrSelf(context, named[0]) then [named[0]] else []) + Inside(context, named[1..])
  }

  function Outside(context: string, named: seq<string>): seq<string> {
    if named == [] then []
    else (if AncestorOrSelf(context, named[0]) then [] else [named[0]]) + Outside(context, named[1..])
  }

  function GrantIn(e: Entry, context: string): Option<Grant> {
    if !ActsWithin(Scope(e), context) then None
    else Some(Grant(e.did, e.role, Inside(context, e.contexts), Outside(context, e.contexts)))
  }

  predicate ByDid(a: Grant, b: Grant) { StringLe(a.did, b.did) }

  function Collected(entries: seq<Entry>, context: string, own: Option<string>): seq<Grant> {
    if entries == [] then []
    else
      var g := GrantIn(entries[0], context);
      (if own != Some(entries[0].did) && g.Some? then [g.value] else []) + Collected(entries[1..], context, own)
  }

  /** `grants_in`: the grants inside the context, by DID, never the caller's own. */
  function GrantsIn(entries: seq<Entry>, context: string, own: Option<string>): seq<Grant> {
    Sorted(ByDid, Collected(entries, context, own))
  }

  lemma {:induction false} CollectedContains(entries: seq<Entry>, context: string, own: Option<string>, g: Grant)
    ensures g in Collected(entries, context, own)
       <==> exists e :: e in entries && own != Some(e.did) && GrantIn(e, context) == Some(g)
  {
    if entries != [] {
      CollectedContains(entries[1..], context, own, g);
      if e :| e in entries && own != Some(e.did) && GrantIn(e, context) == Some(g) {
        assert e == entries[0] || e in entries[1..];
      }
    }
  }

  /** `e` names a context at or beneath `context`. */
  predicate NamesInside(e: Entry, context: string) { exists c :: c in e.contexts && AncestorOrSelf(context, c) }

  /** `g` shows what `e` holds: under its DID and role, the contexts it names at or beneath `context`, and
      apart from these the ones it names elsewhere. */
  predicate GrantOf(g: Grant, e: Entry, context: string) {
    && g.did == e.did && g.role == e.role && g.contexts != []
    && (forall c :: c in g.contexts ==> AncestorOrSelf(context, c))
    && (forall c :: c in g.elsewhere ==> !AncestorOrSelf(context, c))
    && multiset(g.contexts) + multiset(g.elsewhere) == multiset(e.contexts)
  }

  lemma GrantInIs(e: Entry, context: string)
    ensures GrantIn(e, context).Some? <==> NamesInside(e, context)
    ensures GrantIn(e, context).Some? ==> GrantOf(GrantIn(e, context).value, e, context)
  {
    NamesWithin(e.contexts, e.role, context);
    assert e == Entry(e.did, e.role, e.contexts);
    OutsideExact(context, e.contexts);
    InsideExact(context, e.contexts);
    if c :| c in e.contexts && AncestorOrSelf(context, c) { assert c in Inside(context, e.contexts); }
  }

  lemma {:induction false} InsideExact(context: string, named: seq<string>)
    ensures forall c :: c in Inside(context, named) <==> c in named && AncestorOrSelf(context, c)
  {
    if named != [] { InsideExact(context, named[1..]); }
  }

  /** How many entries of others name a context inside. */
  function Holders(entries: seq<Entry>, context: string, own: Option<string>): nat {
    if entries == [] then 0
    else (if own != Some(entries[0].did) && NamesInside(entries[0], context) then 1 else 0)
         + Holders(entries[1..], context, own)
  }

  lemma {:induction false} CollectedCounted(entries: seq<Entry>, context: string, own: Option<string>)
    ensures |Collected(entries, context, own)| == Holders(entries, context, own)
  {
    if entries != [] {
      GrantInIs(entries[0], context);
      CollectedCounted(entries[1..], context, own);
    }
  }

  /** The list shows one grant for each entry of another DID that names a context inside, and no other, in
      the order of the DIDs. */
  lemma GrantsInExact(entries: seq<Entry>, context: string, own: Option<string>)
    ensures var gs := GrantsIn(entries, context, own);
      && |gs| == Holders(entries, context, own)
      && (forall i, j :: 0 <= i < j < |gs| ==> StringLe(gs[i].did, gs[j].did))
      && (forall g :: g in gs ==> exists e :: e in entries && own != Some(e.did) && GrantOf(g, e, context))
      && (forall e :: e in entries && own != Some(e.did) && NamesInside(e, context)
            ==> exists g :: g in gs && GrantOf(g, e, context))
  {
    var gs := GrantsIn(entries, context, own);
    StringOrder();
    SortedKeeps(ByDid, Collected(entries, context, own));
    CollectedCounted(entries, context, own);
    assert |multiset(gs)| == |multiset(Collected(entries, context, own))|;
    forall i, j | 0 <= i < j < |gs| ensures StringLe(gs[i].did, gs[j].did) { assert ByDid(gs[i], gs[j]); }
    forall g | g in gs ensures exists e :: e in entries && own != Some(e.did) && GrantOf(g, e, context) {
      Listed(entries, context, own, g);
      var e :| e in entries && own != Some(e.did) && GrantIn(e, context) == Some(g);
      GrantInIs(e, context);
    }
    forall e | e in entries && own != Some(e.did) && NamesInside(e, context)
      ensures exists g :: g in gs && GrantOf(g, e, context)
    {
      GrantInIs(e, context);
      Listed(entries, context, own, GrantIn(e, context).value);
    }
  }

  lemma Listed(entries: seq<Entry>, context: string, own: Option<string>, g: Grant)
    ensures g in GrantsIn(entries, context, own)
       <==> exists e :: e in entries && own != Some(e.did) && GrantIn(e, context) == Some(g)
  {
    StringOrder();
    SortedElements(ByDid, Collected(entries, context, own));
    CollectedContains(entries, context, own, g);
  }

  // ---------------------------------------------------------------------------------------------
  // Revoking
  // ---------------------------------------------------------------------------------------------

  datatype Revocation = Delete | Narrow(rest: seq<string>)

  function HowToRevoke(g: Grant): Revocation {
    if g.elsewhere == [] then Delete else Narrow(g.elsewhere)
  }

  datatype Revoked = Deleted | Narrowed(rest: seq<string>) | AlreadyGone

  datatype Result = Ok(revoked: Revoked) | Err(why: string)

  type Acl = map<string, Entry>

  /** What becomes of the entry between the lookup and the change: nothing, it goes away, or others give
      it other contexts. */
  datatype Between = Untouched | Swept | Rewritten(contexts: seq<string>)

  function Meanwhile(acl: Acl, did: string, between: Between): Acl
    requires did in acl
  {
    match between
    case Untouched => acl
    case Swept => acl - {did}
    case Rewritten(contexts) => acl[did := acl[did].(contexts := contexts)]
  }

  class Vta {
    var acl: Acl

    /** `revoke_device_grant` as written. `answers` and `obeys` say whether the VTA answers the
        lookup and carries out the change. */
    method RevokeDeviceGrant(caller: Option<string>, context: string, did: string,
                             answers: bool, obeys: bool, between: Between) returns (r: Result)
      modifies this
      ensures r.Ok? <==> (
        && caller != Some(did) && answers
        && (did in old(acl) ==> obeys && MayRevoke(old(acl)[did], context, between)))
      ensures r.Ok? && did !in old(acl) ==> r.revoked == AlreadyGone && acl == old(acl)
      ensures r.Ok? && did in old(acl) ==> (
        var found := old(acl)[did];
        && acl == Changed(Meanwhile(old(acl), did, between), did, found, context)
        && (if AllInside(found, context) then r.revoked == Deleted && did !in acl
            else r.revoked == Narrowed(Outside(context, found.contexts))
                 && acl == old(acl)[did := found.(contexts := r.revoked.rest)]))
      ensures r.Err? ==> acl == old(acl) || (did in old(acl) && acl == Meanwhile(old(acl), did, between))
      ensures forall k :: k != did ==> (k in acl <==> k in old(acl)) && (k in acl ==> acl[k] == old(acl)[k])
    {
      if caller == Some(did) {
        return Err("that is the DID OpenVTC itself uses at your VTA");
      }
      if !answers {
        return Err("read the device's access");
      }
      if did !in acl {
        return Ok(AlreadyGone);
      }
      var entry := acl[did];
      var grant := GrantIn(entry, context);
      HowIs(entry, context);
      if grant.None? {
        return Err("no longer holds access");
      }
      acl := Meanwhile(acl, did, between);
      match HowToRevoke(grant.value) {
        case Delete =>
          if !obeys {
            return Err("revoke device access");
          }
          // An entry that is not there counts as deleted.
          acl := acl - {did};
          r := Ok(Deleted);
        case Narrow(rest) =>
          if !obeys || did !in acl {
            return Err("narrow device access");
          }
          acl := acl[did := acl[did].(contexts := rest)];
          r := Ok(Narrowed(rest));
      }
    }
  }

  /** The entry names no context but the community's. */
  predicate AllInside(e: Entry, context: string) { forall c :: c in e.contexts ==> AncestorOrSelf(context, c) }

  /** An entry that is narrowed must still be there for it. */
  predicate MayRevoke(e: Entry, context: string, between: Between) {
    NamesInside(e, context) && (between.Swept? ==> AllInside(e, context))
  }

  lemma HowIs(e: Entry, context: string)
    ensures GrantIn(e, context).Some? <==> NamesInside(e, context)
    ensures GrantIn(e, context).Some? ==>
      var how := HowToRevoke(GrantIn(e, context).value);
      how == if AllInside(e, context) then Delete else Narrow(Outside(context, e.contexts))
  {
    GrantInIs(e, context);
    NotAllInside(context, e.contexts);
  }

  /** When nobody rewrote the entry meanwhile, a successful revocation leaves the list as the revocation of
      the entry by itself does. */
  lemma RevokedAsRead(acl: Acl, did: string, context: string, between: Between)
    requires did in acl && MayRevoke(acl[did], context, between) && !between.Rewritten?
    ensures Changed(Meanwhile(acl, did, between), did, acl[did], context) == RevokedAcl(acl, context, did)
  {
    HowIs(acl[did], context);
  }

  /** The list after the change that revokes the entry as it was read, `acl` being the list by then. */
  function Changed(acl: Acl, did: string, read: Entry, context: string): Acl {
    var grant := GrantIn(read, context);
    if grant.None? then acl
    else match HowToRevoke(grant.value)
      case Delete => acl - {did}
      case Narrow(rest) => if did in acl then acl[did := acl[did].(contexts := rest)] else acl
  }

  /** Two revocations of one device that both read its entry before either changed it: the later puts
      back what the earlier took away, exactly when the earlier narrowed the entry and the entry names a
      context of its community that is not of the later's. */
  lemma TwoAtOnceIff(acl: Acl, did: string, first: string, second: string)
    requires did in acl && GrantIn(acl[did], first).Some? && GrantIn(acl[did], second).Some?
    ensures var after := Changed(Changed(acl, did, acl[did], first), did, acl[did], second);
      (did in after && GrantIn(after[did], first).Some?)
      <==> ((exists c :: c in acl[did].contexts && !AncestorOrSelf(first, c))
            && (exists c :: c in acl[did].contexts && AncestorOrSelf(first, c) && !AncestorOrSelf(second, c)))
  {
    var named := acl[did].contexts;
    OutsideExact(first, named);
    OutsideExact(second, named);
    NotAllInside(first, named);
    NotAllInside(second, named);
    var rest := Outside(second, named);
    NamesWithin(rest, acl[did].role, first);
    assert (exists c :: c in rest && AncestorOrSelf(first, c))
      <==> exists c :: c in named && AncestorOrSelf(first, c) && !AncestorOrSelf(second, c);
  }

  lemma NotAllInside(context: string, named: seq<string>)
    ensures Outside(context, named) != [] <==> exists c :: c in named && !AncestorOrSelf(context, c)
  {
    OutsideExact(context, named);
    var rest := Outside(context, named);
    if rest != [] { assert rest[0] in rest; }
  }

  lemma NamesWithin(named: seq<string>, role: string, context: string)
    ensures forall did :: (GrantIn(Entry(did, role, named), context).Some?
      <==> exists c :: c in named && AncestorOrSelf(context, c))
  {
    if c :| c in named && AncestorOrSelf(context, c) {
      var i :| 0 <= i < |named| && named[i] == c;
    }
  }

  /** One after the other, neither comes back. */
  lemma OneAfterTheOther(acl: Acl, did: string, first: string, second: string)
    requires did in acl && GrantIn(acl[did], first).Some?
    ensures var after := RevokedAcl(RevokedAcl(acl, first, did), second, did);
      did in after ==> GrantIn(after[did], first).None? && GrantIn(after[did], second).None?
  {
    var once := RevokedAcl(acl, first, did);
    RevocationExact(acl, first, did);
    if did in once && GrantIn(once[did], second).Some? {
      var after := RevokedAcl(once, second, did);
      RevocationExact(once, second, did);
      if did in after {
        NamesWithin(after[did].contexts, after[did].role, first);
        NamesWithin(once[did].contexts, once[did].role, first);
        assert after[did] == Entry(after[did].did, after[did].role, after[did].contexts);
        assert once[did] == Entry(once[did].did, once[did].role, once[did].contexts);
      }
    }
  }

  /** The access list after `did` was revoked in `context`: what a successful revocation leaves. */
  function RevokedAcl(acl: Acl, context: string, did: string): Acl {
    if did !in acl then acl
    else
      var grant := GrantIn(acl[did], context);
      if grant.None? then acl
      else match HowToRevoke(grant.value)
        case Delete => acl - {did}
        case Narrow(rest) => acl[did := acl[did].(contexts := rest)]
  }

  lemma {:induction false} OutsideExact(context: string, named: seq<string>)
    ensures forall c :: c in Outside(context, named) <==> c in named && !AncestorOrSelf(context, c)
    ensures |Outside(context, named)| + |Inside(context, named)| == |named|
    ensures multiset(Outside(context, named)) + multiset(Inside(context, named)) == multiset(named)
  {
    if named != [] {
      assert named == [named[0]] + named[1..];
      OutsideExact(context, named[1..]);
    }
  }

  /** A revocation of a grant keeps exactly the contexts outside the subtree, leaves no grant inside
      it, never writes an empty list, and lets the device act nowhere it could not act before. */
  lemma RevocationExact(acl: Acl, context: string, did: string)
    requires did in acl && GrantIn(acl[did], context).Some?
    ensures var after := RevokedAcl(acl, context, did);
      && (did in after <==> exists c :: c in acl[did].contexts && !AncestorOrSelf(context, c))
      && (did in after ==>
            && after[did].contexts != [] && after[did].role == acl[did].role
            && (forall c :: c in after[did].contexts <==> c in acl[did].contexts && !AncestorOrSelf(context, c))
            && GrantIn(after[did], context).None?
            && (forall x :: ActsIn(Scope(after[did]), x) ==> ActsIn(Scope(acl[did]), x)))
  {
    var e, after := acl[did], RevokedAcl(acl, context, did);
    OutsideExact(context, e.contexts);
    var rest := Outside(context, e.contexts);
    if did in after {
      assert rest != [] && rest[0] in rest;
      forall i | 0 <= i < |rest| ensures !AncestorOrSelf(context, rest[i]) { assert rest[i] in rest; }
      forall x | ActsIn(Scope(after[did]), x) ensures ActsIn(Scope(e), x) {
        var i :| 0 <= i < |rest| && AncestorOrSelf(rest[i], x);
        assert rest[i] in e.contexts;
      }
    }
  }

  /** Narrowing takes the named contexts away, not what an ancestor covers: the device can still act
      in the community after a successful revocation exactly when its entry also names a context
      above the community's. */
  lemma StillActsIff(acl: Acl, context: string, did: string)
    requires did in acl && GrantIn(acl[did], context).Some?
    ensures var after := RevokedAcl(acl, context, did);
      (did in after && ActsIn(Scope(after[did]), context))
      <==> exists c :: c in acl[did].contexts && c != context && AncestorOrSelf(c, context)
  {
    var e, after := acl[did], RevokedAcl(acl, context, did);
    OutsideExact(context, e.contexts);
    var rest := Outside(context, e.contexts);
    if did in after && ActsIn(Scope(after[did]), context) {
      var i :| 0 <= i < |rest| && AncestorOrSelf(rest[i], context);
      assert rest[i] in rest;
    }
    if c :| c in e.contexts && c != context && AncestorOrSelf(c, context) {
      assert !AncestorOrSelf(context, c);
      assert c in rest;
      var i :| 0 <= i < |rest| && rest[i] == c;
      assert ActsIn(Contexts(rest), context);
    }
  }

  /** In a context that is not at or beneath the community's, the device acts exactly as before. */
  lemma ElsewhereUnchanged(acl: Acl, context: string, did: string, x: string)
    requires did in acl && GrantIn(acl[did], context).Some? && !AncestorOrSelf(context, x)
    ensures var after := RevokedAcl(acl, context, did);
      (did in after && ActsIn(Scope(after[did]), x)) <==> ActsIn(Scope(acl[did]), x)
  {
    var e, after := acl[did], RevokedAcl(acl, context, did);
    OutsideExact(context, e.contexts);
    var rest := Outside(context, e.contexts);
    if ActsIn(Scope(e), x) {
      var i :| 0 <= i < |e.contexts| && AncestorOrSelf(e.contexts[i], x);
      var c := e.contexts[i];
      if AncestorOrSelf(context, c) { AncestorTransitive(context, c, x); }
      assert c in rest;
      var j :| 0 <= j < |rest| && rest[j] == c;
    }
    if did in after && ActsIn(Scope(after[did]), x) {
      var i :| 0 <= i < |rest| && AncestorOrSelf(rest[i], x);
      assert rest[i] in e.contexts;
    }
  }

  /** The list read back after a revocation: the device is off it, every other row is as it was. */
  lemma RevokedOffTheList(acl: Acl, before: seq<Entry>, after: seq<Entry>, context: string, did: string,
                          own: Option<string>, g: Grant)
    requires forall e :: e in before <==> e.did in acl && acl[e.did] == e
    requires var acl' := RevokedAcl(acl, context, did); forall e :: e in after <==> e.did in acl' && acl'[e.did] == e
    ensures g in GrantsIn(after, context, own) <==> g in GrantsIn(before, context, own) && g.did != did
  {
    var acl' := RevokedAcl(acl, context, did);
    Listed(before, context, own, g);
    Listed(after, context, own, g);
    if did in acl && GrantIn(acl[did], context).Some? { RevocationExact(acl, context, did); }
  }

  /** A grant as OpenVTC makes it lets the device act in the community and beneath, as an application, and
      nowhere else. */
  lemma GrantedActsIff(context: string, did: string, x: string)
    ensures ActsIn(Scope(Entry(did, DEVICE_ROLE, [context])), x) <==> AncestorOrSelf(context, x)
    ensures GrantIn(Entry(did, DEVICE_ROLE, [context]), context) == Some(Grant(did, "application", [context], []))
  {
    var e := Entry(did, DEVICE_ROLE, [context]);
    ActsIff(e, x);
    assert ActsWithin(Scope(e), context) by { assert AncestorOrSelf(context, e.contexts[0]); }
    assert [context][1..] == [] && Inside(context, [context]) == [context] && Outside(context, [context]) == [];
  }

  /** Revoking undoes a grant made to a DID that held nothing. */
  lemma RevokeUndoesGrant(acl: Acl, context: string, did: string)
    requires did !in acl
    ensures RevokedAcl(acl[did := Entry(did, DEVICE_ROLE, [context])], context, did) == acl
  {
    var e := Entry(did, DEVICE_ROLE, [context]);
    assert ActsWithin(Scope(e), context) by { assert AncestorOrSelf(context, e.contexts[0]); }
    assert [context][1..] == [];
    assert Outside(context, [context]) == [];
    assert acl[did := e] - {did} == acl;
  }
}
