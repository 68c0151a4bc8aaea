/** A caller with nobody else under way: the interleaved steps of `ListenerProtocol` then come to what
the whole calls of `Supervisor` say. */
module OneCaller {
  import opened Common
  import opened ListenerProtocol
  import Supervisor
  import Claims

  type Id = Claims.Id

  /** Up to `n` further steps of `c`. */
  function Alone(s: State, c: Caller, choice: Choice, n: nat): State
    decreases n
  {
    if n == 0 || !Enabled(s, Go(c, choice)) then s else Alone(Next(s, Go(c, choice)), c, choice, n - 1)
  }

  /** The whole call, which takes at most seven steps. */
  function Called(s: State, c: Caller, call: Call, choice: Choice): State
    requires c !in s.callers
  {
    Alone(Next(s, Begin(c, call)), c, choice, 7)
  }

  /** Which of the runtime's maps a listener is in. */
  datatype Where = Where(installed: bool, stranded: bool, waiting: bool)

  const NOWHERE: Where := Where(false, false, false)

  function Here(s: State): Where { Where(s.installed.Some?, s.stranded, s.waiting) }

  function There(d: Supervisor.Desk, id: Id): Where {
    Where(id in d.installed, id in d.stranded, id in d.waiting)
  }

  /** Nobody is under way. */
  predicate Still(s: State) { s.callers == map[] && s.lock.None? }

  /** The callers once a call is over: nobody, or the release timer it left. */
  predicate Over(q: State, c: Caller, choice: Choice) {
    q.lock.None? && c != choice.spawned && q.callers in {map[], map[choice.spawned := IsInstalled]}
  }

  lemma ConnectAlone(s: State, c: Caller, choice: Choice, under: Option<nat>, n: nat)
    requires s.callers == map[c := Connecting(under)] && s.lock == Some(c) && s.installed.None?
    requires choice.spawned != c && n >= 2
    ensures var q := Alone(s, c, choice, n);
      && Over(q, c, choice) && q.stranded == s.stranded && q.waiting == s.waiting && q.held == s.held
      && q.installed == (if choice.connects then Some(Wire(s.next, under)) else None)
      && q.open == (if choice.connects then s.open + {s.next} else s.open)
      && (choice.spawned in q.callers <==> !choice.connects && s.held.Some?)
  {
    var up := Next(s, Go(c, choice));
    var done := Next(up, Go(c, choice));
    assert up.callers == map[c := if choice.connects then Opened(s.next, under) else Failed];
    assert done.callers == if choice.connects || s.held.None? then map[] else map[choice.spawned := IsInstalled];
    assert Alone(s, c, choice, n) == Alone(up, c, choice, n - 1) == Alone(done, c, choice, n - 2);
  }

  /** Where an add leaves a listener that stood at `before`. */
  function Added(before: Where, claims: bool, choice: Choice): Where {
    if before.installed then before
    else if claims && !Claims.MayConnect(choice.answer) then Where(false, false, true)
    else Where(choice.connects, before.stranded, before.waiting && !claims)
  }

  /** What an add makes of the claim on record, and of the wire it installs. */
  predicate ClaimKept(s: State, q: State, claims: bool, choice: Choice) {
    var granted := s.installed.None? && claims && choice.answer.Granted?;
    && q.held == (if granted then Some(s.generation + 1) else s.held)
    && (s.installed.Some? ==> q.installed == s.installed)
    && (s.installed.None? && q.installed.Some? ==> q.installed.value.under == if granted then q.held else None)
    && (choice.spawned in q.callers
        <==> q.installed.None? && q.held.Some? && (claims ==> Claims.MayConnect(choice.answer)))
  }

  /** The claim is granted. */
  lemma GrantedAlone(s: State, c: Caller, choice: Choice, n: nat)
    requires s.callers == map[c := Granted] && s.lock == Some(c) && s.installed.None? && choice.spawned != c && n >= 3
    ensures var q := Alone(s, c, choice, n);
      && Over(q, c, choice) && q.stranded == s.stranded && q.waiting == s.waiting && q.held == Some(s.generation + 1)
      && q.installed == (if choice.connects then Some(Wire(s.next, q.held)) else None)
      && q.open == (if choice.connects then s.open + {s.next} else s.open)
      && (choice.spawned in q.callers <==> !choice.connects)
  {
    var s1 := Next(s, Go(c, choice));
    assert s1.callers == map[c := Connecting(Some(s.generation + 1))];
    assert Alone(s, c, choice, n) == Alone(s1, c, choice, n - 1);
    ConnectAlone(s1, c, choice, Some(s.generation + 1), n - 1);
  }

  /** The claim is refused. */
  lemma RefusedAlone(s: State, c: Caller, choice: Choice, n: nat)
    requires s.callers == map[c := RefusedClaim] && s.lock == Some(c) && n >= 1
    ensures Alone(s, c, choice, n) == s.(waiting := true, lock := None, callers := map[])
  {
    var s1 := Next(s, Go(c, choice));
    assert s1.callers == map[];
    assert Alone(s, c, choice, n) == Alone(s1, c, choice, n - 1);
  }

  /** An add that has looked. */
  lemma CheckedAlone(s: State, c: Caller, choice: Choice, claims: bool)
    requires s.callers == map[c := Checked(claims)] && s.lock == Some(c) && s.installed.None? && choice.spawned != c
    ensures var q := Alone(s, c, choice, 5);
      && Over(q, c, choice) && Here(q) == Added(Here(s), claims, choice)
      && q.open == (if q.installed.Some? then s.open + {s.next} else s.open)
      && ClaimKept(s, q, claims, choice)
  {
    var s1 := Next(s, Go(c, choice));
    assert Alone(s, c, choice, 5) == Alone(s1, c, choice, 4);
    if claims && choice.answer.Granted? {
      assert s1.callers == map[c := Granted];
      GrantedAlone(s1, c, choice, 4);
    } else if claims && !Claims.MayConnect(choice.answer) {
      assert s1.callers == map[c := RefusedClaim];
      RefusedAlone(s1, c, choice, 4);
    } else {
      assert s1.callers == map[c := Connecting(None)];
      ConnectAlone(s1, c, choice, None, 4);
    }
  }

  /** An add that holds the lock. */
  lemma LockedAlone(s: State, c: Caller, choice: Choice, claims: bool)
    requires s.callers == map[c := Locked(claims)] && s.lock == Some(c) && choice.spawned != c
    ensures var q := Alone(s, c, choice, 6);
      && Over(q, c, choice) && Here(q) == Added(Here(s), claims, choice)
      && q.open == (if s.installed.None? && q.installed.Some? then s.open + {s.next} else s.open)
      && ClaimKept(s, q, claims, choice)
  {
    var s1 := Next(s, Go(c, choice));
    assert Alone(s, c, choice, 6) == Alone(s1, c, choice, 5);
    if s.installed.Some? {
      assert s1.callers == map[];
    } else {
      assert s1.callers == map[c := Checked(claims)];
      CheckedAlone(s1, c, choice, claims);
    }
  }

  /** Alone, an add does what the sequential runtime's does, opening one socket when it connects, and
      the claim held is the one granted, which the new wire names, and a timer is left for a claim whose
      connect failed. */
  lemma AddAlone(s: State, c: Caller, choice: Choice, d: Supervisor.Desk, spec: Supervisor.Spec, now: nat)
    requires Still(s) && choice.spawned != c && Here(s) == There(d, spec.id)
    ensures var q := Called(s, c, Add(spec.claims), choice);
      var meeting := Supervisor.Meeting(choice.answer, choice.connects);
      && Over(q, c, choice)
      && Here(q) == There(Supervisor.Add(d, spec, meeting, now), spec.id)
      && q.open == (if s.installed.None? && q.installed.Some? then s.open + {s.next} else s.open)
      && q.held == (if s.installed.None? && spec.claims && choice.answer.Granted?
                    then Some(s.generation + 1) else s.held)
      && (s.installed.Some? ==> q.installed == s.installed)
      && (s.installed.None? && q.installed.Some?
          ==> q.installed.value.under == if spec.claims && choice.answer.Granted? then q.held else None)
      && (choice.spawned in q.callers <==> q.installed.None? && q.held.Some? && Supervisor.MayConnect(spec, meeting))
  {
    AddedThere(d, spec, choice, now);
    CalledAlone(s, c, choice, spec.claims);
  }

  lemma AddedThere(d: Supervisor.Desk, spec: Supervisor.Spec, choice: Choice, now: nat)
    ensures There(Supervisor.Add(d, spec, Supervisor.Meeting(choice.answer, choice.connects), now), spec.id)
         == Added(There(d, spec.id), spec.claims, choice)
  {
  }

  lemma CalledAlone(s: State, c: Caller, choice: Choice, claims: bool)
    requires Still(s) && choice.spawned != c
    ensures var q := Called(s, c, Add(claims), choice);
      && Over(q, c, choice) && Here(q) == Added(Here(s), claims, choice)
      && q.open == (if s.installed.None? && q.installed.Some? then s.open + {s.next} else s.open)
      && ClaimKept(s, q, claims, choice)
  {
    var s0 := Next(s, Begin(c, Add(claims)));
    assert s0.callers == map[c := WaitingForLock(claims)];
    var s1 := Next(s0, Go(c, choice));
    assert s1.callers == map[c := Locked(claims)];
    assert Alone(s0, c, choice, 7) == Alone(s1, c, choice, 6);
    LockedAlone(s1, c, choice, claims);
  }

  /** Alone, a removal leaves the listener nowhere and its socket closed, its claim still on record and
      a timer set for it. */
  lemma RemoveAlone(s: State, c: Caller, choice: Choice, d: Supervisor.Desk, id: Id)
    requires Still(s) && choice.spawned != c && Here(s) == There(d, id)
    ensures var q := Called(s, c, Remove, choice);
      && Over(q, c, choice) && Here(q) == There(Supervisor.Remove(d, id), id)
      && q.open == s.open - OnDesk(s.installed) && q.held == s.held
      && (choice.spawned in q.callers <==> s.held.Some?)
  {
    var s0 := Next(s, Begin(c, Remove));
    assert s0.callers == map[c := Unstranding(Nothing)];
    TakenAlone(s0, c, choice, Nothing);
  }

  /** The desk a rebuild adds to: the old wire closed, the spec on record as stranded. */
  function Bare(d: Supervisor.Desk, spec: Supervisor.Spec): Supervisor.Desk {
    var closed := Supervisor.Remove(d, spec.id);
    closed.(stranded := closed.stranded[spec.id := spec])
  }

  /** A supervisor's rebuild, its removal, its record of the spec, its add, and when that succeeds the record
      taken back, leaves the listener where the sequential rebuild does; one socket is closed and one is
      opened. */
  lemma RebuildAlone(s: State, c: Caller, choice: Choice, d: Supervisor.Desk, spec: Supervisor.Spec, now: nat)
    requires Still(s) && s.held.None? && choice.spawned != c && Here(s) == There(d, spec.id)
    ensures var meeting := Supervisor.Meeting(choice.answer, choice.connects);
      var removed := Called(s, c, Remove, choice);
      && Still(removed)
      && var added := Called(Next(removed, Strand), c, Add(spec.claims), choice);
      var done := if added.installed.Some? then Next(added, Unstrand) else added;
      && Here(done)
         == There(Supervisor.Rebuilt(d, spec.id, spec, Supervisor.Turn([], [], [], [], meeting), now), spec.id)
      && done.open == s.open - OnDesk(s.installed) + (if done.installed.Some? then {removed.next} else {})
  {
    var meeting := Supervisor.Meeting(choice.answer, choice.connects);
    RemoveAlone(s, c, choice, d, spec.id);
    RemoveOver(s, c, choice);
    var removed := Called(s, c, Remove, choice);
    AddAlone(Next(removed, Strand), c, choice, Bare(d, spec), spec, now);
    QuietRebuild(d, spec, meeting, now);
  }

  lemma QuietRebuild(d: Supervisor.Desk, spec: Supervisor.Spec, m: Supervisor.Meeting, now: nat)
    ensures var added := Supervisor.Add(Bare(d, spec), spec, m, now);
      Supervisor.Rebuilt(d, spec.id, spec, Supervisor.Turn([], [], [], [], m), now)
      == if spec.id in added.installed then added.(stranded := added.stranded - {spec.id}) else added
  {
  }

  /** ... and a closing that is to come back leaves it waiting, one that is not gives up its claim. */
  lemma CloseAlone(s: State, c: Caller, choice: Choice, comeBack: bool, g: nat)
    requires Still(s) && choice.spawned != c
    ensures var q := Called(s, c, Close(comeBack, g), choice);
      && Over(q, c, choice)
      && q.installed.None? && !q.stranded && (q.waiting <==> comeBack && s.installed.Some?)
      && q.open == s.open - OnDesk(s.installed)
      && q.held == (if comeBack then s.held else None)
      && (choice.spawned in q.callers <==> s.held.Some?)
  {
    var s0 := Next(s, Begin(c, Close(comeBack, g)));
    var afterwards := if !comeBack then ReleaseClaim else if s.installed.Some? then WaitAgain else Nothing;
    assert s0.callers == map[c := Unstranding(afterwards)];
    TakenAlone(s0, c, choice, afterwards);
  }

  /** So a closing that is to come back loses a listener exactly when no wire of it was installed: its
      spec is read off the wire alone. */
  lemma CloseLosesIff(s: State, c: Caller, choice: Choice, g: nat)
    requires Still(s) && choice.spawned != c && Here(s) != NOWHERE
    ensures Here(Called(s, c, Close(true, g), choice)) == NOWHERE <==> s.installed.None?
  {
    CloseAlone(s, c, choice, true, g);
  }

  /** A release of a claim that may be wanted again, with nobody else under way: the claim goes exactly
      when the listener is not installed, not stranded and not waiting, and nothing else changes. */
  lemma ReleaseAlone(s: State, c: Caller, choice: Choice, g: nat)
    requires Still(s)
    ensures var q := Called(s, c, ReleaseUnlessWanted(g), choice);
      && Still(q) && q.installed == s.installed && Here(q) == Here(s) && q.open == s.open
      && q.held == if Here(s) == NOWHERE then None else s.held
  {
    var s0 := Next(s, Begin(c, ReleaseUnlessWanted(g)));
    assert s0.callers == map[c := IsInstalled];
    LooksAlone(s0, c, choice, 7);
  }

  lemma LooksAlone(s: State, c: Caller, choice: Choice, n: nat)
    requires s.callers == map[c := IsInstalled] && s.lock.None? && n >= 4
    ensures var q := Alone(s, c, choice, n);
      && Still(q) && q.installed == s.installed && Here(q) == Here(s) && q.open == s.open
      && q.held == if Here(s) == NOWHERE then None else s.held
  {
    var s1 := Next(s, Go(c, choice));
    assert Alone(s, c, choice, n) == Alone(s1, c, choice, n - 1);
    if s.installed.None? {
      assert s1.callers == map[c := IsStranded];
      var s2 := Next(s1, Go(c, choice));
      assert Alone(s1, c, choice, n - 1) == Alone(s2, c, choice, n - 2);
      if s.stranded {
        assert s2.callers == map[];
      } else {
        assert s2.callers == map[c := IsWaiting];
        LooksLast(s2, c, choice, n - 2);
      }
    } else {
      assert s1.callers == map[];
    }
  }

  lemma LooksLast(s: State, c: Caller, choice: Choice, n: nat)
    requires s.callers == map[c := IsWaiting] && s.lock.None? && n >= 2
    ensures var q := Alone(s, c, choice, n);
      && Still(q) && q.installed == s.installed && Here(q) == Here(s) && q.open == s.open
      && q.held == if s.waiting then s.held else None
  {
    var s1 := Next(s, Go(c, choice));
    assert Alone(s, c, choice, n) == Alone(s1, c, choice, n - 1);
    if s.waiting {
      assert s1.callers == map[];
    } else {
      assert s1.callers == map[c := Releasing];
      var s2 := Next(s1, Go(c, choice));
      assert s2.callers == map[];
      assert Alone(s1, c, choice, n - 1) == Alone(s2, c, choice, n - 2);
    }
  }

  /** So does the timer that any call leaves behind, once it goes off. */
  lemma TimerAlone(s: State, c: Caller, call: Call, choice: Choice, later: Choice)
    requires Still(s) && choice.spawned != c && choice.spawned in Called(s, c, call, choice).callers
    ensures var q := Called(s, c, call, choice);
      var r := Alone(q, choice.spawned, later, 7);
      && Still(r) && r.installed == q.installed && Here(r) == Here(q) && r.open == q.open
      && r.held == if Here(q) == NOWHERE then None else q.held
  {
    var q := Called(s, c, call, choice);
    match call
    case Add(claims) =>
      CalledAlone(s, c, choice, claims);
      LooksAlone(q, choice.spawned, later, 7);
    case Remove =>
      RemoveOver(s, c, choice);
      LooksAlone(q, choice.spawned, later, 7);
    case Close(comeBack, g) =>
      CloseAlone(s, c, choice, comeBack, g);
      LooksAlone(q, choice.spawned, later, 7);
    case ReleaseUnlessWanted(g) => ReleaseAlone(s, c, choice, g);
  }

  lemma RemoveOver(s: State, c: Caller, choice: Choice)
    requires Still(s) && choice.spawned != c
    ensures Over(Called(s, c, Remove, choice), c, choice)
  {
    var s0 := Next(s, Begin(c, Remove));
    assert s0.callers == map[c := Unstranding(Nothing)];
    TakenAlone(s0, c, choice, Nothing);
  }

  lemma TakenAlone(s: State, c: Caller, choice: Choice, afterwards: Afterwards)
    requires s.callers == map[c := Unstranding(afterwards)] && s.lock.None? && choice.spawned != c
    requires !Aborted(s.renewals, c)
    ensures var q := Alone(s, c, choice, 7);
      && Over(q, c, choice)
      && q.installed.None? && !q.stranded && q.waiting == afterwards.WaitAgain?
      && q.open == s.open - OnDesk(s.installed)
      && q.held == (if afterwards.ReleaseClaim? then None else s.held)
      && (choice.spawned in q.callers <==> s.held.Some?)
  {
    var s1 := Next(s, Go(c, choice));
    assert s1.callers == map[c := Unwaiting(afterwards)];
    var s2 := Next(s1, Go(c, choice));
    assert s2.callers == map[c := Taking(afterwards)];
    assert Alone(s, c, choice, 7) == Alone(s1, c, choice, 6) == Alone(s2, c, choice, 5);
    WireAlone(s2, c, choice, afterwards);
  }

  lemma WireAlone(s: State, c: Caller, choice: Choice, afterwards: Afterwards)
    requires s.callers == map[c := Taking(afterwards)] && s.lock.None? && choice.spawned != c
    requires !Aborted(s.renewals, c)
    ensures var q := Alone(s, c, choice, 5);
      && Over(q, c, choice)
      && q.installed.None? && q.stranded == s.stranded && q.waiting == (s.waiting || afterwards.WaitAgain?)
      && q.open == s.open - OnDesk(s.installed)
      && q.held == (if afterwards.ReleaseClaim? then None else s.held)
      && (choice.spawned in q.callers <==> s.held.Some?)
  {
    var s1 := Next(s, Go(c, choice));
    assert Alone(s, c, choice, 5) == Alone(s1, c, choice, 4);
    if s.installed.Some? {
      assert s1.callers == map[c := Closing(s.installed.value.socket, afterwards)];
      var s2 := Next(s1, Go(c, choice));
      assert s2.callers == map[c := Removed(afterwards)];
      assert Alone(s1, c, choice, 4) == Alone(s2, c, choice, 3);
      RemovedAlone(s2, c, choice, afterwards, 3);
    } else {
      assert s1.callers == map[c := Removed(afterwards)];
      RemovedAlone(s1, c, choice, afterwards, 4);
    }
  }

  lemma RemovedAlone(s: State, c: Caller, choice: Choice, afterwards: Afterwards, n: nat)
    requires s.callers == map[c := Removed(afterwards)] && s.lock.None? && choice.spawned != c && n >= 2
    ensures var q := Alone(s, c, choice, n);
      && Over(q, c, choice)
      && q.installed == s.installed && q.stranded == s.stranded && q.open == s.open
      && q.waiting == (s.waiting || afterwards.WaitAgain?)
      && q.held == (if afterwards.ReleaseClaim? then None else s.held)
      && (choice.spawned in q.callers <==> s.held.Some?)
  {
    var s1 := Next(s, Go(c, choice));
    assert Alone(s, c, choice, n) == Alone(s1, c, choice, n - 1);
    var left := if s.held.Some? then map[choice.spawned := IsInstalled] else map[];
    if afterwards.Nothing? {
      assert s1.callers == left;
    } else {
      assert s1.callers == left[c := Afterward(afterwards)];
      AfterwardAlone(s1, c, choice, afterwards, left, n - 1);
    }
  }

  lemma AfterwardAlone(s: State, c: Caller, choice: Choice, afterwards: Afterwards, left: Callers, n: nat)
    requires s.callers == left[c := Afterward(afterwards)] && s.lock.None? && n >= 1 && !afterwards.Nothing?
    requires c !in left && choice.spawned != c
    ensures var q := Alone(s, c, choice, n);
      && q.callers == left && q.lock.None?
      && q.installed == s.installed && q.stranded == s.stranded && q.open == s.open
      && q.waiting == (s.waiting || afterwards.WaitAgain?)
      && q.held == (if afterwards.ReleaseClaim? then None else s.held)
  {
    var s1 := Next(s, Go(c, choice));
    assert s1.callers == left;
    assert Alone(s, c, choice, n) == Alone(s1, c, choice, n - 1);
  }
}
