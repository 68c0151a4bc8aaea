/** Any number of callers adding, removing and closing one listener at once, as
openvtc-core/src/didcomm.rs and openvtc-core/src/collection.rs let them: each step below is one lock
held or one answer awaited, and any order of steps of all callers is a run. Everything the runtime
keeps is kept by listener id, so the machine is that of one id; `RunsApart` puts the machines of all
ids together. */
module ListenerProtocol {
  import opened Common
  import Claims

  type Id = Claims.Id

  type Caller = nat

  type Socket = nat

  /** The wire installed: its socket, and the generation of the claim it was connected under. */
  datatype Wire = Wire(socket: Socket, under: Option<nat>)

  /** `Close` and `ReleaseUnlessWanted` are the calls of the task that renews the claim of a generation. */
  datatype Call = Add(claims: bool) | Remove | Close(comeBack: bool, renews: nat) | ReleaseUnlessWanted(renews: nat)

  /** A caller that is the renewal of a generation, and whether its abort handle was used. */
  datatype Renewal = Renewal(generation: nat, aborted: bool)

  /** What `close_for_collection` does once the listener is removed. */
  datatype Afterwards = Nothing | WaitAgain | ReleaseClaim

  /** Where a caller is. The first group is `add_listener`, the second `remove_listener`, the third the
      release of a claim nobody wants any more. */
  datatype Place =
    | WaitingForLock(claims: bool)
    | Locked(claims: bool)
    | Checked(claims: bool)
    | Granted
    | RefusedClaim
    | Connecting(under: Option<nat>)
    | Opened(socket: Socket, under: Option<nat>)
    | Displacing(socket: Socket)
    | Failed
    | Unstranding(afterwards: Afterwards)
    | Unwaiting(afterwards: Afterwards)
    | Taking(afterwards: Afterwards)
    | Closing(socket: Socket, afterwards: Afterwards)
    | Removed(afterwards: Afterwards)
    | Afterward(afterwards: Afterwards)
    | IsInstalled
    | IsStranded
    | IsWaiting
    | Releasing

  type Callers = map<Caller, Place>

  type Renewals = map<Caller, Renewal>

  datatype State = State(
    installed: Option<Wire>,
    stranded: bool,
    waiting: bool,
    held: Option<nat>,
    generation: nat,
    lock: Option<Caller>,
    callers: Callers,
    renewals: Renewals,
    open: set<Socket>,
    orphans: set<Socket>,
    next: Socket)

  const START: State := State(None, false, false, None, 0, None, map[], map[], {}, {}, 0)

  /** What the outside decides at a step: the VTA's answer, whether the connect works, and which caller
      a timer spawned here becomes. */
  datatype Choice = Choice(answer: Claims.ClaimAnswer, connects: bool, spawned: Caller)

  /** `Strand`, `Unstrand` and `Unwait` are the supervisor's and the retry loop's own edits;
      `DropClaim` is a renewal told that the VTA does not collect at all. `Stop` is an abort taking
      effect: the caller is dropped where it waits. */
  datatype Step = Begin(caller: Caller, call: Call) | Go(caller: Caller, choice: Choice) | Stop(caller: Caller)
                | Strand | Unstrand | Unwait | DropClaim(generation: nat)

  // ---------------------------------------------------------------------------------------------
  // Steps
  // ---------------------------------------------------------------------------------------------

  predicate Enabled(s: State, step: Step) {
    match step
    case Begin(c, _) => c !in s.callers
    case Go(c, choice) => c in s.callers && (s.callers[c].WaitingForLock? ==> s.lock.None?)
                          && (Spawns(s, s.callers[c]) ==> choice.spawned !in s.callers)
                          && !(Aborted(s.renewals, c) && s.callers[c].Closing?)
    case Stop(c) => c in s.callers && Aborted(s.renewals, c) && Waits(s.callers[c])
    case _ => true
  }

  predicate Aborted(renewals: Renewals, c: Caller) { c in renewals && renewals[c].aborted }

  /** Where a renewal waits, and an abort drops it: for the map of wires, and for its socket to close.
      The first wait may be over at once, so an aborted caller may still get past it; the second is
      not. */
  predicate Waits(at: Place) { at.Taking? || at.Closing? || at.IsInstalled? }

  function First(s: State, call: Call): Place {
    match call
    case Add(claims) => WaitingForLock(claims)
    case Remove => Unstranding(Nothing)
    case Close(comeBack, _) =>
      Unstranding(if !comeBack then ReleaseClaim else if s.installed.Some? then WaitAgain else Nothing)
    case ReleaseUnlessWanted(_) => IsInstalled
  }

  function Began(renewals: Renewals, c: Caller, call: Call): Renewals {
    match call
    case Close(_, g) => renewals[c := Renewal(g, false)]
    case ReleaseUnlessWanted(g) => renewals[c := Renewal(g, false)]
    case _ => renewals - {c}
  }

  /** The renewal of the claim held is told to stop. */
  function AbortHeld(renewals: Renewals, held: Option<nat>): Renewals {
    map c | c in renewals :: if held == Some(renewals[c].generation) then renewals[c].(aborted := true) else renewals[c]
  }

  /** Where a caller's step takes it; `None` when its call returns. */
  function Goes(s: State, at: Place, choice: Choice): Option<Place> {
    match at
    case WaitingForLock(claims) => Some(Locked(claims))
    case Locked(claims) => if s.installed.Some? then None else Some(Checked(claims))
    case Checked(claims) =>
      if !claims then Some(Connecting(None))
      else if choice.answer.Granted? then Some(Granted)
      else if Claims.MayConnect(choice.answer) then Some(Connecting(None))
      else Some(RefusedClaim)
    case Granted => Some(Connecting(Some(s.generation + 1)))
    case RefusedClaim => None
    case Connecting(under) => Some(if choice.connects then Opened(s.next, under) else Failed)
    case Opened(_, _) => if s.installed.Some? then Some(Displacing(s.installed.value.socket)) else None
    case Displacing(_) => None
    case Failed => None
    case Unstranding(afterwards) => Some(Unwaiting(afterwards))
    case Unwaiting(afterwards) => Some(Taking(afterwards))
    case Taking(afterwards) =>
      Some(if s.installed.Some? then Closing(s.installed.value.socket, afterwards) else Removed(afterwards))
    case Closing(_, afterwards) => Some(Removed(afterwards))
    case Removed(afterwards) => if afterwards.Nothing? then None else Some(Afterward(afterwards))
    case Afterward(_) => None
    case IsInstalled => if s.installed.Some? then None else Some(IsStranded)
    case IsStranded => if s.stranded then None else Some(IsWaiting)
    case IsWaiting => if s.waiting then None else Some(Releasing)
    case Releasing => None
  }

  /** What the step does to everything but the callers. */
  function Does(s: State, c: Caller, at: Place, choice: Choice): State {
    match at
    case WaitingForLock(_) => s.(lock := Some(c))
    case Locked(_) => if s.installed.Some? then s.(lock := None) else s
    case Checked(claims) =>
      if !claims then s
      else if Claims.MayConnect(choice.answer) then s.(waiting := false)
      else s.(stranded := false)
    case Granted =>
      s.(generation := s.generation + 1, held := Some(s.generation + 1), renewals := AbortHeld(s.renewals, s.held))
    case RefusedClaim => s.(waiting := true, lock := None)
    case Connecting(_) => if choice.connects then s.(open := s.open + {s.next}, next := s.next + 1) else s
    case Opened(socket, under) =>
      s.(installed := Some(Wire(socket, under)), lock := if s.installed.Some? then s.lock else None)
    case Displacing(socket) => s.(open := s.open - {socket}, lock := None)
    case Failed => s.(lock := None)
    case Unstranding(_) => s.(stranded := false)
    case Unwaiting(_) => s.(waiting := false)
    case Taking(_) => s.(installed := None)
    case Closing(socket, _) => s.(open := s.open - {socket})
    case Afterward(afterwards) =>
      if afterwards.WaitAgain? then s.(waiting := true)
      else if afterwards.ReleaseClaim? then s.(held := None, renewals := AbortHeld(s.renewals, s.held))
      else s
    case Releasing => s.(held := None, renewals := AbortHeld(s.renewals, s.held))
    case _ => s
  }

  /** The step ends in `release_unless_back`, with a claim to release. */
  predicate Spawns(s: State, at: Place) { (at.Failed? || at.Removed?) && s.held.Some? }

  function Moved(callers: Callers, c: Caller, to: Option<Place>): Callers {
    if to.Some? then callers[c := to.value] else callers - {c}
  }

  /** The state after a caller's step, any timer it spawns left aside. */
  function Stepped(s: State, c: Caller, choice: Choice): State
    requires c in s.callers
  {
    Does(s, c, s.callers[c], choice).(callers := Moved(s.callers, c, Goes(s, s.callers[c], choice)))
  }

  function WithTimer(s: State, spawned: Caller): State {
    s.(callers := s.callers[spawned := IsInstalled], renewals := s.renewals - {spawned})
  }

  function Next(s: State, step: Step): State
    requires Enabled(s, step)
  {
    match step
    case Begin(c, call) =>
      s.(callers := s.callers[c := First(s, call)], renewals := Began(s.renewals, c, call))
    case Go(c, choice) =>
      var q := Stepped(s, c, choice);
      if Spawns(s, s.callers[c]) then WithTimer(q, choice.spawned) else q
    case Stop(c) =>
      s.(callers := s.callers - {c},
         orphans := if s.callers[c].Closing? then s.orphans + {s.callers[c].socket} else s.orphans)
    case Strand => s.(stranded := true)
    case Unstrand => s.(stranded := false)
    case Unwait => s.(waiting := false)
    case DropClaim(g) => if s.held == Some(g) then s.(held := None) else s
  }

  /** The run's steps can all be taken, one after the other. */
  predicate Possible(s: State, steps: seq<Step>)
    decreases |steps|, 0
  {
    steps == []
    || (Possible(s, steps[..|steps| - 1]) && Enabled(Run(s, steps[..|steps| - 1]), steps[|steps| - 1]))
  }

  function Run(s: State, steps: seq<Step>): State
    requires Possible(s, steps)
    decreases |steps|, 1
  {
    if steps == [] then s else Next(Run(s, steps[..|steps| - 1]), steps[|steps| - 1])
  }

  // ---------------------------------------------------------------------------------------------
  // What every run keeps
  // ---------------------------------------------------------------------------------------------

  /** Holding the connect lock. */
  predicate Inside(p: Place) {
    p.Locked? || p.Checked? || p.Granted? || p.RefusedClaim? || p.Connecting? || p.Opened? || p.Displacing? || p.Failed?
  }

  /** The caller holding the lock, past the look at what is installed. */
  predicate PastCheck(p: Place) { Inside(p) && !p.Locked? }

  /** Only the lock's holder is inside, and once it has looked, nothing is installed. */
  predicate OneInside(lock: Option<Caller>, callers: Callers, installed: bool) {
    && (lock.Some? ==> lock.value in callers && Inside(callers[lock.value]) && !callers[lock.value].Displacing?)
    && (forall c :: c in callers && Inside(callers[c]) ==> lock == Some(c))
    && (lock.Some? && PastCheck(callers[lock.value]) ==> !installed)
  }

  /** The socket the lock's holder has opened. */
  function InHand(lock: Option<Caller>, callers: Callers): set<Socket> {
    if lock.Some? && lock.value in callers && callers[lock.value].Opened? then {callers[lock.value].socket} else {}
  }

  function OnDesk(installed: Option<Wire>): set<Socket> { if installed.Some? then {installed.value.socket} else {} }

  /** The socket of the listener itself: installed, or about to be. */
  function Live(s: State): set<Socket> { OnDesk(s.installed) + InHand(s.lock, s.callers) }

  /** The callers that took a wire and have not closed it yet, and the wires' sockets. */
  function Closers(callers: Callers): set<Caller> { set c | c in callers && callers[c].Closing? }

  function Taken(callers: Callers): set<Socket> { set c | c in Closers(callers) :: callers[c].socket }

  /** No two callers close the same socket. */
  predicate Apart(callers: Callers) {
    forall c, d :: c in Closers(callers) && d in Closers(callers) && callers[c].socket == callers[d].socket ==> c == d
  }

  /** Every open socket is the listener's own, or some one caller's to close, or an orphan that nobody
      closes any more, and only one of these. */
  predicate SocketsOwned(s: State) {
    && Apart(s.callers) && Live(s) !! Taken(s.callers) && s.orphans !! (Live(s) + Taken(s.callers))
    && s.open == Live(s) + Taken(s.callers) + s.orphans
    && (forall k :: k in s.open ==> k < s.next)
  }

  predicate Inv(s: State) { OneInside(s.lock, s.callers, s.installed.Some?) && SocketsOwned(s) }

  /** A caller that is not inside, before and after. */
  lemma Outsider(lock: Option<Caller>, callers: Callers, installed: bool, c: Caller, to: Option<Place>)
    requires OneInside(lock, callers, installed) && (c in callers ==> !Inside(callers[c]))
    requires to.Some? ==> !Inside(to.value)
    ensures OneInside(lock, Moved(callers, c, to), installed) && OneInside(lock, Moved(callers, c, to), false)
    ensures InHand(lock, Moved(callers, c, to)) == InHand(lock, callers)
  {
  }

  /** The lock's holder, moving on inside or leaving. */
  lemma Insider(callers: Callers, installed: bool, c: Caller, to: Option<Place>)
    requires OneInside(Some(c), callers, installed)
    requires to.Some? ==> Inside(to.value) && !to.value.Displacing? && (PastCheck(to.value) ==> !installed)
    ensures if to.Some? then OneInside(Some(c), Moved(callers, c, to), installed)
            else OneInside(None, Moved(callers, c, to), true)
  {
  }

  lemma EntererInside(callers: Callers, installed: bool, c: Caller, to: Place)
    requires OneInside(None, callers, installed) && to.Locked?
    ensures OneInside(Some(c), Moved(callers, c, Some(to)), installed)
  {
  }

  lemma InsideStep(s: State, c: Caller, choice: Choice)
    requires OneInside(s.lock, s.callers, s.installed.Some?) && c in s.callers && Inside(s.callers[c])
    ensures var at, q := s.callers[c], Does(s, c, s.callers[c], choice);
      OneInside(q.lock, Moved(s.callers, c, Goes(s, at, choice)), q.installed.Some?)
  {
    Insider(s.callers, s.installed.Some?, c, Goes(s, s.callers[c], choice));
  }

  lemma OutsideStep(s: State, c: Caller, choice: Choice)
    requires OneInside(s.lock, s.callers, s.installed.Some?) && c in s.callers && !Inside(s.callers[c])
    requires !s.callers[c].WaitingForLock?
    ensures var at, q := s.callers[c], Does(s, c, s.callers[c], choice);
      && OneInside(q.lock, Moved(s.callers, c, Goes(s, at, choice)), q.installed.Some?)
      && q.lock == s.lock && InHand(q.lock, Moved(s.callers, c, Goes(s, at, choice))) == InHand(s.lock, s.callers)
  {
    Outsider(s.lock, s.callers, s.installed.Some?, c, Goes(s, s.callers[c], choice));
  }

  lemma MovedKeepsOneInside(s: State, c: Caller, choice: Choice)
    requires OneInside(s.lock, s.callers, s.installed.Some?) && Enabled(s, Go(c, choice))
    ensures var at, q := s.callers[c], Does(s, c, s.callers[c], choice);
      OneInside(q.lock, Moved(s.callers, c, Goes(s, at, choice)), q.installed.Some?)
  {
    if s.callers[c].WaitingForLock? {
      EntererInside(s.callers, s.installed.Some?, c, Locked(s.callers[c].claims));
    } else if Inside(s.callers[c]) {
      InsideStep(s, c, choice);
    } else {
      OutsideStep(s, c, choice);
    }
  }

  lemma TakenSame(callers: Callers, c: Caller, to: Option<Place>)
    requires Apart(callers) && (c in callers ==> !callers[c].Closing?) && (to.Some? ==> !to.value.Closing?)
    ensures Apart(Moved(callers, c, to)) && Taken(Moved(callers, c, to)) == Taken(callers)
    ensures Closers(Moved(callers, c, to)) == Closers(callers)
  {
    assert Closers(Moved(callers, c, to)) == Closers(callers);
    assert forall d :: d in Closers(callers) ==> Moved(callers, c, to)[d] == callers[d];
  }

  lemma TakenMore(callers: Callers, c: Caller, to: Place)
    requires Apart(callers) && (c in callers ==> !callers[c].Closing?) && to.Closing? && to.socket !in Taken(callers)
    ensures Apart(callers[c := to]) && Taken(callers[c := to]) == Taken(callers) + {to.socket}
  {
    var after := callers[c := to];
    assert Closers(after) == Closers(callers) + {c};
    assert forall d :: d in Closers(callers) ==> after[d] == callers[d] && callers[d].socket in Taken(callers);
    assert after[c].socket in Taken(after);
  }

  lemma TakenLess(callers: Callers, c: Caller, to: Option<Place>)
    requires Apart(callers) && c in callers && callers[c].Closing? && (to.Some? ==> !to.value.Closing?)
    ensures Apart(Moved(callers, c, to))
    ensures Taken(Moved(callers, c, to)) == Taken(callers) - {callers[c].socket} && callers[c].socket in Taken(callers)
  {
    var after := Moved(callers, c, to);
    assert Closers(after) == Closers(callers) - {c};
    assert forall d :: d in Closers(after) ==> after[d] == callers[d] && callers[d].socket != callers[c].socket;
    assert c in Closers(callers);
  }

  predicate Handles(at: Place, s: State) {
    at.Connecting? || at.Opened? || at.Displacing? || at.Closing? || (at.Taking? && s.installed.Some?)
  }

  lemma DoesQuietly(s: State, c: Caller, choice: Choice)
    requires Enabled(s, Go(c, choice)) && !Handles(s.callers[c], s)
    ensures var to, q := Goes(s, s.callers[c], choice), Does(s, c, s.callers[c], choice);
      && q.installed == s.installed && q.open == s.open && q.orphans == s.orphans && q.next == s.next
      && (to.Some? ==> !to.value.Closing?) && !s.callers[c].Closing?
  {
  }

  lemma SameSockets(s: State, q: State, c: Caller, to: Option<Place>)
    requires SocketsOwned(s) && q.installed == s.installed
    requires q.open == s.open && q.orphans == s.orphans && q.next == s.next
    requires q.callers == Moved(s.callers, c, to) && InHand(q.lock, q.callers) == InHand(s.lock, s.callers)
    requires (c in s.callers ==> !s.callers[c].Closing?) && (to.Some? ==> !to.value.Closing?)
    ensures SocketsOwned(q)
  {
    TakenSame(s.callers, c, to);
  }

  lemma SocketsQuiet(s: State, c: Caller, choice: Choice)
    requires Inv(s) && Enabled(s, Go(c, choice)) && !Handles(s.callers[c], s)
    ensures SocketsOwned(Stepped(s, c, choice))
  {
    DoesQuietly(s, c, choice);
    if Inside(s.callers[c]) || s.callers[c].WaitingForLock? {
      EmptyHanded(s, c, choice);
    } else {
      OutsideStep(s, c, choice);
    }
    SameSockets(s, Stepped(s, c, choice), c, Goes(s, s.callers[c], choice));
  }

  lemma EmptyHanded(s: State, c: Caller, choice: Choice)
    requires Inv(s) && Enabled(s, Go(c, choice)) && !Handles(s.callers[c], s)
    requires Inside(s.callers[c]) || s.callers[c].WaitingForLock?
    ensures InHand(Stepped(s, c, choice).lock, Stepped(s, c, choice).callers) == {} == InHand(s.lock, s.callers)
  {
  }

  lemma SocketOpens(s: State, c: Caller, choice: Choice)
    requires Inv(s) && Enabled(s, Go(c, choice)) && s.callers[c].Connecting?
    ensures SocketsOwned(Stepped(s, c, choice))
    ensures Live(s) == {} && Live(Stepped(s, c, choice)) == (if choice.connects then {s.next} else {})
    ensures Stepped(s, c, choice).orphans == s.orphans
  {
    TakenSame(s.callers, c, Goes(s, s.callers[c], choice));
  }

  lemma SocketInstalled(s: State, c: Caller, choice: Choice)
    requires Inv(s) && Enabled(s, Go(c, choice)) && s.callers[c].Opened?
    ensures SocketsOwned(Stepped(s, c, choice)) && Live(Stepped(s, c, choice)) == Live(s)
  {
    TakenSame(s.callers, c, Goes(s, s.callers[c], choice));
  }

  lemma SocketTaken(s: State, c: Caller, choice: Choice)
    requires Inv(s) && Enabled(s, Go(c, choice)) && s.callers[c].Taking? && s.installed.Some?
    ensures SocketsOwned(Stepped(s, c, choice))
  {
    TakenMore(s.callers, c, Goes(s, s.callers[c], choice).value);
    OutsideStep(s, c, choice);
    assert InHand(s.lock, s.callers) == {};
  }

  lemma SocketCloses(s: State, c: Caller, choice: Choice)
    requires Inv(s) && Enabled(s, Go(c, choice)) && s.callers[c].Closing?
    ensures SocketsOwned(Stepped(s, c, choice))
  {
    TakenLess(s.callers, c, Goes(s, s.callers[c], choice));
    OutsideStep(s, c, choice);
    assert c in Closers(s.callers);
  }

  /** Every step keeps both. */
  lemma GoKeeps(s: State, c: Caller, choice: Choice)
    requires Inv(s) && Enabled(s, Go(c, choice))
    ensures Inv(Next(s, Go(c, choice)))
  {
    var at, q := s.callers[c], Stepped(s, c, choice);
    MovedKeepsOneInside(s, c, choice);
    if at.Connecting? { SocketOpens(s, c, choice); }
    else if at.Opened? { SocketInstalled(s, c, choice); }
    else if at.Closing? { SocketCloses(s, c, choice); }
    else if at.Taking? && s.installed.Some? { SocketTaken(s, c, choice); }
    else { SocketsQuiet(s, c, choice); }
    if Spawns(s, at) { TimerKeeps(q, choice.spawned); }
  }

  lemma TimerKeeps(s: State, spawned: Caller)
    requires Inv(s) && (spawned in s.callers ==> !Inside(s.callers[spawned]) && !s.callers[spawned].Closing?)
    ensures Inv(WithTimer(s, spawned))
  {
    Outsider(s.lock, s.callers, s.installed.Some?, spawned, Some(IsInstalled));
    TakenSame(s.callers, spawned, Some(IsInstalled));
  }

  lemma BeginKeeps(s: State, c: Caller, call: Call)
    requires Inv(s) && c !in s.callers
    ensures Inv(Next(s, Begin(c, call)))
  {
    Outsider(s.lock, s.callers, s.installed.Some?, c, Some(First(s, call)));
    TakenSame(s.callers, c, Some(First(s, call)));
  }

  lemma StepKeeps(s: State, step: Step)
    requires Inv(s) && Enabled(s, step)
    ensures Inv(Next(s, step))
  {
    match step
    case Begin(c, call) => BeginKeeps(s, c, call);
    case Go(c, choice) => GoKeeps(s, c, choice);
    case Stop(c) => StopKeeps(s, c);
    case _ =>
  }

  lemma StopKeeps(s: State, c: Caller)
    requires Inv(s) && Enabled(s, Stop(c))
    ensures Inv(Next(s, Stop(c)))
  {
    Outsider(s.lock, s.callers, s.installed.Some?, c, None);
    if s.callers[c].Closing? { TakenLess(s.callers, c, None); } else { TakenSame(s.callers, c, None); }
  }

  lemma {:induction false} RunKeeps(s: State, steps: seq<Step>)
    requires Inv(s) && Possible(s, steps)
    ensures Inv(Run(s, steps))
  {
    if steps != [] {
      RunKeeps(s, steps[..|steps| - 1]);
      StepKeeps(Run(s, steps[..|steps| - 1]), steps[|steps| - 1]);
    }
  }

  // ---------------------------------------------------------------------------------------------
  // One connect at a time
  // ---------------------------------------------------------------------------------------------

  /** However the callers interleave: no two are ever inside at once, a caller past its look finds
      nothing installed for as long as it stays inside, and nobody ever displaces a listener. */
  lemma OneConnectAtATime(steps: seq<Step>, c: Caller, d: Caller)
    requires Possible(START, steps)
    requires c in Run(START, steps).callers && Inside(Run(START, steps).callers[c])
    ensures var s := Run(START, steps);
      && (d in s.callers && Inside(s.callers[d]) ==> c == d)
      && (PastCheck(s.callers[c]) ==> s.installed.None?)
      && !s.callers[c].Displacing?
  {
    RunKeeps(START, steps);
  }

  /** The lock never deadlocks: some caller can always take its next step, or be dropped for good. */
  lemma NoDeadlock(steps: seq<Step>)
    requires Possible(START, steps) && Run(START, steps).callers != map[]
    ensures var s := Run(START, steps);
      exists c :: c in s.callers && forall choice: Choice ::
        (choice.spawned !in s.callers ==> Enabled(s, Go(c, choice)) || Enabled(s, Stop(c)))
  {
    var s := Run(START, steps);
    RunKeeps(START, steps);
    var c: Caller;
    if s.lock.Some? {
      c := s.lock.value;
      assert c in s.callers && !s.callers[c].WaitingForLock?;
    } else {
      c :| c in s.callers.Keys;
    }
    assert c in s.callers && (s.callers[c].WaitingForLock? ==> s.lock.None?);
  }

  /** Every step of a caller's own brings its call nearer its end: no call takes more than seven. */
  lemma EveryStepNearer(s: State, c: Caller, choice: Choice)
    requires Enabled(s, Go(c, choice))
    ensures Left(Goes(s, s.callers[c], choice)) < Left(Some(s.callers[c])) <= 7
  {
  }

  /** The steps a call may still take. */
  function Left(at: Option<Place>): nat {
    match at
    case None => 0
    case Some(WaitingForLock(_)) => 7
    case Some(Locked(_)) => 6
    case Some(Checked(_)) => 5
    case Some(Granted) => 4
    case Some(Connecting(_)) => 3
    case Some(Opened(_, _)) => 2
    case Some(Unstranding(_)) => 6
    case Some(Unwaiting(_)) => 5
    case Some(Taking(_)) => 4
    case Some(Closing(_, _)) => 3
    case Some(Removed(_)) => 2
    case Some(IsInstalled) => 4
    case Some(IsStranded) => 3
    case Some(IsWaiting) => 2
    case _ => 1
  }

  // ---------------------------------------------------------------------------------------------
  // Sockets
  // ---------------------------------------------------------------------------------------------

  lemma {:induction false} AsManyTaken(callers: Callers, among: set<Caller>)
    requires Apart(callers) && among <= Closers(callers)
    ensures |set c | c in among :: callers[c].socket| == |among|
  {
    if among != {} {
      var d :| d in among;
      AsManyTaken(callers, among - {d});
      var rest := set c | c in among - {d} :: callers[c].socket;
      assert (set c | c in among :: callers[c].socket) == rest + {callers[d].socket};
      assert callers[d].socket !in rest;
    }
  }

  /** As many sockets are open as there are callers about to close one, orphans that nobody closes any
      more, and the listener's own. */
  lemma SocketsCounted(s: State)
    requires Inv(s)
    ensures |s.open| == |Live(s)| + |Closers(s.callers)| + |s.orphans| && |Live(s)| <= 1
    ensures s.callers == map[] ==> s.open == OnDesk(s.installed) + s.orphans && s.lock.None?
  {
    AsManyTaken(s.callers, Closers(s.callers));
    assert Taken(s.callers) == set c | c in Closers(s.callers) :: s.callers[c].socket;
    assert OnDesk(s.installed) == {} || InHand(s.lock, s.callers) == {};
    assert |Live(s) + Taken(s.callers)| == |Live(s)| + |Taken(s.callers)|;
  }

  /** A connect opens a socket beside another one exactly when a caller that took the old wire has not
      closed it yet, or an old one was orphaned. */
  lemma SecondSocketIff(steps: seq<Step>, c: Caller, choice: Choice)
    requires Possible(START, steps) && Enabled(Run(START, steps), Go(c, choice))
    requires Run(START, steps).callers[c].Connecting? && choice.connects
    ensures var s := Run(START, steps);
      |Next(s, Go(c, choice)).open| > 1 <==> Closers(s.callers) != {} || s.orphans != {}
  {
    RunKeeps(START, steps);
    SecondSocket(Run(START, steps), c, choice);
  }

  lemma SecondSocket(s: State, c: Caller, choice: Choice)
    requires Inv(s) && Enabled(s, Go(c, choice)) && s.callers[c].Connecting? && choice.connects
    ensures |Next(s, Go(c, choice)).open| > 1 <==> Closers(s.callers) != {} || s.orphans != {}
  {
    SocketOpens(s, c, choice);
    SocketsCounted(s);
    assert s.next !in s.open && Next(s, Go(c, choice)).open == s.open + {s.next};
  }

  // ---------------------------------------------------------------------------------------------
  // Sockets that are lost
  // ---------------------------------------------------------------------------------------------

  /** The closings told to stop: they wait for a socket to close, and can only be dropped. */
  function Doomed(s: State): set<Caller> { set c | c in Closers(s.callers) && Aborted(s.renewals, c) }

  /** The sockets that stay open for good: the orphans, and those of doomed closings. */
  function Lost(s: State): set<Socket> { s.orphans + set c | c in Doomed(s) :: s.callers[c].socket }

  /** The step takes the claim held off the record, and tells its renewal to stop. */
  predicate StopsRenewal(s: State, step: Step) {
    step.Go? && step.caller in s.callers && s.held.Some?
    && (s.callers[step.caller].Granted? || ReleasesAt(s.callers[step.caller]))
  }

  /** `c` is a call of the renewal of the claim held. */
  predicate RenewsHeld(s: State, c: Caller) {
    c in s.callers && c in s.renewals && s.held == Some(s.renewals[c].generation)
  }

  /** The step loses a socket: it stops the renewal of the claim held while that waits for its socket to
      close, or a closing that was told to stop goes on to take the wire. */
  predicate Loses(s: State, step: Step) {
    || (StopsRenewal(s, step)
        && exists d :: d in Closers(s.callers) && RenewsHeld(s, d) && !Aborted(s.renewals, d))
    || (step.Go? && step.caller in s.callers && s.callers[step.caller].Taking? && s.installed.Some?
        && Aborted(s.renewals, step.caller))
  }

  /** The callers about to close, and which of them are doomed, stay the same. */
  predicate SameClosers(s: State, q: State) {
    && q.orphans == s.orphans && Closers(q.callers) == Closers(s.callers)
    && (forall d :: d in Closers(s.callers) ==>
          q.callers[d] == s.callers[d] && (Aborted(q.renewals, d) <==> Aborted(s.renewals, d)))
  }

  lemma LostSame(s: State, q: State)
    requires SameClosers(s, q)
    ensures Lost(q) == Lost(s)
  {
    assert Doomed(q) == Doomed(s);
    assert (set c | c in Doomed(q) :: q.callers[c].socket) == set c | c in Doomed(s) :: s.callers[c].socket;
  }

  lemma DoesRenewals(s: State, c: Caller, choice: Choice)
    requires Enabled(s, Go(c, choice))
    ensures var q := Does(s, c, s.callers[c], choice);
      && q.orphans == s.orphans
      && q.renewals == if StopsRenewal(s, Go(c, choice)) then AbortHeld(s.renewals, s.held) else s.renewals
  {
    assert AbortHeld(s.renewals, None) == s.renewals;
  }

  /** The renewal of the claim held is stopped. */
  lemma StopLoses(s: State, q: State)
    requires Inv(s) && q.orphans == s.orphans && q.renewals == AbortHeld(s.renewals, s.held) && s.held.Some?
    requires Closers(q.callers) == Closers(s.callers)
    requires forall d :: d in Closers(s.callers) ==> q.callers[d] == s.callers[d]
    ensures Lost(s) <= Lost(q)
    ensures Lost(q) != Lost(s)
       <==> exists d :: d in Closers(s.callers) && RenewsHeld(s, d) && !Aborted(s.renewals, d)
  {
    forall d | d in Doomed(s) ensures s.callers[d].socket in Lost(q) { assert d in Doomed(q); }
    if d :| d in Closers(s.callers) && RenewsHeld(s, d) && !Aborted(s.renewals, d) {
      assert d in Doomed(q) && s.callers[d].socket in Lost(q);
      NotLostYet(s, d);
    } else {
      assert SameClosers(s, q);
      LostSame(s, q);
    }
  }

  /** The socket of a closing that was not told to stop is not lost. */
  lemma NotLostYet(s: State, d: Caller)
    requires Inv(s) && d in Closers(s.callers) && !Aborted(s.renewals, d)
    ensures s.callers[d].socket !in Lost(s)
  {
    assert s.callers[d].socket in Taken(s.callers);
    assert forall c :: c in Doomed(s) ==> c != d && s.callers[c].socket != s.callers[d].socket;
  }

  /** A caller takes the wire. */
  lemma TakingLoses(s: State, c: Caller, choice: Choice)
    requires Inv(s) && Enabled(s, Go(c, choice)) && s.callers[c].Taking? && s.installed.Some?
    ensures Lost(s) <= Lost(Stepped(s, c, choice))
    ensures Lost(Stepped(s, c, choice)) != Lost(s) <==> Aborted(s.renewals, c)
  {
    var q, k := Stepped(s, c, choice), s.installed.value.socket;
    DoesRenewals(s, c, choice);
    assert Closers(q.callers) == Closers(s.callers) + {c};
    assert forall d :: d in Closers(s.callers) ==> q.callers[d] == s.callers[d];
    forall d | d in Doomed(s) ensures s.callers[d].socket in Lost(q) { assert d in Doomed(q); }
    assert k in Live(s);
    assert k !in Lost(s) by {
      assert forall d :: d in Doomed(s) ==> s.callers[d].socket in Taken(s.callers);
    }
    if Aborted(s.renewals, c) {
      assert c in Doomed(q) && k in Lost(q);
    } else {
      assert Doomed(q) == Doomed(s);
      assert (set d | d in Doomed(q) :: q.callers[d].socket) == set d | d in Doomed(s) :: s.callers[d].socket;
    }
  }

  /** A closing that was not told to stop closes its socket. */
  lemma ClosingLosesNone(s: State, c: Caller, choice: Choice)
    requires Inv(s) && Enabled(s, Go(c, choice)) && s.callers[c].Closing?
    ensures Lost(Stepped(s, c, choice)) == Lost(s)
  {
    var q := Stepped(s, c, choice);
    DoesRenewals(s, c, choice);
    assert Closers(q.callers) == Closers(s.callers) - {c};
    assert forall d :: d in Closers(q.callers) ==> q.callers[d] == s.callers[d];
    assert Doomed(q) == Doomed(s);
    assert (set d | d in Doomed(q) :: q.callers[d].socket) == set d | d in Doomed(s) :: s.callers[d].socket;
  }

  lemma GoLoses(s: State, c: Caller, choice: Choice)
    requires Inv(s) && Enabled(s, Go(c, choice))
    ensures Lost(s) <= Lost(Stepped(s, c, choice))
    ensures Lost(Stepped(s, c, choice)) != Lost(s) <==> Loses(s, Go(c, choice))
  {
    var at, q := s.callers[c], Stepped(s, c, choice);
    DoesRenewals(s, c, choice);
    if at.Closing? {
      ClosingLosesNone(s, c, choice);
    } else if at.Taking? && s.installed.Some? {
      TakingLoses(s, c, choice);
    } else {
      GoesNotClosing(s, at, choice);
      TakenSame(s.callers, c, Goes(s, at, choice));
      if StopsRenewal(s, Go(c, choice)) {
        StopLoses(s, q);
      } else {
        LostSame(s, q);
      }
    }
  }

  lemma GoesNotClosing(s: State, at: Place, choice: Choice)
    requires !(at.Taking? && s.installed.Some?)
    ensures Goes(s, at, choice).Some? ==> !Goes(s, at, choice).value.Closing?
  {
  }

  /** A doomed closing is dropped, and its socket an orphan: it was lost before. */
  lemma StopLosesNone(s: State, c: Caller)
    requires Inv(s) && Enabled(s, Stop(c))
    ensures Lost(Next(s, Stop(c))) == Lost(s)
  {
    var q := Next(s, Stop(c));
    if s.callers[c].Closing? {
      assert c in Doomed(s) && Doomed(q) == Doomed(s) - {c};
      assert forall d :: d in Doomed(q) ==> q.callers[d] == s.callers[d];
      assert forall k :: k in Lost(q) <==> k in Lost(s);
    } else {
      assert SameClosers(s, q);
      LostSame(s, q);
    }
  }

  /** A socket is lost exactly when a step stops the renewal of the claim held while that waits for its
      socket to close, or a closing that was told to stop goes on to take the wire. None is ever found
      again. */
  lemma LostIff(s: State, step: Step)
    requires Inv(s) && Enabled(s, step)
    ensures Lost(Next(s, step)) != Lost(s) <==> Loses(s, step)
    ensures Lost(s) <= Lost(Next(s, step))
    ensures Next(s, step).orphans != s.orphans <==> step.Stop? && s.callers[step.caller].Closing?
  {
    match step
    case Begin(c, call) =>
      assert SameClosers(s, Next(s, step));
      LostSame(s, Next(s, step));
    case Go(c, choice) =>
      GoLoses(s, c, choice);
      DoesRenewals(s, c, choice);
      if Spawns(s, s.callers[c]) {
        assert SameClosers(Stepped(s, c, choice), Next(s, step));
        LostSame(Stepped(s, c, choice), Next(s, step));
      }
    case Stop(c) =>
      StopLosesNone(s, c);
      if s.callers[c].Closing? { OrphanAnew(s, c); }
    case _ =>
      assert SameClosers(s, Next(s, step));
      LostSame(s, Next(s, step));
  }

  lemma OrphanAnew(s: State, c: Caller)
    requires Inv(s) && Enabled(s, Stop(c)) && s.callers[c].Closing?
    ensures s.callers[c].socket !in s.orphans
  {
    assert c in Closers(s.callers) && s.callers[c].socket in Taken(s.callers);
  }

  /** So in every run: what is lost stays lost, and open. */
  lemma {:induction false} LostForGood(s: State, steps: seq<Step>)
    requires Inv(s) && Possible(s, steps)
    ensures Lost(s) <= Lost(Run(s, steps)) <= Run(s, steps).open
  {
    RunKeeps(s, steps);
    LostAreOpen(Run(s, steps));
    if steps != [] {
      var before := steps[..|steps| - 1];
      LostForGood(s, before);
      RunKeeps(s, before);
      LostIff(Run(s, before), steps[|steps| - 1]);
    }
  }

  lemma LostAreOpen(s: State)
    requires Inv(s)
    ensures Lost(s) <= s.open
  {
    assert forall c :: c in Doomed(s) ==> s.callers[c].socket in Taken(s.callers);
  }

  /** A closing that has not closed the socket yet. */
  predicate StillCloses(at: Place) { at.Unstranding? || at.Unwaiting? || at.Taking? || at.Closing? }

  /** The step stops the renewal of the claim held in the middle of a closing. */
  predicate StopsClosing(s: State, step: Step) {
    StopsRenewal(s, step) && exists d :: d in s.callers && RenewsHeld(s, d) && StillCloses(s.callers[d])
  }

  predicate NeverStopsClosing(s: State, steps: seq<Step>)
    requires Possible(s, steps)
  {
    steps == [] ||
    var before, last := steps[..|steps| - 1], steps[|steps| - 1];
    NeverStopsClosing(s, before) && !StopsClosing(Run(s, before), last)
  }

  /** No closing under way was told to stop, and there is no orphan. */
  predicate Unstopped(s: State) {
    s.orphans == {} && forall d :: d in s.callers && StillCloses(s.callers[d]) ==> !Aborted(s.renewals, d)
  }

  lemma StaysUnstopped(s: State, step: Step)
    requires Unstopped(s) && Enabled(s, step) && !StopsClosing(s, step)
    ensures Unstopped(Next(s, step))
  {
    if step.Go? { GoUnstopped(s, step.caller, step.choice); }
  }

  lemma GoUnstopped(s: State, c: Caller, choice: Choice)
    requires Unstopped(s) && Enabled(s, Go(c, choice)) && !StopsClosing(s, Go(c, choice))
    ensures Unstopped(Stepped(s, c, choice))
  {
    var q := Stepped(s, c, choice);
    DoesRenewals(s, c, choice);
    GoesOnClosing(s, s.callers[c], choice);
    forall d | d in q.callers && StillCloses(q.callers[d]) ensures !Aborted(q.renewals, d) {
      assert d in s.callers && StillCloses(s.callers[d]);
    }
  }

  /** Only a closing goes on closing. */
  lemma GoesOnClosing(s: State, at: Place, choice: Choice)
    ensures var to := Goes(s, at, choice); to.Some? && StillCloses(to.value) ==> StillCloses(at)
  {
  }

  /** In every run, at most one socket is open beside those about to be closed and those orphaned; and
      none is orphaned in a run that never stops a renewal in the middle of a closing. */
  lemma RunCounted(steps: seq<Step>)
    requires Possible(START, steps)
    ensures var s := Run(START, steps);
      && |s.open| <= 1 + |Closers(s.callers)| + |s.orphans|
      && (s.callers == map[] ==> s.open == OnDesk(s.installed) + s.orphans && s.lock.None?)
      && (NeverStopsClosing(START, steps) ==> s.orphans == {})
  {
    RunKeeps(START, steps);
    SocketsCounted(Run(START, steps));
    if NeverStopsClosing(START, steps) { RunUnstopped(steps); }
  }

  lemma {:induction false} RunUnstopped(steps: seq<Step>)
    requires Possible(START, steps) && NeverStopsClosing(START, steps)
    ensures Unstopped(Run(START, steps))
  {
    if steps != [] {
      var before := steps[..|steps| - 1];
      RunUnstopped(before);
      StaysUnstopped(Run(START, before), steps[|steps| - 1]);
    }
  }

  /** What a caller still has to do once the listener is removed. */
  function Then(at: Place): Option<Afterwards> {
    match at
    case Unstranding(afterwards) => Some(afterwards)
    case Unwaiting(afterwards) => Some(afterwards)
    case Taking(afterwards) => Some(afterwards)
    case Closing(_, afterwards) => Some(afterwards)
    case Removed(afterwards) => Some(afterwards)
    case Afterward(afterwards) => Some(afterwards)
    case _ => None
  }

  /** A closing that is to come back ends with the listener waiting, exactly unless it is dropped; then
      it leaves the listener, and the claim, as others have them. */
  lemma ComesBackIff(s: State, step: Step, c: Caller)
    requires Inv(s) && Enabled(s, step) && c in s.callers && Then(s.callers[c]) == Some(WaitAgain)
    requires c !in Next(s, step).callers
    ensures var q := Next(s, step);
      && (step == Stop(c) <==> !(step.Go? && step.caller == c))
      && (step != Stop(c) ==> q.waiting)
      && (step == Stop(c) ==> Aborted(s.renewals, c) && q.installed == s.installed
                              && q.stranded == s.stranded && q.waiting == s.waiting && q.held == s.held)
  {
  }

  // ---------------------------------------------------------------------------------------------
  // Claims
  // ---------------------------------------------------------------------------------------------

  /** A caller at `at` is about to take the claim off the record. */
  predicate ReleasesAt(at: Place) { at.Releasing? || at == Afterward(ReleaseClaim) }

  /** The step is a releasing caller's, or a renewal drops the claim recorded. */
  predicate Releases(s: State, step: Step) {
    match step
    case Go(c, _) => c in s.callers && ReleasesAt(s.callers[c])
    case DropClaim(g) => s.held == Some(g)
    case _ => false
  }

  /** The claim the lock's holder is connecting under. */
  function ClaimInHand(lock: Option<Caller>, callers: Callers): Option<nat> {
    if lock.None? || lock.value !in callers then None else UnderWay(callers[lock.value])
  }

  function UnderWay(at: Place): Option<nat> {
    match at
    case Connecting(under) => under
    case Opened(_, under) => under
    case _ => None
  }

  /** The claim the listener's own socket is, or is about to be, open under. */
  function LiveClaim(s: State): Option<nat> {
    if s.installed.Some? then s.installed.value.under else ClaimInHand(s.lock, s.callers)
  }

  /** A socket under a claim has that claim still on record. */
  predicate Covered(s: State) { LiveClaim(s).Some? ==> s.held == LiveClaim(s) }

  lemma HandUntouched(lock: Option<Caller>, callers: Callers, c: Caller, to: Option<Place>)
    requires lock != Some(c)
    ensures ClaimInHand(lock, Moved(callers, c, to)) == ClaimInHand(lock, callers)
  {
  }

  lemma HandMoved(callers: Callers, c: Caller, to: Place)
    ensures ClaimInHand(Some(c), Moved(callers, c, Some(to))) == UnderWay(to)
  {
  }

  lemma InsiderUncovers(s: State, c: Caller, choice: Choice)
    requires Inv(s) && Covered(s) && Enabled(s, Go(c, choice))
    requires Inside(s.callers[c]) || s.callers[c].WaitingForLock?
    ensures Covered(Stepped(s, c, choice))
  {
    var to := Goes(s, s.callers[c], choice);
    if to.Some? { HandMoved(s.callers, c, to.value); }
  }

  lemma DoesOutside(s: State, c: Caller, choice: Choice)
    requires Enabled(s, Go(c, choice)) && !Inside(s.callers[c]) && !s.callers[c].WaitingForLock?
    ensures var at, q := s.callers[c], Does(s, c, s.callers[c], choice);
      && q.lock == s.lock && q.held == (if ReleasesAt(at) then None else s.held)
      && q.installed == (if at.Taking? then None else s.installed)
  {
  }

  lemma OutsideCover(s: State, q: State, c: Caller, to: Option<Place>, releases: bool)
    requires Inv(s) && Covered(s) && q.lock == s.lock != Some(c) && q.callers == Moved(s.callers, c, to)
    requires q.held == if releases then None else s.held
    requires q.installed == s.installed || (q.installed == None && !releases)
    ensures Covered(q) <==> !(releases && LiveClaim(s).Some?)
  {
    HandUntouched(s.lock, s.callers, c, to);
    if s.installed.Some? {
      assert ClaimInHand(s.lock, s.callers) == None;
    }
  }

  lemma OutsiderUncovers(s: State, c: Caller, choice: Choice)
    requires Inv(s) && Covered(s) && Enabled(s, Go(c, choice))
    requires !Inside(s.callers[c]) && !s.callers[c].WaitingForLock?
    ensures Covered(Stepped(s, c, choice)) <==> !(ReleasesAt(s.callers[c]) && LiveClaim(s).Some?)
  {
    var at := s.callers[c];
    DoesOutside(s, c, choice);
    OutsideCover(s, Stepped(s, c, choice), c, Goes(s, at, choice), ReleasesAt(at));
  }

  /** The only steps that leave a socket without its claim, while it is installed under that claim or the
      lock's holder is connecting under it: a caller about to release, a closing's or a timer's, or a
      renewal told that the VTA does not collect at all, after which nobody else does either. */
  lemma UncoveredIff(s: State, step: Step)
    requires Inv(s) && Covered(s) && Enabled(s, step)
    ensures Covered(Next(s, step)) <==> !(Releases(s, step) && LiveClaim(s).Some?)
  {
    match step
    case Begin(c, call) => HandUntouched(s.lock, s.callers, c, Some(First(s, call)));
    case Go(c, choice) =>
      if Inside(s.callers[c]) || s.callers[c].WaitingForLock? {
        InsiderUncovers(s, c, choice);
      } else {
        OutsiderUncovers(s, c, choice);
      }
      MovedKeepsOneInside(s, c, choice);
      var q := Stepped(s, c, choice);
      if Spawns(s, s.callers[c]) { HandUntouched(q.lock, q.callers, choice.spawned, Some(IsInstalled)); }
    case _ =>
  }

  /** No step of the run releases a claim while a socket is open under it or on its way to be. */
  predicate NeverReleasedLive(s: State, steps: seq<Step>)
    requires Possible(s, steps)
  {
    steps == [] ||
    var before, last := steps[..|steps| - 1], steps[|steps| - 1];
    NeverReleasedLive(s, before) && !(Releases(Run(s, before), last) && LiveClaim(Run(s, before)).Some?)
  }

  /** Without such a release, a listener that connected under a claim holds that very claim, whatever
      else happens. */
  lemma {:induction false} RunCovered(steps: seq<Step>)
    requires Possible(START, steps) && NeverReleasedLive(START, steps)
    ensures Covered(Run(START, steps))
  {
    if steps != [] {
      var before := steps[..|steps| - 1];
      RunCovered(before);
      RunKeeps(START, before);
      UncoveredIff(Run(START, before), steps[|steps| - 1]);
    }
  }

  /** Throughout the run nobody is inside `add_listener`. */
  predicate LockFree(s: State, steps: seq<Step>)
    requires Possible(s, steps)
  {
    Run(s, steps).lock.None? && (steps == [] || LockFree(s, steps[..|steps| - 1]))
  }

  /** A caller that saw nothing installed releases no live claim as long as nobody has been inside
      `add_listener` since. */
  lemma {:induction false} ReleaseSafe(s: State, steps: seq<Step>)
    requires Inv(s) && s.installed.None? && Possible(s, steps) && LockFree(s, steps)
    ensures Run(s, steps).installed.None? && LiveClaim(Run(s, steps)).None?
  {
    if steps != [] {
      var before := steps[..|steps| - 1];
      ReleaseSafe(s, before);
      RunKeeps(s, before);
      StillNothing(Run(s, before), steps[|steps| - 1]);
    }
  }

  lemma StillNothing(s: State, step: Step)
    requires Inv(s) && s.lock.None? && s.installed.None? && Enabled(s, step)
    ensures Next(s, step).installed.None?
  {
    if step.Go? {
      assert !Inside(s.callers[step.caller]);
    }
  }

  /** The step records the grant of `g`. */
  predicate Grants(s: State, step: Step, g: nat) {
    step.Go? && step.caller in s.callers && s.callers[step.caller].Granted? && s.generation + 1 == g
  }

  predicate GrantedWithin(s: State, steps: seq<Step>, g: nat)
    requires Possible(s, steps)
  {
    steps != [] &&
    var before, last := steps[..|steps| - 1], steps[|steps| - 1];
    GrantedWithin(s, before, g) || Grants(Run(s, before), last, g)
  }

  /** The other half: a claim that is live when such a caller releases was in the lock holder's hand when
      it looked, or was granted since. */
  lemma {:induction false} LiveSince(s: State, steps: seq<Step>, g: nat)
    requires Inv(s) && s.installed.None? && Possible(s, steps) && LiveClaim(Run(s, steps)) == Some(g)
    ensures ClaimInHand(s.lock, s.callers) == Some(g) || GrantedWithin(s, steps, g)
  {
    if steps != [] {
      var before := steps[..|steps| - 1];
      RunKeeps(s, before);
      LiveBefore(Run(s, before), steps[|steps| - 1], g);
      if LiveClaim(Run(s, before)) == Some(g) { LiveSince(s, before, g); }
    }
  }

  /** A claim is live after a step only if it was before, or the step grants it. */
  lemma LiveBefore(s: State, step: Step, g: nat)
    requires Inv(s) && Enabled(s, step) && LiveClaim(Next(s, step)) == Some(g)
    ensures LiveClaim(s) == Some(g) || Grants(s, step, g)
  {
    match step
    case Begin(c, call) => HandUntouched(s.lock, s.callers, c, Some(First(s, call)));
    case Go(c, choice) => GoLive(s, c, choice, g);
    case Stop(c) => HandUntouched(s.lock, s.callers, c, None);
    case _ =>
  }

  lemma GoLive(s: State, c: Caller, choice: Choice, g: nat)
    requires Inv(s) && Enabled(s, Go(c, choice)) && LiveClaim(Next(s, Go(c, choice))) == Some(g)
    ensures LiveClaim(s) == Some(g) || Grants(s, Go(c, choice), g)
  {
    var q, to := Stepped(s, c, choice), Goes(s, s.callers[c], choice);
    MovedKeepsOneInside(s, c, choice);
    if Spawns(s, s.callers[c]) { HandUntouched(q.lock, q.callers, choice.spawned, Some(IsInstalled)); }
    assert LiveClaim(q) == Some(g);
    if Inside(s.callers[c]) || s.callers[c].WaitingForLock? {
      InsiderLive(s, c, choice, g);
    } else {
      DoesOutside(s, c, choice);
      HandUntouched(s.lock, s.callers, c, to);
    }
  }

  lemma InsiderLive(s: State, c: Caller, choice: Choice, g: nat)
    requires Inv(s) && Enabled(s, Go(c, choice)) && LiveClaim(Stepped(s, c, choice)) == Some(g)
    requires Inside(s.callers[c]) || s.callers[c].WaitingForLock?
    ensures LiveClaim(s) == Some(g) || Grants(s, Go(c, choice), g)
  {
    var to := Goes(s, s.callers[c], choice);
    if to.Some? { HandMoved(s.callers, c, to.value); }
  }

  // ---------------------------------------------------------------------------------------------
  // What a release looks at
  // ---------------------------------------------------------------------------------------------

  /** The state after the first `i` steps of the run. */
  function At(s: State, steps: seq<Step>, i: nat): State
    requires Possible(s, steps) && i <= |steps|
  {
    if i == |steps| then Run(s, steps) else At(s, steps[..|steps| - 1], i)
  }

  /** `c` is under way in the same call from the start of the run to its end. */
  predicate Throughout(s: State, steps: seq<Step>, c: Caller)
    requires Possible(s, steps)
  {
    c in Run(s, steps).callers && (steps == [] || Throughout(s, steps[..|steps| - 1], c))
  }

  /** The step starts `c` on the release of a claim that may be wanted again: a renewal's call, or the
      timer that a removal or a failed connect leaves behind. */
  predicate StartsRelease(s: State, step: Step, c: Caller)
    requires Enabled(s, step)
  {
    c !in s.callers && c in Next(s, step).callers && (step.Begin? ==> step.call.ReleaseUnlessWanted?)
  }

  /** Since the start, there was an instant with nothing installed, from then on one with nothing
      stranded, and from then on one with nothing waiting. */
  predicate Unwanted(s: State, steps: seq<Step>)
    requires Possible(s, steps)
  {
    exists i, j, k :: 0 <= i <= j <= k <= |steps|
      && At(s, steps, i).installed.None? && !At(s, steps, j).stranded && !At(s, steps, k).waiting
  }

  /** What a release has found by the time it stands where it does. */
  predicate FoundSoFar(s: State, steps: seq<Step>, at: Place)
    requires Possible(s, steps)
  {
    match at
    case IsInstalled => true
    case IsStranded => exists i :: 0 <= i <= |steps| && At(s, steps, i).installed.None?
    case IsWaiting =>
      exists i, j :: 0 <= i <= j <= |steps| && At(s, steps, i).installed.None? && !At(s, steps, j).stranded
    case Releasing => Unwanted(s, steps)
    case _ => false
  }

  /** What it found stays found. */
  lemma StillFound(s: State, steps: seq<Step>, at: Place)
    requires Possible(s, steps) && steps != [] && FoundSoFar(s, steps[..|steps| - 1], at)
    ensures FoundSoFar(s, steps, at)
  {
    var before := steps[..|steps| - 1];
    assert forall i :: 0 <= i <= |before| ==> At(s, steps, i) == At(s, before, i);
  }

  /** Its own step finds what it looks for, or its call is over. */
  lemma FoundNext(s: State, steps: seq<Step>, c: Caller)
    requires Possible(s, steps) && steps != [] && steps[|steps| - 1].Go? && steps[|steps| - 1].caller == c
    requires var before := steps[..|steps| - 1];
      && c in Run(s, before).callers && FoundSoFar(s, before, Run(s, before).callers[c])
    requires c in Run(s, steps).callers
    ensures FoundSoFar(s, steps, Run(s, steps).callers[c])
  {
    var before := steps[..|steps| - 1];
    var q := Run(s, before);
    StillFound(s, steps, q.callers[c]);
    assert At(s, steps, |before|) == q;
    assert Run(s, steps).callers[c] == Goes(q, q.callers[c], steps[|steps| - 1].choice).value;
  }

  lemma {:induction false} LooksInTurn(s: State, steps: seq<Step>, c: Caller)
    requires Possible(s, steps) && Throughout(s, steps, c) && c in s.callers && s.callers[c] == IsInstalled
    ensures FoundSoFar(s, steps, Run(s, steps).callers[c])
  {
    if steps != [] {
      var before, last := steps[..|steps| - 1], steps[|steps| - 1];
      LooksInTurn(s, before, c);
      if last.Go? && last.caller == c {
        FoundNext(s, steps, c);
      } else {
        assert Run(s, steps).callers[c] == Run(s, before).callers[c];
        StillFound(s, steps, Run(s, before).callers[c]);
      }
    }
  }

  /** However others interleave with it: a release takes the claim off the record only if, since it
      started, there was an instant with nothing installed, then one with nothing stranded and then one
      with nothing waiting; it ends without releasing only while the listener is one of these; and
      it changes nothing but the claim and its renewal. */
  lemma ReleasedOnlyUnwanted(s: State, start: Step, steps: seq<Step>, c: Caller, choice: Choice)
    requires Enabled(s, start) && StartsRelease(s, start, c)
    requires Possible(Next(s, start), steps) && Throughout(Next(s, start), steps, c)
    requires Enabled(Run(Next(s, start), steps), Go(c, choice))
    ensures var begun := Next(s, start);
      var q := Run(begun, steps);
      var r := Next(q, Go(c, choice));
      && (r.held != q.held ==> r.held == None && Unwanted(begun, steps))
      && (c !in r.callers ==> r.held == None || q.installed.Some? || q.stranded || q.waiting)
      && r == q.(callers := r.callers, held := r.held, renewals := r.renewals)
      && r.callers.Keys == (if c in r.callers then q.callers.Keys else q.callers.Keys - {c})
  {
    var begun := Next(s, start);
    assert begun.callers[c] == IsInstalled;
    LooksInTurn(begun, steps, c);
  }

  // ---------------------------------------------------------------------------------------------
  // All listeners together
  // ---------------------------------------------------------------------------------------------

  type Runtime = map<Id, State>

  function Listener(all: Runtime, id: Id): State { if id in all then all[id] else START }

  predicate PossibleAll(all: Runtime, steps: seq<(Id, Step)>)
    decreases |steps|, 0
  {
    steps == [] ||
    var before, (id, step) := steps[..|steps| - 1], steps[|steps| - 1];
    PossibleAll(all, before) && Enabled(Listener(RunAll(all, before), id), step)
  }

  function RunAll(all: Runtime, steps: seq<(Id, Step)>): Runtime
    requires PossibleAll(all, steps)
    decreases |steps|, 1
  {
    if steps == [] then all
    else
      var (id, step) := steps[|steps| - 1];
      var before := RunAll(all, steps[..|steps| - 1]);
      before[id := Next(Listener(before, id), step)]
  }

  /** The steps that are about `id`. */
  function Own(steps: seq<(Id, Step)>, id: Id): seq<Step> {
    if steps == [] then []
    else Own(steps[..|steps| - 1], id) + (if steps[|steps| - 1].0 == id then [steps[|steps| - 1].1] else [])
  }

  lemma RunMore(s: State, steps: seq<Step>, step: Step)
    requires Possible(s, steps) && Enabled(Run(s, steps), step)
    ensures Possible(s, steps + [step]) && Run(s, steps + [step]) == Next(Run(s, steps), step)
  {
    assert (steps + [step])[..|steps|] == steps;
  }

  /** In a run of any number of listeners, each goes through a run of its own: what is said above of
      one holds of every one of them. */
  lemma {:induction false} RunsApart(steps: seq<(Id, Step)>, id: Id)
    requires PossibleAll(map[], steps)
    ensures Possible(START, Own(steps, id)) && Listener(RunAll(map[], steps), id) == Run(START, Own(steps, id))
  {
    if steps != [] {
      var before, last := steps[..|steps| - 1], steps[|steps| - 1];
      RunsApart(before, id);
      if last.0 == id {
        RunMore(START, Own(before, id), last.1);
      } else {
        assert Own(before, id) + [] == Own(before, id);
      }
    }
  }

  // ---------------------------------------------------------------------------------------------
  // Runs that go wrong
  // ---------------------------------------------------------------------------------------------

  ghost predicate Reachable(s: State) { exists steps :: Possible(START, steps) && Run(START, steps) == s }

  lemma Reach(s: State, step: Step)
    requires Reachable(s) && Enabled(s, step)
    ensures Reachable(Next(s, step))
  {
    var steps :| Possible(START, steps) && Run(START, steps) == s;
    RunMore(START, steps, step);
  }

  /** A step of `c`, from the place it is at. */
  lemma Walk(s: State, c: Caller, at: Place, choice: Choice) returns (s': State)
    requires Reachable(s) && c in s.callers && s.callers[c] == at && Enabled(s, Go(c, choice)) && !Spawns(s, at)
    ensures Reachable(s') && s' == Does(s, c, at, choice).(callers := Moved(s.callers, c, Goes(s, at, choice)))
  {
    s' := Next(s, Go(c, choice));
    Reach(s, Go(c, choice));
  }

  /** The claim is granted, the connect works, a timer becomes caller `free`. */
  function Yes(free: Caller): Choice { Choice(Claims.Granted(0), true, free) }

  /** The add takes the connect lock. */
  lemma Enters(s: State, c: Caller, free: Caller) returns (s': State)
    requires Reachable(s) && s.lock.None?
    requires c !in s.callers && c !in s.renewals && free !in s.callers && c != free
    ensures Reachable(s') && s' == s.(lock := Some(c), callers := s.callers[c := Locked(true)])
  {
    assert s.renewals - {c} == s.renewals;
    s' := s.(callers := s.callers[c := WaitingForLock(true)]);
    Reach(s, Begin(c, Add(true)));
    s' := Walk(s', c, WaitingForLock(true), Yes(free));
    assert s'.callers == s.callers[c := Locked(true)];
  }

  /** It finds nothing installed, and is granted the claim it asks for. */
  lemma Asks(s: State, c: Caller, free: Caller) returns (s': State)
    requires Reachable(s) && s.lock.None? && s.installed.None? && !s.waiting
    requires c !in s.callers && c !in s.renewals && free !in s.callers && c != free
    ensures Reachable(s') && s' == s.(lock := Some(c), callers := s.callers[c := Granted])
  {
    var locked := Enters(s, c, free);
    s' := Walk(locked, c, Locked(true), Yes(free));
    s' := Walk(s', c, Checked(true), Yes(free));
    assert s'.callers == s.callers[c := Granted];
  }

  /** An add under a claim that nobody disturbs, up to the connect. */
  lemma Connects(s: State, c: Caller, free: Caller) returns (s': State)
    requires Reachable(s) && s.lock.None? && s.installed.None? && !s.waiting
    requires c !in s.callers && c !in s.renewals && free !in s.callers && c != free
    ensures Reachable(s')
    ensures s' == s.(lock := Some(c), callers := s.callers[c := Connecting(Some(s.generation + 1))],
                     generation := s.generation + 1, held := Some(s.generation + 1),
                     renewals := AbortHeld(s.renewals, s.held))
  {
    var asked := Asks(s, c, free);
    s' := Walk(asked, c, Granted, Yes(free));
    assert s'.callers == s.callers[c := Connecting(Some(s.generation + 1))];
  }

  /** The connect, and the insert. */
  lemma Installs(s: State, c: Caller, under: Option<nat>, free: Caller) returns (s': State)
    requires Reachable(s) && s.lock == Some(c) && s.installed.None?
    requires c in s.callers && s.callers[c] == Connecting(under) && free !in s.callers
    ensures Reachable(s')
    ensures s' == s.(lock := None, callers := s.callers - {c}, installed := Some(Wire(s.next, under)),
                     open := s.open + {s.next}, next := s.next + 1)
  {
    s' := Walk(s, c, Connecting(under), Yes(free));
    s' := Walk(s', c, Opened(s.next, under), Yes(free));
    assert s'.callers == s.callers - {c};
  }

  /** A removal or a closing that has begun, up to the close of the socket. */
  lemma Takes(s: State, c: Caller, afterwards: Afterwards, free: Caller) returns (s': State)
    requires Reachable(s) && s.installed.Some? && !s.waiting && !s.stranded
    requires c in s.callers && s.callers[c] == Unstranding(afterwards) && free !in s.callers
    ensures Reachable(s')
    ensures s' == s.(callers := s.callers[c := Closing(s.installed.value.socket, afterwards)], installed := None)
  {
    s' := Walk(s, c, Unstranding(afterwards), Yes(free));
    s' := Walk(s', c, Unwaiting(afterwards), Yes(free));
    s' := Walk(s', c, Taking(afterwards), Yes(free));
    assert s'.callers == s.callers[c := Closing(s.installed.value.socket, afterwards)];
  }

  /** The rest of a removal, leaving a timer behind. */
  lemma Closes(s: State, c: Caller, socket: Socket, free: Caller) returns (s': State)
    requires Reachable(s) && s.held.Some? && free !in s.callers && free !in s.renewals && c !in s.renewals
    requires c in s.callers && s.callers[c] == Closing(socket, Nothing)
    ensures Reachable(s')
    ensures s' == s.(callers := (s.callers - {c})[free := IsInstalled], open := s.open - {socket})
  {
    var closed := Walk(s, c, Closing(socket, Nothing), Yes(free));
    assert closed.callers == s.callers[c := Removed(Nothing)];
    s' := LeavesTimer(closed, c, free);
    assert s'.callers == (s.callers - {c})[free := IsInstalled];
  }

  lemma LeavesTimer(s: State, c: Caller, free: Caller) returns (s': State)
    requires Reachable(s) && s.held.Some? && free !in s.callers && free !in s.renewals
    requires c in s.callers && s.callers[c] == Removed(Nothing)
    ensures Reachable(s') && s' == s.(callers := (s.callers - {c})[free := IsInstalled])
  {
    assert s.renewals - {free} == s.renewals;
    Reach(s, Go(c, Yes(free)));
    s' := Next(s, Go(c, Yes(free)));
  }

  /** The timer, once it goes off. */
  lemma Looks(s: State, t: Caller, free: Caller) returns (s': State)
    requires Reachable(s) && s.installed.None? && !s.stranded
    requires t in s.callers && s.callers[t] == IsInstalled && free !in s.callers
    ensures Reachable(s') && s' == s.(callers := s.callers[t := IsWaiting])
  {
    s' := Walk(s, t, IsInstalled, Yes(free));
    s' := Walk(s', t, IsStranded, Yes(free));
    assert s'.callers == s.callers[t := IsWaiting];
  }

  lemma TimesOut(s: State, t: Caller, free: Caller) returns (s': State)
    requires Reachable(s) && s.installed.None? && !s.stranded && !s.waiting
    requires t in s.callers && s.callers[t] == IsInstalled && free !in s.callers
    ensures Reachable(s')
    ensures s' == s.(callers := s.callers - {t}, held := None, renewals := AbortHeld(s.renewals, s.held))
  {
    var looked := Looks(s, t, free);
    var done := Walk(looked, t, IsWaiting, Yes(free));
    assert done.callers == s.callers[t := Releasing];
    s' := Forgets(done, t, free);
    assert s'.callers == s.callers - {t};
  }

  lemma Forgets(s: State, t: Caller, free: Caller) returns (s': State)
    requires Reachable(s) && t in s.callers && s.callers[t] == Releasing && free !in s.callers
    ensures Reachable(s')
    ensures s' == s.(callers := s.callers - {t}, held := None, renewals := AbortHeld(s.renewals, s.held))
  {
    s' := Walk(s, t, Releasing, Yes(free));
  }

  /** Up and open under the first claim. */
  const UP: State := State(Some(Wire(0, Some(1))), false, false, Some(1), 1, None, map[], map[], {0}, {}, 1)

  lemma ComesUp()
    ensures Reachable(UP)
  {
    assert Possible(START, []) && Run(START, []) == START;
    var s := Connects(START, 1, 9);
    s := Installs(s, 1, Some(1), 9);
    assert s.callers == map[] && s.renewals == map[] && s.open == {0};
  }

  /** Its wire taken by a removal, to be closed. */
  lemma HalfRemoved() returns (s: State)
    ensures Reachable(s) && s == UP.(installed := None, callers := map[2 := Closing(0, Nothing)])
  {
    ComesUp();
    var begun := UP.(callers := map[2 := Unstranding(Nothing)]);
    assert UP.renewals - {2} == map[];
    Reach(UP, Begin(2, Remove));
    s := Takes(begun, 2, Nothing, 9);
    assert s.callers == map[2 := Closing(0, Nothing)];
  }

  /** Closed, its timer left behind, and about to connect again. */
  lemma Reconnecting() returns (s: State)
    ensures Reachable(s)
    ensures s == State(None, false, false, Some(2), 2, Some(3),
                       map[9 := IsInstalled, 3 := Connecting(Some(2))], map[], {}, {}, 1)
  {
    s := HalfRemoved();
    s := Closes(s, 2, 0, 9);
    s := Connects(s, 3, 8);
    assert s.callers == map[9 := IsInstalled, 3 := Connecting(Some(2))] && s.open == {} && s.renewals == map[];
  }

  /** A listener removed and added again at the same time: its new socket opens while the old one is
      still to be closed. */
  lemma TwoSockets()
    ensures exists s :: Reachable(s) && s.open == {0, 1} && s.installed.Some? && s.orphans == {}
  {
    var s := HalfRemoved();
    s := Connects(s, 3, 9);
    s := Installs(s, 3, Some(2), 9);
  }

  /** A reconnect whose connect outlasts the release timer of its removal: the listener ends up
      installed and open, with its claim released. */
  lemma OpenWithoutItsClaim()
    ensures exists s :: Reachable(s) && s.callers == map[] && s.held.None?
              && s.installed == Some(Wire(1, Some(2))) && s.open == {1}
  {
    var s := Reconnecting();
    s := TimesOut(s, 9, 8);
    s := Installs(s, 3, Some(2), 8);
    assert s.callers == map[] && s.open == {1};
  }

  /** Its wire taken by its own renewal, to be closed and to come back. */
  lemma HalfClosed() returns (s: State)
    ensures Reachable(s)
    ensures s == UP.(installed := None, callers := map[2 := Closing(0, WaitAgain)],
                     renewals := map[2 := Renewal(1, false)])
  {
    ComesUp();
    var begun := UP.(callers := map[2 := Unstranding(WaitAgain)], renewals := map[2 := Renewal(1, false)]);
    Reach(UP, Begin(2, Close(true, 1)));
    s := Takes(begun, 2, WaitAgain, 9);
    assert s.callers == map[2 := Closing(0, WaitAgain)];
  }

  /** Closed by its own renewal, to come back, and about to be added by somebody else, who is granted a
      new claim: the renewal is told to stop while it waits for the socket to close. */
  lemma OvertakenClosing() returns (s: State)
    ensures Reachable(s)
    ensures s == State(None, false, false, Some(2), 2, Some(3),
                       map[2 := Closing(0, WaitAgain), 3 := Connecting(Some(2))],
                       map[2 := Renewal(1, true)], {0}, {}, 1)
  {
    s := HalfClosed();
    s := Connects(s, 3, 9);
    assert s.callers == map[2 := Closing(0, WaitAgain), 3 := Connecting(Some(2))];
    assert s.renewals == map[2 := Renewal(1, true)];
  }

  /** So the old socket stays open beside the new one, with nobody left to close it. */
  lemma OrphanedSocket()
    ensures exists s :: Reachable(s) && s.callers == map[] && s.open == {0, 1} && s.orphans == {0}
              && s.installed == Some(Wire(1, Some(2))) && s.held == Some(2)
  {
    var s := OvertakenClosing();
    Reach(s, Stop(2));
    s := Next(s, Stop(2));
    assert s.callers == map[3 := Connecting(Some(2))];
    s := Installs(s, 3, Some(2), 9);
    assert s.callers == map[] && s.open == {0, 1};
  }

  /** Up again after a reconnect whose timer is still to go off, and closed by its renewal. */
  lemma ClosingBeforeTimeout() returns (s: State)
    ensures Reachable(s)
    ensures s == State(None, false, false, Some(2), 2, None, map[9 := IsInstalled, 4 := Closing(1, WaitAgain)],
                       map[4 := Renewal(2, false)], {1}, {}, 2)
  {
    s := Reconnecting();
    s := Installs(s, 3, Some(2), 8);
    assert s.callers == map[9 := IsInstalled] && s.open == {1};
    s := ClosesToComeBack(s);
  }

  /** The release timer of an earlier removal goes off while a renewal closes the listener to come back. */
  lemma ReleasedClosing() returns (s: State)
    ensures Reachable(s)
    ensures s == State(None, false, false, None, 2, None, map[4 := Closing(1, WaitAgain)], map[4 := Renewal(2, true)],
                       {1}, {}, 2)
  {
    s := ClosingBeforeTimeout();
    s := TimesOut(s, 9, 8);
    assert s.callers == map[4 := Closing(1, WaitAgain)] && s.renewals == map[4 := Renewal(2, true)];
  }

  /** So the listener ends nowhere, its claim released, its socket open for good. */
  lemma ComeBackLost()
    ensures exists s :: Reachable(s) && s.callers == map[] && s.held.None? && s.open == s.orphans == {1}
              && s.installed.None? && !s.stranded && !s.waiting
  {
    var s := ReleasedClosing();
    Reach(s, Stop(4));
    s := Next(s, Stop(4));
    assert s.callers == map[];
  }

  lemma ClosesToComeBack(s: State) returns (s': State)
    requires Reachable(s) && s.installed == Some(Wire(1, Some(2))) && !s.stranded && !s.waiting
    requires s.callers == map[9 := IsInstalled] && s.renewals == map[]
    ensures Reachable(s')
    ensures s' == s.(installed := None, callers := map[9 := IsInstalled, 4 := Closing(1, WaitAgain)],
                     renewals := map[4 := Renewal(2, false)])
  {
    var begun := s.(callers := map[9 := IsInstalled, 4 := Unstranding(WaitAgain)],
                    renewals := map[4 := Renewal(2, false)]);
    Reach(s, Begin(4, Close(true, 2)));
    assert begun == Next(s, Begin(4, Close(true, 2)));
    s' := Takes(begun, 4, WaitAgain, 8);
    assert s'.callers == map[9 := IsInstalled, 4 := Closing(1, WaitAgain)];
  }
}
