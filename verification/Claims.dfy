/** The collection claims of one runtime, as openvtc-core/src/collection.rs records them: one lease
per listener, each grant under a generation of its own, each renewed by a task of its own. */
module Claims {
  import opened Common

  type Id = string

  datatype Target = Target(context: string, identifier: string)

  /** What the VTA answered a claim with. */
  datatype ClaimAnswer =
    | Granted(endsAt: int)
    | NotCollectable
    | Unsupported
    | Held
    | NotRenewable
    | Refused
    | Unreachable

  predicate MayConnect(answer: ClaimAnswer) {
    answer.Granted? || answer.NotCollectable? || answer.Unsupported?
  }

  // ---------------------------------------------------------------------------------------------
  // Waits
  // ---------------------------------------------------------------------------------------------

  const U32_MAX: nat := 0xFFFF_FFFF

  const RETRY_CAP: nat := 15 * 60 * SECOND

  /** `1 << n`. */
  function Shifted(n: nat): nat { if n == 0 then 1 else 2 * Shifted(n - 1) }

  lemma ShiftedValues()
    ensures Shifted(0) == 1 && Shifted(1) == 2 && Shifted(2) == 4 && Shifted(3) == 8
    ensures Shifted(4) == 16 && Shifted(5) == 32
  {
    assert Shifted(3) == 8;
  }

  /** The wait before a refused claim is asked again, after `attempts` refusals. */
  function RetryAfter(answer: ClaimAnswer, attempts: nat): nat {
    var first := if answer.Unreachable? then 30 * SECOND else 60 * SECOND;
    Min(first * Shifted(Min(attempts, 5)), RETRY_CAP)
  }

  /** The wait never shrinks with more refusals, starts at half a minute or a minute, is longer after a
      refusal than after silence, doubles until it would pass the cap, and the shift fits 32 bits. */
  lemma RetryAfterShape(answer: ClaimAnswer, a: nat, b: nat)
    requires a <= b
    ensures 30 * SECOND <= RetryAfter(Unreachable, a) <= RetryAfter(answer, a) <= RetryAfter(answer, b) <= RETRY_CAP
    ensures b >= 5 ==> RetryAfter(answer, b) == RETRY_CAP
    ensures RetryAfter(answer, 0) == if answer.Unreachable? then 30 * SECOND else 60 * SECOND
    ensures a < 4 ==> RetryAfter(answer, a + 1) == Min(2 * RetryAfter(answer, a), RETRY_CAP)
    ensures Shifted(Min(a, 5)) <= U32_MAX
  {
    ShiftedValues();
    var x, y := Min(a, 5), Min(b, 5);
    assert x in {0, 1, 2, 3, 4, 5} && y in {0, 1, 2, 3, 4, 5};
  }

  // ---------------------------------------------------------------------------------------------
  // The record of claims
  // ---------------------------------------------------------------------------------------------

  /** The renewal task spawned for one grant. */
  datatype Task = Task(listener: Id, generation: nat)

  datatype Lease = Lease(
    target: Target, grantedAt: int, endsAt: int, renewable: bool, generation: nat, renewal: Option<Task>)

  /** The record: the claims held, the last generation handed out, the generations handed out to grants
      not recorded yet, and the tasks told to stop. */
  datatype Record = Record(held: map<Id, Lease>, counter: nat, pending: set<nat>, aborted: set<Task>)

  const NOTHING: Record := Record(map[], 0, {}, {})

  /** A grant takes its number before it takes the lock to be recorded under it, so grants of other
      listeners may come in between: `Number` and `Grant` are its two halves. */
  datatype Op =
    | Number
    | Grant(id: Id, generation: nat, target: Target, endsAt: int, now: int)
    | Attach(id: Id, generation: nat)
    | Renew(id: Id, generation: nat, endsAt: int, now: int)
    | Unrenew(id: Id, generation: nat)
    | Drop(id: Id, generation: nat)
    | Release(id: Id)

  predicate Holds(r: Record, id: Id, generation: nat) {
    id in r.held && r.held[id].generation == generation
  }

  /** The tasks stopped when `id`'s claim goes. */
  function Stopped(r: Record, id: Id): set<Task> {
    if id in r.held && r.held[id].renewal.Some? then {r.held[id].renewal.value} else {}
  }

  function After(r: Record, op: Op): Record {
    match op
    case Number => r.(counter := r.counter + 1, pending := r.pending + {r.counter + 1})
    case Grant(id, g, target, endsAt, now) =>
      if g !in r.pending then r
      else Record(r.held[id := Lease(target, now, endsAt, true, g, None)], r.counter,
                  r.pending - {g}, r.aborted + Stopped(r, id))
    case Attach(id, g) =>
      if Holds(r, id, g) then r.(held := r.held[id := r.held[id].(renewal := Some(Task(id, g)))])
      else r.(aborted := r.aborted + {Task(id, g)})
    case Renew(id, g, endsAt, now) =>
      if Holds(r, id, g) then r.(held := r.held[id := r.held[id].(grantedAt := now, endsAt := endsAt)]) else r
    case Unrenew(id, g) =>
      if Holds(r, id, g) then r.(held := r.held[id := r.held[id].(renewable := false)]) else r
    case Drop(id, g) => if Holds(r, id, g) then r.(held := r.held - {id}) else r
    case Release(id) => r.(held := r.held - {id}, aborted := r.aborted + Stopped(r, id))
  }

  function Run(r: Record, ops: seq<Op>): Record
  {
    if ops == [] then r else After(Run(r, ops[..|ops| - 1]), ops[|ops| - 1])
  }

  lemma RunTwo(r: Record, first: Op, second: Op)
    ensures Run(r, [first, second]) == After(After(r, first), second)
  {
    var ops := [first, second];
    assert ops[..|ops| - 1] == [first] && [first][..0] == [] && ops[|ops| - 1] == second;
    assert Run(r, [first]) == After(r, first);
  }

  class Collection {
    var held: map<Id, Lease>
    var generation: nat
    ghost var pending: set<nat>
    /** The tasks whose abort handle was used. */
    var aborted: set<Task>

    ghost function View(): Record
      reads this
    {
      Record(held, generation, pending, aborted)
    }

    constructor ()
      ensures View() == NOTHING
    {
      held, generation, pending, aborted := map[], 0, {}, {};
    }

    /** The first half of recording a grant: its number. */
    method NextGeneration() returns (granted: nat)
      modifies this
      ensures View() == After(old(View()), Number) && granted == generation == old(generation) + 1
    {
      generation := generation + 1;
      pending := pending + {generation};
      granted := generation;
    }

    /** The second half: the claim, in place of the one recorded for the listener. */
    method Supersede(id: Id, granted: nat, target: Target, endsAt: int, now: int)
      requires granted in pending
      modifies this
      ensures View() == After(old(View()), Grant(id, granted, target, endsAt, now)) && Holds(View(), id, granted)
    {
      pending := pending - {granted};
      if id in held {
        var superseded := held[id];
        held := held - {id};
        if superseded.renewal.Some? {
          aborted := aborted + {superseded.renewal.value};
        }
      }
      held := held[id := Lease(target, now, endsAt, true, granted, None)];
    }

    method RecordGrant(id: Id, target: Target, endsAt: int, now: int) returns (granted: nat)
      modifies this
      ensures View() == Run(old(View()), [Number, Grant(id, granted, target, endsAt, now)])
      ensures granted == generation == old(generation) + 1 && Holds(View(), id, granted)
    {
      granted := NextGeneration();
      Supersede(id, granted, target, endsAt, now);
      RunTwo(old(View()), Number, Grant(id, granted, target, endsAt, now));
    }

    method AttachRenewal(id: Id, g: nat, task: Task)
      requires task == Task(id, g)
      modifies this
      ensures View() == After(old(View()), Attach(id, g))
    {
      if id in held && held[id].generation == g {
        held := held[id := held[id].(renewal := Some(task))];
      } else {
        aborted := aborted + {task};
      }
    }

    method Current(id: Id, g: nat) returns (lease: Option<Lease>)
      ensures lease == if Holds(View(), id, g) then Some(held[id]) else None
    {
      lease := if id in held && held[id].generation == g then Some(held[id]) else None;
    }

    method Renewed(id: Id, g: nat, endsAt: int, now: int)
      modifies this
      ensures View() == After(old(View()), Renew(id, g, endsAt, now))
    {
      if id in held && held[id].generation == g {
        held := held[id := held[id].(grantedAt := now, endsAt := endsAt)];
      }
    }

    method Unrenewable(id: Id, g: nat)
      modifies this
      ensures View() == After(old(View()), Unrenew(id, g))
    {
      if id in held && held[id].generation == g {
        held := held[id := held[id].(renewable := false)];
      }
    }

    method DropClaim(id: Id, g: nat)
      modifies this
      ensures View() == After(old(View()), Drop(id, g))
      ensures !Holds(View(), id, g) && held.Keys <= old(held).Keys
      ensures forall other :: other in old(held) ==>
                (other == id && old(held)[other].generation == g) || (other in held && held[other] == old(held)[other])
    {
      if id in held && held[id].generation == g {
        held := held - {id};
      }
    }

    /** The claim is forgotten, and the VTA asked to release it if one was recorded and there is a
        session to ask it in. Whether it does changes nothing here: the claim then ends at its end. */
    method ReleaseNow(id: Id, session: bool) returns (asked: Option<Target>)
      modifies this
      ensures View() == After(old(View()), Release(id))
      ensures asked == if id in old(held) && session then Some(old(held)[id].target) else None
    {
      asked := None;
      if id in held {
        var taken := held[id];
        held := held - {id};
        if taken.renewal.Some? {
          aborted := aborted + {taken.renewal.value};
        }
        if session {
          asked := Some(taken.target);
        }
      } else {
        assert held - {id} == held;
      }
    }

    /** Nothing is held any more, every attached renewal was told to stop, and the VTA was asked to
        release exactly what was held, if there is a session. */
    method ReleaseAll(session: bool) returns (asked: map<Id, Target>)
      modifies this
      ensures forall id :: id in asked <==> session && id in old(held)
      ensures forall id :: id in asked ==> asked[id] == old(held)[id].target
      ensures held == map[] && generation == old(generation)
      ensures forall id :: id in old(held) ==> Stopped(old(View()), id) <= aborted
      ensures old(aborted) <= aborted
    {
      asked := map[];
      var ids := held.Keys;
      while ids != {}
        invariant ids == held.Keys && ids <= old(held).Keys
        invariant generation == old(generation) && old(aborted) <= aborted
        invariant forall id :: id in ids ==> held[id] == old(held)[id]
        invariant forall id :: id in asked <==> session && id in old(held) && id !in ids
        invariant forall id :: id in asked ==> asked[id] == old(held)[id].target
        invariant forall id :: id in old(held) && id !in ids ==> Stopped(old(View()), id) <= aborted
        decreases |ids|
      {
        var id :| id in ids;
        var target := ReleaseNow(id, session);
        if target.Some? {
          asked := asked[id := target.value];
        }
        ids := ids - {id};
      }
    }
  }

  // ---------------------------------------------------------------------------------------------
  // Every run
  // ---------------------------------------------------------------------------------------------

  /** What every run of operations keeps. */
  predicate Sound(r: Record) {
    && (forall id :: id in r.held ==> 0 < r.held[id].generation <= r.counter)
    && (forall a, b :: a in r.held && b in r.held && r.held[a].generation == r.held[b].generation ==> a == b)
    && (forall id :: id in r.held && r.held[id].renewal.Some?
                ==> r.held[id].renewal.value == Task(id, r.held[id].generation))
    && (forall g :: g in r.pending ==> 0 < g <= r.counter && forall id :: id in r.held ==> r.held[id].generation != g)
  }

  lemma GrantSound(r: Record, id: Id, lease: Lease)
    requires Sound(r) && lease.generation in r.pending && lease.renewal == None
    ensures Sound(Record(r.held[id := lease], r.counter, r.pending - {lease.generation}, r.aborted + Stopped(r, id)))
  {
  }

  lemma EditSound(r: Record, id: Id, lease: Lease)
    requires Sound(r) && id in r.held && lease.generation == r.held[id].generation
    requires lease.renewal.Some? ==> lease.renewal.value == Task(id, lease.generation)
    ensures Sound(r.(held := r.held[id := lease]))
  {
  }

  lemma AfterSound(r: Record, op: Op)
    requires Sound(r)
    ensures Sound(After(r, op)) && r.counter <= After(r, op).counter && r.aborted <= After(r, op).aborted
  {
    if op.Grant? && op.generation in r.pending {
      GrantSound(r, op.id, Lease(op.target, op.now, op.endsAt, true, op.generation, None));
    } else if (op.Attach? || op.Renew? || op.Unrenew?) && Holds(r, op.id, op.generation) {
      EditSound(r, op.id, After(r, op).held[op.id]);
    }
  }

  /** Held generations are distinct and never exceed the counter, which never goes back, and a held
      claim names no task but its own. */
  lemma {:induction false} RunSound(r: Record, ops: seq<Op>)
    requires Sound(r)
    ensures Sound(Run(r, ops)) && r.counter <= Run(r, ops).counter && r.aborted <= Run(r, ops).aborted
  {
    if ops != [] {
      RunSound(r, ops[..|ops| - 1]);
      AfterSound(Run(r, ops[..|ops| - 1]), ops[|ops| - 1]);
    }
  }

  /** The generation was handed out, and its grant recorded. */
  predicate Known(r: Record, g: nat) { g <= r.counter && g !in r.pending }

  function NamedGeneration(op: Op): Option<nat> {
    match op
    case Number => None
    case Grant(_, _, _, _, _) => None
    case Attach(_, g) => Some(g)
    case Renew(_, g, _, _) => Some(g)
    case Unrenew(_, g) => Some(g)
    case Drop(_, g) => Some(g)
    case Release(_) => None
  }

  lemma NotHeldAgain(r: Record, op: Op, id: Id, g: nat)
    requires Known(r, g) && !Holds(r, id, g)
    ensures !Holds(After(r, op), id, g) && Known(After(r, op), g)
  {
  }

  /** A generation once given up is never held again, so every operation that names it, at any later
      point of any run, changes no claim; at most it stops that generation's own task. */
  lemma {:induction false} SupersededForGood(r: Record, ops: seq<Op>, op: Op)
    requires Sound(r) && NamedGeneration(op).Some?
    requires Known(r, NamedGeneration(op).value) && !Holds(r, op.id, NamedGeneration(op).value)
    ensures !Holds(Run(r, ops), op.id, NamedGeneration(op).value) && Known(Run(r, ops), NamedGeneration(op).value)
    ensures var end := Run(r, ops);
      After(end, op)
        == if op.Attach? then end.(aborted := end.aborted + {Task(op.id, op.generation)}) else end
  {
    if ops != [] {
      SupersededForGood(r, ops[..|ops| - 1], op);
      RunSound(r, ops[..|ops| - 1]);
      NotHeldAgain(Run(r, ops[..|ops| - 1]), ops[|ops| - 1], op.id, NamedGeneration(op).value);
    }
  }

  /** The run dropped the claim of `g` while it was held. */
  predicate Dropped(r: Record, ops: seq<Op>, id: Id, g: nat) {
    exists i :: 0 <= i < |ops| && ops[i] == Drop(id, g) && Holds(Run(r, ops[..i]), id, g)
  }

  lemma DroppedMore(r: Record, ops: seq<Op>, id: Id, g: nat)
    requires ops != [] && Dropped(r, ops[..|ops| - 1], id, g)
    ensures Dropped(r, ops, id, g)
  {
    var before := ops[..|ops| - 1];
    var i :| 0 <= i < |before| && before[i] == Drop(id, g) && Holds(Run(r, before[..i]), id, g);
    assert before[..i] == ops[..i] && ops[i] == Drop(id, g);
  }

  /** The renewal of `g` is that of the claim held. */
  predicate Renewing(r: Record, id: Id, g: nat) {
    Holds(r, id, g) && r.held[id].renewal == Some(Task(id, g))
  }

  lemma RenewingStep(r: Record, op: Op, id: Id, g: nat)
    requires Renewing(r, id, g)
    ensures Task(id, g) in After(r, op).aborted || Renewing(After(r, op), id, g) || op == Drop(id, g)
  {
  }

  lemma AttachStep(r: Record, id: Id, g: nat)
    ensures Task(id, g) in After(r, Attach(id, g)).aborted || Renewing(After(r, Attach(id, g)), id, g)
  {
  }

  /** A task, once attached, was told to stop, or renews the claim now held, or dropped that claim
      itself. */
  lemma {:induction false} RenewalAccounted(r: Record, ops: seq<Op>, id: Id, g: nat)
    requires Sound(r) && Attach(id, g) in ops
    ensures var end := Run(r, ops);
      Task(id, g) in end.aborted || Renewing(end, id, g) || Dropped(r, ops, id, g)
  {
    var before, last := ops[..|ops| - 1], ops[|ops| - 1];
    var r' := Run(r, before);
    RunSound(r, before);
    AfterSound(r', last);
    if last == Attach(id, g) {
      AttachStep(r', id, g);
    } else {
      assert ops == before + [last];
      RenewalAccounted(r, before, id, g);
      if Dropped(r, before, id, g) {
        DroppedMore(r, ops, id, g);
      } else if Renewing(r', id, g) {
        RenewingStep(r', last, id, g);
        assert ops[..|ops| - 1] == before;
      }
    }
  }

  /** A generation is only named once its grant was recorded, and recorded only under its number. */
  predicate Disciplined(r: Record, ops: seq<Op>) {
    ops == [] ||
    var before, last := ops[..|ops| - 1], ops[|ops| - 1];
    Disciplined(r, before)
    && (NamedGeneration(last).Some? ==> Known(Run(r, before), NamedGeneration(last).value))
    && (last.Grant? ==> last.generation in Run(r, before).pending)
  }

  /** A claim that is held never has its renewal stopped: what is stopped is always superseded,
      released or dropped, and stays so. */
  lemma {:induction false} HeldNotAborted(ops: seq<Op>, id: Id, g: nat)
    requires Disciplined(NOTHING, ops)
    ensures var end := Run(NOTHING, ops);
      && (Holds(end, id, g) ==> Task(id, g) !in end.aborted)
      && (Task(id, g) in end.aborted ==> Known(end, g))
  {
    if ops != [] {
      var before, last := ops[..|ops| - 1], ops[|ops| - 1];
      RunSound(NOTHING, before);
      HeldNotAborted(before, id, g);
      if !last.Number? && Holds(Run(NOTHING, before), last.id, g) { HeldNotAborted(before, last.id, g); }
    }
  }

  /** The operation ends the claim `id` holds under `g`. */
  predicate Ends(op: Op, id: Id, g: nat) {
    op == Drop(id, g) || op == Release(id) || (op.Grant? && op.id == id)
  }

  /** `id` was granted `g`, and nothing since ended it. */
  predicate Stands(ops: seq<Op>, id: Id, g: nat) {
    exists i :: 0 <= i < |ops| && ops[i].Grant? && ops[i].id == id && ops[i].generation == g
             && forall j :: i < j < |ops| ==> !Ends(ops[j], id, g)
  }

  lemma StandsNext(ops: seq<Op>, id: Id, g: nat)
    requires ops != []
    ensures var before, last := ops[..|ops| - 1], ops[|ops| - 1];
      Stands(ops, id, g) <==>
        (last.Grant? && last.id == id && last.generation == g) || (Stands(before, id, g) && !Ends(last, id, g))
  {
    var before := ops[..|ops| - 1];
    if Stands(before, id, g) {
      var i :| 0 <= i < |before| && before[i].Grant? && before[i].id == id && before[i].generation == g
            && forall j :: i < j < |before| ==> !Ends(before[j], id, g);
      assert ops[i] == before[i];
      assert forall j :: i < j < |before| ==> ops[j] == before[j];
    }
    if Stands(ops, id, g) {
      var i :| 0 <= i < |ops| && ops[i].Grant? && ops[i].id == id && ops[i].generation == g
            && forall j :: i < j < |ops| ==> !Ends(ops[j], id, g);
      if i < |before| {
        assert before[i] == ops[i];
        assert forall j :: i < j < |before| ==> before[j] == ops[j];
      }
    }
  }

  /** A claim is held under a generation exactly when it was granted under it, and since then it was
      neither dropped nor released, and `id` not granted anew; a dropped generation is never held again. */
  lemma {:induction false} HeldIff(ops: seq<Op>, id: Id, g: nat)
    requires Disciplined(NOTHING, ops)
    ensures Holds(Run(NOTHING, ops), id, g) <==> Stands(ops, id, g)
    ensures Holds(Run(NOTHING, ops), id, g) ==> Drop(id, g) !in ops
  {
    if ops != [] {
      var before, last := ops[..|ops| - 1], ops[|ops| - 1];
      assert ops == before + [last];
      HeldIff(before, id, g);
      StandsNext(ops, id, g);
      if last.Grant? && last.generation == g && Drop(id, g) in before { OnlyKnownNamed(before, Drop(id, g)); }
    }
  }

  /** The end the last word about `id`'s claim gave it: its grant, or a renewal of its generation. */
  function LastEnd(ops: seq<Op>, id: Id, g: nat): int {
    if ops == [] then 0
    else
      var last := ops[|ops| - 1];
      if (last.Grant? || last.Renew?) && last.id == id && last.generation == g then last.endsAt
      else LastEnd(ops[..|ops| - 1], id, g)
  }

  lemma {:induction false} OnlyKnownNamed(ops: seq<Op>, op: Op)
    requires Disciplined(NOTHING, ops) && op in ops && NamedGeneration(op).Some?
    ensures Known(Run(NOTHING, ops), NamedGeneration(op).value)
  {
    var before, last := ops[..|ops| - 1], ops[|ops| - 1];
    assert ops == before + [last];
    if op in before { OnlyKnownNamed(before, op); }
    StaysKnown(Run(NOTHING, before), last, NamedGeneration(op).value);
  }

  lemma StaysKnown(r: Record, op: Op, g: nat)
    requires Known(r, g)
    ensures Known(After(r, op), g)
  {
  }

  lemma NotNamedYet(ops: seq<Op>, id: Id, g: nat)
    requires Disciplined(NOTHING, ops) && g in Run(NOTHING, ops).pending
    ensures Unrenew(id, g) !in ops && Attach(id, g) !in ops
  {
    if Unrenew(id, g) in ops { OnlyKnownNamed(ops, Unrenew(id, g)); }
    if Attach(id, g) in ops { OnlyKnownNamed(ops, Attach(id, g)); }
  }

  /** A claim that is held is as the last word about it left it: its end from the last grant or
      renewal, renewable unless its own generation was refused, its task attached if it ever was. */
  lemma {:induction false} HeldIsLatest(ops: seq<Op>, id: Id)
    requires Disciplined(NOTHING, ops) && id in Run(NOTHING, ops).held
    ensures var lease := Run(NOTHING, ops).held[id];
      && lease.endsAt == LastEnd(ops, id, lease.generation)
      && (lease.renewable <==> Unrenew(id, lease.generation) !in ops)
      && (lease.renewal == if Attach(id, lease.generation) in ops then Some(Task(id, lease.generation)) else None)
  {
    var before, last := ops[..|ops| - 1], ops[|ops| - 1];
    var r := Run(NOTHING, before);
    var g := Run(NOTHING, ops).held[id].generation;
    assert ops == before + [last];
    RunSound(NOTHING, before);
    if last.Grant? && last.id == id {
      NotNamedYet(before, id, g);
    } else {
      OtherOp(r, last, id);
      HeldIsLatest(before, id);
    }
  }

  /** What an operation other than a grant of its own changes of a claim that stays held. */
  lemma OtherOp(r: Record, op: Op, id: Id)
    requires id in After(r, op).held && !(op.Grant? && op.id == id)
    ensures id in r.held
    ensures var was, lease := r.held[id], After(r, op).held[id];
      var g := was.generation;
      && lease.generation == g
      && lease.endsAt == (if op.Renew? && op.id == id && op.generation == g then op.endsAt else was.endsAt)
      && lease.renewable == (was.renewable && op != Unrenew(id, g))
      && lease.renewal == (if op == Attach(id, g) then Some(Task(id, g)) else was.renewal)
  {
  }
}
