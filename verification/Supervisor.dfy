/** The supervisor of openvtc-core/src/didcomm.rs: when a listener that is down is rebuilt, and what one
pass leaves of every listener. */
module Supervisor {
  import opened Common
  import Claims

  type Id = Claims.Id

  type ClaimAnswer = Claims.ClaimAnswer

  const REBUILD_GRACE: nat := 90 * SECOND
  const REBUILD_BACKOFF_BASE: nat := 5 * SECOND
  const REBUILD_BACKOFF_CAP: nat := 60 * SECOND

  // ---------------------------------------------------------------------------------------------
  // When to rebuild
  // ---------------------------------------------------------------------------------------------

  function RebuildBackoff(attempts: nat): nat {
    if attempts == 0 then 0
    else Min(REBUILD_BACKOFF_BASE * Claims.Shifted(Min(attempts - 1, 4)), REBUILD_BACKOFF_CAP)
  }

  /** The backoff never shrinks, never passes a minute, reaches it at the fifth attempt, doubles until
      then, and its shift and product fit 32 and 64 bits. */
  lemma BackoffShape(a: nat, b: nat)
    requires a <= b
    ensures RebuildBackoff(a) <= RebuildBackoff(b) <= 60 * SECOND
    ensures RebuildBackoff(0) == 0 && RebuildBackoff(1) == 5 * SECOND
    ensures a >= 1 ==> RebuildBackoff(a) >= 5 * SECOND
    ensures 1 <= a ==> RebuildBackoff(a + 1) == Min(2 * RebuildBackoff(a), 60 * SECOND)
    ensures b >= 5 ==> RebuildBackoff(b) == 60 * SECOND
    ensures b >= 1 ==> Claims.Shifted(Min(b - 1, 4)) <= 16
  {
    Claims.ShiftedValues();
    assert a == 0 || Min(a - 1, 4) in {0, 1, 2, 3, 4};
    assert b == 0 || Min(b - 1, 4) in {0, 1, 2, 3, 4};
  }

  /** What is known of one listener while it is down. */
  datatype DownSince = DownSince(firstSeen: nat, attempts: nat, lastAttempt: Option<nat>)

  function RebuildDue(d: DownSince, now: nat): bool {
    && Since(now, d.firstSeen) >= REBUILD_GRACE
    && (d.lastAttempt.None? || Since(now, d.lastAttempt.value) >= RebuildBackoff(d.attempts))
  }

  function Attempted(d: DownSince, now: nat): DownSince {
    DownSince(d.firstSeen, Min(d.attempts + 1, Claims.U32_MAX), Some(now))
  }

  function Seen(d: Option<DownSince>, now: nat): DownSince {
    if d.Some? then d.value else DownSince(now, 0, None)
  }

  /** The record of one listener after a pass that finds it down. */
  function Passed(d: Option<DownSince>, now: nat): DownSince {
    var seen := Seen(d, now);
    if RebuildDue(seen, now) then Attempted(seen, now) else seen
  }

  /** The record after the passes of one outage. */
  function Tracked(times: seq<nat>): Option<DownSince> {
    if times == [] then None else Some(Passed(Tracked(times[..|times| - 1]), times[|times| - 1]))
  }

  /** The passes that rebuilt. */
  function Rebuilds(times: seq<nat>): seq<nat> {
    if times == [] then []
    else
      var before, now := times[..|times| - 1], times[|times| - 1];
      Rebuilds(before) + (if RebuildDue(Seen(Tracked(before), now), now) then [now] else [])
  }

  /** The first `k` backoffs together. */
  function Backoffs(k: nat): nat {
    if k == 0 then 0 else Backoffs(k - 1) + RebuildBackoff(Min(k, Claims.U32_MAX))
  }

  /** The first backoffs together come to 5, 15, 35 and 75 seconds, and to a minute more for each further
      one. */
  lemma {:induction false} BackoffsAre(k: nat)
    ensures Backoffs(0) == 0 && Backoffs(1) == 5 * SECOND && Backoffs(2) == 15 * SECOND && Backoffs(3) == 35 * SECOND
    ensures k >= 4 ==> Backoffs(k) == 75 * SECOND + (k - 4) * 60 * SECOND
  {
    BackoffShape(1, 1);
    BackoffShape(2, 2);
    BackoffShape(3, 3);
    assert Backoffs(3) == Backoffs(2) + RebuildBackoff(3);
    if k > 4 {
      BackoffsAre(k - 1);
      BackoffShape(5, Min(k, Claims.U32_MAX));
    } else if k == 4 {
      assert Backoffs(4) == Backoffs(3) + RebuildBackoff(4);
    }
  }

  predicate Ascending(times: seq<nat>) { forall i, j :: 0 <= i < j < |times| ==> times[i] <= times[j] }

  /** When the next rebuild falls due after `k` rebuilds, the last of them at the end of `done`. */
  function DueAt(first: nat, done: seq<nat>): nat {
    if done == [] then first + REBUILD_GRACE
    else done[|done| - 1] + RebuildBackoff(Min(|done|, Claims.U32_MAX))
  }

  /** The record is what the rebuilds so far make it, and a pass rebuilds exactly when due. */
  lemma {:induction false} TrackedIs(times: seq<nat>)
    requires times != [] && Ascending(times)
    ensures var done := Rebuilds(times);
      && Tracked(times) == Some(DownSince(times[0], Min(|done|, Claims.U32_MAX),
                                          if done == [] then None else Some(done[|done| - 1])))
      && times[|times| - 1] < DueAt(times[0], done)
      && (done != [] ==> times[0] + REBUILD_GRACE <= done[|done| - 1] <= times[|times| - 1])
  {
    var before, now := times[..|times| - 1], times[|times| - 1];
    if before != [] {
      TrackedIs(before);
      BackoffShape(1, Min(|Rebuilds(before)| + 1, Claims.U32_MAX));
    }
  }

  /** The k-th rebuild of an outage comes no earlier than the grace and the first k - 1 backoffs after
      the outage was first seen, and each comes a backoff after the one before. */
  lemma {:induction false} NeverTooSoon(times: seq<nat>, k: nat)
    requires times != [] && Ascending(times) && k < |Rebuilds(times)|
    ensures Rebuilds(times)[k] >= times[0] + 90 * SECOND + Backoffs(k)
    ensures k > 0 ==> Rebuilds(times)[k] >= Rebuilds(times)[k - 1] + RebuildBackoff(Min(k, Claims.U32_MAX))
  {
    var before := times[..|times| - 1];
    if before != [] {
      TrackedIs(before);
      if k < |Rebuilds(before)| {
        NeverTooSoon(before, k);
      } else if k > 0 {
        NeverTooSoon(before, k - 1);
      }
    }
  }

  /** Nor too late: with passes at most `gap` apart, each rebuild comes less than `gap` after it fell
      due, and the last pass is never later than that without having rebuilt. */
  lemma {:induction false} NeverTooLate(times: seq<nat>, gap: nat, k: nat)
    requires times != [] && Ascending(times) && gap > 0
    requires forall i :: 0 < i < |times| ==> times[i] <= times[i - 1] + gap
    requires k <= |Rebuilds(times)|
    ensures k < |Rebuilds(times)| ==> Rebuilds(times)[k] < DueAt(times[0], Rebuilds(times)[..k]) + gap
    ensures k == |Rebuilds(times)| ==> times[|times| - 1] < DueAt(times[0], Rebuilds(times)[..k])
  {
    var before, now := times[..|times| - 1], times[|times| - 1];
    TrackedIs(times);
    var done := Rebuilds(times);
    assert done[..|done|] == done;
    if before != [] {
      TrackedIs(before);
      var earlier := Rebuilds(before);
      assert earlier[..|earlier|] == earlier && earlier <= done;
      if k <= |earlier| {
        assert done[..k] == earlier[..k];
        NeverTooLate(before, gap, k);
      }
    }
  }

  /** A pass a full cap after the last attempt always tries again, however many attempts there were. */
  lemma AlwaysTriesAgain(d: DownSince, now: nat)
    requires d.lastAttempt.Some? && d.firstSeen + REBUILD_GRACE <= d.lastAttempt.value
    requires d.lastAttempt.value + REBUILD_BACKOFF_CAP <= now
    ensures RebuildDue(d, now)
  {
    BackoffShape(d.attempts, d.attempts);
  }

  // ---------------------------------------------------------------------------------------------
  // The runtime
  // ---------------------------------------------------------------------------------------------

  /** How to build a listener; `claims` when it connects only under a collection claim. */
  datatype Spec = Spec(id: Id, did: string, claims: bool)

  datatype Wire = Wire(spec: Spec, connected: bool)

  datatype Waiting = Waiting(spec: Spec, due: nat, attempts: nat)

  datatype Desk = Desk(installed: map<Id, Wire>, stranded: map<Id, Spec>, waiting: map<Id, Waiting>)

  /** What an add meets: the VTA's answer, asked only under a claim, and whether the connect works. */
  datatype Meeting = Meeting(answer: ClaimAnswer, connects: bool)

  /** What other callers and the network do meanwhile. `Lapsed` is a renewal's closing of a listener that
      is to come back; one that is not is a removal. */
  datatype Event =
    | Removed(id: Id)
    | Lapsed(id: Id)
    | Added(spec: Spec, meeting: Meeting)
    | Turned(id: Id, connected: bool)

  predicate MayConnect(spec: Spec, m: Meeting) { spec.claims ==> Claims.MayConnect(m.answer) }

  function Remove(d: Desk, id: Id): Desk { Desk(d.installed - {id}, d.stranded - {id}, d.waiting - {id}) }

  /** Keep `spec` to ask its claim again. */
  function WaitFor(d: Desk, spec: Spec, answer: ClaimAnswer, now: nat): Desk {
    var attempts := if spec.id in d.waiting then d.waiting[spec.id].attempts + 1 else 0;
    d.(waiting := d.waiting[spec.id := Waiting(spec, now + Claims.RetryAfter(answer, attempts), attempts)])
  }

  /** The claim half of an add, asked of a listener that is not installed. */
  function Asked(d: Desk, spec: Spec, m: Meeting, now: nat): Desk {
    if !MayConnect(spec, m) then WaitFor(d.(stranded := d.stranded - {spec.id}), spec, m.answer, now)
    else if spec.claims then d.(waiting := d.waiting - {spec.id})
    else d
  }

  /** The connect half, once the claim is answered. */
  function Connected(d: Desk, spec: Spec, m: Meeting): Desk {
    if MayConnect(spec, m) && m.connects then d.(installed := d.installed[spec.id := Wire(spec, true)]) else d
  }

  function Add(d: Desk, spec: Spec, m: Meeting, now: nat): Desk {
    if spec.id in d.installed then d else Connected(Asked(d, spec, m, now), spec, m)
  }

  function AddSucceeds(d: Desk, spec: Spec, m: Meeting): bool {
    spec.id in d.installed || (MayConnect(spec, m) && m.connects)
  }

  /** The listener is closed, and waits to be asked for again if a wire of it was installed. */
  function Lapse(d: Desk, id: Id, now: nat): Desk {
    var closed := Remove(d, id);
    if id !in d.installed then closed
    else
      var due := now + Claims.RetryAfter(Claims.Unreachable, 0);
      closed.(waiting := closed.waiting[id := Waiting(d.installed[id].spec, due, 0)])
  }

  function Happen(d: Desk, e: Event, now: nat): Desk {
    match e
    case Removed(id) => Remove(d, id)
    case Lapsed(id) => Lapse(d, id, now)
    case Added(spec, meeting) => Add(d, spec, meeting, now)
    case Turned(id, connected) =>
      if id in d.installed then d.(installed := d.installed[id := d.installed[id].(connected := connected)]) else d
  }

  function Meanwhile(d: Desk, events: seq<Event>, now: nat): Desk
    decreases |events|
  {
    if events == [] then d else Happen(Meanwhile(d, events[..|events| - 1], now), events[|events| - 1], now)
  }

  // ---------------------------------------------------------------------------------------------
  // One pass
  // ---------------------------------------------------------------------------------------------

  /** One listener's turn in a pass: what happens before it, while the old wire is closed, from then to
      the answer to the claim, and while the new wire connects; and what the claim and the connect
      meet. */
  datatype Turn = Turn(
    before: seq<Event>, closing: seq<Event>, asking: seq<Event>, connecting: seq<Event>, meeting: Meeting)

  /** What can happen while `id` connects: another add of `id` waits for the connect lock until the
      rebuild is over, and takes place after it. */
  function Admitted(events: seq<Event>, id: Id): seq<Event> {
    if events == [] then []
    else (if events[0].Added? && events[0].spec.id == id then [] else [events[0]]) + Admitted(events[1..], id)
  }

  /** A candidate: an installed listener that is down, or a stranded one with its spec. */
  datatype Candidate = Candidate(id: Id, stranded: Option<Spec>)

  datatype Pass = Pass(desk: Desk, down: map<Id, DownSince>, rebuilt: seq<Id>)

  function Entry(down: map<Id, DownSince>, id: Id): Option<DownSince> {
    if id in down then Some(down[id]) else None
  }

  /** The old wire closed, and the spec put on record as stranded before the add. */
  function Recorded(d: Desk, id: Id, spec: Spec, turn: Turn, now: nat): Desk {
    var closed := Meanwhile(Remove(d, id), turn.closing, now);
    closed.(stranded := closed.stranded[id := spec])
  }

  function Rebuilt(d: Desk, id: Id, spec: Spec, turn: Turn, now: nat): Desk {
    var met := Meanwhile(Recorded(d, id, spec, turn, now), turn.asking, now);
    var after := Amid(met, spec, turn, now);
    if AddSucceeds(met, spec, turn.meeting) then after.(stranded := after.stranded - {id}) else after
  }

  /** The add of a rebuild, and what happens while it connects. */
  function Amid(d: Desk, spec: Spec, turn: Turn, now: nat): Desk {
    var amid := Admitted(turn.connecting, spec.id);
    if spec.id in d.installed then Meanwhile(d, amid, now)
    else Connected(Meanwhile(Asked(d, spec, turn.meeting, now), amid, now), spec, turn.meeting)
  }

  function TurnOf(p: Pass, c: Candidate, turn: Turn, now: nat): Pass {
    var desk := Meanwhile(p.desk, turn.before, now);
    var seen := Seen(Entry(p.down, c.id), now);
    if !RebuildDue(seen, now) then Pass(desk, p.down[c.id := seen], p.rebuilt)
    else if c.stranded.None? && c.id !in desk.installed then Pass(desk, p.down - {c.id}, p.rebuilt)
    else
      var spec := if c.stranded.Some? then c.stranded.value else desk.installed[c.id].spec;
      Pass(Rebuilt(desk, c.id, spec, turn, now), p.down[c.id := Attempted(seen, now)], p.rebuilt + [c.id])
  }

  function Turns(p: Pass, cs: seq<Candidate>, turns: Id -> Turn, now: nat): Pass {
    if cs == [] then p
    else TurnOf(Turns(p, cs[..|cs| - 1], turns, now), cs[|cs| - 1], turns(cs[|cs| - 1].id), now)
  }

  /** What a pass starts from: a stranded listener that is installed again is no longer stranded, and
      the history of every connected one is forgotten. */
  function Opened(d: Desk, down: map<Id, DownSince>): Pass {
    Pass(d.(stranded := d.stranded - d.installed.Keys), down - UpOn(d), [])
  }

  function UpOn(d: Desk): set<Id> { set id | id in d.installed && d.installed[id].connected }

  function DownOn(d: Desk): set<Id> { d.installed.Keys - UpOn(d) }

  function Closed(p: Pass): Pass {
    p.(down := map id | id in p.down && (id in p.desk.installed || id in p.desk.stranded) :: p.down[id])
  }

  function Supervised(d: Desk, down: map<Id, DownSince>, cs: seq<Candidate>, turns: Id -> Turn, now: nat): Pass {
    Closed(Turns(Opened(d, down), cs, turns, now))
  }

  predicate Distinct(cs: seq<Candidate>) { forall i, j :: 0 <= i < j < |cs| ==> cs[i].id != cs[j].id }

  predicate SampledFrom(d: Desk, c: Candidate) {
    if c.stranded.None? then c.id in d.installed && !d.installed[c.id].connected
    else c.id !in d.installed && c.id in d.stranded && c.stranded.value == d.stranded[c.id]
  }

  predicate Once(ids: seq<Id>) { forall i, j :: 0 <= i < j < |ids| ==> ids[i] != ids[j] }

  /** Every listener that is down or stranded, once, in any order. */
  ghost predicate AllCandidates(d: Desk, cs: seq<Candidate>) {
    Distinct(cs) && forall c :: c in cs <==> SampledFrom(d, c)
  }

  function Listed(d: Desk, down: seq<Id>, left: seq<Id>): (cs: seq<Candidate>)
    requires forall id :: id in left ==> id in d.stranded
    ensures |cs| == |down| + |left|
  {
    seq(|down| + |left|, i requires 0 <= i < |down| + |left| =>
      if i < |down| then Candidate(down[i], None)
      else Candidate(left[i - |down|], Some(d.stranded[left[i - |down|]])))
  }

  lemma ListedAll(d: Desk, down: seq<Id>, left: seq<Id>)
    requires Once(down) && Once(left)
    requires forall id :: id in down <==> id in DownOn(d)
    requires forall id :: id in left <==> id in d.stranded.Keys - d.installed.Keys
    ensures AllCandidates(d, Listed(d, down, left))
  {
    var cs := Listed(d, down, left);
    forall c | c in cs ensures SampledFrom(d, c) {
      if c.stranded.None? {
        assert c.id in down;
        assert c.id in DownOn(d);
      } else {
        assert c.id in left;
        assert c.id in d.stranded.Keys - d.installed.Keys;
      }
    }
    forall c | SampledFrom(d, c) ensures c in cs {
      if c.stranded.None? {
        assert c.id in DownOn(d) && c.id in down;
        var i :| 0 <= i < |down| && down[i] == c.id;
        assert cs[i] == c;
      } else {
        assert c.id in left;
        var i :| 0 <= i < |left| && left[i] == c.id;
        assert cs[|down| + i] == c;
      }
    }
    forall i, j | 0 <= i < j < |cs| ensures cs[i].id != cs[j].id {
      if i < |down| <= j {
        assert down[i] in down && left[j - |down|] in left;
      }
    }
  }

  class Runtime {
    var installed: map<Id, Wire>
    var stranded: map<Id, Spec>
    var waiting: map<Id, Waiting>

    constructor ()
      ensures View() == Desk(map[], map[], map[])
    {
      installed, stranded, waiting := map[], map[], map[];
    }

    function View(): Desk
      reads this
    {
      Desk(installed, stranded, waiting)
    }

    method RemoveListener(id: Id)
      modifies this
      ensures View() == Remove(old(View()), id)
    {
      stranded := stranded - {id};
      waiting := waiting - {id};
      installed := installed - {id};
    }

    /** `close_for_collection` of a listener that is to come back. */
    method CloseToComeBack(id: Id, now: nat)
      modifies this
      ensures View() == Lapse(old(View()), id, now) && id !in installed && id !in stranded
      ensures if id in old(installed)
              then id in waiting && waiting[id] == Waiting(old(installed)[id].spec, now + 30 * SECOND, 0)
              else id !in waiting
    {
      var wire := if id in installed then Some(installed[id]) else None;
      RemoveListener(id);
      Claims.RetryAfterShape(Claims.Unreachable, 0, 0);
      if wire.Some? {
        waiting := waiting[id := Waiting(wire.value.spec, now + Claims.RetryAfter(Claims.Unreachable, 0), 0)];
      }
    }

    method ClaimCollection(spec: Spec, m: Meeting, now: nat) returns (granted: bool)
      modifies this
      ensures View() == Asked(old(View()), spec, m, now)
      ensures granted == MayConnect(spec, m)
    {
      if !spec.claims { return true; }
      granted := Claims.MayConnect(m.answer);
      if granted {
        waiting := waiting - {spec.id};
      } else {
        stranded := stranded - {spec.id};
        var attempts := if spec.id in waiting then waiting[spec.id].attempts + 1 else 0;
        var due := now + Claims.RetryAfter(m.answer, attempts);
        waiting := waiting[spec.id := Waiting(spec, due, attempts)];
      }
    }

    method AddListener(spec: Spec, m: Meeting, now: nat) returns (ok: bool)
      modifies this
      ensures View() == Add(old(View()), spec, m, now)
      ensures ok == AddSucceeds(old(View()), spec, m)
    {
      if spec.id in installed { return true; }
      var granted := ClaimCollection(spec, m, now);
      if granted && m.connects {
        installed := installed[spec.id := Wire(spec, true)];
      }
      return granted && m.connects;
    }

    /** The same, with what happens while it connects. */
    method AddListenerAmid(spec: Spec, turn: Turn, now: nat) returns (ok: bool)
      modifies this
      ensures View() == Amid(old(View()), spec, turn, now)
      ensures ok == AddSucceeds(old(View()), spec, turn.meeting)
    {
      if spec.id in installed {
        TakePlace(Admitted(turn.connecting, spec.id), now);
        return true;
      }
      var granted := ClaimCollection(spec, turn.meeting, now);
      TakePlace(Admitted(turn.connecting, spec.id), now);
      if granted && turn.meeting.connects {
        installed := installed[spec.id := Wire(spec, true)];
      }
      return granted && turn.meeting.connects;
    }

    method TakePlace(events: seq<Event>, now: nat)
      modifies this
      ensures View() == Meanwhile(old(View()), events, now)
    {
      for i := 0 to |events|
        invariant View() == Meanwhile(old(View()), events[..i], now)
      {
        assert events[..i + 1][..i] == events[..i];
        match events[i] {
          case Removed(id) => RemoveListener(id);
          case Lapsed(id) => CloseToComeBack(id, now);
          case Added(spec, m) => var _ := AddListener(spec, m, now);
          case Turned(id, connected) =>
            if id in installed {
              installed := installed[id := installed[id].(connected := connected)];
            }
        }
      }
      assert events[..|events|] == events;
    }

    /** Drop the dead wire, record the spec as stranded, and connect anew. */
    method Rebuild(id: Id, spec: Spec, turn: Turn, now: nat)
      modifies this
      ensures View() == Rebuilt(old(View()), id, spec, turn, now)
    {
      RemoveListener(id);
      TakePlace(turn.closing, now);
      stranded := stranded[id := spec];
      TakePlace(turn.asking, now);
      var ok := AddListenerAmid(spec, turn, now);
      if ok {
        stranded := stranded - {id};
      }
    }

    /** One candidate's turn. */
    method TakeTurn(c: Candidate, turn: Turn, history: map<Id, DownSince>, before: seq<Id>, now: nat)
      returns (down: map<Id, DownSince>, rebuilt: seq<Id>)
      modifies this
      ensures Pass(View(), down, rebuilt) == TurnOf(Pass(old(View()), history, before), c, turn, now)
    {
      down, rebuilt := history, before;
      TakePlace(turn.before, now);
      var tracked := if c.id in down then down[c.id] else DownSince(now, 0, None);
      down := down[c.id := tracked];
      if !RebuildDue(tracked, now) { return; }
      if c.stranded.None? && c.id !in installed {
        // Removed by someone since it was sampled.
        down := down - {c.id};
        assert down == history - {c.id};
        return;
      }
      var spec := if c.stranded.Some? then c.stranded.value else installed[c.id].spec;
      down := down[c.id := Attempted(tracked, now)];
      rebuilt := rebuilt + [c.id];
      Rebuild(c.id, spec, turn, now);
    }

    /** One pass. The candidates and the ids rebuilt are handed back beside the new history. */
    method SuperviseOnce(history: map<Id, DownSince>, now: nat, turns: Id -> Turn)
      returns (down: map<Id, DownSince>, candidates: seq<Candidate>, rebuilt: seq<Id>)
      modifies this
      ensures AllCandidates(old(View()), candidates)
      ensures Pass(View(), down, rebuilt) == Supervised(old(View()), history, candidates, turns, now)
    {
      candidates := Sample();
      ghost var start := Opened(View(), history);
      stranded := stranded - installed.Keys;
      down, rebuilt := history - UpOn(View()), [];
      for i := 0 to |candidates|
        invariant Pass(View(), down, rebuilt) == Turns(start, candidates[..i], turns, now)
      {
        assert candidates[..i + 1][..i] == candidates[..i];
        down, rebuilt := TakeTurn(candidates[i], turns(candidates[i].id), down, rebuilt, now);
      }
      assert candidates[..|candidates|] == candidates;
      down := map id | id in down && (id in installed || id in stranded) :: down[id];
    }

    /** The candidates, in whatever order the maps list them. */
    method Sample() returns (candidates: seq<Candidate>)
      ensures AllCandidates(View(), candidates)
    {
      var down := InSomeOrder(DownOn(View()));
      var left := InSomeOrder(stranded.Keys - installed.Keys);
      candidates := Listed(View(), down, left);
      ListedAll(View(), down, left);
    }
  }

  method InSomeOrder(ids: set<Id>) returns (order: seq<Id>)
    ensures Once(order) && forall id :: id in order <==> id in ids
  {
    order := [];
    var todo := ids;
    while todo != {}
      invariant todo <= ids && Once(order) && forall id :: id in order <==> id in ids - todo
      decreases |todo|
    {
      var id :| id in todo;
      todo := todo - {id};
      assert forall i :: 0 <= i < |order| ==> order[i] in order;
      order := order + [id];
    }
  }

  // ---------------------------------------------------------------------------------------------
  // What a pass leaves of one listener
  // ---------------------------------------------------------------------------------------------

  /** Every listener stands under its own id. */
  predicate Keyed(d: Desk) {
    && (forall id :: id in d.installed ==> d.installed[id].spec.id == id)
    && (forall id :: id in d.stranded ==> d.stranded[id].id == id)
    && (forall id :: id in d.waiting ==> d.waiting[id].spec.id == id)
  }

  /** Where one listener stands, and under which spec. */
  datatype Standing = Standing(installed: Option<Spec>, stranded: Option<Spec>, waiting: Option<Spec>)

  const GONE: Standing := Standing(None, None, None)

  function Of(d: Desk, id: Id): Standing {
    Standing(if id in d.installed then Some(d.installed[id].spec) else None,
             if id in d.stranded then Some(d.stranded[id]) else None,
             if id in d.waiting then Some(d.waiting[id].spec) else None)
  }

  /** Installed, stranded or waiting, and only one of them: what a rebuild is to end in. */
  function Outcome(spec: Spec, m: Meeting): Standing {
    if !MayConnect(spec, m) then Standing(None, None, Some(spec))
    else if m.connects then Standing(Some(spec), None, None)
    else Standing(None, Some(spec), None)
  }

  function Subject(e: Event): Id { if e.Added? then e.spec.id else e.id }

  /** Nobody else adds or removes `id`. */
  predicate LeftAlone(events: seq<Event>, id: Id) {
    forall e :: e in events ==> e.Turned? || Subject(e) != id
  }

  /** Nobody else adds or removes `id` from the moment the turn begins. */
  predicate Undisturbed(turn: Turn, id: Id) {
    LeftAlone(turn.closing, id) && LeftAlone(turn.asking, id) && LeftAlone(turn.connecting, id)
  }

  predicate Quiet(turns: Id -> Turn, cs: seq<Candidate>, id: Id) {
    forall c :: c in cs ==> LeftAlone(turns(c.id).before, id) && Undisturbed(turns(c.id), id)
  }

  lemma HappenKeyed(d: Desk, e: Event, now: nat)
    requires Keyed(d)
    ensures Keyed(Happen(d, e, now))
  {
  }

  lemma {:induction false} MeanwhileKeyed(d: Desk, events: seq<Event>, now: nat)
    requires Keyed(d)
    ensures Keyed(Meanwhile(d, events, now))
    decreases |events|
  {
    if events != [] {
      MeanwhileKeyed(d, events[..|events| - 1], now);
      HappenKeyed(Meanwhile(d, events[..|events| - 1], now), events[|events| - 1], now);
    }
  }

  lemma {:induction false} MeanwhileLeaves(d: Desk, events: seq<Event>, now: nat, id: Id)
    requires LeftAlone(events, id)
    ensures Of(Meanwhile(d, events, now), id) == Of(d, id)
    decreases |events|
  {
    if events != [] {
      MeanwhileLeaves(d, events[..|events| - 1], now, id);
      HappenLeaves(Meanwhile(d, events[..|events| - 1], now), events[|events| - 1], now, id);
    }
  }

  lemma HappenLeaves(d: Desk, e: Event, now: nat, id: Id)
    requires e.Turned? || Subject(e) != id
    ensures Of(Happen(d, e, now), id) == Of(d, id)
  {
  }

  lemma {:induction false} AdmittedAlone(events: seq<Event>, locked: Id, id: Id)
    requires LeftAlone(events, id)
    ensures LeftAlone(Admitted(events, locked), id)
  {
    if events != [] { AdmittedAlone(events[1..], locked, id); }
  }

  /** While `id` connects, everything takes place but its own adds. */
  lemma {:induction false} AdmittedIs(events: seq<Event>, id: Id)
    ensures forall e :: e in Admitted(events, id) <==> e in events && !(e.Added? && e.spec.id == id)
    ensures (forall e :: e in events ==> !(e.Added? && e.spec.id == id)) ==> Admitted(events, id) == events
  {
    if events != [] {
      AdmittedIs(events[1..], id);
      assert events == [events[0]] + events[1..];
    }
  }

  /** The add of a rebuild, with nobody else touching the listener. */
  lemma AmidAlone(d: Desk, spec: Spec, turn: Turn, now: nat)
    requires LeftAlone(turn.connecting, spec.id)
    ensures Of(Amid(d, spec, turn, now), spec.id) == Of(Add(d, spec, turn.meeting, now), spec.id)
  {
    AdmittedAlone(turn.connecting, spec.id, spec.id);
    MeanwhileLeaves(d, Admitted(turn.connecting, spec.id), now, spec.id);
    MeanwhileLeaves(Asked(d, spec, turn.meeting, now), Admitted(turn.connecting, spec.id), now, spec.id);
  }

  lemma AmidLeaves(d: Desk, spec: Spec, turn: Turn, now: nat, other: Id)
    requires spec.id != other && LeftAlone(turn.connecting, other)
    ensures Of(Amid(d, spec, turn, now), other) == Of(d, other)
  {
    AdmittedAlone(turn.connecting, spec.id, other);
    MeanwhileLeaves(d, Admitted(turn.connecting, spec.id), now, other);
    MeanwhileLeaves(Asked(d, spec, turn.meeting, now), Admitted(turn.connecting, spec.id), now, other);
  }

  lemma RecordedAlone(d: Desk, id: Id, spec: Spec, turn: Turn, now: nat)
    requires LeftAlone(turn.closing, id)
    ensures Of(Recorded(d, id, spec, turn, now), id) == Standing(None, Some(spec), None)
  {
    MeanwhileLeaves(Remove(d, id), turn.closing, now, id);
  }

  /** A rebuild ends in its outcome, whatever stood before. */
  lemma RebuildOutcome(d: Desk, id: Id, spec: Spec, turn: Turn, now: nat)
    requires spec.id == id && Undisturbed(turn, id)
    ensures Of(Rebuilt(d, id, spec, turn, now), id) == Outcome(spec, turn.meeting)
  {
    RecordedAlone(d, id, spec, turn, now);
    MeanwhileLeaves(Recorded(d, id, spec, turn, now), turn.asking, now, id);
    AmidAlone(Meanwhile(Recorded(d, id, spec, turn, now), turn.asking, now), spec, turn, now);
  }

  /** ... and leaves every other listener where it was. */
  lemma RebuildLeaves(d: Desk, id: Id, spec: Spec, turn: Turn, now: nat, other: Id)
    requires spec.id == id != other && Undisturbed(turn, other)
    ensures Of(Rebuilt(d, id, spec, turn, now), other) == Of(d, other)
  {
    MeanwhileLeaves(Remove(d, id), turn.closing, now, other);
    MeanwhileLeaves(Recorded(d, id, spec, turn, now), turn.asking, now, other);
    AmidLeaves(Meanwhile(Recorded(d, id, spec, turn, now), turn.asking, now), spec, turn, now, other);
  }

  lemma AskedKeyed(d: Desk, spec: Spec, m: Meeting, now: nat)
    requires Keyed(d)
    ensures Keyed(Asked(d, spec, m, now)) && Keyed(Connected(d, spec, m))
  {
  }

  lemma AmidKeyed(d: Desk, spec: Spec, turn: Turn, now: nat)
    requires Keyed(d)
    ensures Keyed(Amid(d, spec, turn, now))
  {
    AskedKeyed(d, spec, turn.meeting, now);
    var asked := Asked(d, spec, turn.meeting, now);
    MeanwhileKeyed(d, Admitted(turn.connecting, spec.id), now);
    MeanwhileKeyed(asked, Admitted(turn.connecting, spec.id), now);
    AskedKeyed(Meanwhile(asked, Admitted(turn.connecting, spec.id), now), spec, turn.meeting, now);
  }

  lemma RebuiltKeyed(d: Desk, id: Id, spec: Spec, turn: Turn, now: nat)
    requires Keyed(d) && spec.id == id
    ensures Keyed(Rebuilt(d, id, spec, turn, now))
  {
    MeanwhileKeyed(Remove(d, id), turn.closing, now);
    MeanwhileKeyed(Recorded(d, id, spec, turn, now), turn.asking, now);
    AmidKeyed(Meanwhile(Recorded(d, id, spec, turn, now), turn.asking, now), spec, turn, now);
  }

  predicate KeyedCandidates(cs: seq<Candidate>) {
    forall c :: c in cs && c.stranded.Some? ==> c.stranded.value.id == c.id
  }

  lemma TurnKeyed(p: Pass, c: Candidate, turn: Turn, now: nat)
    requires Keyed(p.desk) && (c.stranded.Some? ==> c.stranded.value.id == c.id)
    ensures Keyed(TurnOf(p, c, turn, now).desk)
  {
    var desk := Meanwhile(p.desk, turn.before, now);
    MeanwhileKeyed(p.desk, turn.before, now);
    if c.stranded.Some? || c.id in desk.installed {
      RebuiltKeyed(desk, c.id, if c.stranded.Some? then c.stranded.value else desk.installed[c.id].spec, turn, now);
    }
  }

  lemma {:induction false} TurnsKeyed(p: Pass, cs: seq<Candidate>, turns: Id -> Turn, now: nat)
    requires Keyed(p.desk) && KeyedCandidates(cs)
    ensures Keyed(Turns(p, cs, turns, now).desk)
  {
    if cs != [] {
      TurnsKeyed(p, cs[..|cs| - 1], turns, now);
      TurnKeyed(Turns(p, cs[..|cs| - 1], turns, now), cs[|cs| - 1], turns(cs[|cs| - 1].id), now);
    }
  }

  /** Another candidate's turn. */
  lemma TurnLeaves(p: Pass, c: Candidate, turn: Turn, now: nat, id: Id)
    requires Keyed(p.desk) && (c.stranded.Some? ==> c.stranded.value.id == c.id) && c.id != id
    requires LeftAlone(turn.before, id) && Undisturbed(turn, id)
    ensures var q := TurnOf(p, c, turn, now);
      && Of(q.desk, id) == Of(p.desk, id) && Entry(q.down, id) == Entry(p.down, id)
      && (id in q.rebuilt <==> id in p.rebuilt)
  {
    var desk := Meanwhile(p.desk, turn.before, now);
    MeanwhileLeaves(p.desk, turn.before, now, id);
    MeanwhileKeyed(p.desk, turn.before, now);
    if c.stranded.Some? || c.id in desk.installed {
      var spec := if c.stranded.Some? then c.stranded.value else desk.installed[c.id].spec;
      RebuildLeaves(desk, c.id, spec, turn, now, id);
    }
  }

  lemma {:induction false} TurnsLeave(p: Pass, cs: seq<Candidate>, turns: Id -> Turn, now: nat, id: Id)
    requires Keyed(p.desk) && KeyedCandidates(cs) && Quiet(turns, cs, id)
    requires forall c :: c in cs ==> c.id != id
    ensures var q := Turns(p, cs, turns, now);
      && Of(q.desk, id) == Of(p.desk, id) && Entry(q.down, id) == Entry(p.down, id)
      && (id in q.rebuilt <==> id in p.rebuilt)
  {
    if cs != [] {
      var before := cs[..|cs| - 1];
      TurnsLeave(p, before, turns, now, id);
      TurnsKeyed(p, before, turns, now);
      TurnLeaves(Turns(p, before, turns, now), cs[|cs| - 1], turns(cs[|cs| - 1].id), now, id);
    }
  }

  /** What a pass makes of one candidate, `from` where it stands and `spec` what it is rebuilt from. */
  predicate Done(p: Pass, q: Pass, c: Candidate, spec: Spec, m: Meeting, now: nat) {
    var due := RebuildDue(Seen(Entry(p.down, c.id), now), now);
    && (c.id in q.rebuilt <==> c.id in p.rebuilt || due)
    && Of(q.desk, c.id) == (if due then Outcome(spec, m) else Of(p.desk, c.id))
    && Entry(q.down, c.id) == Some(Passed(Entry(p.down, c.id), now))
  }

  /** The candidate's own turn. */
  lemma OwnTurn(p: Pass, c: Candidate, turn: Turn, now: nat, spec: Spec)
    requires Keyed(p.desk) && spec.id == c.id
    requires if c.stranded.Some? then c.stranded.value == spec else Of(p.desk, c.id).installed == Some(spec)
    requires LeftAlone(turn.before, c.id) && Undisturbed(turn, c.id)
    ensures Done(p, TurnOf(p, c, turn, now), c, spec, turn.meeting, now)
  {
    var desk := Meanwhile(p.desk, turn.before, now);
    MeanwhileLeaves(p.desk, turn.before, now, c.id);
    assert Of(desk, c.id) == Of(p.desk, c.id);
    assert c.stranded.None? ==> c.id in desk.installed && desk.installed[c.id].spec == spec;
    RebuildOutcome(desk, c.id, spec, turn, now);
  }

  lemma {:induction false} CandidateDone(p: Pass, cs: seq<Candidate>, turns: Id -> Turn, now: nat, i: nat, spec: Spec)
    requires Keyed(p.desk) && KeyedCandidates(cs) && Distinct(cs) && i < |cs|
    requires Quiet(turns, cs, cs[i].id) && spec.id == cs[i].id
    requires if cs[i].stranded.Some? then cs[i].stranded.value == spec else Of(p.desk, cs[i].id).installed == Some(spec)
    ensures Done(p, Turns(p, cs, turns, now), cs[i], spec, turns(cs[i].id).meeting, now)
  {
    var before, last := cs[..|cs| - 1], cs[|cs| - 1];
    var q := Turns(p, before, turns, now);
    TurnsKeyed(p, before, turns, now);
    assert forall c :: c in before ==> c in cs;
    if i == |cs| - 1 {
      TurnsLeave(p, before, turns, now, last.id);
      OwnTurn(q, last, turns(last.id), now, spec);
    } else {
      CandidateDone(p, before, turns, now, i, spec);
      TurnLeaves(q, last, turns(last.id), now, cs[i].id);
    }
  }

  function SpecOf(d: Desk, c: Candidate): Option<Spec> {
    if c.stranded.Some? then c.stranded else if c.id in d.installed then Some(d.installed[c.id].spec) else None
  }

  /** A pass, whatever the VTA and the mediator answer: a candidate that is due is rebuilt, and ends
      installed when it may connect and does, stranded when it may and does not, waiting when its
      claim is refused, and in no second place; one that is not due stays where it is. It stays
      tracked with this pass added to its history, unless its claim was refused. */
  lemma PassOutcome(d: Desk, down: map<Id, DownSince>, cs: seq<Candidate>, turns: Id -> Turn, now: nat, i: nat)
    requires Keyed(d) && AllCandidates(d, cs) && i < |cs| && Quiet(turns, cs, cs[i].id)
    ensures var p, c := Supervised(d, down, cs, turns, now), cs[i];
      var due := RebuildDue(Seen(Entry(down, c.id), now), now);
      SpecOf(d, c).Some? && var spec, meeting := SpecOf(d, c).value, turns(c.id).meeting;
      && (c.id in p.rebuilt <==> due)
      && Of(p.desk, c.id) == (if due then Outcome(spec, meeting) else Of(Opened(d, down).desk, c.id))
      && Entry(p.down, c.id)
         == if due && !MayConnect(spec, meeting) then None else Some(Passed(Entry(down, c.id), now))
  {
    var c, start := cs[i], Opened(d, down);
    assert SampledFrom(d, c);
    OpenedKeyed(d, down, cs);
    OpenedEntry(d, down, c);
    CandidateDone(start, cs, turns, now, i, SpecOf(d, c).value);
    ClosedEntry(Turns(start, cs, turns, now), c.id);
  }

  lemma OpenedKeyed(d: Desk, down: map<Id, DownSince>, cs: seq<Candidate>)
    requires Keyed(d) && AllCandidates(d, cs)
    ensures Keyed(Opened(d, down).desk) && KeyedCandidates(cs)
  {
    forall c | c in cs && c.stranded.Some? ensures c.stranded.value.id == c.id {
      assert SampledFrom(d, c);
    }
  }

  lemma OpenedEntry(d: Desk, down: map<Id, DownSince>, c: Candidate)
    requires SampledFrom(d, c)
    ensures Entry(Opened(d, down).down, c.id) == Entry(down, c.id) && Opened(d, down).rebuilt == []
    ensures SpecOf(d, c).Some?
    ensures var at := Of(Opened(d, down).desk, c.id);
      if c.stranded.None? then at.installed == SpecOf(d, c) && at.stranded == None
      else at.installed == None && at.stranded == SpecOf(d, c) == c.stranded
  {
  }

  lemma ClosedEntry(p: Pass, id: Id)
    ensures var at := Of(p.desk, id);
      Entry(Closed(p).down, id) == if at.installed.None? && at.stranded.None? then None else Entry(p.down, id)
  {
  }

  /** A listener that is no candidate stays where it was, a connected one no longer stranded, and is not
      tracked. */
  lemma PassLeavesOthers(d: Desk, down: map<Id, DownSince>, cs: seq<Candidate>, turns: Id -> Turn, now: nat, id: Id)
    requires Keyed(d) && AllCandidates(d, cs) && Quiet(turns, cs, id) && forall c :: c in cs ==> c.id != id
    ensures var p := Supervised(d, down, cs, turns, now);
      && Of(p.desk, id) == (if id in d.installed then Of(d, id).(stranded := None) else Of(d, id))
      && id !in p.rebuilt && Entry(p.down, id) == None
  {
    var start := Opened(d, down);
    OpenedKeyed(d, down, cs);
    TurnsLeave(start, cs, turns, now, id);
    ClosedEntry(Turns(start, cs, turns, now), id);
    if IsDown(d, id) {
      CandidateFor(d, cs, id);
    }
  }

  lemma CandidateFor(d: Desk, cs: seq<Candidate>, id: Id)
    requires AllCandidates(d, cs) && IsDown(d, id)
    ensures exists c :: c in cs && c.id == id
  {
    var c := Candidate(id, if id in d.installed then None else Some(d.stranded[id]));
    assert SampledFrom(d, c);
  }

  /** Installed without a connection, or stranded. */
  predicate IsDown(d: Desk, id: Id) {
    if id in d.installed then !d.installed[id].connected else id in d.stranded
  }

  /** What a pass rebuilds, nobody else touching the listener: one that is installed and not connected, or
      stranded, when it is due; a connected one stays installed under its spec, its history forgotten; and
      one that is neither is not there afterwards either. */
  lemma RebuiltIff(d: Desk, down: map<Id, DownSince>, cs: seq<Candidate>, turns: Id -> Turn, now: nat, id: Id)
    requires Keyed(d) && AllCandidates(d, cs) && Quiet(turns, cs, id)
    ensures var p, due := Supervised(d, down, cs, turns, now), RebuildDue(Seen(Entry(down, id), now), now);
      if id in d.installed && d.installed[id].connected then
        id !in p.rebuilt && id !in p.down && Of(p.desk, id) == Of(d, id).(stranded := None)
      else if id in d.installed || id in d.stranded then
        (id in p.rebuilt <==> due) && (!due ==> id in p.down && Of(p.desk, id) == Of(d, id).(
          stranded := if id in d.installed then None else Of(d, id).stranded))
      else
        id !in p.rebuilt && id !in p.down && Of(p.desk, id) == Of(d, id)
  {
    if IsDown(d, id) {
      CandidateFor(d, cs, id);
      var i :| 0 <= i < |cs| && cs[i].id == id;
      assert SampledFrom(d, cs[i]);
      PassOutcome(d, down, cs, turns, now, i);
    } else {
      forall c | c in cs ensures c.id != id { assert SampledFrom(d, c); }
      PassLeavesOthers(d, down, cs, turns, now, id);
    }
  }

  /** Whatever others do during the pass, only installed and stranded listeners stay tracked. */
  lemma OnlyPresentTracked(d: Desk, down: map<Id, DownSince>, cs: seq<Candidate>, turns: Id -> Turn, now: nat, id: Id)
    requires id in Supervised(d, down, cs, turns, now).down
    ensures var p := Supervised(d, down, cs, turns, now);
      && (id in p.desk.installed || id in p.desk.stranded)
      && p.down[id] == Turns(Opened(d, down), cs, turns, now).down[id]
  {
  }

  // ---------------------------------------------------------------------------------------------
  // A removal that lands during the pass
  // ---------------------------------------------------------------------------------------------

  /** One removal of `id`, and nobody else adds or removes it. */
  predicate RemovedOnce(events: seq<Event>, id: Id) {
    exists i :: 0 <= i < |events| && events[i] == Removed(id)
             && LeftAlone(events[..i], id) && LeftAlone(events[i + 1..], id)
  }

  /** When a removal of the candidate lands: on the pass's way to it, while its old wire is closed,
      from then to the answer to its claim, or while its new wire connects. */
  datatype Moment = OnTheWay | WhileItCloses | BeforeTheAnswer | WhileItConnects

  /** `id` is removed once if `here`, and otherwise left alone. */
  predicate RemovedIf(here: bool, events: seq<Event>, id: Id) {
    if here then RemovedOnce(events, id) else LeftAlone(events, id)
  }

  /** The one removal of `id` lands at `at`. */
  predicate LandsAt(turn: Turn, id: Id, at: Moment) {
    && RemovedIf(at.OnTheWay?, turn.before, id) && RemovedIf(at.WhileItCloses?, turn.closing, id)
    && RemovedIf(at.BeforeTheAnswer?, turn.asking, id) && RemovedIf(at.WhileItConnects?, turn.connecting, id)
  }

  /** Where a listener ends whose rebuild a removal lands in, once its spec is on record. */
  function Overtaken(spec: Spec, m: Meeting, at: Moment): Standing {
    if MayConnect(spec, m) && m.connects then Standing(Some(spec), None, None)
    else if at.BeforeTheAnswer? && !MayConnect(spec, m) then Standing(None, None, Some(spec))
    else GONE
  }

  lemma {:induction false} MeanwhileConcat(d: Desk, a: seq<Event>, b: seq<Event>, now: nat)
    ensures Meanwhile(d, a + b, now) == Meanwhile(Meanwhile(d, a, now), b, now)
    decreases |b|
  {
    if b == [] {
      assert a + b == a;
    } else {
      assert (a + b)[..|a + b| - 1] == a + b[..|b| - 1];
      MeanwhileConcat(d, a, b[..|b| - 1], now);
    }
  }

  lemma JustRemoved(d: Desk, events: seq<Event>, now: nat, id: Id)
    requires events != [] && events[|events| - 1] == Removed(id)
    ensures Of(Meanwhile(d, events, now), id) == GONE
  {
  }

  /** Once removed, and then left alone, a listener is gone. */
  lemma MeanwhileRemoves(d: Desk, events: seq<Event>, now: nat, id: Id)
    requires RemovedOnce(events, id)
    ensures Of(Meanwhile(d, events, now), id) == GONE
  {
    var i :| 0 <= i < |events| && events[i] == Removed(id)
             && LeftAlone(events[..i], id) && LeftAlone(events[i + 1..], id);
    var early, late := events[..i + 1], events[i + 1..];
    assert events == early + late && early != [] && early[|early| - 1] == Removed(id);
    MeanwhileConcat(d, early, late, now);
    JustRemoved(d, early, now, id);
    MeanwhileLeaves(Meanwhile(d, early, now), late, now, id);
  }

  lemma {:induction false} AdmittedConcat(a: seq<Event>, b: seq<Event>, id: Id)
    ensures Admitted(a + b, id) == Admitted(a, id) + Admitted(b, id)
  {
    if a == [] {
      assert a + b == b;
    } else {
      TailOfConcat(a, b);
      AdmittedConcat(a[1..], b, id);
      var first := if a[0].Added? && a[0].spec.id == id then [] else [a[0]];
      ConcatAssociative(first, Admitted(a[1..], id), Admitted(b, id));
    }
  }

  lemma AdmittedAround(early: seq<Event>, late: seq<Event>, locked: Id, id: Id)
    ensures Admitted(early + [Removed(id)] + late, locked)
         == Admitted(early, locked) + [Removed(id)] + Admitted(late, locked)
  {
    AdmittedConcat(early + [Removed(id)], late, locked);
    AdmittedConcat(early, [Removed(id)], locked);
    assert [Removed(id)][1..] == [];
  }

  lemma RemovedOnceWithin(early: seq<Event>, late: seq<Event>, id: Id)
    requires LeftAlone(early, id) && LeftAlone(late, id)
    ensures RemovedOnce(early + [Removed(id)] + late, id)
  {
    var all, k := early + [Removed(id)] + late, |early|;
    assert all[..k] == early && all[k] == Removed(id) && all[k + 1..] == late;
  }

  lemma AdmittedRemoves(events: seq<Event>, locked: Id, id: Id)
    requires RemovedOnce(events, id)
    ensures RemovedOnce(Admitted(events, locked), id)
  {
    var i :| 0 <= i < |events| && events[i] == Removed(id)
             && LeftAlone(events[..i], id) && LeftAlone(events[i + 1..], id);
    var early, late := events[..i], events[i + 1..];
    assert events == early + [Removed(id)] + late;
    AdmittedAround(early, late, locked, id);
    AdmittedAlone(early, locked, id);
    AdmittedAlone(late, locked, id);
    RemovedOnceWithin(Admitted(early, locked), Admitted(late, locked), id);
  }

  /** A removal while the old wire is closed comes before the spec is put on record: it is lost. */
  lemma RemovalLost(d: Desk, id: Id, spec: Spec, turn: Turn, now: nat)
    requires spec.id == id && LandsAt(turn, id, WhileItCloses)
    ensures Of(Rebuilt(d, id, spec, turn, now), id) == Outcome(spec, turn.meeting)
  {
    var recorded := Recorded(d, id, spec, turn, now);
    MeanwhileRemoves(Remove(d, id), turn.closing, now, id);
    assert Of(Meanwhile(Remove(d, id), turn.closing, now), id) == GONE;
    assert Of(recorded, id) == Standing(None, Some(spec), None);
    MeanwhileLeaves(recorded, turn.asking, now, id);
    AmidAlone(Meanwhile(recorded, turn.asking, now), spec, turn, now);
  }

  /** One that lands later. */
  lemma RebuildOvertaken(d: Desk, id: Id, spec: Spec, turn: Turn, now: nat, at: Moment)
    requires spec.id == id && (at.BeforeTheAnswer? || at.WhileItConnects?) && LandsAt(turn, id, at)
    ensures Of(Rebuilt(d, id, spec, turn, now), id) == Overtaken(spec, turn.meeting, at)
  {
    var recorded := Recorded(d, id, spec, turn, now);
    var met := Meanwhile(recorded, turn.asking, now);
    RecordedAlone(d, id, spec, turn, now);
    if at.BeforeTheAnswer? {
      MeanwhileRemoves(recorded, turn.asking, now, id);
      AmidAlone(met, spec, turn, now);
    } else {
      MeanwhileLeaves(recorded, turn.asking, now, id);
      AdmittedRemoves(turn.connecting, id, id);
      MeanwhileRemoves(Asked(met, spec, turn.meeting, now), Admitted(turn.connecting, id), now, id);
    }
  }

  /** Where one removal of a candidate that is due leaves it, wherever in the pass it lands. */
  function AfterRemoval(c: Candidate, spec: Spec, m: Meeting, at: Moment): Standing {
    match at
    case OnTheWay => if c.stranded.Some? then Outcome(spec, m) else GONE
    case WhileItCloses => Outcome(spec, m)
    case _ => Overtaken(spec, m, at)
  }

  /** Somebody removes a candidate that is due, once, anywhere in the pass, and nobody else adds or
      removes it. The removal stands exactly when it came on the pass's way to a listener that was
      installed when the pass began, or came after the old wire was closed and the new one does not come
      up: its connect fails, or the removal came after its claim was refused. */
  lemma RemovalStandsIff(p: Pass, c: Candidate, turn: Turn, now: nat, spec: Spec, at: Moment)
    requires Keyed(p.desk) && spec.id == c.id
    requires if c.stranded.Some? then c.stranded.value == spec else Of(p.desk, c.id).installed == Some(spec)
    requires LandsAt(turn, c.id, at) && RebuildDue(Seen(Entry(p.down, c.id), now), now)
    ensures var q, m := TurnOf(p, c, turn, now), turn.meeting;
      && Of(q.desk, c.id) == AfterRemoval(c, spec, m, at)
      && (Of(q.desk, c.id) == GONE <==>
            match at
            case OnTheWay => c.stranded.None?
            case WhileItCloses => false
            case BeforeTheAnswer => MayConnect(spec, m) && !m.connects
            case WhileItConnects => !(MayConnect(spec, m) && m.connects))
      && Entry(q.down, c.id)
         == if at.OnTheWay? && c.stranded.None? then None else Some(Passed(Entry(p.down, c.id), now))
  {
    var desk := Meanwhile(p.desk, turn.before, now);
    if at.OnTheWay? {
      MeanwhileRemoves(p.desk, turn.before, now, c.id);
      assert Of(desk, c.id) == GONE;
      if c.stranded.Some? { RebuildOutcome(desk, c.id, spec, turn, now); }
    } else {
      MeanwhileLeaves(p.desk, turn.before, now, c.id);
      assert Of(desk, c.id) == Of(p.desk, c.id);
      if at.WhileItCloses? {
        RemovalLost(desk, c.id, spec, turn, now);
      } else {
        RebuildOvertaken(desk, c.id, spec, turn, now, at);
      }
    }
  }

  /** So a listener that was installed all along, and that somebody removes for good at any time while
      it is being rebuilt, is installed again. */
  lemma RemovedButRebuilt(p: Pass, spec: Spec, m: Meeting, now: nat, at: Moment)
    requires Keyed(p.desk) && Of(p.desk, spec.id).installed == Some(spec) && !at.OnTheWay?
    requires RebuildDue(Seen(Entry(p.down, spec.id), now), now) && MayConnect(spec, m) && m.connects
    ensures Of(TurnOf(p, Candidate(spec.id, None), OneRemoval(spec.id, m, at), now).desk, spec.id)
         == Standing(Some(spec), None, None)
  {
    RemovedOnceWithin([], [], spec.id);
    assert [] + [Removed(spec.id)] + [] == [Removed(spec.id)];
    RemovalStandsIff(p, Candidate(spec.id, None), OneRemoval(spec.id, m, at), now, spec, at);
  }

  /** A turn in which nothing happens but one removal. */
  function OneRemoval(id: Id, m: Meeting, at: Moment): Turn {
    Turn(if at.OnTheWay? then [Removed(id)] else [], if at.WhileItCloses? then [Removed(id)] else [],
         if at.BeforeTheAnswer? then [Removed(id)] else [], if at.WhileItConnects? then [Removed(id)] else [], m)
  }

  /** The candidate's wire is replaced in its turn. */
  predicate Reached(p: Pass, c: Candidate, turn: Turn, now: nat) {
    RebuildDue(Seen(Entry(p.down, c.id), now), now)
    && (c.stranded.Some? || c.id in Meanwhile(p.desk, turn.before, now).installed)
  }

  /** The first `n` turns of a pass. */
  function Upto(p: Pass, cs: seq<Candidate>, turns: Id -> Turn, now: nat, n: nat): Pass
    requires n <= |cs|
  {
    Turns(p, cs[..n], turns, now)
  }

  lemma NextTurn(p: Pass, cs: seq<Candidate>, turns: Id -> Turn, now: nat, n: nat)
    requires n < |cs|
    ensures Upto(p, cs, turns, now, n + 1) == TurnOf(Upto(p, cs, turns, now, n), cs[n], turns(cs[n].id), now)
  {
    assert cs[..n + 1][..n] == cs[..n];
  }

  lemma UptoKeyed(p: Pass, cs: seq<Candidate>, turns: Id -> Turn, now: nat, n: nat)
    requires Keyed(p.desk) && KeyedCandidates(cs) && n <= |cs|
    ensures Keyed(Upto(p, cs, turns, now, n).desk)
  {
    assert forall c :: c in cs[..n] ==> c in cs;
    TurnsKeyed(p, cs[..n], turns, now);
  }

  /** Nobody else touches `id` in the turn of another candidate. */
  predicate QuietTurn(c: Candidate, turn: Turn, id: Id) {
    c.id != id && LeftAlone(turn.before, id) && Undisturbed(turn, id)
  }

  /** Turns that have nothing to do with `id`. */
  lemma {:induction false} QuietTurns(p: Pass, cs: seq<Candidate>, turns: Id -> Turn, now: nat, a: nat, b: nat, id: Id)
    requires Keyed(p.desk) && KeyedCandidates(cs) && a <= b <= |cs|
    requires forall m :: a <= m < b ==> QuietTurn(cs[m], turns(cs[m].id), id)
    ensures var q, r := Upto(p, cs, turns, now, a), Upto(p, cs, turns, now, b);
      Of(r.desk, id) == Of(q.desk, id) && Entry(r.down, id) == Entry(q.down, id)
    decreases b - a
  {
    if a < b {
      QuietTurns(p, cs, turns, now, a, b - 1, id);
      UptoKeyed(p, cs, turns, now, b - 1);
      NextTurn(p, cs, turns, now, b - 1);
      assert QuietTurn(cs[b - 1], turns(cs[b - 1].id), id);
      TurnLeaves(Upto(p, cs, turns, now, b - 1), cs[b - 1], turns(cs[b - 1].id), now, id);
    }
  }

  /** A removal of `id` that lands in the turn of another candidate. */
  lemma TurnRemoves(p: Pass, c: Candidate, turn: Turn, now: nat, id: Id, at: Moment)
    requires Keyed(p.desk) && (c.stranded.Some? ==> c.stranded.value.id == c.id) && c.id != id
    requires LandsAt(turn, id, at) && (at.OnTheWay? || Reached(p, c, turn, now))
    ensures Of(TurnOf(p, c, turn, now).desk, id) == GONE && Entry(TurnOf(p, c, turn, now).down, id) == Entry(p.down, id)
  {
    var desk := Meanwhile(p.desk, turn.before, now);
    MeanwhileKeyed(p.desk, turn.before, now);
    if at.OnTheWay? { MeanwhileRemoves(p.desk, turn.before, now, id); }
    if Reached(p, c, turn, now) {
      var spec := if c.stranded.Some? then c.stranded.value else desk.installed[c.id].spec;
      if at.OnTheWay? {
        assert Of(desk, id) == GONE;
        RebuildLeaves(desk, c.id, spec, turn, now, id);
      } else {
        RebuildRemoves(desk, spec, turn, now, id, at);
      }
    } else {
      assert Of(desk, id) == GONE;
    }
  }

  lemma RebuildRemoves(d: Desk, spec: Spec, turn: Turn, now: nat, id: Id, at: Moment)
    requires spec.id != id && LandsAt(turn, id, at) && !at.OnTheWay?
    ensures Of(Rebuilt(d, spec.id, spec, turn, now), id) == GONE
  {
    var recorded := Recorded(d, spec.id, spec, turn, now);
    var met := Meanwhile(recorded, turn.asking, now);
    match at
    case WhileItCloses =>
      MeanwhileRemoves(Remove(d, spec.id), turn.closing, now, id);
      assert Of(Meanwhile(Remove(d, spec.id), turn.closing, now), id) == GONE;
      MeanwhileLeaves(recorded, turn.asking, now, id);
      AmidLeaves(met, spec, turn, now, id);
    case BeforeTheAnswer =>
      MeanwhileRemoves(recorded, turn.asking, now, id);
      AmidLeaves(met, spec, turn, now, id);
    case WhileItConnects =>
      var amid := Admitted(turn.connecting, spec.id);
      AdmittedRemoves(turn.connecting, spec.id, id);
      MeanwhileRemoves(met, amid, now, id);
      MeanwhileRemoves(Asked(met, spec, turn.meeting, now), amid, now, id);
      ConnectLeaves(Meanwhile(met, amid, now), spec, turn.meeting, id);
      ConnectLeaves(Meanwhile(Asked(met, spec, turn.meeting, now), amid, now), spec, turn.meeting, id);
  }

  lemma ConnectLeaves(d: Desk, spec: Spec, m: Meeting, id: Id)
    requires spec.id != id
    ensures Of(Connected(d, spec, m), id) == Of(d, id)
  {
  }

  /** The turn of a candidate that was removed before it. */
  lemma TurnOfRemoved(p: Pass, c: Candidate, turn: Turn, now: nat)
    requires Keyed(p.desk) && (c.stranded.Some? ==> c.stranded.value.id == c.id)
    requires Of(p.desk, c.id) == GONE && LeftAlone(turn.before, c.id) && Undisturbed(turn, c.id)
    requires RebuildDue(Seen(Entry(p.down, c.id), now), now)
    ensures var q := TurnOf(p, c, turn, now);
      && Of(q.desk, c.id) == (if c.stranded.Some? then Outcome(c.stranded.value, turn.meeting) else GONE)
      && Entry(q.down, c.id) == if c.stranded.Some? then Some(Passed(Entry(p.down, c.id), now)) else None
  {
    var desk := Meanwhile(p.desk, turn.before, now);
    MeanwhileLeaves(p.desk, turn.before, now, c.id);
    assert Of(desk, c.id) == GONE;
    if c.stranded.Some? { RebuildOutcome(desk, c.id, c.stranded.value, turn, now); }
  }

  /** Where in a pass a removal lands: in whose turn, and when in it. */
  datatype Landing = Landing(turn: nat, at: Moment)

  /** One removal of candidate `i` lands at `l`, in a window of the pass that takes place, and nobody else
      adds or removes the candidate. */
  predicate LandsIn(start: Pass, cs: seq<Candidate>, turns: Id -> Turn, now: nat, i: nat, l: Landing)
    requires i < |cs|
  {
    && l.turn < |cs| && LandsAt(turns(cs[l.turn].id), cs[i].id, l.at)
    && (forall m :: 0 <= m < |cs| && m != l.turn ==>
          LeftAlone(turns(cs[m].id).before, cs[i].id) && Undisturbed(turns(cs[m].id), cs[i].id))
    && (l.turn == i || l.at.OnTheWay?
        || Reached(Upto(start, cs, turns, now, l.turn), cs[l.turn], turns(cs[l.turn].id), now))
  }

  /** Where such a removal leaves a candidate that is due. */
  function AfterLanding(c: Candidate, spec: Spec, m: Meeting, i: nat, l: Landing): Standing {
    if l.turn < i then AfterRemoval(c, spec, m, OnTheWay)
    else if l.turn == i then AfterRemoval(c, spec, m, l.at)
    else GONE
  }

  /** The removal stands. */
  predicate StandsAt(c: Candidate, spec: Spec, m: Meeting, i: nat, l: Landing) {
    if l.turn < i then c.stranded.None?
    else if l.turn == i then AfterRemoval(c, spec, m, l.at) == GONE
    else true
  }

  /** The same over a whole pass: somebody removes a candidate that is due, once, anywhere in the pass,
      its own turn or another candidate's. Before its turn the removal stands exactly when the listener
      was installed when the pass began; in it, as `RemovalStandsIff` says; after it, always. */
  lemma PassRemovalIff(d: Desk, down: map<Id, DownSince>, cs: seq<Candidate>, turns: Id -> Turn, now: nat, i: nat,
                       l: Landing)
    requires Keyed(d) && AllCandidates(d, cs) && i < |cs| && LandsIn(Opened(d, down), cs, turns, now, i, l)
    requires RebuildDue(Seen(Entry(down, cs[i].id), now), now)
    ensures var p, c := Supervised(d, down, cs, turns, now), cs[i];
      SpecOf(d, c).Some? && var spec, m := SpecOf(d, c).value, turns(c.id).meeting;
      && Of(p.desk, c.id) == AfterLanding(c, spec, m, i, l)
      && (Of(p.desk, c.id) == GONE <==> StandsAt(c, spec, m, i, l))
      && (Of(p.desk, c.id) == GONE ==> Entry(p.down, c.id) == None)
  {
    var c, start := cs[i], Opened(d, down);
    assert SampledFrom(d, c);
    OpenedKeyed(d, down, cs);
    OpenedEntry(d, down, c);
    assert cs[..|cs|] == cs && cs[..0] == [];
    var spec := SpecOf(d, c).value;
    if l.turn < i {
      RemovedEarlier(start, cs, turns, now, i, l, spec);
    } else if l.turn == i {
      RemovedInTurn(start, cs, turns, now, i, l, spec);
    } else {
      RemovedLater(start, cs, turns, now, i, l, spec);
    }
    ClosedEntry(Turns(start, cs, turns, now), c.id);
  }

  predicate RightSpec(start: Pass, c: Candidate, spec: Spec) {
    spec.id == c.id
    && if c.stranded.Some? then c.stranded.value == spec else Of(start.desk, c.id).installed == Some(spec)
  }

  lemma RemovedEarlier(start: Pass, cs: seq<Candidate>, turns: Id -> Turn, now: nat, i: nat, l: Landing, spec: Spec)
    requires Keyed(start.desk) && KeyedCandidates(cs) && Distinct(cs) && i < |cs| && RightSpec(start, cs[i], spec)
    requires LandsIn(start, cs, turns, now, i, l) && l.turn < i
    requires RebuildDue(Seen(Entry(start.down, cs[i].id), now), now)
    ensures Of(Upto(start, cs, turns, now, |cs|).desk, cs[i].id)
         == AfterRemoval(cs[i], spec, turns(cs[i].id).meeting, OnTheWay)
  {
    var c := cs[i];
    GoneBefore(start, cs, turns, now, i, l);
    UptoKeyed(start, cs, turns, now, i);
    NextTurn(start, cs, turns, now, i);
    TurnOfRemoved(Upto(start, cs, turns, now, i), c, turns(c.id), now);
    QuietTurns(start, cs, turns, now, i + 1, |cs|, c.id);
  }

  lemma GoneBefore(start: Pass, cs: seq<Candidate>, turns: Id -> Turn, now: nat, i: nat, l: Landing)
    requires Keyed(start.desk) && KeyedCandidates(cs) && Distinct(cs) && i < |cs|
    requires LandsIn(start, cs, turns, now, i, l) && l.turn < i
    ensures var p := Upto(start, cs, turns, now, i);
      Of(p.desk, cs[i].id) == GONE && Entry(p.down, cs[i].id) == Entry(start.down, cs[i].id)
  {
    var id, k := cs[i].id, l.turn;
    assert cs[..0] == [];
    QuietTurns(start, cs, turns, now, 0, k, id);
    UptoKeyed(start, cs, turns, now, k);
    NextTurn(start, cs, turns, now, k);
    TurnRemoves(Upto(start, cs, turns, now, k), cs[k], turns(cs[k].id), now, id, l.at);
    QuietTurns(start, cs, turns, now, k + 1, i, id);
  }

  lemma RemovedInTurn(start: Pass, cs: seq<Candidate>, turns: Id -> Turn, now: nat, i: nat, l: Landing, spec: Spec)
    requires Keyed(start.desk) && KeyedCandidates(cs) && Distinct(cs) && i < |cs| && RightSpec(start, cs[i], spec)
    requires LandsIn(start, cs, turns, now, i, l) && l.turn == i
    requires RebuildDue(Seen(Entry(start.down, cs[i].id), now), now)
    ensures Of(Upto(start, cs, turns, now, |cs|).desk, cs[i].id)
         == AfterRemoval(cs[i], spec, turns(cs[i].id).meeting, l.at)
  {
    var c := cs[i];
    assert cs[..0] == [];
    QuietTurns(start, cs, turns, now, 0, i, c.id);
    UptoKeyed(start, cs, turns, now, i);
    NextTurn(start, cs, turns, now, i);
    RemovalStandsIff(Upto(start, cs, turns, now, i), c, turns(c.id), now, spec, l.at);
    QuietTurns(start, cs, turns, now, i + 1, |cs|, c.id);
  }

  lemma RemovedLater(start: Pass, cs: seq<Candidate>, turns: Id -> Turn, now: nat, i: nat, l: Landing, spec: Spec)
    requires Keyed(start.desk) && KeyedCandidates(cs) && Distinct(cs) && i < |cs| && RightSpec(start, cs[i], spec)
    requires LandsIn(start, cs, turns, now, i, l) && l.turn > i
    ensures Of(Upto(start, cs, turns, now, |cs|).desk, cs[i].id) == GONE
  {
    var c, k := cs[i], l.turn;
    UptoKeyed(start, cs, turns, now, k);
    NextTurn(start, cs, turns, now, k);
    TurnRemoves(Upto(start, cs, turns, now, k), cs[k], turns(cs[k].id), now, c.id, l.at);
    QuietTurns(start, cs, turns, now, k + 1, |cs|, c.id);
  }

  /** An add leaves a listener nowhere exactly when its claim was granted, the connect failed, and
      nothing but its wait for the claim kept it: so a retry of the claim can lose it. */
  lemma AddLosesIff(d: Desk, spec: Spec, m: Meeting, now: nat)
    requires Of(d, spec.id) != GONE
    ensures Of(Add(d, spec, m, now), spec.id) == GONE
       <==> (MayConnect(spec, m) && !m.connects && spec.claims
             && spec.id !in d.installed && spec.id !in d.stranded)
  {
  }

  /** An add installs a listener that is not there exactly when the connect works and, if it needs a
      claim, the VTA granted it, does not collect for it, or collects for nobody. */
  lemma InstalledIff(d: Desk, spec: Spec, m: Meeting, now: nat)
    requires spec.id !in d.installed
    ensures spec.id in Add(d, spec, m, now).installed <==>
      m.connects && (spec.claims ==> m.answer.Granted? || m.answer.NotCollectable? || m.answer.Unsupported?)
    ensures spec.id in Add(d, spec, m, now).installed ==> Add(d, spec, m, now).installed[spec.id] == Wire(spec, true)
  {
  }

  /** One attempt to add a listener: when, and what it meets. */
  datatype Attempt = Attempt(at: nat, meeting: Meeting)

  function Attempts(d: Desk, spec: Spec, attempts: seq<Attempt>): Desk {
    if attempts == [] then d
    else
      var last := attempts[|attempts| - 1];
      Add(Attempts(d, spec, attempts[..|attempts| - 1]), spec, last.meeting, last.at)
  }

  predicate RefusedAt(a: Attempt) {
    a.meeting.answer.Held? || a.meeting.answer.NotRenewable? || a.meeting.answer.Refused?
    || a.meeting.answer.Unreachable?
  }

  /** However often a listener is refused its claim in a row: it waits and is nowhere else, to be asked
      again half a minute after a first silence and a minute after a first refusal, twice as long after
      each further one, and never more than a quarter of an hour later. */
  lemma {:induction false} RefusedInARow(d: Desk, spec: Spec, attempts: seq<Attempt>)
    requires spec.claims && spec.id !in d.installed && spec.id !in d.waiting
    requires attempts != [] && forall a :: a in attempts ==> RefusedAt(a)
    ensures var q, last := Attempts(d, spec, attempts), attempts[|attempts| - 1];
      && spec.id in q.waiting && spec.id !in q.installed && spec.id !in q.stranded
      && q.waiting[spec.id].spec == spec && q.waiting[spec.id].attempts == |attempts| - 1
      && q.waiting[spec.id].due == last.at + Claims.RetryAfter(last.meeting.answer, |attempts| - 1)
      && q.waiting[spec.id].due <= last.at + 15 * 60 * SECOND
      && (|attempts| == 1 && last.meeting.answer.Unreachable? ==> q.waiting[spec.id].due == last.at + 30 * SECOND)
      && (|attempts| == 1 && !last.meeting.answer.Unreachable? ==> q.waiting[spec.id].due == last.at + 60 * SECOND)
  {
    var before, last := attempts[..|attempts| - 1], attempts[|attempts| - 1];
    assert forall a :: a in before ==> a in attempts;
    assert last in attempts && RefusedAt(last);
    Claims.RetryAfterShape(last.meeting.answer, |attempts| - 1, |attempts| - 1);
    if before != [] {
      RefusedInARow(d, spec, before);
    } else {
      assert Attempts(d, spec, before) == d;
    }
  }

  // ---------------------------------------------------------------------------------------------
  // An outage over many passes
  // ---------------------------------------------------------------------------------------------

  /** A pass with everything it met. */
  datatype Shift = Shift(desk: Desk, candidates: seq<Candidate>, turns: Id -> Turn, now: nat)

  /** The history after passes on a runtime that others change in between. */
  function History(down: map<Id, DownSince>, shifts: seq<Shift>): map<Id, DownSince> {
    if shifts == [] then down
    else
      var s := shifts[|shifts| - 1];
      Supervised(s.desk, History(down, shifts[..|shifts| - 1]), s.candidates, s.turns, s.now).down
  }

  /** The instants at which the passes rebuilt `id`. */
  function RebuiltAt(down: map<Id, DownSince>, shifts: seq<Shift>, id: Id): seq<nat> {
    if shifts == [] then []
    else
      var before, s := shifts[..|shifts| - 1], shifts[|shifts| - 1];
      RebuiltAt(down, before, id)
      + (if id in Supervised(s.desk, History(down, before), s.candidates, s.turns, s.now).rebuilt then [s.now] else [])
  }

  function Times(shifts: seq<Shift>): seq<nat> { seq(|shifts|, i requires 0 <= i < |shifts| => shifts[i].now) }

  /** `id` is down or stranded in the pass, nobody else adds or removes it, and its claim is granted if
      it is asked. */
  ghost predicate FindsDown(s: Shift, id: Id) {
    && Keyed(s.desk) && AllCandidates(s.desk, s.candidates) && Quiet(s.turns, s.candidates, id)
    && (if id in s.desk.installed then !s.desk.installed[id].connected else id in s.desk.stranded)
    && MayConnect(if id in s.desk.installed then s.desk.installed[id].spec else s.desk.stranded[id],
                  s.turns(id).meeting)
  }

  lemma TimesNext(shifts: seq<Shift>)
    requires shifts != []
    ensures Times(shifts)[..|shifts| - 1] == Times(shifts[..|shifts| - 1])
    ensures Times(shifts)[|shifts| - 1] == shifts[|shifts| - 1].now && |Times(shifts)| == |shifts|
  {
  }

  /** Passes that find a listener down again and again track one outage of it, and rebuild it at the
      instants of that outage, as `NeverTooSoon` and `NeverTooLate` bound them. */
  lemma {:induction false} OutageFollowed(down: map<Id, DownSince>, shifts: seq<Shift>, id: Id)
    requires id !in down && forall s :: s in shifts ==> FindsDown(s, id)
    ensures Entry(History(down, shifts), id) == Tracked(Times(shifts))
    ensures RebuiltAt(down, shifts, id) == Rebuilds(Times(shifts))
  {
    if shifts != [] {
      var before, s := shifts[..|shifts| - 1], shifts[|shifts| - 1];
      OutageFollowed(down, before, id);
      assert forall x :: x in before ==> x in shifts;
      TimesNext(shifts);
      FoundDown(s, History(down, before), id);
    }
  }

  lemma FoundDown(s: Shift, down: map<Id, DownSince>, id: Id)
    requires FindsDown(s, id)
    ensures var p := Supervised(s.desk, down, s.candidates, s.turns, s.now);
      && Entry(p.down, id) == Some(Passed(Entry(down, id), s.now))
      && (id in p.rebuilt <==> RebuildDue(Seen(Entry(down, id), s.now), s.now))
  {
    CandidateFor(s.desk, s.candidates, id);
    var i :| 0 <= i < |s.candidates| && s.candidates[i].id == id;
    assert SampledFrom(s.desk, s.candidates[i]);
    PassOutcome(s.desk, down, s.candidates, s.turns, s.now, i);
  }
}
