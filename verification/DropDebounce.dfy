/** Connection transitions turned into activity-log lines, as `DropDebounce` and the logger task of
openvtc-core/src/didcomm.rs do it: a drop is held back for a grace, and comes out as one line. */
module DropDebounce {
  import opened Common

  const CYCLING_WINDOW: nat := 10 * SECOND
  const RECONNECT_GRACE: nat := 15 * SECOND
  const PENDING_DROP_SWEEP: nat := SECOND

  type Id = string

  datatype HeldDrop = HeldDrop(at: nat, error: Option<string>)

  /** A line about one listener. */
  datatype Line = Connected | Disconnected(error: Option<string>) | Reconnected(downFor: nat) | CyclingRapidly

  datatype LogLine = LogLine(id: Id, line: Line)

  /** What reaches the logger: a transition of one listener, or the sweep for overdue drops. */
  datatype Signal = Up(id: Id, now: nat) | Down(id: Id, error: Option<string>, now: nat) | Sweep(now: nat)

  // ---------------------------------------------------------------------------------------------
  // One listener on its own
  // ---------------------------------------------------------------------------------------------

  /** What is remembered of one listener: the drop not reported yet, and when it last dropped. */
  datatype Machine = Machine(held: Option<HeldDrop>, last: Option<nat>)

  datatype Event = Rise(now: nat) | Drop(error: Option<string>, now: nat) | Check(now: nat)

  function Next(m: Machine, e: Event): Machine {
    match e
    case Drop(error, now) => Machine(if m.held.Some? then m.held else Some(HeldDrop(now, error)), Some(now))
    case Rise(now) => m.(held := None)
    case Check(now) =>
      if m.held.Some? && Since(now, m.held.value.at) >= RECONNECT_GRACE then m.(held := None) else m
  }

  function Emits(m: Machine, e: Event): seq<Line> {
    match e
    case Drop(error, now) =>
      if m.last.Some? && Since(now, m.last.value) < CYCLING_WINDOW then [CyclingRapidly] else []
    case Rise(now) =>
      if m.held.Some? && Since(now, m.held.value.at) < RECONNECT_GRACE
      then [Reconnected(Since(now, m.held.value.at))] else [Connected]
    case Check(now) =>
      if m.held.Some? && Since(now, m.held.value.at) >= RECONNECT_GRACE
      then [Disconnected(m.held.value.error)] else []
  }

  function After(m: Machine, es: seq<Event>): Machine
    decreases |es|
  {
    if es == [] then m else After(Next(m, es[0]), es[1..])
  }

  function Lines(m: Machine, es: seq<Event>): seq<Line>
    decreases |es|
  {
    if es == [] then [] else Emits(m, es[0]) + Lines(Next(m, es[0]), es[1..])
  }

  const FRESH: Machine := Machine(None, None)

  // ---------------------------------------------------------------------------------------------
  // All listeners together, as written
  // ---------------------------------------------------------------------------------------------

  /** The lines about one listener. */
  function About(id: Id, log: seq<LogLine>): seq<Line> {
    if log == [] then []
    else (if log[0].id == id then [log[0].line] else []) + About(id, log[1..])
  }

  /** What one listener sees of the signals: its own transitions and every sweep. */
  function Seen(id: Id, signals: seq<Signal>): seq<Event> {
    if signals == [] then []
    else SeenOne(id, signals[0]) + Seen(id, signals[1..])
  }

  function SeenOne(id: Id, s: Signal): seq<Event> {
    match s
    case Up(k, now) => if k == id then [Rise(now)] else []
    case Down(k, error, now) => if k == id then [Drop(error, now)] else []
    case Sweep(now) => [Check(now)]
  }

  /** A listener sees each of its own transitions, as what it is, and every sweep... */
  lemma {:induction false} OwnSeen(id: Id, signals: seq<Signal>)
    requires forall s :: s in signals ==> s.Sweep? || s.id == id
    ensures |Seen(id, signals)| == |signals|
    ensures forall i :: 0 <= i < |signals| ==>
      match signals[i]
      case Up(_, now) => Seen(id, signals)[i] == Rise(now)
      case Down(_, error, now) => Seen(id, signals)[i] == Drop(error, now)
      case Sweep(now) => Seen(id, signals)[i] == Check(now)
  {
    if signals != [] {
      assert signals[0] in signals;
      OwnSeen(id, signals[1..]);
    }
  }

  /** ... and nothing of another's, wherever it comes. */
  lemma OthersUnseen(id: Id, before: seq<Signal>, others: seq<Signal>, after: seq<Signal>)
    requires forall s :: s in others ==> !s.Sweep? && s.id != id
    ensures Seen(id, before + others + after) == Seen(id, before + after)
  {
    NoneSeen(id, others);
    SeenConcat(id, before + others, after);
    SeenConcat(id, before, others);
    SeenConcat(id, before, after);
    assert Seen(id, before) + [] == Seen(id, before);
  }

  lemma {:induction false} NoneSeen(id: Id, others: seq<Signal>)
    requires forall s :: s in others ==> !s.Sweep? && s.id != id
    ensures Seen(id, others) == []
  {
    if others != [] {
      assert others[0] in others;
      NoneSeen(id, others[1..]);
    }
  }

  lemma {:induction false} AboutConcat(id: Id, a: seq<LogLine>, b: seq<LogLine>)
    ensures About(id, a + b) == About(id, a) + About(id, b)
  {
    if a == [] {
      assert a + b == b;
    } else {
      TailOfConcat(a, b);
      AboutConcat(id, a[1..], b);
      ConcatAssociative(if a[0].id == id then [a[0].line] else [], About(id, a[1..]), About(id, b));
    }
  }

  lemma AboutOne(id: Id, l: LogLine)
    ensures About(id, [l]) == if l.id == id then [l.line] else []
  {
    assert [l][1..] == [];
  }

  lemma {:induction false} SeenConcat(id: Id, a: seq<Signal>, b: seq<Signal>)
    ensures Seen(id, a + b) == Seen(id, a) + Seen(id, b)
  {
    if a == [] {
      assert a + b == b;
    } else {
      TailOfConcat(a, b);
      SeenConcat(id, a[1..], b);
      ConcatAssociative(SeenOne(id, a[0]), Seen(id, a[1..]), Seen(id, b));
    }
  }

  lemma {:induction false} RunConcat(m: Machine, a: seq<Event>, b: seq<Event>)
    ensures After(m, a + b) == After(After(m, a), b)
    ensures Lines(m, a + b) == Lines(m, a) + Lines(After(m, a), b)
    decreases |a|
  {
    if a == [] {
      assert a + b == b;
    } else {
      TailOfConcat(a, b);
      var m' := Next(m, a[0]);
      RunConcat(m', a[1..], b);
      ConcatAssociative(Emits(m, a[0]), Lines(m', a[1..]), Lines(After(m', a[1..]), b));
    }
  }

  class Debounce {
    var held: map<Id, HeldDrop>
    var lastDisconnect: map<Id, nat>

    constructor ()
      ensures forall k :: At(k) == FRESH
    {
      held, lastDisconnect := map[], map[];
    }

    function At(id: Id): Machine
      reads this
    {
      Machine(if id in held then Some(held[id]) else None,
              if id in lastDisconnect then Some(lastDisconnect[id]) else None)
    }

    method OnDisconnect(id: Id, error: Option<string>, now: nat) returns (out: seq<LogLine>)
      modifies this
      ensures forall k :: At(k) == After(old(At(k)), SeenOne(k, Down(id, error, now)))
      ensures forall k :: About(k, out) == Lines(old(At(k)), SeenOne(k, Down(id, error, now)))
    {
      out := [];
      if id in lastDisconnect && Since(now, lastDisconnect[id]) < CYCLING_WINDOW {
        out := [LogLine(id, CyclingRapidly)];
        assert out[1..] == [];
      }
      lastDisconnect := lastDisconnect[id := now];
      if id !in held {
        held := held[id := HeldDrop(now, error)];
      }
      forall k ensures About(k, out) == Lines(old(At(k)), SeenOne(k, Down(id, error, now)))
        ensures At(k) == After(old(At(k)), SeenOne(k, Down(id, error, now)))
      {
        if k == id { assert SeenOne(k, Down(id, error, now))[1..] == []; }
      }
    }

    method OnConnect(id: Id, now: nat) returns (line: LogLine)
      modifies this
      ensures forall k :: At(k) == After(old(At(k)), SeenOne(k, Up(id, now)))
      ensures forall k :: About(k, [line]) == Lines(old(At(k)), SeenOne(k, Up(id, now)))
    {
      if id in held && Since(now, held[id].at) < RECONNECT_GRACE {
        line := LogLine(id, Reconnected(Since(now, held[id].at)));
      } else {
        line := LogLine(id, Connected);
      }
      held := held - {id};
      forall k ensures About(k, [line]) == Lines(old(At(k)), SeenOne(k, Up(id, now)))
        ensures At(k) == After(old(At(k)), SeenOne(k, Up(id, now)))
      {
        AboutOne(k, line);
        if k == id { assert SeenOne(k, Up(id, now))[1..] == []; }
      }
    }

    /** The drops past their grace, each removed and reported; in which order is the map's. */
    method Due(now: nat) returns (out: seq<LogLine>)
      modifies this
      ensures forall k :: At(k) == After(old(At(k)), [Check(now)])
      ensures forall k :: About(k, out) == Lines(old(At(k)), [Check(now)])
    {
      var expired := set id | id in held && Since(now, held[id].at) >= RECONNECT_GRACE;
      ghost var all, before := expired, held;
      out := [];
      while expired != {}
        invariant expired <= all && held == before - (all - expired)
        invariant lastDisconnect == old(lastDisconnect)
        invariant forall k :: About(k, out) == Overdue(k, all - expired, before)
        decreases expired
      {
        var id :| id in expired;
        var drop := held[id];
        forall k ensures About(k, out + [LogLine(id, Disconnected(drop.error))])
                      == Overdue(k, all - (expired - {id}), before)
        {
          AboutConcat(k, out, [LogLine(id, Disconnected(drop.error))]);
          AboutOne(k, LogLine(id, Disconnected(drop.error)));
        }
        out := out + [LogLine(id, Disconnected(drop.error))];
        held := held - {id};
        expired := expired - {id};
      }
      assert all - expired == all;
      assert [Check(now)][1..] == [];
    }

    /** One signal, handled by the branch of the logger's loop it belongs to. */
    method Handle(s: Signal) returns (out: seq<LogLine>)
      modifies this
      ensures forall k :: At(k) == After(old(At(k)), SeenOne(k, s))
      ensures forall k :: About(k, out) == Lines(old(At(k)), SeenOne(k, s))
    {
      match s {
        case Up(id, now) => var line := OnConnect(id, now); out := [line];
        case Down(id, error, now) => out := OnDisconnect(id, error, now);
        case Sweep(now) => out := Due(now);
      }
    }

    /** The logger task over any run of signals: for every listener, the state kept and the lines
        written are those of its own machine run on what that listener saw. */
    method Log(signals: seq<Signal>) returns (log: seq<LogLine>)
      modifies this
      ensures forall k :: At(k) == After(old(At(k)), Seen(k, signals))
      ensures forall k :: About(k, log) == Lines(old(At(k)), Seen(k, signals))
    {
      log := [];
      for i := 0 to |signals|
        invariant forall k :: At(k) == After(old(At(k)), Seen(k, signals[..i]))
        invariant forall k :: About(k, log) == Lines(old(At(k)), Seen(k, signals[..i]))
      {
        var out := Handle(signals[i]);
        forall k ensures At(k) == After(old(At(k)), Seen(k, signals[..i + 1]))
          ensures About(k, log + out) == Lines(old(At(k)), Seen(k, signals[..i + 1]))
        {
          SeenNext(k, signals, i);
          RunConcat(old(At(k)), Seen(k, signals[..i]), SeenOne(k, signals[i]));
          AboutConcat(k, log, out);
        }
        log := log + out;
      }
      assert signals[..|signals|] == signals;
    }

    /** The logger task as a whole: transitions go through the debounce, the supervisor's entries and
        the counts of missed events pass unchanged, all in the order they come. */
    method LogAll(inputs: seq<Input>) returns (log: seq<Output>)
      modifies this
      ensures forall k :: At(k) == After(old(At(k)), Seen(k, Signals(inputs)))
      ensures forall k :: About(k, Told(log)) == Lines(old(At(k)), Seen(k, Signals(inputs)))
      ensures Passed(log) == PassedOn(inputs)
    {
      log := [];
      for i := 0 to |inputs|
        invariant forall k :: At(k) == After(old(At(k)), Seen(k, Signals(inputs[..i])))
        invariant forall k :: About(k, Told(log)) == Lines(old(At(k)), Seen(k, Signals(inputs[..i])))
        invariant Passed(log) == PassedOn(inputs[..i])
      {
        InputNext(inputs, i);
        ghost var seen := Signals(inputs[..i]);
        match inputs[i] {
          case Transition(s) =>
            var out := Handle(s);
            forall k ensures At(k) == After(old(At(k)), Seen(k, seen + [s]))
              ensures About(k, Told(log) + out) == Lines(old(At(k)), Seen(k, seen + [s]))
            {
              SeenOnly(k, seen, s);
              RunConcat(old(At(k)), Seen(k, seen), SeenOne(k, s));
              AboutConcat(k, Told(log), out);
            }
            SayMore(log, out);
            log := log + Said(out);
          case Entry(entry) =>
            PassMore(log, Supervisor(entry));
            log := log + [Supervisor(entry)];
          case Lagged(count) =>
            PassMore(log, Missed(count));
            log := log + [Missed(count)];
        }
      }
      assert inputs[..|inputs|] == inputs;
    }
  }

  // ---------------------------------------------------------------------------------------------
  // What passes beside the debounce
  // ---------------------------------------------------------------------------------------------

  /** What the logger task waits for. */
  datatype Input = Transition(signal: Signal) | Entry(entry: string) | Lagged(count: nat)

  datatype Output = Line(line: LogLine) | Supervisor(entry: string) | Missed(count: nat)

  function Signals(inputs: seq<Input>): seq<Signal> {
    if inputs == [] then []
    else (if inputs[0].Transition? then [inputs[0].signal] else []) + Signals(inputs[1..])
  }

  function PassedOn(inputs: seq<Input>): seq<Output> {
    if inputs == [] then [] else PassedOne(inputs[0]) + PassedOn(inputs[1..])
  }

  function PassedOne(i: Input): seq<Output> {
    match i
    case Transition(_) => []
    case Entry(entry) => [Supervisor(entry)]
    case Lagged(count) => [Missed(count)]
  }

  /** An entry passes with its words, and a count of missed events with the count, each at its place. */
  lemma {:induction false} EachPassedOn(inputs: seq<Input>)
    requires forall i :: i in inputs ==> !i.Transition?
    ensures |PassedOn(inputs)| == |inputs|
    ensures forall i :: 0 <= i < |inputs| ==>
      match inputs[i]
      case Entry(entry) => PassedOn(inputs)[i] == Supervisor(entry)
      case Lagged(count) => PassedOn(inputs)[i] == Missed(count)
      case Transition(_) => false
  {
    if inputs != [] {
      assert inputs[0] in inputs;
      EachPassedOn(inputs[1..]);
    }
  }

  function Said(lines: seq<LogLine>): seq<Output> {
    if lines == [] then [] else [Output.Line(lines[0])] + Said(lines[1..])
  }

  function Told(log: seq<Output>): seq<LogLine> {
    if log == [] then [] else (if log[0].Line? then [log[0].line] else []) + Told(log[1..])
  }

  function Passed(log: seq<Output>): seq<Output> {
    if log == [] then [] else (if log[0].Line? then [] else [log[0]]) + Passed(log[1..])
  }

  lemma {:induction false} InputsConcat(a: seq<Input>, b: seq<Input>)
    ensures Signals(a + b) == Signals(a) + Signals(b) && PassedOn(a + b) == PassedOn(a) + PassedOn(b)
  {
    if a == [] {
      assert a + b == b;
    } else {
      TailOfConcat(a, b);
      InputsConcat(a[1..], b);
      ConcatAssociative(if a[0].Transition? then [a[0].signal] else [], Signals(a[1..]), Signals(b));
      ConcatAssociative(PassedOne(a[0]), PassedOn(a[1..]), PassedOn(b));
    }
  }

  lemma InputNext(inputs: seq<Input>, i: nat)
    requires i < |inputs|
    ensures Signals(inputs[..i + 1])
         == if inputs[i].Transition? then Signals(inputs[..i]) + [inputs[i].signal] else Signals(inputs[..i])
    ensures PassedOn(inputs[..i + 1])
         == if inputs[i].Transition? then PassedOn(inputs[..i]) else PassedOn(inputs[..i]) + PassedOne(inputs[i])
  {
    assert Signals(inputs[..i]) + [] == Signals(inputs[..i]) && PassedOn(inputs[..i]) + [] == PassedOn(inputs[..i]);
    assert inputs[..i + 1] == inputs[..i] + [inputs[i]];
    InputsConcat(inputs[..i], [inputs[i]]);
    assert [inputs[i]][1..] == [];
  }

  lemma SeenOnly(k: Id, seen: seq<Signal>, s: Signal)
    ensures Seen(k, seen + [s]) == Seen(k, seen) + SeenOne(k, s)
  {
    SeenConcat(k, seen, [s]);
    assert [s][1..] == [];
  }

  lemma {:induction false} LogConcat(a: seq<Output>, b: seq<Output>)
    ensures Told(a + b) == Told(a) + Told(b) && Passed(a + b) == Passed(a) + Passed(b)
  {
    if a == [] {
      assert a + b == b;
    } else {
      TailOfConcat(a, b);
      LogConcat(a[1..], b);
      ConcatAssociative(if a[0].Line? then [a[0].line] else [], Told(a[1..]), Told(b));
      ConcatAssociative(if a[0].Line? then [] else [a[0]], Passed(a[1..]), Passed(b));
    }
  }

  lemma {:induction false} SaidIsTold(lines: seq<LogLine>)
    ensures Told(Said(lines)) == lines && Passed(Said(lines)) == []
  {
    if lines != [] {
      TailOfConcat([Output.Line(lines[0])], Said(lines[1..]));
      assert [Output.Line(lines[0])][1..] == [] && [] + Said(lines[1..]) == Said(lines[1..]);
      SaidIsTold(lines[1..]);
    }
  }

  lemma SayMore(log: seq<Output>, lines: seq<LogLine>)
    ensures Told(log + Said(lines)) == Told(log) + lines && Passed(log + Said(lines)) == Passed(log)
  {
    LogConcat(log, Said(lines));
    SaidIsTold(lines);
  }

  lemma PassMore(log: seq<Output>, o: Output)
    requires !o.Line?
    ensures Told(log + [o]) == Told(log) && Passed(log + [o]) == Passed(log) + [o]
  {
    LogConcat(log, [o]);
    assert [o][1..] == [];
  }

  /** The line of a listener among those reported overdue. */
  function Overdue(k: Id, reported: set<Id>, held: map<Id, HeldDrop>): seq<Line> {
    if k in reported && k in held then [Disconnected(held[k].error)] else []
  }

  lemma SeenNext(k: Id, signals: seq<Signal>, i: nat)
    requires i < |signals|
    ensures Seen(k, signals[..i + 1]) == Seen(k, signals[..i]) + SeenOne(k, signals[i])
  {
    assert signals[..i + 1] == signals[..i] + [signals[i]];
    SeenConcat(k, signals[..i], [signals[i]]);
    assert [signals[i]][1..] == [];
  }

  // ---------------------------------------------------------------------------------------------
  // What becomes of a held drop
  // ---------------------------------------------------------------------------------------------

  /** The line an event ends a held drop with, if it ends it. */
  function Ending(d: HeldDrop, e: Event): Option<Line> {
    match e
    case Drop(_, _) => None
    case Rise(now) =>
      Some(if Since(now, d.at) < RECONNECT_GRACE then Reconnected(Since(now, d.at)) else Connected)
    case Check(now) => if Since(now, d.at) >= RECONNECT_GRACE then Some(Disconnected(d.error)) else None
  }

  /** Where in the events a drop is ended: the first connect, or the first sweep past its grace. */
  function EndIndex(d: HeldDrop, es: seq<Event>): (i: nat)
    ensures i <= |es| && (i < |es| ==> Ending(d, es[i]).Some?)
  {
    if es == [] || Ending(d, es[0]).Some? then 0 else 1 + EndIndex(d, es[1..])
  }

  /** The lines that are not cycling warnings. */
  function Reports(lines: seq<Line>): seq<Line> {
    if lines == [] then []
    else (if lines[0].CyclingRapidly? then [] else [lines[0]]) + Reports(lines[1..])
  }

  lemma {:induction false} ReportsConcat(a: seq<Line>, b: seq<Line>)
    ensures Reports(a + b) == Reports(a) + Reports(b)
  {
    if a == [] {
      assert a + b == b;
    } else {
      TailOfConcat(a, b);
      ReportsConcat(a[1..], b);
      ConcatAssociative(if a[0].CyclingRapidly? then [] else [a[0]], Reports(a[1..]), Reports(b));
    }
  }

  lemma ReportsEmitted(m: Machine, e: Event)
    ensures Reports(Emits(m, e)) == if e.Drop? then [] else Emits(m, e)
  {
    var lines := Emits(m, e);
    if lines != [] { assert lines[1..] == []; }
  }

  /** A held drop stays held until its end, and nothing is held after it. */
  lemma {:induction false} HeldUntilItsEnd(m: Machine, es: seq<Event>)
    requires m.held.Some?
    ensures var d := m.held.value; var i := EndIndex(d, es);
      && After(m, es[..i]).held == Some(d)
      && (i < |es| ==> After(m, es[..i + 1]).held.None?)
    decreases |es|
  {
    var d := m.held.value;
    if es != [] {
      if Ending(d, es[0]).Some? {
        assert es[..1] == [es[0]] && [es[0]][1..] == [];
      } else {
        var i := EndIndex(d, es);
        HeldUntilItsEnd(Next(m, es[0]), es[1..]);
        assert es[..i][1..] == es[1..][..i - 1];
        if i < |es| { assert es[..i + 1][1..] == es[1..][..i]; }
      }
    }
  }

  /** Until its end a held drop is silent, repeated drops neither re-dating nor reporting it; its end
      writes exactly one line, dated from the first drop, and nothing is held after it. */
  lemma {:induction false} HeldDropEndsOnce(m: Machine, es: seq<Event>)
    requires m.held.Some?
    ensures var d := m.held.value; var i := EndIndex(d, es);
      && After(m, es[..i]).held == Some(d)
      && Reports(Lines(m, es)) ==
           (if i == |es| then [] else [Ending(d, es[i]).value] + Reports(Lines(After(m, es[..i + 1]), es[i + 1..])))
      && (i < |es| ==> After(m, es[..i + 1]).held.None?)
    decreases |es|
  {
    HeldUntilItsEnd(m, es);
    EndReported(m, es);
  }

  lemma EndReported(m: Machine, es: seq<Event>)
    requires m.held.Some?
    ensures var d := m.held.value; var i := EndIndex(d, es);
      Reports(Lines(m, es)) ==
        if i == |es| then [] else [Ending(d, es[i]).value] + Reports(Lines(After(m, es[..i + 1]), es[i + 1..]))
  {
    var d := m.held.value;
    var i := EndIndex(d, es);
    EndIndexMeans(d, es);
    if i == |es| {
      SilentUntil(m, es);
    } else {
      var before, rest := es[..i], es[i + 1..];
      SilentUntil(m, before);
      HeldUntilItsEnd(m, es);
      LinesSplit(m, es, i);
      ReportsConcat(Lines(m, before) + Emits(After(m, before), es[i]), Lines(After(m, es[..i + 1]), rest));
      ReportsConcat(Lines(m, before), Emits(After(m, before), es[i]));
      ReportsEmitted(After(m, before), es[i]);
    }
  }

  lemma {:induction false} SilentUntil(m: Machine, es: seq<Event>)
    requires m.held.Some? && forall i :: 0 <= i < |es| ==> Ending(m.held.value, es[i]).None?
    ensures Reports(Lines(m, es)) == []
    decreases |es|
  {
    if es != [] {
      var m' := Next(m, es[0]);
      assert Ending(m.held.value, es[0]).None?;
      SilentUntil(m', es[1..]);
      ReportsConcat(Emits(m, es[0]), Lines(m', es[1..]));
      ReportsEmitted(m, es[0]);
    }
  }

  lemma LinesSplit(m: Machine, es: seq<Event>, i: nat)
    requires i < |es|
    ensures Lines(m, es)
      == Lines(m, es[..i]) + Emits(After(m, es[..i]), es[i]) + Lines(After(m, es[..i + 1]), es[i + 1..])
  {
    assert es == es[..i + 1] + es[i + 1..] && es[..i + 1] == es[..i] + [es[i]];
    RunConcat(m, es[..i + 1], es[i + 1..]);
    RunConcat(m, es[..i], [es[i]]);
    LinesOne(After(m, es[..i]), es[i]);
  }

  lemma LinesOne(m: Machine, e: Event)
    ensures Lines(m, [e]) == Emits(m, e)
  {
    assert [e][1..] == [] && Emits(m, e) + [] == Emits(m, e);
  }

  /** While nothing is held and nothing drops, each connect is a plain one, and a sweep says nothing. */
  lemma {:induction false} PlainConnects(m: Machine, es: seq<Event>)
    requires m.held.None? && forall e :: e in es ==> !e.Drop?
    ensures After(m, es) == m
    ensures forall l :: l in Lines(m, es) ==> l == Connected
    ensures |Lines(m, es)| == Rises(es)
    decreases |es|
  {
    if es != [] {
      assert es[0] in es;
      PlainConnects(m, es[1..]);
    }
  }

  function Rises(es: seq<Event>): nat {
    if es == [] then 0 else (if es[0].Rise? then 1 else 0) + Rises(es[1..])
  }

  predicate Nondecreasing(es: seq<Event>) {
    forall i, j :: 0 <= i < j < |es| ==> es[i].now <= es[j].now
  }

  lemma {:induction false} EndIndexMeans(d: HeldDrop, es: seq<Event>)
    ensures forall j :: 0 <= j < EndIndex(d, es) ==> Ending(d, es[j]).None?
  {
    if es != [] && Ending(d, es[0]).None? {
      EndIndexMeans(d, es[1..]);
      forall j | 0 <= j < EndIndex(d, es) ensures Ending(d, es[j]).None? {
        if j > 0 { assert es[j] == es[1..][j - 1]; }
      }
    }
  }

  /** A drop and the run after it, the clock never going back: the one line is `Reconnected` with the
      exact time down when the listener comes back within the grace, and otherwise `Disconnected`
      with the first drop's error, or a plain `Connected` when no sweep came before the listener. */
  lemma DropReported(m: Machine, error: Option<string>, at: nat, es: seq<Event>)
    requires m.held.None? && Nondecreasing([Drop(error, at)] + es)
    ensures var d := HeldDrop(at, error); var i := EndIndex(d, es);
      && Next(m, Drop(error, at)).held == Some(d)
      && (forall j :: 0 <= j < i ==> !es[j].Rise? && (es[j].Check? ==> es[j].now < at + 15 * SECOND))
      && (i < |es| ==>
            match Ending(d, es[i]).value
            case Reconnected(downFor) => es[i].Rise? && at + downFor == es[i].now && downFor < 15 * SECOND
            case Disconnected(e) => es[i].Check? && e == error && es[i].now >= at + 15 * SECOND
            case Connected => es[i].Rise? && es[i].now >= at + 15 * SECOND
            case CyclingRapidly => false)
  {
    var d := HeldDrop(at, error);
    EndIndexMeans(d, es);
    forall j | 0 <= j < |es| ensures at <= es[j].now {
      assert ([Drop(error, at)] + es)[j + 1] == es[j] && ([Drop(error, at)] + es)[0].now == at;
    }
    forall j | 0 <= j < EndIndex(d, es)
      ensures !es[j].Rise? && (es[j].Check? ==> es[j].now < at + RECONNECT_GRACE)
    {
      assert Ending(d, es[j]).None?;
    }
  }

  /** A listener that stays down is reported at the latest at the first sweep past the grace. */
  lemma StayingDownIsReported(m: Machine, es: seq<Event>, k: nat)
    requires m.held.Some? && k < |es|
    requires es[k].Check? && es[k].now >= m.held.value.at + RECONNECT_GRACE
    requires forall j :: 0 <= j < k ==> !es[j].Rise?
    ensures var d := m.held.value;
      EndIndex(d, es) <= k && Ending(d, es[EndIndex(d, es)]) == Some(Disconnected(d.error))
  {
    var d := m.held.value;
    EndIndexMeans(d, es);
    assert Ending(d, es[k]).Some?;
  }

  /** With sweeps no further apart than the sweep interval, the report of a listener that stays down
      comes at most one interval after the grace. */
  lemma {:induction false} ReportedInTime(m: Machine, es: seq<Event>, start: nat)
    requires m.held.Some? && start <= m.held.value.at + RECONNECT_GRACE
    requires forall j :: 0 <= j < |es| ==> !es[j].Rise?
    requires SweptFrom(start, es) && es != [] && es[|es| - 1].Check?
    requires es[|es| - 1].now >= m.held.value.at + RECONNECT_GRACE
    ensures var d := m.held.value; var i := EndIndex(d, es);
      i < |es| && Ending(d, es[i]) == Some(Disconnected(d.error))
      && es[i].now <= d.at + 15 * SECOND + SECOND
  {
    var d := m.held.value;
    StayingDownIsReported(m, es, |es| - 1);
    EndIndexMeans(d, es);
    SweepBefore(d, es, start);
  }

  /** Every sweep comes within the interval of the one before it, the first of `start`. */
  ghost predicate SweptFrom(start: nat, es: seq<Event>)
    decreases |es|
  {
    if es == [] then true
    else if es[0].Check? then start <= es[0].now <= start + PENDING_DROP_SWEEP && SweptFrom(es[0].now, es[1..])
    else SweptFrom(start, es[1..])
  }

  lemma {:induction false} SweepBefore(d: HeldDrop, es: seq<Event>, start: nat)
    requires start <= d.at + RECONNECT_GRACE && SweptFrom(start, es)
    requires forall j :: 0 <= j < |es| ==> !es[j].Rise?
    ensures var i := EndIndex(d, es); i < |es| ==> es[i].now <= d.at + RECONNECT_GRACE + PENDING_DROP_SWEEP
    decreases |es|
  {
    if es != [] && Ending(d, es[0]).None? {
      SweepBefore(d, es[1..], if es[0].Check? then es[0].now else start);
    }
  }

  /** When the listener last dropped, over the run so far. */
  function LastDrop(es: seq<Event>): Option<nat> {
    if es == [] then None
    else if es[|es| - 1].Drop? then Some(es[|es| - 1].now) else LastDrop(es[..|es| - 1])
  }

  lemma {:induction false} LastRemembered(es: seq<Event>)
    ensures After(FRESH, es).last == LastDrop(es)
  {
    if es != [] {
      var n := |es| - 1;
      LastRemembered(es[..n]);
      assert es == es[..n] + [es[n]] && [es[n]][1..] == [];
      RunConcat(FRESH, es[..n], [es[n]]);
    }
  }

  /** Cycling is warned of at once, at the second of two drops closer together than the window,
      whatever is held and however the drops were reported. */
  lemma CyclingIff(es: seq<Event>, error: Option<string>, now: nat)
    ensures CyclingRapidly in Emits(After(FRESH, es), Drop(error, now))
       <==> LastDrop(es).Some? && Since(now, LastDrop(es).value) < 10 * SECOND
  {
    LastRemembered(es);
  }
}
