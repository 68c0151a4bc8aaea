/** The renewal of one claim, as `renew_loop` of openvtc-core/src/collection.rs runs it: renew at
half-time, retry while the VTA does not answer, close the socket before the claim ends. Instants are
nanoseconds of the wall clock. */
module RenewLoop {
  import opened Common
  import Claims

  type ClaimAnswer = Claims.ClaimAnswer

  const CLOCK_SKEW: nat := 120 * SECOND

  const RENEW_RETRY: nat := 60 * SECOND

  /** The claim of this loop's generation. */
  datatype Term = Term(grantedAt: int, endsAt: int, renewable: bool)

  function RenewAt(t: Term): int { t.grantedAt + (t.endsAt - t.grantedAt) / 2 }

  /** The last instant the socket may stay open. */
  function CloseBy(t: Term): int { t.endsAt - CLOCK_SKEW }

  /** When the loop looks at the claim again. */
  function Wake(t: Term): int { if t.renewable then Min(RenewAt(t), CloseBy(t)) else CloseBy(t) }

  /** What the loop meets, each by how often it was met before: how much later than asked a sleep
      ends, how long an answer takes and what it is, whether the claim was superseded, whether the
      runtime still means the listener to be up. */
  datatype World = World(
    late: nat -> nat, latency: nat -> nat, answer: nat -> ClaimAnswer, superseded: nat -> bool, collects: nat -> bool)

  datatype Event =
    | Asked(at: int, answer: ClaimAnswer)
    | Renewed(at: int, endsAt: int)
    | Unrenewable(at: int)
    | Dropped(at: int)
    | Closed(at: int, comeBack: bool)
    | Released(at: int)
    | Superseded(at: int)

  /** The loop is over. */
  predicate Final(e: Event) { e.Dropped? || e.Closed? || e.Released? || e.Superseded? }

  /** The events of one loop so far, from the grant it was started for, each with how much of the world
      was met before it. */
  datatype Log = Grant(term: Term) | Then(before: Log, event: Event, met: nat)

  /** The claim as the log leaves it. */
  function TermAfter(log: Log): Term {
    match log
    case Grant(term) => term
    case Then(before, Renewed(at, endsAt), _) => Term(at, endsAt, TermAfter(before).renewable)
    case Then(before, Unrenewable(_), _) => TermAfter(before).(renewable := false)
    case Then(before, _, _) => TermAfter(before)
  }

  /** The claim as granted. */
  function Granted(log: Log): Term { if log.Grant? then log.term else Granted(log.before) }

  /** The instant the log has reached. */
  function Reached(log: Log): int { if log.Grant? then log.term.grantedAt else log.event.at }

  /** How much of the world was met by then. */
  function Met(log: Log): nat { if log.Grant? then 0 else log.met }

  // ---------------------------------------------------------------------------------------------
  // What the log of a run satisfies
  // ---------------------------------------------------------------------------------------------

  /** The event is one the claim of that moment allows, at an instant it allows, when sleeps are at
      most `j` late and answers take at most `l`. */
  predicate Allowed(t: Term, e: Event, j: nat, l: nat) {
    match e
    case Asked(at, _) => t.renewable && Min(RenewAt(t), CloseBy(t)) <= at < CloseBy(t) + j
    case Renewed(at, _) => t.renewable && at < CloseBy(t) + j + l
    case Unrenewable(at) => t.renewable && at < CloseBy(t) + j + l
    case Dropped(at) => t.renewable && at < CloseBy(t) + j + l
    case Closed(at, comeBack) =>
      && comeBack == t.renewable && CloseBy(t) <= at
      && (at <= CloseBy(t) + 2 * j + l || at <= t.grantedAt + j)
    case Released(at) => Wake(t) <= at && (at <= CloseBy(t) + 2 * j + l || at <= t.grantedAt + j)
    case Superseded(at) => at <= CloseBy(t) + 2 * j + l || at <= t.grantedAt + j
  }

  /** What comes next is what the log so far calls for. */
  predicate Follows(log: Log, next: Event) {
    match log
    case Then(_, Asked(at, answer), _) => next.Superseded? || (
      match answer
      case Granted(endsAt) => next.Renewed? && next.endsAt == endsAt
      case NotCollectable | Unsupported => next.Dropped?
      case NotRenewable | Held | Refused => next.Unrenewable?
      case Unreachable => (next.Asked? && next.at >= at + RENEW_RETRY) || (next.Closed? && next.comeBack))
    case Then(_, Unrenewable(_), _) => (next.Closed? && !next.comeBack) || next.Released? || next.Superseded?
    case Then(_, Renewed(_, _), _) => next.Asked? || next.Closed? || next.Released? || next.Superseded?
    case Grant(_) => next.Asked? || next.Closed? || next.Released? || next.Superseded?
    case _ => false
  }

  predicate Kept(log: Log, j: nat, l: nat) {
    match log
    case Grant(term) => term.renewable
    case Then(before, event, _) =>
      && Kept(before, j, l) && Follows(before, event) && Reached(before) <= event.at
      && Allowed(TermAfter(before), event, j, l)
  }

  predicate Asking(log: Log) { log.Then? && log.event.Asked? }

  /** When the answer to the last question arrived. */
  function AnsweredAt(world: World, log: Log): int
    requires Asking(log)
  {
    log.event.at + world.latency(log.met)
  }

  /** What the world has to do with an event: what it answers, whether it wants the listener, whether it
      superseded the claim, and when. */
  predicate Shown(world: World, log: Log, next: Event, n: nat) {
    && Met(log) <= n && (next.Superseded? <==> world.superseded(n))
    && (next.Asked? ==> Met(log) < n && next.answer == world.answer(n))
    && (!Asking(log) && !next.Superseded? ==>
          && n > 0 && next.at == Max(Reached(log), Wake(TermAfter(log))) + world.late(n - 1)
          && (next.Released? <==> !world.collects(n)))
    && (Asking(log) && !log.event.answer.Unreachable? ==> next.at == AnsweredAt(world, log))
    && (Asking(log) && log.event.answer.Unreachable? && !next.Superseded? ==>
          var again := AnsweredAt(world, log) + RENEW_RETRY;
          && n > 0 && (next.Asked? <==> again < CloseBy(TermAfter(log)))
          && (next.Asked? ==> next.at == again + world.late(n - 1)))
  }

  predicate Explained(world: World, log: Log) {
    log.Then? ==> Explained(world, log.before) && Shown(world, log.before, log.event, log.met)
  }

  /** How often the claim was renewed, or refused for good. */
  function Turns(log: Log): nat {
    match log
    case Grant(_) => 0
    case Then(before, event, _) => Turns(before) + (if event.Renewed? || event.Unrenewable? then 1 else 0)
  }

  predicate Over(log: Log) { log.Then? && Final(log.event) }

  /** `early` is the log at an earlier point. */
  predicate Within(early: Log, log: Log) { early == log || (log.Then? && Within(early, log.before)) }

  // ---------------------------------------------------------------------------------------------
  // The loop
  // ---------------------------------------------------------------------------------------------

  /** The VTA may be asked at `now`. */
  predicate MayAsk(log: Log, now: int) { Reached(log) <= now && Follows(log, Asked(now, Claims.Unreachable)) }

  /** The loop is about to ask at `now`, its `k`-th meeting with the world. */
  predicate Asks(world: World, log: Log, now: int, k: nat, j: nat, l: nat) {
    && Kept(log, j, l) && Explained(world, log) && TermAfter(log).renewable && MayAsk(log, now)
    && Wake(TermAfter(log)) <= now < CloseBy(TermAfter(log)) + j
    && Shown(world, log, Asked(now, world.answer(k)), k)
  }

  /** An answer that arrives in time leaves the log as it must be. */
  lemma Answered(world: World, log: Log, now: int, k: nat, e: Event, n: nat, j: nat, l: nat)
    requires Asks(world, log, now, k, j, l) && now <= e.at
    requires var asked := Then(log, Asked(now, world.answer(k)), k);
      Follows(asked, e) && Allowed(TermAfter(log), e, j, l) && Shown(world, asked, e, n)
    ensures var after := Then(Then(log, Asked(now, world.answer(k)), k), e, n);
      && Kept(after, j, l) && Explained(world, after) && Granted(after) == Granted(log)
      && Turns(after) == Turns(log) + (if e.Renewed? || e.Unrenewable? then 1 else 0)
  {
    assert Follows(log, Asked(now, world.answer(k)));
  }

  /** Silence leaves the claim as it was, and it may be asked for again a minute on. */
  lemma Unanswered(world: World, log: Log, now: int, k: nat, again: int, n: nat, j: nat, l: nat)
    requires Asks(world, log, now, k, j, l) && world.answer(k).Unreachable?
    requires now + RENEW_RETRY <= again < CloseBy(TermAfter(log)) + j
    requires var asked := Then(log, Asked(now, world.answer(k)), k);
      Shown(world, asked, Asked(again, world.answer(n)), n)
    ensures var asked := Then(log, Asked(now, world.answer(k)), k);
      && Asks(world, asked, again, n, j, l)
      && TermAfter(asked) == TermAfter(log) && Turns(asked) == Turns(log) && Granted(asked) == Granted(log)
  {
  }

  /** Ask until the claim is renewed or refused, or the socket must close. `k` counts what was met. */
  method AskUntilSettled(world: World, before: Log, start: int, met: nat, ghost j: nat, ghost l: nat)
    returns (log: Log, k: nat)
    requires (forall n :: world.late(n) <= j) && (forall n :: world.latency(n) <= l)
    requires Asks(world, before, start, met, j, l)
    ensures Kept(log, j, l) && Explained(world, log) && Granted(log) == Granted(before) && log.Then? && k == Met(log)
    ensures if log.event.Renewed? || log.event.Unrenewable? then Turns(log) == Turns(before) + 1 else Over(log)
  {
    log, k := before, met;
    var now := start;
    ghost var t := TermAfter(before);
    while true
      invariant Granted(log) == Granted(before) && TermAfter(log) == t && Turns(log) == Turns(before)
      invariant Asks(world, log, now, k, j, l)
      decreases CloseBy(t) + j - now
    {
      var e, again, n := OneAnswer(world, log, now, k, j, l);
      var asked := Then(log, Asked(now, world.answer(k)), k);
      if e.Some? {
        Answered(world, log, now, k, e.value, n, j, l);
        log, k := Then(asked, e.value, n), n;
        return;
      }
      Unanswered(world, log, now, k, again, n, j, l);
      log, now, k := asked, again, n;
    }
  }

  /** One question: what settles it, or else when to ask again. */
  method OneAnswer(world: World, log: Log, now: int, met: nat, ghost j: nat, ghost l: nat)
    returns (e: Option<Event>, again: int, k: nat)
    requires (forall n :: world.late(n) <= j) && (forall n :: world.latency(n) <= l)
    requires Asks(world, log, now, met, j, l)
    ensures var asked := Then(log, Asked(now, world.answer(met)), met);
      if e.Some? then
        && now <= e.value.at && Follows(asked, e.value) && Allowed(TermAfter(log), e.value, j, l)
        && Shown(world, asked, e.value, k) && (Final(e.value) || e.value.Renewed? || e.value.Unrenewable?)
      else
        && world.answer(met).Unreachable? && now + RENEW_RETRY <= again < CloseBy(TermAfter(log)) + j
        && Shown(world, asked, Asked(again, world.answer(k)), k)
  {
    var answered := now + world.latency(met);
    e, again, k := None, answered, met + 1;
    if world.superseded(k) {
      return Some(Superseded(answered)), again, k;
    }
    match world.answer(met) {
      case Granted(endsAt) => e := Some(Renewed(answered, endsAt));
      case NotCollectable | Unsupported => e := Some(Dropped(answered));
      case NotRenewable | Held | Refused => e := Some(Unrenewable(answered));
      case Unreachable =>
        var next, closeBy := answered + RENEW_RETRY, CloseBy(TermAfter(log));
        if next >= closeBy {
          var close := Max(answered, closeBy) + world.late(k);
          k := k + 1;
          e := Some(if world.superseded(k) then Superseded(close) else Closed(close, true));
        } else {
          again := next + world.late(k);
          k := k + 1;
          if world.superseded(k) {
            e := Some(Superseded(again));
          }
        }
    }
  }

  /** What ends a round before it asks. */
  lemma EndsAtOnce(world: World, log: Log, e: Event, k: nat, j: nat, l: nat)
    requires Kept(log, j, l) && Explained(world, log) && !Asking(log) && Final(e) && Reached(log) <= e.at
    requires Follows(log, e) && Allowed(TermAfter(log), e, j, l) && Shown(world, log, e, k)
    ensures var after := Then(log, e, k);
      Kept(after, j, l) && Explained(world, after) && Granted(after) == Granted(log) && Over(after)
  {
  }

  /** At most `rounds` rounds of the loop, from the grant on: it ends by itself, or every round ended
      in a renewal or a refusal to renew. */
  method Renew(world: World, first: Term, rounds: nat, ghost j: nat, ghost l: nat) returns (log: Log)
    requires first.renewable
    requires (forall k :: world.late(k) <= j) && (forall k :: world.latency(k) <= l)
    ensures Kept(log, j, l) && Granted(log) == first
    ensures Turns(log) == rounds || Over(log)
    ensures Explained(world, log)
  {
    log := Grant(first);
    var k, round := 0, 0;
    while round < rounds
      invariant round <= rounds && Turns(log) == round && Kept(log, j, l) && Granted(log) == first
      invariant log.Grant? || log.event.Renewed? || log.event.Unrenewable?
      invariant Explained(world, log) && k == Met(log)
    {
      var now, e, n := OneLook(world, log, k, j, l);
      k := n;
      if e.Some? {
        EndsAtOnce(world, log, e.value, k, j, l);
        log := Then(log, e.value, k);
        return;
      }
      log, k := AskUntilSettled(world, log, now, k, j, l);
      if Final(log.event) { return; }
      round := round + 1;
    }
  }

  /** The start of a round: what ends the loop there, or else when to ask. */
  method OneLook(world: World, log: Log, met: nat, ghost j: nat, ghost l: nat)
    returns (now: int, e: Option<Event>, k: nat)
    requires (forall n :: world.late(n) <= j) && (forall n :: world.latency(n) <= l)
    requires Kept(log, j, l) && Explained(world, log) && met == Met(log)
    requires log.Grant? || log.event.Renewed? || log.event.Unrenewable?
    ensures if e.Some? then
        && Final(e.value) && Reached(log) <= e.value.at && Follows(log, e.value)
        && Allowed(TermAfter(log), e.value, j, l) && Shown(world, log, e.value, k)
      else
        Asks(world, log, now, k, j, l)
  {
    // The claim as recorded now.
    var t := TermAfter(log);
    StartOfRound(log, j, l);
    now, k := Reached(log), met;
    if world.superseded(k) {
      return now, Some(Superseded(now)), k;
    }
    now := Max(Reached(log), Wake(t)) + world.late(k);
    k := k + 1;
    e := if world.superseded(k) then Some(Superseded(now))
         else if !world.collects(k) then Some(Released(now))
         else if !t.renewable || now >= CloseBy(t) then Some(Closed(now, t.renewable))
         else None;
  }

  /** A round starts at the grant, or after a refusal to renew. */
  lemma StartOfRound(log: Log, j: nat, l: nat)
    requires Kept(log, j, l) && (log.Grant? || log.event.Renewed? || log.event.Unrenewable?)
    ensures var t := TermAfter(log);
      if t.renewable then Reached(log) == t.grantedAt && (log.Grant? || log.event.Renewed?)
      else log.Then? && log.event.Unrenewable? && Reached(log) < CloseBy(t) + j + l
  {
  }

  // ---------------------------------------------------------------------------------------------
  // What the member is promised
  // ---------------------------------------------------------------------------------------------

  /** With sleeps and answers inside the skew, every event of the loop, and with it the close of the
      socket, comes before the end of the claim then in force, or at once if that claim was granted
      with hardly any time left; asking starts no later than a late sleep after the socket must close;
      and the socket is closed no earlier than it must be, to come back exactly when the claim may still
      be renewed. */
  lemma {:induction false} BeforeTheEnd(log: Log, early: Log, j: nat, l: nat)
    requires Kept(log, j, l) && Within(early, log) && early.Then? && 2 * j + l < CLOCK_SKEW
    ensures var t, e := TermAfter(early.before), early.event;
      && InTime(t, e.at, j)
      && (e.Asked? ==> e.at < CloseBy(t) + j)
      && (e.Closed? ==> t.endsAt - 120 * SECOND <= e.at && e.comeBack == t.renewable)
  {
    if early != log { BeforeTheEnd(log.before, early, j, l); }
  }

  predicate InTime(t: Term, at: int, j: nat) { at < t.endsAt || at <= t.grantedAt + j }

  /** A term begins at its grant and at each renewal. */
  predicate Begins(log: Log) { log.Grant? || log.event.Renewed? }

  /** The term is settled: renewed, dropped, its socket closed, released, or superseded. */
  predicate Settles(e: Event) { e.Renewed? || Final(e) }

  predicate SameTerm(a: Term, b: Term) { a.grantedAt == b.grantedAt && a.endsAt == b.endsAt }

  /** `end` is where the term that begins at `start` is settled, in time. */
  predicate SettledAt(start: Log, end: Log, log: Log, j: nat) {
    && Within(end, log) && end.Then? && Within(start, end.before) && Settles(end.event)
    && SameTerm(TermAfter(end.before), TermAfter(start)) && InTime(TermAfter(start), end.event.at, j)
  }

  /** From where a term begins, either it is settled by now, or it is still in force, the loop still
      running, and at most refused once. */
  lemma {:induction false} SettledOrInForce(start: Log, log: Log, j: nat, l: nat)
    requires Kept(log, j, l) && Within(start, log) && Begins(start) && 2 * j + l < CLOCK_SKEW
    ensures (exists end :: SettledAt(start, end, log, j))
      || (SameTerm(TermAfter(log), TermAfter(start)) && !Over(log)
          && Turns(log) == Turns(start) + (if TermAfter(log).renewable then 0 else 1))
  {
    if log == start {
      StillRenewable(log, j, l);
    } else {
      SettledOrInForce(start, log.before, j, l);
      if end :| SettledAt(start, end, log.before, j) {
        assert SettledAt(start, end, log, j);
      } else if Settles(log.event) {
        assert SettledAt(start, log, log, j);
      }
    }
  }

  lemma StillRenewable(log: Log, j: nat, l: nat)
    requires Kept(log, j, l) && Begins(log)
    ensures TermAfter(log).renewable
  {
  }

  /** So a loop that is over, or two turns further on, has settled the term: before its end it was
      renewed, dropped, released, or its socket closed, or at once if it was granted with hardly any
      time left. */
  lemma SettledInTime(start: Log, log: Log, j: nat, l: nat)
    requires Kept(log, j, l) && Within(start, log) && Begins(start) && 2 * j + l < CLOCK_SKEW
    requires Over(log) || Turns(log) >= Turns(start) + 2
    ensures exists end :: SettledAt(start, end, log, j)
  {
    SettledOrInForce(start, log, j, l);
  }

  lemma {:induction false} GrantWithin(log: Log)
    ensures Within(Grant(Granted(log)), log)
  {
    if log.Then? { GrantWithin(log.before); }
  }

  /** What `Renew` promises is enough: of two rounds or more, it settles the claim it was started for in
      time. */
  lemma GrantSettled(log: Log, rounds: nat, j: nat, l: nat)
    requires Kept(log, j, l) && 2 * j + l < CLOCK_SKEW && rounds >= 2 && (Turns(log) == rounds || Over(log))
    ensures exists end :: SettledAt(Grant(Granted(log)), end, log, j)
  {
    GrantWithin(log);
    SettledInTime(Grant(Granted(log)), log, j, l);
  }

  // ---------------------------------------------------------------------------------------------
  // What the world is answered with
  // ---------------------------------------------------------------------------------------------

  /** The claim is released only when the runtime no longer means the listener to be up, and asked for
      again, or its socket closed unasked, only while it does; what is taken for the VTA's answer is its
      answer, silence is asked again after a minute or more, and the claim ends when the grant says; and
      the loop is superseded only where the claim was. */
  lemma {:induction false} AsTheWorldSays(world: World, log: Log, early: Log, j: nat, l: nat)
    requires Kept(log, j, l) && Explained(world, log) && Within(early, log) && early.Then?
    ensures match early.event
      case Released(_) => !world.collects(early.met)
      case Asked(at, answer) =>
        && answer == world.answer(early.met) && (Asking(early.before) || world.collects(early.met))
        && (Asking(early.before) ==>
              early.before.event.answer.Unreachable? && at >= early.before.event.at + 60 * SECOND)
      case Renewed(_, endsAt) => Asking(early.before) && early.before.event.answer == Claims.Granted(endsAt)
      case Closed(_, _) => Asking(early.before) || world.collects(early.met)
      case Superseded(_) => world.superseded(early.met)
      case _ => !world.superseded(early.met)
  {
    if early != log { AsTheWorldSays(world, log.before, early, j, l); }
  }

  /** So a listener that is meant to be up all along never has its claim released. */
  lemma WantedNeverReleased(world: World, log: Log, early: Log, j: nat, l: nat)
    requires Kept(log, j, l) && Explained(world, log) && Within(early, log) && early.Then?
    requires forall n :: world.collects(n)
    ensures !early.event.Released?
  {
    AsTheWorldSays(world, log, early, j, l);
  }

  /** One that no longer is has it released when the loop next looks, with nothing before that, unless it
      is superseded first. */
  lemma {:induction false} UnwantedReleased(world: World, log: Log, j: nat, l: nat)
    requires Kept(log, j, l) && Explained(world, log) && forall n :: !world.collects(n)
    ensures log.Grant? || (log.before.Grant? && (log.event.Released? || log.event.Superseded?))
  {
    if log.Then? { UnwantedReleased(world, log.before, j, l); }
  }

  /** The first question of a term comes at half its time or two minutes before its end, whichever is
      earlier, or later by as much as the sleep before it; not before. */
  lemma AskedAtHalf(world: World, log: Log, j: nat)
    requires Explained(world, log) && Asking(log) && Begins(log.before) && TermAfter(log.before).renewable
    requires TermAfter(log.before).grantedAt == Reached(log.before) && forall n :: world.late(n) <= j
    ensures var t, at := TermAfter(log.before), log.event.at;
      && (2 * (at - t.grantedAt) >= t.endsAt - t.grantedAt - 1 || at >= t.endsAt - 120 * SECOND)
      && (at <= t.grantedAt + j
          || (2 * (at - j - t.grantedAt) <= t.endsAt - t.grantedAt && at - j <= t.endsAt - 120 * SECOND))
  {
  }

  predicate Refusal(e: Event) {
    e.Asked? && (e.answer.NotRenewable? || e.answer.Held? || e.answer.Refused?)
  }

  /** Some renewal asked for in the log was refused. */
  predicate EverRefused(log: Log) { log.Then? && (Refusal(log.event) || EverRefused(log.before)) }

  lemma {:induction false} RefusedOnce(log: Log, j: nat, l: nat)
    requires Kept(log, j, l)
    ensures !TermAfter(log).renewable ==> EverRefused(log)
    ensures EverRefused(log) && TermAfter(log).renewable ==> Refusal(log.event) || log.event.Superseded?
    ensures EverRefused(log) ==> !log.event.Renewed?
  {
    if log.Then? {
      RefusedOnce(log.before, j, l);
      NextAfterRefusal(log.before, log.event, j, l);
      if EverRefused(log) && !Refusal(log.event) {
        assert EverRefused(log.before);
        if TermAfter(log.before).renewable { assert log.event.Unrenewable? || log.event.Superseded?; }
      }
    }
  }

  /** Only a question may be renewed or refused, and only what is renewable is asked for. */
  lemma NextAfterRefusal(log: Log, next: Event, j: nat, l: nat)
    requires Follows(log, next) && Allowed(TermAfter(log), next, j, l)
    ensures next.Asked? || next.Renewed? || next.Unrenewable? ==> TermAfter(log).renewable
    ensures next.Unrenewable? ==> log.Then? && Refusal(log.event)
    ensures log.Then? && Refusal(log.event) ==> next.Unrenewable? || next.Superseded?
    ensures log.Then? ==> !log.event.Superseded?
  {
  }

  /** How the loop ends says why: the socket is closed for good exactly when a renewal was refused, to come
      back otherwise, and the claim is forgotten exactly when the VTA said that it does not collect for the
      listener, or for nobody. */
  lemma EndSaysWhy(log: Log, j: nat, l: nat)
    requires Kept(log, j, l) && Over(log) && !log.event.Superseded?
    ensures log.event.Closed? ==> (log.event.comeBack <==> !EverRefused(log))
    ensures log.event.Dropped?
       <==> (Asking(log.before)
             && (log.before.event.answer.NotCollectable? || log.before.event.answer.Unsupported?))
  {
    RefusedOnce(log.before, j, l);
  }

  /** Long enough to be renewed at half its time, whatever is late by `j`. */
  predicate LongEnough(t: Term, j: nat) { t.endsAt - t.grantedAt > 2 * (CLOCK_SKEW + j + 1) }

  /** Every term of the log is. */
  predicate AllLongEnough(log: Log, j: nat) {
    LongEnough(TermAfter(log), j) && (log.Then? ==> AllLongEnough(log.before, j))
  }

  /** Nothing supersedes the claim, the listener is meant to be up, the VTA always grants. */
  ghost predicate Favourable(world: World, j: nat) {
    && (forall n :: !world.superseded(n)) && (forall n :: world.collects(n)) && (forall n :: world.answer(n).Granted?)
    && (forall n :: world.late(n) <= j)
  }

  /** Then the claim is renewed for ever: the loop asks and renews by turns, and never ends. */
  lemma {:induction false} RenewedForEver(world: World, log: Log, j: nat, l: nat)
    requires Kept(log, j, l) && Explained(world, log) && Favourable(world, j) && AllLongEnough(log, j)
    ensures TermAfter(log).renewable && !Over(log)
    ensures if Asking(log) then log.event.answer.Granted? else Begins(log) && Reached(log) == TermAfter(log).grantedAt
  {
    if log.Then? {
      RenewedForEver(world, log.before, j, l);
      if !Asking(log.before) { AwakeInTime(world, log, j); }
    }
  }

  /** A sleep to half the time of a long term does not outlast it. */
  lemma AwakeInTime(world: World, log: Log, j: nat)
    requires log.Then? && Shown(world, log.before, log.event, log.met) && Favourable(world, j)
    requires !Asking(log.before) && LongEnough(TermAfter(log.before), j)
    requires TermAfter(log.before).renewable && Reached(log.before) == TermAfter(log.before).grantedAt
    ensures log.event.at < CloseBy(TermAfter(log.before))
  {
  }
}
