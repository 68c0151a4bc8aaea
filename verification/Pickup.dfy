/** Collecting the messages a mediator holds, as `pickup_stored` of openvtc-core/src/didcomm.rs does
it: pages are handed to the state handler and acknowledged only afterwards. The mediator is taken to
deliver the oldest frames first and to delete exactly the frames an acknowledgement names. */
module Pickup {
  import opened Common

  const PICKUP_PAGE: nat := 50
  const PICKUP_MAX: nat := 200

  datatype MessageType = TrustPing | TrustPong | OpenVtc | Unclaimed

  /** A stored frame: an attachment the mediator could not hand over, one this client cannot read, or
      a message. */
  datatype Content = Dead | Unreadable | Message(typ: MessageType)

  datatype Frame = Frame(id: string, content: Content)

  datatype Event = PingReceived(id: string) | PongReceived(id: string) | Inbound(id: string)

  /** The events a message becomes: none for a type no handler claims, two for a pong. */
  function Classify(id: string, typ: MessageType): seq<Event> {
    match typ
    case TrustPing => [PingReceived(id)]
    case TrustPong => [PongReceived(id), Inbound(id)]
    case OpenVtc => [Inbound(id)]
    case Unclaimed => []
  }

  function EventsOf(f: Frame): seq<Event> {
    if f.content.Message? then Classify(f.id, f.content.typ) else []
  }

  predicate Routable(f: Frame) { EventsOf(f) != [] }

  /** Nothing to deliver, but not to be offered again either. */
  predicate Undeliverable(f: Frame) { !Routable(f) && !f.content.Unreadable? }

  // ---------------------------------------------------------------------------------------------
  // One page
  // ---------------------------------------------------------------------------------------------

  /** What going over frames comes to, when the receiver takes `room` more events before it departs. */
  datatype Outcome = Outcome(acks: seq<string>, handed: seq<Frame>, events: seq<Event>, room: nat)

  function One(f: Frame, room: nat): Outcome {
    if Undeliverable(f) then Outcome([f.id], [], [], room)
    else if f.content.Unreadable? then Outcome([], [], [], room)
    else if |EventsOf(f)| <= room then Outcome([f.id], [f], EventsOf(f), room - |EventsOf(f)|)
    else Outcome([], [], EventsOf(f)[..room], 0)
  }

  function Process(frames: seq<Frame>, room: nat): Outcome {
    if frames == [] then Outcome([], [], [], room)
    else Then(One(frames[0], room), Process(frames[1..], One(frames[0], room).room))
  }

  function Then(a: Outcome, b: Outcome): Outcome {
    Outcome(a.acks + b.acks, a.handed + b.handed, a.events + b.events, b.room)
  }

  function Without(frames: seq<Frame>, ids: seq<string>): seq<Frame> {
    if frames == [] then []
    else (if frames[0].id in ids then [] else [frames[0]]) + Without(frames[1..], ids)
  }

  class Mediator {
    var stored: seq<Frame>

    method Deliver(limit: nat) returns (page: seq<Frame>)
      ensures page == Page(stored, limit)
    {
      page := Page(stored, limit);
    }

    /** `honoured` is whether the acknowledgement took effect. */
    method Acknowledge(ids: seq<string>, honoured: bool)
      modifies this
      ensures stored == if honoured then Without(old(stored), ids) else old(stored)
    {
      if honoured {
        stored := Without(stored, ids);
      }
    }

    method Arrive(frames: seq<Frame>)
      modifies this
      ensures stored == old(stored) + frames
    {
      stored := stored + frames;
    }
  }

  function Page(stored: seq<Frame>, limit: nat): seq<Frame> {
    if |stored| <= limit then stored else stored[..limit]
  }

  /** The unbounded event channel; its receiver departs after taking `room` more events. */
  class Channel {
    var sent: seq<Event>
    var room: nat

    method Send(e: Event) returns (ok: bool)
      modifies this
      ensures ok == (old(room) > 0)
      ensures sent == if ok then old(sent) + [e] else old(sent)
      ensures room == if ok then old(room) - 1 else 0
    {
      ok := room > 0;
      if ok { sent, room := sent + [e], room - 1; }
    }

    /** The events of one message, until one cannot be queued. */
    method SendAll(events: seq<Event>) returns (queued: bool)
      modifies this
      ensures queued == (|events| <= old(room))
      ensures sent == old(sent) + (if queued then events else events[..old(room)])
      ensures room == if queued then old(room) - |events| else 0
    {
      for i := 0 to |events|
        invariant i <= old(room) && room == old(room) - i && sent == old(sent) + events[..i]
      {
        queued := Send(events[i]);
        if !queued { return; }
        assert events[..i + 1] == events[..i] + [events[i]];
      }
      queued := true;
      assert events[..|events|] == events;
    }
  }

  /** The body of one round: every frame of the page is read, routed and handed off in turn. */
  method HandOff(page: seq<Frame>, channel: Channel) returns (acks: seq<string>, handed: nat)
    modifies channel
    ensures var o := Process(page, old(channel.room));
      && acks == o.acks && handed == |o.handed|
      && channel.sent == old(channel.sent) + o.events && channel.room == o.room
  {
    acks, handed := [], 0;
    ghost var done := Process([], channel.room);
    for i := 0 to |page|
      invariant done == Process(page[..i], old(channel.room))
      invariant acks == done.acks && handed == |done.handed|
      invariant channel.sent == old(channel.sent) + done.events && channel.room == done.room
    {
      var f := page[i];
      ProcessNext(page, i, old(channel.room));
      done := Then(done, One(f, done.room));
      match f.content {
        case Dead =>
          acks := acks + [f.id];
        case Unreadable =>
        case Message(typ) =>
          var events := Classify(f.id, typ);
          if events == [] {
            acks := acks + [f.id];
          } else {
            var queued := channel.SendAll(events);
            if queued {
              handed := handed + 1;
              acks := acks + [f.id];
            }
          }
      }
    }
    assert page[..|page|] == page;
  }

  // ---------------------------------------------------------------------------------------------
  // The whole call
  // ---------------------------------------------------------------------------------------------

  /** What one round meets: frames that arrived before it, whether the delivery request is answered,
      and whether the acknowledgement is honoured. */
  datatype Weather = Weather(arrivals: seq<Frame>, answered: bool, honoured: bool)

  datatype Drain = Drain(stored: seq<Frame>, room: nat, sent: seq<Event>, handed: nat, done: bool, failed: bool)

  function Round(d: Drain, w: Weather): Drain {
    var stored := d.stored + w.arrivals;
    var page := Page(stored, PICKUP_PAGE);
    var o := Process(page, d.room);
    if d.done then d
    else if d.handed >= PICKUP_MAX then d.(done := true)
    else if !w.answered then d.(stored := stored, done := true, failed := true)
    else if page == [] then d.(stored := stored, done := true)
    else Drain(if w.honoured then Without(stored, o.acks) else stored, o.room, d.sent + o.events,
               d.handed + |o.handed|, |o.acks| < |page| || |page| < PICKUP_PAGE, false)
  }

  function Rounds(d: Drain, ws: seq<Weather>): Drain
    decreases |ws|
  {
    if ws == [] then d else Rounds(Round(d, ws[0]), ws[1..])
  }

  /** One turn of the loop: `finished` when it is the last, `failed` when the request was not
      answered. */
  method OneRound(mediator: Mediator, channel: Channel, w: Weather, before: nat)
    returns (handedOff: nat, finished: bool, failed: bool)
    modifies mediator, channel
    ensures Drain(mediator.stored, channel.room, channel.sent, handedOff, finished, failed)
      == Round(Drain(old(mediator.stored), old(channel.room), old(channel.sent), before, false, false), w)
  {
    handedOff := before;
    if handedOff >= PICKUP_MAX {
      return before, true, false;
    }
    mediator.Arrive(w.arrivals);
    if !w.answered {
      return before, true, true;
    }
    var batch := mediator.Deliver(PICKUP_PAGE);
    if batch == [] {
      return before, true, false;
    }
    var acks, handed := HandOff(batch, channel);
    handedOff := before + handed;
    if acks != [] {
      mediator.Acknowledge(acks, w.honoured);
    } else {
      WithoutNone(mediator.stored);
    }
    finished, failed := |acks| < |batch| || |batch| < PICKUP_PAGE, false;
  }

  /** `pickup_stored` as written, for as many rounds as `ws` describes: `finished` is false when the
      loop would go on. `failed` is a delivery request that was not answered. */
  method PickupStored(mediator: Mediator, channel: Channel, ws: seq<Weather>)
    returns (handedOff: nat, finished: bool, failed: bool)
    modifies mediator, channel
    ensures Drain(mediator.stored, channel.room, channel.sent, handedOff, finished, failed)
      == Rounds(Drain(old(mediator.stored), old(channel.room), old(channel.sent), 0, false, false), ws)
  {
    handedOff, finished, failed := 0, false, false;
    ghost var goal := Rounds(Drain(mediator.stored, channel.room, channel.sent, 0, false, false), ws);
    for i := 0 to |ws|
      invariant !finished && !failed
      invariant Rounds(Drain(mediator.stored, channel.room, channel.sent, handedOff, false, false), ws[i..]) == goal
    {
      RoundsNext(Drain(mediator.stored, channel.room, channel.sent, handedOff, false, false), ws, i);
      handedOff, finished, failed := OneRound(mediator, channel, ws[i], handedOff);
      if finished {
        RoundsDone(Drain(mediator.stored, channel.room, channel.sent, handedOff, true, failed), ws[i + 1..]);
        return;
      }
      assert !failed;
    }
  }

  lemma RoundsNext(d: Drain, ws: seq<Weather>, i: nat)
    requires i < |ws|
    ensures Rounds(d, ws[i..]) == Rounds(Round(d, ws[i]), ws[i + 1..])
  {
    assert ws[i..][0] == ws[i] && ws[i..][1..] == ws[i + 1..];
  }

  lemma {:induction false} RoundsDone(d: Drain, ws: seq<Weather>)
    requires d.done
    ensures Rounds(d, ws) == d
    decreases |ws|
  {
    if ws != [] { RoundsDone(d, ws[1..]); }
  }

  lemma {:induction false} WithoutNone(frames: seq<Frame>)
    ensures Without(frames, []) == frames
  {
    if frames != [] { WithoutNone(frames[1..]); }
  }

  // ---------------------------------------------------------------------------------------------
  // What a page does
  // ---------------------------------------------------------------------------------------------

  lemma ThenAssociative(a: Outcome, b: Outcome, c: Outcome)
    ensures Then(a, Then(b, c)) == Then(Then(a, b), c)
  {
    assert a.acks + (b.acks + c.acks) == a.acks + b.acks + c.acks;
    assert a.handed + (b.handed + c.handed) == a.handed + b.handed + c.handed;
    assert a.events + (b.events + c.events) == a.events + b.events + c.events;
  }

  lemma {:induction false} ProcessConcat(a: seq<Frame>, b: seq<Frame>, room: nat)
    ensures Process(a + b, room) == Then(Process(a, room), Process(b, Process(a, room).room))
  {
    if a == [] {
      assert a + b == b;
    } else {
      TailOfConcat(a, b);
      var first := One(a[0], room);
      ProcessConcat(a[1..], b, first.room);
      ThenAssociative(first, Process(a[1..], first.room), Process(b, Process(a[1..], first.room).room));
    }
  }

  lemma ProcessNext(page: seq<Frame>, i: nat, room: nat)
    requires i < |page|
    ensures Process(page[..i + 1], room)
         == Then(Process(page[..i], room), One(page[i], Process(page[..i], room).room))
  {
    assert page[..i + 1] == page[..i] + [page[i]];
    ProcessConcat(page[..i], [page[i]], room);
    var one := One(page[i], Process(page[..i], room).room);
    assert [page[i]][1..] == [];
    assert Then(one, Outcome([], [], [], one.room)) == one;
  }

  function Routables(frames: seq<Frame>): seq<Frame> {
    if frames == [] then []
    else (if Routable(frames[0]) then [frames[0]] else []) + Routables(frames[1..])
  }

  function AllEvents(frames: seq<Frame>): seq<Event> {
    if frames == [] then [] else EventsOf(frames[0]) + AllEvents(frames[1..])
  }

  lemma {:induction false} NothingTaken(frames: seq<Frame>)
    ensures var o := Process(frames, 0); o.handed == [] && o.events == [] && o.room == 0
  {
    if frames != [] { NothingTaken(frames[1..]); }
  }

  /** One frame: handed off whole, or nothing handed off and, if it had events, no room left. */
  lemma OneFrame(f: Frame, room: nat)
    ensures var o := One(f, room);
      && |o.events| + o.room == room
      && ((o.handed == [f] && Routable(f) && o.events == EventsOf(f))
          || (o.handed == [] && o.events <= EventsOf(f) && (Routable(f) ==> o.room == 0)))
  {
  }

  /** The messages handed off are the first routable ones, in their order and each once. */
  lemma {:induction false} HandedInOrder(frames: seq<Frame>, room: nat)
    ensures var o := Process(frames, room);
      && o.handed <= Routables(frames)
      && (o.room > 0 ==> o.handed == Routables(frames))
  {
    if frames != [] {
      var first := One(frames[0], room);
      OneFrame(frames[0], room);
      HandedInOrder(frames[1..], first.room);
      if first.room == 0 { NothingTaken(frames[1..]); }
      assert Process(frames, room).handed == first.handed + Process(frames[1..], first.room).handed;
    }
  }

  /** The events sent are those of the messages handed off, and at most a part of the next one's. */
  lemma {:induction false} EventsInOrder(frames: seq<Frame>, room: nat)
    ensures var o := Process(frames, room);
      && AllEvents(o.handed) <= o.events <= AllEvents(frames)
      && |o.events| + o.room == room
  {
    if frames != [] {
      var f, first := frames[0], One(frames[0], room);
      var rest := Process(frames[1..], first.room);
      OneFrame(f, room);
      EventsInOrder(frames[1..], first.room);
      var o := Process(frames, room);
      assert o.events == first.events + rest.events && o.handed == first.handed + rest.handed;
      if first.handed == [f] {
        assert o.handed[0] == f && o.handed[1..] == rest.handed;
        assert AllEvents(o.handed) == EventsOf(f) + AllEvents(rest.handed);
      } else {
        assert o.handed == rest.handed;
        if first.events == [] {
          assert o.events == rest.events;
          NoEventsAhead(f, frames[1..], first.room);
        } else {
          NothingTaken(frames[1..]);
          assert o.events == first.events;
        }
      }
    }
  }

  /** After a frame that sent nothing, either it had nothing to send or there is no room at all. */
  lemma NoEventsAhead(f: Frame, rest: seq<Frame>, room: nat)
    requires EventsOf(f) == [] || room == 0
    requires Process(rest, room).events <= AllEvents(rest)
    ensures Process(rest, room).events <= EventsOf(f) + AllEvents(rest)
  {
    if room == 0 { NothingTaken(rest); } else { assert EventsOf(f) + AllEvents(rest) == AllEvents(rest); }
  }

  predicate DistinctIds(frames: seq<Frame>) {
    forall i, j :: 0 <= i < j < |frames| ==> frames[i].id != frames[j].id
  }

  /** A frame is acknowledged exactly when it cannot be delivered or was handed off. */
  lemma {:induction false} AckedIff(frames: seq<Frame>, room: nat, f: Frame)
    requires DistinctIds(frames) && f in frames
    ensures var o := Process(frames, room);
      f.id in o.acks <==> Undeliverable(f) || f in o.handed
  {
    var first, tail := One(frames[0], room), frames[1..];
    var rest := Process(tail, first.room);
    assert forall i :: 0 <= i < |tail| ==> tail[i] == frames[i + 1];
    AckedAreFrames(tail, first.room);
    if f == frames[0] {
      forall g | g in tail ensures g.id != f.id {
        var i :| 0 <= i < |tail| && tail[i] == g;
        assert frames[i + 1] == g;
      }
      assert f.id !in rest.acks && f !in rest.handed;
    } else {
      AckedIff(tail, first.room, f);
      var i :| 0 <= i < |frames| && frames[i] == f;
      assert frames[0].id != frames[i].id;
    }
  }

  lemma {:induction false} AckedAreFrames(frames: seq<Frame>, room: nat)
    ensures var o := Process(frames, room);
      && (forall id :: id in o.acks ==> exists g :: g in frames && g.id == id)
      && (forall g :: g in o.handed ==> g in frames && Routable(g))
      && |o.handed| <= |o.acks| <= |frames|
      && (|o.acks| == |frames| ==> o.acks == Ids(frames))
  {
    if frames != [] {
      var first := One(frames[0], room);
      AckedAreFrames(frames[1..], first.room);
      var o := Process(frames, room);
      forall id | id in o.acks ensures exists g :: g in frames && g.id == id {
        if id in first.acks {
          assert frames[0] in frames;
        } else {
          var g :| g in frames[1..] && g.id == id;
          assert g in frames;
        }
      }
    }
  }

  function Ids(frames: seq<Frame>): seq<string> {
    if frames == [] then [] else [frames[0].id] + Ids(frames[1..])
  }

  lemma {:induction false} IdsContain(frames: seq<Frame>, id: string)
    ensures id in Ids(frames) <==> exists f :: f in frames && f.id == id
  {
    if frames != [] {
      IdsContain(frames[1..], id);
      if f :| f in frames && f.id == id { assert f == frames[0] || f in frames[1..]; }
    }
  }

  lemma {:induction false} WithoutContains(frames: seq<Frame>, ids: seq<string>, f: Frame)
    ensures f in Without(frames, ids) <==> f in frames && f.id !in ids
  {
    if frames != [] { WithoutContains(frames[1..], ids, f); }
  }

  lemma {:induction false} WithoutConcat(a: seq<Frame>, b: seq<Frame>, ids: seq<string>)
    ensures Without(a + b, ids) == Without(a, ids) + Without(b, ids)
  {
    if a == [] {
      assert a + b == b;
    } else {
      TailOfConcat(a, b);
      WithoutConcat(a[1..], b, ids);
      ConcatAssociative(if a[0].id in ids then [] else [a[0]], Without(a[1..], ids), Without(b, ids));
    }
  }

  lemma {:induction false} WithoutAbsent(frames: seq<Frame>, ids: seq<string>)
    requires forall f :: f in frames ==> f.id !in ids
    ensures Without(frames, ids) == frames
  {
    if frames != [] { WithoutAbsent(frames[1..], ids); }
  }

  lemma {:induction false} WithoutAll(frames: seq<Frame>, ids: seq<string>)
    requires forall f :: f in frames ==> f.id in ids
    ensures Without(frames, ids) == []
  {
    if frames != [] { WithoutAll(frames[1..], ids); }
  }

  lemma DistinctApart(a: seq<Frame>, b: seq<Frame>, f: Frame, g: Frame)
    requires DistinctIds(a + b) && f in a && g in b
    ensures f.id != g.id
  {
    var i :| 0 <= i < |a| && a[i] == f;
    var j :| 0 <= j < |b| && b[j] == g;
    assert (a + b)[i] == f && (a + b)[|a| + j] == g;
  }

  /** Removing what was acknowledged of a page removes nothing beyond the page. */
  lemma PageAcked(page: seq<Frame>, rest: seq<Frame>, room: nat)
    requires DistinctIds(page + rest)
    ensures var acks := Process(page, room).acks;
      Without(page + rest, acks) == Without(page, acks) + rest
  {
    var acks := Process(page, room).acks;
    WithoutConcat(page, rest, acks);
    AckedAreFrames(page, room);
    forall g | g in rest ensures g.id !in acks {
      if g.id in acks {
        var f :| f in page && f.id == g.id;
        DistinctApart(page, rest, f, g);
      }
    }
    WithoutAbsent(rest, acks);
  }

  // ---------------------------------------------------------------------------------------------
  // What a call does
  // ---------------------------------------------------------------------------------------------

  /** The frames that arrive while the loop goes on. */
  function Came(d: Drain, ws: seq<Weather>): seq<Frame>
    decreases |ws|
  {
    if ws == [] || d.done || d.handed >= PICKUP_MAX then []
    else ws[0].arrivals + Came(Round(d, ws[0]), ws[1..])
  }

  predicate AllHonoured(ws: seq<Weather>) { forall w :: w in ws ==> w.honoured }

  /** `d` is where going over the frames `seen` leads when `rest` comes after them. */
  ghost predicate Reached(seen: seq<Frame>, rest: seq<Frame>, start: Drain, d: Drain) {
    var o := Process(seen, start.room);
    && d.stored == Without(seen, o.acks) + rest
    && d.sent == start.sent + o.events && d.room == o.room
    && d.handed == start.handed + |o.handed|
    && (!d.done ==> o.acks == Ids(seen))
  }

  lemma ArrivalsReach(seen: seq<Frame>, rest: seq<Frame>, start: Drain, d: Drain, more: seq<Frame>)
    requires Reached(seen, rest, start, d)
    ensures Reached(seen, rest + more, start, d.(stored := d.stored + more))
  {
    var kept := Without(seen, Process(seen, start.room).acks);
    assert kept + rest + more == kept + (rest + more);
  }

  lemma FullyAcked(seen: seq<Frame>, ids: seq<string>)
    requires forall id :: id in Ids(seen) ==> id in ids
    ensures Without(seen, ids) == []
  {
    forall f | f in seen ensures f.id in ids { IdsContain(seen, f.id); }
    WithoutAll(seen, ids);
  }

  /** One honoured round that delivers a page moves on by that page. */
  lemma PageReach(seen: seq<Frame>, page: seq<Frame>, rest: seq<Frame>, start: Drain, d: Drain, w: Weather)
    requires DistinctIds(seen + page + rest) && Reached(seen, page + rest, start, d)
    requires !d.done && d.handed < PICKUP_MAX && w == Weather([], true, true)
    requires page != [] && page == Page(page + rest, PICKUP_PAGE)
    ensures Reached(seen + page, rest, start, Round(d, w))
  {
    FullyAcked(seen, Ids(seen));
    assert [] + (page + rest) == page + rest;
    PageRound(d, w, page);
    PageAckedTail(seen, page, rest, d.room);
    DistinctPrefix(seen + page, rest);
    Advance(seen, page, start.room);
    ConcatAssociative(start.sent, Process(seen, start.room).events, Process(page, d.room).events);
  }

  lemma Advance(seen: seq<Frame>, page: seq<Frame>, room: nat)
    requires DistinctIds(seen + page) && Process(seen, room).acks == Ids(seen)
    ensures var b := Process(seen, room); var o := Process(page, b.room); var t := Process(seen + page, room);
      && Without(seen + page, t.acks) == Without(page, o.acks)
      && t.handed == b.handed + o.handed && t.events == b.events + o.events && t.room == o.room
      && (|o.acks| >= |page| ==> t.acks == Ids(seen + page))
  {
    var b := Process(seen, room);
    var o := Process(page, b.room);
    ProcessConcat(seen, page, room);
    SeenThenPage(seen, page, o.acks);
    AckedAreFrames(page, b.room);
    IdsConcat(seen, page);
  }

  lemma PageRound(d: Drain, w: Weather, page: seq<Frame>)
    requires !d.done && d.handed < PICKUP_MAX && w == Weather([], true, true)
    requires page == Page(d.stored, PICKUP_PAGE) && page != []
    ensures var o := Process(page, d.room); var next := Round(d, w);
      && next.stored == Without(d.stored, o.acks) && next.room == o.room && next.sent == d.sent + o.events
      && next.handed == d.handed + |o.handed| && (!next.done ==> |o.acks| >= |page|)
  {
    assert d.stored + [] == d.stored;
  }

  lemma PageAckedTail(seen: seq<Frame>, page: seq<Frame>, rest: seq<Frame>, room: nat)
    requires DistinctIds(seen + page + rest)
    ensures var acks := Process(page, room).acks; Without(page + rest, acks) == Without(page, acks) + rest
  {
    forall i, j | 0 <= i < j < |page + rest| ensures (page + rest)[i].id != (page + rest)[j].id {
      assert (page + rest)[i] == (seen + page + rest)[|seen| + i];
      assert (page + rest)[j] == (seen + page + rest)[|seen| + j];
    }
    PageAcked(page, rest, room);
  }

  /** What was seen before is wholly acknowledged, so only the new page's frames may be kept. */
  lemma SeenThenPage(seen: seq<Frame>, page: seq<Frame>, acks: seq<string>)
    requires DistinctIds(seen + page)
    ensures Without(seen + page, Ids(seen) + acks) == Without(page, acks)
  {
    WithoutConcat(seen, page, Ids(seen) + acks);
    FullyAcked(seen, Ids(seen) + acks);
    SameAcks(page, Ids(seen), acks, seen);
  }

  lemma {:induction false} IdsConcat(a: seq<Frame>, b: seq<Frame>)
    ensures Ids(a + b) == Ids(a) + Ids(b)
  {
    if a == [] {
      assert a + b == b;
    } else {
      TailOfConcat(a, b);
      IdsConcat(a[1..], b);
      ConcatAssociative([a[0].id], Ids(a[1..]), Ids(b));
    }
  }

  lemma {:induction false} SameAcks(page: seq<Frame>, earlier: seq<string>, acks: seq<string>, seen: seq<Frame>)
    requires earlier == Ids(seen) && DistinctIds(seen + page)
    ensures Without(page, earlier + acks) == Without(page, acks)
    decreases |page|
  {
    if page != [] {
      var f := page[0];
      if f.id in earlier {
        IdsContain(seen, f.id);
        var g :| g in seen && g.id == f.id;
        DistinctApart(seen, page, g, f);
      }
      assert f.id in earlier + acks <==> f.id in acks;
      forall i, j | 0 <= i < j < |seen + page[1..]| ensures (seen + page[1..])[i].id != (seen + page[1..])[j].id {
        var at := (k: int) => if k < |seen| then k else k + 1;
        assert (seen + page[1..])[i] == (seen + page)[at(i)] && (seen + page[1..])[j] == (seen + page)[at(j)];
      }
      SameAcks(page[1..], earlier, acks, seen);
    }
  }

  lemma RoundReach(seen: seq<Frame>, rest: seq<Frame>, start: Drain, d: Drain, w: Weather)
    returns (seen': seq<Frame>, rest': seq<Frame>)
    requires w.honoured && !d.done && d.handed < PICKUP_MAX
    requires Reached(seen, rest, start, d) && DistinctIds(seen + rest + w.arrivals)
    ensures seen' + rest' == seen + rest + w.arrivals && Reached(seen', rest', start, Round(d, w))
  {
    var d' := d.(stored := d.stored + w.arrivals);
    ArrivalsReach(seen, rest, start, d, w.arrivals);
    seen', rest' := seen, rest + w.arrivals;
    ConcatAssociative(seen, rest, w.arrivals);
    if w.answered && d'.stored != [] {
      ArrivedFirst(d, w);
      seen', rest' := AnsweredReach(seen, rest + w.arrivals, start, d');
    }
  }

  /** What arrives before a round might as well have been there. */
  lemma ArrivedFirst(d: Drain, w: Weather)
    requires w.answered && w.honoured && !d.done && d.handed < PICKUP_MAX
    ensures Round(d, w) == Round(d.(stored := d.stored + w.arrivals), Weather([], true, true))
  {
    var stored := d.stored + w.arrivals;
    assert stored + [] == stored;
  }

  lemma AnsweredReach(seen: seq<Frame>, rest: seq<Frame>, start: Drain, d: Drain)
    returns (seen': seq<Frame>, rest': seq<Frame>)
    requires !d.done && d.handed < PICKUP_MAX && d.stored != []
    requires Reached(seen, rest, start, d) && DistinctIds(seen + rest)
    ensures seen' + rest' == seen + rest && Reached(seen', rest', start, Round(d, Weather([], true, true)))
  {
    FullyAcked(seen, Ids(seen));
    assert d.stored == rest;
    var page := Page(rest, PICKUP_PAGE);
    var tail := rest[|page|..];
    assert rest == page + tail;
    ConcatAssociative(seen, page, tail);
    PageReach(seen, page, tail, start, d, Weather([], true, true));
    seen', rest' := seen + page, tail;
  }

  lemma {:induction false} RoundsReach(seen: seq<Frame>, rest: seq<Frame>, start: Drain, d: Drain, ws: seq<Weather>)
    returns (seen': seq<Frame>, rest': seq<Frame>)
    requires AllHonoured(ws) && DistinctIds(seen + rest + Came(d, ws)) && Reached(seen, rest, start, d)
    ensures seen' + rest' == seen + rest + Came(d, ws) && Reached(seen', rest', start, Rounds(d, ws))
    decreases |ws|
  {
    seen', rest' := seen, rest;
    if ws == [] || d.done || d.handed >= PICKUP_MAX {
      assert seen + rest + [] == seen + rest;
      if d.done { RoundsDone(d, ws); } else if ws != [] { RoundsDone(Round(d, ws[0]), ws[1..]); }
    } else {
      var w := ws[0];
      assert w in ws;
      var later := Came(Round(d, w), ws[1..]);
      ConcatAssociative(seen + rest, w.arrivals, later);
      DistinctPrefix(seen + rest + w.arrivals, later);
      var s, r := RoundReach(seen, rest, start, d, w);
      seen', rest' := RoundsReach(s, r, start, Round(d, w), ws[1..]);
    }
  }

  lemma DistinctPrefix(a: seq<Frame>, b: seq<Frame>)
    requires DistinctIds(a + b)
    ensures DistinctIds(a)
  {
    forall i, j | 0 <= i < j < |a| ensures a[i].id != a[j].id {
      assert (a + b)[i] == a[i] && (a + b)[j] == a[j];
    }
  }

  /** One call with honoured acknowledgements. The frames the mailbox held and those that arrived
      while the call ran fall into a first part `seen` it went over and the `rest`. It deleted
      exactly the undeliverable and the handed-off frames of that part; everything else, every
      unreadable frame included, stays in its order. What it handed off is the first routable
      messages, in order, none twice. */
  ghost predicate Conserved(seen: seq<Frame>, rest: seq<Frame>, start: Drain, end: Drain) {
    var o := Process(seen, start.room);
    && end.stored == Without(seen + rest, o.acks)
    && (forall f :: f in seen + rest ==>
          (f in end.stored <==> !(f in seen && (Undeliverable(f) || f in o.handed))))
    && (forall f :: f in seen + rest && f.content.Unreadable? ==> f in end.stored)
    && o.handed <= Routables(seen + rest) && end.handed == start.handed + |o.handed|
    && start.sent + AllEvents(o.handed) <= end.sent <= start.sent + AllEvents(seen + rest)
  }

  lemma ReachedConserves(seen: seq<Frame>, rest: seq<Frame>, start: Drain, end: Drain)
    requires DistinctIds(seen + rest) && Reached(seen, rest, start, end)
    ensures Conserved(seen, rest, start, end)
  {
    var o := Process(seen, start.room);
    PageAcked(seen, rest, start.room);
    DistinctPrefix(seen, rest);
    forall f | f in seen + rest
      ensures f in end.stored <==> !(f in seen && (Undeliverable(f) || f in o.handed))
    {
      WithoutContains(seen + rest, o.acks, f);
      if f in seen { AckedIff(seen, start.room, f); } else { TailNotAcked(seen, rest, start.room, f); }
    }
    AckedAreFrames(seen, start.room);
    HandedInOrder(seen, start.room);
    EventsInOrder(seen, start.room);
    PrefixOfAll(seen, rest);
  }

  lemma TailNotAcked(head: seq<Frame>, tail: seq<Frame>, room: nat, f: Frame)
    requires DistinctIds(head + tail) && f in tail
    ensures f.id !in Process(head, room).acks
  {
    AckedAreFrames(head, room);
    forall g | g in head ensures g.id != f.id { DistinctApart(head, tail, g, f); }
  }

  lemma PrefixOfAll(a: seq<Frame>, b: seq<Frame>)
    ensures Routables(a) <= Routables(a + b) && AllEvents(a) <= AllEvents(a + b)
  {
    RoutablesConcat(a, b);
    AllEventsConcat(a, b);
  }

  lemma {:induction false} RoutablesConcat(a: seq<Frame>, b: seq<Frame>)
    ensures Routables(a + b) == Routables(a) + Routables(b)
  {
    if a == [] {
      assert a + b == b;
    } else {
      TailOfConcat(a, b);
      RoutablesConcat(a[1..], b);
      ConcatAssociative(if Routable(a[0]) then [a[0]] else [], Routables(a[1..]), Routables(b));
    }
  }

  lemma {:induction false} AllEventsConcat(a: seq<Frame>, b: seq<Frame>)
    ensures AllEvents(a + b) == AllEvents(a) + AllEvents(b)
  {
    if a == [] {
      assert a + b == b;
    } else {
      TailOfConcat(a, b);
      AllEventsConcat(a[1..], b);
      ConcatAssociative(EventsOf(a[0]), AllEvents(a[1..]), AllEvents(b));
    }
  }

  /** Conservation over a whole call, whatever arrives and whichever requests fail. */
  lemma CallConserves(start: Drain, ws: seq<Weather>) returns (seen: seq<Frame>, rest: seq<Frame>)
    requires !start.done && AllHonoured(ws) && DistinctIds(start.stored + Came(start, ws))
    ensures seen + rest == start.stored + Came(start, ws)
    ensures Conserved(seen, rest, start, Rounds(start, ws))
  {
    assert [] + start.stored == start.stored && start.sent + [] == start.sent;
    seen, rest := RoundsReach([], start.stored, start, start, ws);
    ReachedConserves(seen, rest, start, Rounds(start, ws));
  }

  /** The event that tells the application of a message of this type, if there is one. */
  predicate Tells(e: Event, f: Frame) {
    f.content.Message? && e.id == f.id
    && match f.content.typ
       case TrustPing => e.PingReceived?
       case TrustPong => e.PongReceived? || e.Inbound?
       case OpenVtc => e.Inbound?
       case Unclaimed => false
  }

  /** `b` was sent right after `a`. */
  predicate InARow(sent: seq<Event>, a: Event, b: Event) {
    exists i :: 0 <= i < |sent| - 1 && sent[i] == a && sent[i + 1] == b
  }

  /** What a call that was offered `seen`, and not `rest`, tells of a frame. */
  predicate Told(f: Frame, seen: seq<Frame>, start: Drain, end: Drain) {
    match f.content
    case Dead => f in end.stored <==> f !in seen
    case Unreadable => f in end.stored
    case Message(Unclaimed) => f in end.stored <==> f !in seen
    case Message(TrustPing) => f in end.stored || PingReceived(f.id) in end.sent
    case Message(OpenVtc) => f in end.stored || Inbound(f.id) in end.sent
    case Message(TrustPong) => f in end.stored || InARow(end.sent, PongReceived(f.id), Inbound(f.id))
  }

  /** No event comes from nowhere, and while the receiver is there nothing readable it was offered stays
      behind. */
  ghost predicate Delivered(seen: seq<Frame>, rest: seq<Frame>, start: Drain, end: Drain) {
    && (forall f :: f in seen + rest ==> Told(f, seen, start, end))
    && start.sent <= end.sent
    && (forall i :: |start.sent| <= i < |end.sent| ==> exists f :: f in seen && Tells(end.sent[i], f))
    && (end.room > 0 ==> forall f :: f in seen && f in end.stored ==> f.content.Unreadable?)
  }

  lemma EventsWithin(frames: seq<Frame>, f: Frame) returns (i: nat)
    requires f in frames
    ensures i + |EventsOf(f)| <= |AllEvents(frames)| && AllEvents(frames)[i..i + |EventsOf(f)|] == EventsOf(f)
  {
    var k :| 0 <= k < |frames| && frames[k] == f;
    var before, after := frames[..k], frames[k..];
    assert frames == before + after && after[0] == f;
    AllEventsConcat(before, after);
    i := |AllEvents(before)|;
    assert AllEvents(after) == EventsOf(f) + AllEvents(after[1..]);
  }

  lemma {:induction false} EventSource(frames: seq<Frame>, e: Event)
    requires e in AllEvents(frames)
    ensures exists f :: f in frames && Tells(e, f)
  {
    if e in EventsOf(frames[0]) {
      assert Tells(e, frames[0]);
    } else {
      EventSource(frames[1..], e);
    }
  }

  /** A frame that was handed off is told of. */
  lemma HandedTold(f: Frame, handed: seq<Frame>, seen: seq<Frame>, start: Drain, end: Drain)
    requires f in handed && Routable(f) && start.sent + AllEvents(handed) <= end.sent
    ensures Told(f, seen, start, end)
  {
    var i := EventsWithin(handed, f);
    var events, all := EventsOf(f), start.sent + AllEvents(handed);
    var k := |start.sent| + i;
    assert all[k..k + |events|] == AllEvents(handed)[i..i + |events|] == events;
    assert end.sent[k] == all[k] == events[0];
    if |events| > 1 { assert end.sent[k + 1] == all[k + 1] == events[1]; }
  }

  /** What was sent comes from the frames gone over. */
  lemma SentFrom(seen: seq<Frame>, start: Drain, end: Drain, events: seq<Event>, i: nat)
    requires end.sent == start.sent + events && events <= AllEvents(seen) && |start.sent| <= i < |end.sent|
    ensures exists f :: f in seen && Tells(end.sent[i], f)
  {
    var e := end.sent[i];
    assert e == events[i - |start.sent|] == AllEvents(seen)[i - |start.sent|];
    EventSource(seen, e);
  }

  lemma NothingReadableLeft(seen: seq<Frame>, rest: seq<Frame>, start: Drain, end: Drain, f: Frame)
    requires Conserved(seen, rest, start, end) && f in seen && f in end.stored
    requires Process(seen, start.room).room > 0
    ensures f.content.Unreadable?
  {
    HandedInOrder(seen, start.room);
    if Routable(f) { RoutablesContain(seen, f); }
  }

  lemma ReachedDelivers(seen: seq<Frame>, rest: seq<Frame>, start: Drain, end: Drain)
    requires DistinctIds(seen + rest) && Reached(seen, rest, start, end) && Conserved(seen, rest, start, end)
    ensures Delivered(seen, rest, start, end)
  {
    var o := Process(seen, start.room);
    EventsInOrder(seen, start.room);
    AckedAreFrames(seen, start.room);
    forall f | f in seen + rest ensures Told(f, seen, start, end) {
      if f in o.handed { HandedTold(f, o.handed, seen, start, end); }
    }
    forall i | |start.sent| <= i < |end.sent| ensures exists f :: f in seen && Tells(end.sent[i], f) {
      SentFrom(seen, start, end, o.events, i);
    }
    if end.room > 0 {
      forall f | f in seen && f in end.stored ensures f.content.Unreadable? {
        NothingReadableLeft(seen, rest, start, end, f);
      }
    }
  }

  lemma {:induction false} RoutablesContain(frames: seq<Frame>, f: Frame)
    requires f in frames && Routable(f)
    ensures f in Routables(frames)
  {
    if f != frames[0] { RoutablesContain(frames[1..], f); }
  }

  /** What a whole call tells the application, its acknowledgements honoured. A message of its own that
      is gone was handed to it, a ping or a pong was announced, and a pong announced just before it was
      handed over; a frame that is dead or that nobody claims goes without a word, and one that cannot be
      read stays. Nothing is told that no frame says, and none that can be read is left of what was
      offered while the receiver is there. */
  lemma CallDelivers(start: Drain, ws: seq<Weather>) returns (seen: seq<Frame>, rest: seq<Frame>)
    requires !start.done && AllHonoured(ws) && DistinctIds(start.stored + Came(start, ws))
    ensures seen + rest == start.stored + Came(start, ws)
    ensures Delivered(seen, rest, start, Rounds(start, ws))
  {
    assert [] + start.stored == start.stored && start.sent + [] == start.sent;
    seen, rest := RoundsReach([], start.stored, start, start, ws);
    ReachedConserves(seen, rest, start, Rounds(start, ws));
    ReachedDelivers(seen, rest, start, Rounds(start, ws));
  }

  /** However the rounds go, one call hands off fewer than a page beyond two hundred messages. */
  lemma {:induction false} HandedBound(d: Drain, ws: seq<Weather>)
    requires d.handed < 200 + 50
    ensures Rounds(d, ws).handed < 200 + 50
    decreases |ws|
  {
    if ws != [] {
      AckedAreFrames(Page(d.stored + ws[0].arrivals, PICKUP_PAGE), d.room);
      HandedBound(Round(d, ws[0]), ws[1..]);
    }
  }

  /** A round goes as far as a page unless the call is over, two hundred were handed off, or the request is
      not answered. Only the last is a failure, and it takes nothing off the mailbox. */
  lemma FailsIff(d: Drain, w: Weather)
    requires d.failed ==> d.done
    ensures Round(d, w).failed <==> d.failed || (!d.done && d.handed < 200 && !w.answered)
    ensures var q, held := Round(d, w), d.stored + w.arrivals;
      if d.done then q == d
      else if d.handed >= 200 then q == d.(done := true)
      else if !w.answered || held == [] then q == d.(stored := held, done := true, failed := !w.answered)
      else |held| < 50 ==> q.done
  {
  }

  predicate Calm(ws: seq<Weather>) { forall w :: w in ws ==> w == Weather([], true, true) }

  lemma {:induction false} FewerLeft(frames: seq<Frame>, ids: seq<string>)
    ensures |Without(frames, ids)| <= |frames|
  {
    if frames != [] { FewerLeft(frames[1..], ids); }
  }

  /** A continued round, its acknowledgement honoured, takes a full page off the mailbox. */
  lemma ContinuedRoundShrinks(d: Drain, w: Weather)
    requires w == Weather([], true, true) && !d.done && !Round(d, w).done
    ensures |Round(d, w).stored| + PICKUP_PAGE <= |d.stored|
  {
    assert d.stored + [] == d.stored;
    var page := Page(d.stored, PICKUP_PAGE);
    var rest := d.stored[|page|..];
    var acks := Process(page, d.room).acks;
    assert d.stored == page + rest;
    AckedAreFrames(page, d.room);
    WithoutConcat(page, rest, acks);
    forall f | f in page ensures f.id in acks { IdsContain(page, f.id); }
    WithoutAll(page, acks);
    FewerLeft(rest, acks);
  }

  /** So with honoured acknowledgements and no arrivals the loop ends, within a round per page and
      one more. */
  lemma {:induction false} CalmCallEnds(d: Drain, ws: seq<Weather>)
    requires Calm(ws) && |ws| * PICKUP_PAGE > |d.stored|
    ensures Rounds(d, ws).done
    decreases |ws|
  {
    var next := Round(d, ws[0]);
    assert ws[0] in ws;
    if next.done {
      RoundsDone(next, ws[1..]);
    } else {
      ContinuedRoundShrinks(d, ws[0]);
      assert forall w :: w in ws[1..] ==> w in ws;
      CalmCallEnds(next, ws[1..]);
    }
  }

  /** Without that it can stand still: a continued round with no arrivals changes nothing at all exactly
      when its page held only undeliverable frames and the acknowledgement was not honoured. */
  lemma StuckIff(d: Drain, w: Weather)
    requires w.arrivals == [] && !d.done && !d.failed && !Round(d, w).done
    ensures Round(d, w) == d
       <==> !w.honoured && forall f :: f in Page(d.stored, PICKUP_PAGE) ==> Undeliverable(f)
  {
    assert d.stored + [] == d.stored;
    var page := Page(d.stored, PICKUP_PAGE);
    var o := Process(page, d.room);
    AckedAreFrames(page, d.room);
    if w.honoured {
      ContinuedRoundShrinks(d, w);
    } else {
      FullAcks(page, d.room);
      NoRoutables(page);
      if forall f :: f in page ==> Undeliverable(f) { AllUndeliverable(page, d.room); }
    }
  }

  lemma {:induction false} AcksBound(page: seq<Frame>, room: nat)
    ensures |Process(page, room).acks| <= |page|
  {
    if page != [] { AcksBound(page[1..], One(page[0], room).room); }
  }

  /** A page acknowledged in full hands off its routable messages and holds nothing unreadable. */
  lemma {:induction false} FullAcks(page: seq<Frame>, room: nat)
    requires |Process(page, room).acks| == |page|
    ensures Process(page, room).handed == Routables(page)
    ensures forall f :: f in page ==> !f.content.Unreadable?
  {
    if page != [] {
      var first := One(page[0], room);
      AcksBound(page[1..], first.room);
      FullAcks(page[1..], first.room);
    }
  }

  lemma {:induction false} NoRoutables(page: seq<Frame>)
    ensures Routables(page) == [] <==> forall f :: f in page ==> !Routable(f)
  {
    if page != [] { NoRoutables(page[1..]); }
  }

  /** Such a mailbox is asked for the same page for ever. */
  lemma {:induction false} StuckForever(d: Drain, ws: seq<Weather>)
    requires !d.done && !d.failed && d.handed < PICKUP_MAX && |d.stored| >= PICKUP_PAGE
    requires forall f :: f in Page(d.stored, PICKUP_PAGE) ==> Undeliverable(f)
    requires forall w :: w in ws ==> w == Weather([], true, false)
    ensures Rounds(d, ws) == d
    decreases |ws|
  {
    if ws != [] {
      assert ws[0] in ws && d.stored + [] == d.stored;
      var page := Page(d.stored, PICKUP_PAGE);
      AllUndeliverable(page, d.room);
      assert d.sent + [] == d.sent;
      var next := Round(d, ws[0]);
      assert next.stored == d.stored && next.room == d.room && next.handed == d.handed && !next.done;
      assert next == d;
      assert forall w :: w in ws[1..] ==> w in ws;
      StuckForever(d, ws[1..]);
    }
  }

  lemma {:induction false} AllUndeliverable(page: seq<Frame>, room: nat)
    requires forall f :: f in page ==> Undeliverable(f)
    ensures Process(page, room) == Outcome(Ids(page), [], [], room) && |Ids(page)| == |page|
  {
    if page != [] { AllUndeliverable(page[1..], room); }
  }

  // ---------------------------------------------------------------------------------------------
  // How long a call can last
  // ---------------------------------------------------------------------------------------------

  /** The round goes on to the next without handing off anything. */
  predicate Idles(d: Drain, w: Weather) {
    !d.done && !Round(d, w).done && forall f :: f in Page(d.stored + w.arrivals, PICKUP_PAGE) ==> Undeliverable(f)
  }

  /** The rounds of the call that idle on a page whose acknowledgement is honoured, or is not. */
  function IdleRounds(d: Drain, ws: seq<Weather>, honoured: bool): nat
    decreases |ws|
  {
    if ws == [] || d.done then 0
    else
      var here := if Idles(d, ws[0]) && ws[0].honoured == honoured then 1 else 0;
      here + IdleRounds(Round(d, ws[0]), ws[1..], honoured)
  }

  function DeadIn(frames: seq<Frame>): nat {
    if frames == [] then 0 else (if Undeliverable(frames[0]) then 1 else 0) + DeadIn(frames[1..])
  }

  /** The undeliverable frames that arrive while the call lasts. */
  function DeadArrivals(d: Drain, ws: seq<Weather>): nat
    decreases |ws|
  {
    if ws == [] || d.done then 0 else DeadIn(ws[0].arrivals) + DeadArrivals(Round(d, ws[0]), ws[1..])
  }

  /** A round that does not idle and is not the last hands off at least one message. */
  lemma BusyRoundHands(d: Drain, w: Weather)
    requires !d.done && !Round(d, w).done
    ensures d.handed < PICKUP_MAX && Round(d, w).handed >= d.handed + (if Idles(d, w) then 0 else 1)
  {
    var page := Page(d.stored + w.arrivals, PICKUP_PAGE);
    AcksBound(page, d.room);
    FullAcks(page, d.room);
    NoRoutables(page);
  }

  lemma {:induction false} BusyRoundsBounded(d: Drain, ws: seq<Weather>)
    requires !d.done && ws != [] && !Rounds(d, ws).done
    ensures |ws| + d.handed <= PICKUP_MAX + IdleRounds(d, ws, false) + IdleRounds(d, ws, true)
    decreases |ws|
  {
    var next := Round(d, ws[0]);
    if next.done { RoundsDone(next, ws[1..]); }
    BusyRoundHands(d, ws[0]);
    if |ws| > 1 { BusyRoundsBounded(next, ws[1..]); }
  }

  lemma {:induction false} DeadInConcat(a: seq<Frame>, b: seq<Frame>)
    ensures DeadIn(a + b) == DeadIn(a) + DeadIn(b)
  {
    if a == [] {
      assert a + b == b;
    } else {
      TailOfConcat(a, b);
      DeadInConcat(a[1..], b);
    }
  }

  lemma {:induction false} DeadLeft(frames: seq<Frame>, ids: seq<string>)
    ensures DeadIn(Without(frames, ids)) <= DeadIn(frames)
  {
    if frames != [] {
      DeadInConcat(if frames[0].id in ids then [] else [frames[0]], Without(frames[1..], ids));
      assert [frames[0]][1..] == [];
      DeadLeft(frames[1..], ids);
    }
  }

  lemma {:induction false} AllDead(page: seq<Frame>)
    requires forall f :: f in page ==> Undeliverable(f)
    ensures DeadIn(page) == |page|
  {
    if page != [] { AllDead(page[1..]); }
  }

  /** An honoured round that idles takes a page of undeliverable frames off the mailbox; no round adds
      one that did not arrive. */
  lemma DeadAfter(d: Drain, w: Weather)
    requires !d.done && !Round(d, w).done
    ensures DeadIn(Round(d, w).stored) + (if Idles(d, w) && w.honoured then PICKUP_PAGE else 0)
         <= DeadIn(d.stored) + DeadIn(w.arrivals)
  {
    var stored := d.stored + w.arrivals;
    DeadInConcat(d.stored, w.arrivals);
    var page := Page(stored, PICKUP_PAGE);
    var acks := Process(page, d.room).acks;
    DeadLeft(stored, acks);
    if Idles(d, w) && w.honoured { DeadPageGone(stored, page, d.room); }
  }

  lemma DeadPageGone(stored: seq<Frame>, page: seq<Frame>, room: nat)
    requires page <= stored && forall f :: f in page ==> Undeliverable(f)
    ensures DeadIn(Without(stored, Process(page, room).acks)) + |page| <= DeadIn(stored)
  {
    var rest := stored[|page|..];
    var acks := Process(page, room).acks;
    assert stored == page + rest;
    AllUndeliverable(page, room);
    WithoutConcat(page, rest, acks);
    forall f | f in page ensures f.id in acks { IdsContain(page, f.id); }
    WithoutAll(page, acks);
    assert Without(stored, acks) == Without(rest, acks);
    DeadInConcat(page, rest);
    AllDead(page);
    DeadLeft(rest, acks);
  }

  lemma {:induction false} HonouredIdleBounded(d: Drain, ws: seq<Weather>)
    ensures IdleRounds(d, ws, true) * PICKUP_PAGE <= DeadIn(d.stored) + DeadArrivals(d, ws)
    decreases |ws|
  {
    if ws != [] && !d.done {
      var next := Round(d, ws[0]);
      HonouredIdleBounded(next, ws[1..]);
      if !next.done { DeadAfter(d, ws[0]); }
    }
  }

  /** Whatever arrives, is answered and is honoured: a call that is still going after some rounds has
      had no more of them than the messages it may hand off, the rounds that idled on a page whose
      acknowledgement was not honoured, and the pages of undeliverable frames there were. */
  lemma RoundsBounded(d: Drain, ws: seq<Weather>)
    requires !d.done && ws != [] && !Rounds(d, ws).done
    ensures |ws| + d.handed
         <= PICKUP_MAX + IdleRounds(d, ws, false) + (DeadIn(d.stored) + DeadArrivals(d, ws)) / PICKUP_PAGE
  {
    BusyRoundsBounded(d, ws);
    HonouredIdleBounded(d, ws);
  }

  /** So with every acknowledgement honoured the call ends within the messages it may hand off and the
      pages of undeliverable frames there are, and goes on only while those keep arriving. */
  lemma HonouredCallEnds(d: Drain, ws: seq<Weather>)
    requires !d.done && AllHonoured(ws)
    requires |ws| + d.handed > PICKUP_MAX + (DeadIn(d.stored) + DeadArrivals(d, ws)) / PICKUP_PAGE && ws != []
    ensures Rounds(d, ws).done
  {
    NoneUnhonoured(d, ws);
    if !Rounds(d, ws).done { RoundsBounded(d, ws); }
  }

  lemma {:induction false} NoneUnhonoured(d: Drain, ws: seq<Weather>)
    requires AllHonoured(ws)
    ensures IdleRounds(d, ws, false) == 0
    decreases |ws|
  {
    if ws != [] && !d.done {
      assert ws[0] in ws && forall w :: w in ws[1..] ==> w in ws;
      NoneUnhonoured(Round(d, ws[0]), ws[1..]);
    }
  }

  /** The first `n` rounds of a call that may not end. */
  function First(weather: nat -> Weather, n: nat): seq<Weather> { seq(n, i requires 0 <= i < n => weather(i)) }

  ghost predicate GoesOn(d: Drain, weather: nat -> Weather) { forall n :: !Rounds(d, First(weather, n)).done }

  /** What keeps a call going: unhonoured idle rounds, and undeliverable frames that arrive. */
  function Fuel(d: Drain, ws: seq<Weather>): nat { IdleRounds(d, ws, false) + DeadArrivals(d, ws) }

  ghost predicate Exceeds(d: Drain, weather: nat -> Weather, bound: nat) {
    exists n :: Fuel(d, First(weather, n)) > bound
  }

  /** A call goes on for ever exactly when, while it lasts, rounds that idle on a page whose
      acknowledgement is not honoured, or undeliverable frames that arrive, never stop coming. */
  lemma GoesOnIff(d: Drain, weather: nat -> Weather)
    requires !d.done
    ensures GoesOn(d, weather) <==> forall bound: nat :: Exceeds(d, weather, bound)
  {
    if GoesOn(d, weather) {
      forall bound: nat ensures Exceeds(d, weather, bound) { OnAndOn(d, weather, bound); }
    } else {
      var n :| Rounds(d, First(weather, n)).done;
      forall m ensures Fuel(d, First(weather, m)) <= Fuel(d, First(weather, n)) { FuelSpent(d, weather, n, m); }
      assert !Exceeds(d, weather, Fuel(d, First(weather, n)));
    }
  }

  lemma OnAndOn(d: Drain, weather: nat -> Weather, bound: nat)
    requires !d.done && GoesOn(d, weather)
    ensures Exceeds(d, weather, bound)
  {
    var n := PICKUP_MAX + DeadIn(d.stored) + bound + 1;
    var ws := First(weather, n);
    assert !Rounds(d, ws).done;
    RoundsBounded(d, ws);
    assert Fuel(d, ws) > bound;
  }

  lemma {:induction false} RoundsConcat(d: Drain, a: seq<Weather>, b: seq<Weather>)
    ensures Rounds(d, a + b) == Rounds(Rounds(d, a), b)
    ensures Fuel(d, a + b) == Fuel(d, a) + Fuel(Rounds(d, a), b)
    decreases |a|
  {
    if a == [] {
      assert a + b == b;
    } else {
      TailOfConcat(a, b);
      RoundsConcat(Round(d, a[0]), a[1..], b);
      if d.done { RoundsDone(d, a); }
    }
  }

  lemma FuelSpent(d: Drain, weather: nat -> Weather, n: nat, m: nat)
    requires Rounds(d, First(weather, n)).done
    ensures Fuel(d, First(weather, m)) <= Fuel(d, First(weather, n))
  {
    var done, ws := First(weather, n), First(weather, m);
    if m <= n {
      assert done == ws + done[m..];
      RoundsConcat(d, ws, done[m..]);
    } else {
      assert ws == done + ws[n..];
      RoundsConcat(d, done, ws[n..]);
    }
  }

  /** So honouring every acknowledgement is not enough: a page of undeliverable frames arriving round
      after round keeps an empty mailbox's call going for ever. */
  lemma {:induction false} FedForever(d: Drain, ws: seq<Weather>)
    requires !d.done && d.handed < PICKUP_MAX && d.stored == []
    requires forall w :: w in ws ==> w.answered && w.honoured && |w.arrivals| == PICKUP_PAGE
    requires forall w, f :: w in ws && f in w.arrivals ==> Undeliverable(f)
    ensures !Rounds(d, ws).done
    decreases |ws|
  {
    if ws != [] {
      var w := ws[0];
      assert w in ws && [] + w.arrivals == w.arrivals;
      AllUndeliverable(w.arrivals, d.room);
      forall f | f in w.arrivals ensures f.id in Ids(w.arrivals) { IdsContain(w.arrivals, f.id); }
      WithoutAll(w.arrivals, Ids(w.arrivals));
      assert forall x :: x in ws[1..] ==> x in ws;
      FedForever(Round(d, w), ws[1..]);
    }
  }

  // ---------------------------------------------------------------------------------------------
  // Call after call
  // ---------------------------------------------------------------------------------------------

  function Unread(frames: seq<Frame>): seq<Frame> {
    if frames == [] then [] else (if frames[0].content.Unreadable? then [frames[0]] else []) + Unread(frames[1..])
  }

  function Read(frames: seq<Frame>): seq<Frame> {
    if frames == [] then [] else (if frames[0].content.Unreadable? then [] else [frames[0]]) + Read(frames[1..])
  }

  /** The frames before `f` that cannot be read. */
  function UnreadBefore(frames: seq<Frame>, f: Frame): nat {
    if frames == [] || frames[0] == f then 0
    else (if frames[0].content.Unreadable? then 1 else 0) + UnreadBefore(frames[1..], f)
  }

  function CalmRounds(n: nat): seq<Weather> { seq(n, i requires 0 <= i < n => Weather([], true, true)) }

  /** What one call leaves in the mailbox when every request is answered, every acknowledgement honoured,
      nothing arrives and the receiver takes everything. */
  function Call(stored: seq<Frame>): seq<Frame> {
    Rounds(Drain(stored, |AllEvents(stored)|, [], 0, false, false), CalmRounds(|stored| + 1)).stored
  }

  function Repeated(call: seq<Frame> -> seq<Frame>, stored: seq<Frame>, n: nat): seq<Frame>
    decreases n
  {
    if n == 0 then stored else Repeated(call, call(stored), n - 1)
  }

  /** What `n` calls leave, one after the other. */
  function Calls(stored: seq<Frame>, n: nat): seq<Frame> { Repeated(Call, stored, n) }

  /** With room for all its events, a page is acknowledged but for what cannot be read. */
  lemma {:induction false} RoomForAll(page: seq<Frame>, room: nat)
    requires room >= |AllEvents(page)|
    ensures Process(page, room).acks == Ids(Read(page)) && Process(page, room).room == room - |AllEvents(page)|
  {
    if page != [] {
      var f := page[0];
      RoomForAll(page[1..], One(f, room).room);
      IdsConcat(if f.content.Unreadable? then [] else [f], Read(page[1..]));
      assert Ids([f]) == [f.id] by { assert [f][1..] == []; }
    }
  }

  lemma {:induction false} ReadContains(frames: seq<Frame>, f: Frame)
    ensures f in Read(frames) <==> f in frames && !f.content.Unreadable?
    ensures f in Unread(frames) <==> f in frames && f.content.Unreadable?
    ensures |Unread(frames)| <= |frames|
  {
    if frames != [] { ReadContains(frames[1..], f); }
  }

  /** What is left of frames whose readable ones are acknowledged. */
  lemma {:induction false} WithoutRead(frames: seq<Frame>, ids: seq<string>)
    requires forall f :: f in frames ==> (f.id in ids <==> !f.content.Unreadable?)
    ensures Without(frames, ids) == Unread(frames)
  {
    if frames != [] {
      assert frames[0] in frames && forall f :: f in frames[1..] ==> f in frames;
      WithoutRead(frames[1..], ids);
    }
  }

  /** Its ids are those of its readable frames and no others'. */
  lemma ReadIds(page: seq<Frame>, rest: seq<Frame>, f: Frame)
    requires DistinctIds(page + rest) && f in page + rest
    ensures f.id in Ids(Read(page)) <==> f in page && !f.content.Unreadable?
  {
    if f in page && !f.content.Unreadable? {
      ReadContains(page, f);
      IdsContain(Read(page), f.id);
    }
    if f.id in Ids(Read(page)) {
      IdsContain(Read(page), f.id);
      var g :| g in Read(page) && g.id == f.id;
      ReadContains(page, g);
      SameIdSame(page + rest, f, g);
    }
  }

  lemma SameIdSame(frames: seq<Frame>, f: Frame, g: Frame)
    requires DistinctIds(frames) && f in frames && g in frames && f.id == g.id
    ensures f == g
  {
    var i :| 0 <= i < |frames| && frames[i] == f;
    var j :| 0 <= j < |frames| && frames[j] == g;
  }

  /** A round that is answered and honoured, with room for all: its page loses what can be read. */
  lemma CalmRound(d: Drain, page: seq<Frame>, rest: seq<Frame>)
    requires !d.done && d.handed < PICKUP_MAX && d.stored == page + rest && page == Page(d.stored, PICKUP_PAGE)
    requires page != [] && DistinctIds(page + rest) && d.room >= |AllEvents(d.stored)|
    ensures var next := Round(d, Weather([], true, true));
      && next.stored == Unread(page) + rest && next.room == d.room - |AllEvents(page)|
  {
    assert d.stored + [] == d.stored;
    AllEventsConcat(page, rest);
    RoomForAll(page, d.room);
    var ids := Ids(Read(page));
    forall f | f in page ensures f.id in ids <==> !f.content.Unreadable? { ReadIds(page, rest, f); }
    forall f | f in rest ensures f.id !in ids {
      ReadIds(page, rest, f);
      RestNotInPage(page, rest, f);
    }
    WithoutConcat(page, rest, ids);
    WithoutRead(page, ids);
    WithoutAbsent(rest, ids);
  }

  lemma RestNotInPage(page: seq<Frame>, rest: seq<Frame>, f: Frame)
    requires DistinctIds(page + rest) && f in rest
    ensures f !in page
  {
    if f in page { DistinctApart(page, rest, f, f); }
  }

  lemma {:induction false} UnreadDistinct(page: seq<Frame>, rest: seq<Frame>)
    requires DistinctIds(page + rest)
    ensures DistinctIds(Unread(page) + rest)
    decreases |page|
  {
    if page == [] {
      assert page + rest == rest == Unread(page) + rest;
    } else {
      TailOfConcat(page, rest);
      var tail := page[1..] + rest;
      assert forall i :: 0 <= i < |tail| ==> tail[i] == (page + rest)[i + 1];
      UnreadDistinct(page[1..], rest);
      if page[0].content.Unreadable? {
        assert [page[0]] + page[1..] + rest == page + rest;
        FirstApart(page[0], page[1..], rest);
        assert Unread(page) + rest == [page[0]] + (Unread(page[1..]) + rest);
      } else {
        assert Unread(page) == Unread(page[1..]);
      }
    }
  }

  lemma FirstApart(first: Frame, page: seq<Frame>, rest: seq<Frame>)
    requires DistinctIds([first] + page + rest) && DistinctIds(Unread(page) + rest)
    ensures DistinctIds([first] + (Unread(page) + rest))
  {
    var all := [first] + page + rest;
    forall f | f in Unread(page) + rest ensures f.id != first.id {
      ReadContains(page, f);
      assert f in page + rest;
      var i :| 0 <= i < |page + rest| && (page + rest)[i] == f;
      assert all[i + 1] == f && all[0] == first;
    }
  }

  /** The frames of a page before the rest, as far as they cannot be read. */
  lemma {:induction false} UnreadAhead(page: seq<Frame>, rest: seq<Frame>, f: Frame)
    requires f !in page
    ensures UnreadBefore(page + rest, f) == |Unread(page)| + UnreadBefore(rest, f)
    ensures UnreadBefore(Unread(page) + rest, f) == |Unread(page)| + UnreadBefore(rest, f)
  {
    if page == [] {
      assert page + rest == rest == Unread(page) + rest;
    } else {
      TailOfConcat(page, rest);
      UnreadAhead(page[1..], rest, f);
      if page[0].content.Unreadable? {
        assert Unread(page) + rest == [page[0]] + (Unread(page[1..]) + rest);
      } else {
        assert Unread(page) == Unread(page[1..]);
      }
    }
  }

  lemma {:induction false} UnreadInPage(page: seq<Frame>, rest: seq<Frame>, f: Frame)
    requires f in page
    ensures UnreadBefore(page + rest, f) < |page|
  {
    TailOfConcat(page, rest);
    if page[0] != f { UnreadInPage(page[1..], rest, f); }
  }

  /** Everything that can be read stays or goes with what comes before it: `f` stays behind a page of
      unreadable frames, and otherwise goes or is as far behind as it was, in a shorter mailbox. */
  predicate Onward(before: seq<Frame>, after: seq<Frame>, f: Frame, shorter: bool) {
    && (f !in before ==> f !in after)
    && (f in before && UnreadBefore(before, f) >= PICKUP_PAGE
        ==> f in after && UnreadBefore(after, f) >= PICKUP_PAGE)
    && (f in before && UnreadBefore(before, f) < PICKUP_PAGE && f in after
        ==> UnreadBefore(after, f) < PICKUP_PAGE && |after| + (if shorter then 1 else 0) <= |before|)
  }

  lemma RoundOnward(d: Drain, f: Frame)
    requires !d.done && d.handed < PICKUP_MAX && d.stored != [] && DistinctIds(d.stored)
    requires d.room >= |AllEvents(d.stored)| && !f.content.Unreadable?
    ensures var next := Round(d, Weather([], true, true));
      Onward(d.stored, next.stored, f, true) && DistinctIds(next.stored) && next.room >= |AllEvents(next.stored)|
  {
    var page := Page(d.stored, PICKUP_PAGE);
    var rest := d.stored[|page|..];
    assert d.stored == page + rest;
    CalmRound(d, page, rest);
    UnreadDistinct(page, rest);
    ReadContains(page, f);
    AllEventsConcat(page, rest);
    AllEventsConcat(Unread(page), rest);
    UnreadSilent(page);
    if f in page {
      UnreadInPage(page, rest, f);
      if f in rest { RestNotInPage(page, rest, f); }
    } else {
      UnreadAhead(page, rest, f);
    }
  }

  lemma {:induction false} UnreadSilent(page: seq<Frame>)
    ensures AllEvents(Unread(page)) == []
  {
    if page != [] {
      UnreadSilent(page[1..]);
      if page[0].content.Unreadable? {
        AllEventsConcat([page[0]], Unread(page[1..]));
        assert [page[0]][1..] == [] && EventsOf(page[0]) == [];
      } else {
        assert Unread(page) == Unread(page[1..]);
      }
    }
  }

  lemma {:induction false} RoundsOnward(d: Drain, n: nat, f: Frame)
    requires DistinctIds(d.stored) && (d.done || d.room >= |AllEvents(d.stored)|) && !f.content.Unreadable?
    ensures Onward(d.stored, Rounds(d, CalmRounds(n)).stored, f, false)
    ensures DistinctIds(Rounds(d, CalmRounds(n)).stored)
    decreases n
  {
    var ws := CalmRounds(n);
    if d.done {
      RoundsDone(d, ws);
    } else if n > 0 {
      var next := Round(d, ws[0]);
      assert ws[1..] == CalmRounds(n - 1) && d.stored + [] == d.stored;
      if d.handed < PICKUP_MAX && d.stored != [] {
        RoundOnward(d, f);
      }
      RoundsOnward(next, n - 1, f);
    }
  }

  /** One call moves on: its first round is always taken. */
  lemma CallOnward(stored: seq<Frame>, f: Frame)
    requires DistinctIds(stored) && !f.content.Unreadable?
    ensures Onward(stored, Call(stored), f, stored != []) && DistinctIds(Call(stored))
  {
    var d := Drain(stored, |AllEvents(stored)|, [], 0, false, false);
    var ws := CalmRounds(|stored| + 1);
    if stored != [] {
      RoundOnward(d, f);
      assert ws[1..] == CalmRounds(|stored|);
      RoundsOnward(Round(d, ws[0]), |stored|, f);
    } else {
      RoundsOnward(d, 1, f);
    }
  }

  /** Every call moves on. */
  ghost predicate MovesOn(call: seq<Frame> -> seq<Frame>, f: Frame) {
    forall stored :: DistinctIds(stored) ==>
      Onward(stored, call(stored), f, stored != []) && DistinctIds(call(stored))
  }

  lemma {:induction false} StaysBehind(call: seq<Frame> -> seq<Frame>, stored: seq<Frame>, n: nat, f: Frame)
    requires MovesOn(call, f) && DistinctIds(stored) && f in stored && UnreadBefore(stored, f) >= PICKUP_PAGE
    ensures f in Repeated(call, stored, n)
    decreases n
  {
    if n > 0 { StaysBehind(call, call(stored), n - 1, f); }
  }

  lemma {:induction false} StaysAway(call: seq<Frame> -> seq<Frame>, stored: seq<Frame>, n: nat, f: Frame)
    requires MovesOn(call, f) && DistinctIds(stored) && f !in stored
    ensures f !in Repeated(call, stored, n)
    decreases n
  {
    if n > 0 { StaysAway(call, call(stored), n - 1, f); }
  }

  lemma {:induction false} GetsThrough(call: seq<Frame> -> seq<Frame>, stored: seq<Frame>, n: nat, f: Frame)
    requires MovesOn(call, f) && DistinctIds(stored) && n >= |stored|
    requires f in stored ==> UnreadBefore(stored, f) < PICKUP_PAGE
    ensures f !in Repeated(call, stored, n)
    decreases n
  {
    if n > 0 {
      if f in stored && f in call(stored) {
        GetsThrough(call, call(stored), n - 1, f);
      } else {
        StaysAway(call, call(stored), n - 1, f);
      }
    }
  }

  lemma CallsGetThrough(call: seq<Frame> -> seq<Frame>, stored: seq<Frame>, f: Frame)
    requires MovesOn(call, f) && DistinctIds(stored) && UnreadBefore(stored, f) < PICKUP_PAGE
    ensures f !in Repeated(call, stored, |stored|)
  {
    GetsThrough(call, stored, |stored|, f);
  }

  lemma CallsStayBehind(call: seq<Frame> -> seq<Frame>, stored: seq<Frame>, f: Frame)
    requires MovesOn(call, f) && DistinctIds(stored) && f in stored && UnreadBefore(stored, f) >= PICKUP_PAGE
    ensures forall n :: f in Repeated(call, stored, n)
  {
    forall n: nat ensures f in Repeated(call, stored, n) { StaysBehind(call, stored, n, f); }
  }

  lemma CallsMoveOn(f: Frame)
    requires !f.content.Unreadable?
    ensures MovesOn(Call, f)
  {
    forall stored | DistinctIds(stored)
      ensures Onward(stored, Call(stored), f, stored != []) && DistinctIds(Call(stored))
    {
      CallOnward(stored, f);
    }
  }

  /** What one call leaves for the next is taken in the end, with every request answered and every
      acknowledgement honoured, exactly when fewer than a page of unreadable frames precede it: those are
      never acknowledged, and a page of them at the head hides all that comes after. */
  lemma CollectedInTheEndIff(stored: seq<Frame>, f: Frame)
    requires DistinctIds(stored) && f in stored && !f.content.Unreadable?
    ensures (exists n :: f !in Calls(stored, n)) <==> UnreadBefore(stored, f) < PICKUP_PAGE
    ensures UnreadBefore(stored, f) < PICKUP_PAGE ==> f !in Calls(stored, |stored|)
  {
    CallsMoveOn(f);
    if UnreadBefore(stored, f) < PICKUP_PAGE {
      CallsGetThrough(Call, stored, f);
      assert f !in Calls(stored, |stored|);
    } else {
      CallsStayBehind(Call, stored, f);
      assert forall n :: Calls(stored, n) == Repeated(Call, stored, n);
    }
  }
}
