/** What becomes of a message that is given to a client: db__message_insert of
    src/module/mqtt/database.c, in terms of the limits, the lists and the packets. */
module InsertLaws {
  import opened Messages
  import opened OutgoingWriter
  import opened StoreList
  import opened Admission
  import opened SessionLists
  import opened DbSteps
  import opened WriteLaws

  // ---------- room ----------

  /** Messages above quality 0 need quota and inflight bytes.  Those of quality 0 are held against the
      limits of the queue, and only when there is some limit on what is inflight. */
  predicate FlightRoom(cfg: Config, ctx: Context, dir: Direction, qos: nat)
  {
    var md := if dir == Out then ctx.msgsOut else ctx.msgsIn;
    if qos > 0 then
      && (md.inflightMaximum == 0 || md.inflightQuota > 0)
      && (cfg.maxInflightBytes == 0 || md.msgBytes12 < cfg.maxInflightBytes)
    else
      || (md.inflightMaximum == 0 && cfg.maxInflightBytes == 0)
      || (&& (cfg.maxQueuedMessages == 0
              || (if dir == Out then ctx.outPacketCount else md.msgCount - md.inflightMaximum) < cfg.maxQueuedMessages)
          && ((if cfg.maxQueuedMessages == 0 then cfg.maxInflightBytes else cfg.maxQueuedBytes) == 0
              || md.msgBytes - cfg.maxInflightBytes < cfg.maxQueuedBytes))
  }

  /** The queue is measured in messages above quality 0; what may be inflight does not count while the
      client is connected. */
  predicate QueueRoom(cfg: Config, ctx: Context, dir: Direction, qos: nat)
  {
    var md := if dir == Out then ctx.msgsOut else ctx.msgsIn;
    var bytes, count := if ctx.connected then cfg.maxInflightBytes else 0, if ctx.connected then md.inflightMaximum else 0;
    || (cfg.maxQueuedMessages == 0 && cfg.maxQueuedBytes == 0)
    || (&& (qos > 0 || cfg.queueQos0)
        && (cfg.maxQueuedMessages == 0 || md.msgCount12 < cfg.maxQueuedMessages + count)
        && (cfg.maxQueuedBytes == 0 || md.msgBytes12 < cfg.maxQueuedBytes + bytes))
  }

  lemma RoomIs(cfg: Config, ctx: Context, dir: Direction, qos: nat)
    ensures ReadyForFlight(cfg, ctx, dir, qos) <==> FlightRoom(cfg, ctx, dir, qos)
    ensures ReadyForQueue(cfg, ctx, dir, qos) <==> QueueRoom(cfg, ctx, dir, qos)
  {
  }

  // ---------- one insertion ----------

  /** The client is known and has not been given this message before. */
  predicate Wanted(cfg: Config, ctx: Context, dir: Direction, retain: bool, known: bool)
  {
    ctx.hasId && (dir == Out && known && !retain ==> ctx.mqtt5 || cfg.allowDuplicates)
  }

  /** The message goes on the inflight list. */
  predicate ToFlight(cfg: Config, ctx: Context, dir: Direction, qos: nat, retain: bool, known: bool)
  {
    && Wanted(cfg, ctx, dir, retain, known) && ctx.connected && FlightRoom(cfg, ctx, dir, qos)
    && (dir == Out || qos == 2)
  }

  /** The message goes on the queue. */
  predicate ToQueue(cfg: Config, ctx: Context, dir: Direction, qos: nat, retain: bool, known: bool)
  {
    && Wanted(cfg, ctx, dir, retain, known) && QueueRoom(cfg, ctx, dir, qos)
    && (if ctx.connected then qos > 0 && !FlightRoom(cfg, ctx, dir, qos) else qos > 0 || cfg.queueQos0)
  }

  function StateFor(dir: Direction, qos: nat, queued: bool): MsgState
  {
    if queued then Queued else if dir == In then WaitForPubrel
    else if qos == 0 then PublishQos0 else if qos == 1 then PublishQos1 else PublishQos2
  }

  /** The new entry. */
  function NewFor(ctx: Context, mid: nat, dir: Direction, qos: nat, retain: bool, x: Store, queued: bool): Entry
  {
    Entry(x, mid, if qos <= ctx.maxQos then qos else ctx.maxQos, retain, dir, StateFor(dir, qos, queued), false)
  }

  /** The lists gain the new entry at the end of one of them, and nothing else; the counters go by the
      quality asked for, the send quota by the one given. */
  ghost predicate Gains(md: MsgData, r: MsgData, e: Entry, qos: nat, queued: bool)
  {
    && r.inflight == (if queued then md.inflight else md.inflight + [e])
    && r.queued == (if queued then md.queued + [e] else md.queued)
    && r.msgCount == md.msgCount + 1 && r.msgBytes == md.msgBytes + |e.store.payload|
    && r.msgCount12 == (if qos > 0 then md.msgCount12 + 1 else md.msgCount12)
    && r.msgBytes12 == (if qos > 0 then md.msgBytes12 + |e.store.payload| else md.msgBytes12)
    && r.inflightMaximum == md.inflightMaximum
    && r.inflightQuota == if e.direction == Out && e.qos > 0 && md.inflightQuota > 0 then md.inflightQuota - 1 else md.inflightQuota
  }

  /** Where the message goes, and what is answered. */
  lemma PlanIs(cfg: Config, ctx: Context, dir: Direction, qos: nat, retain: bool, known: bool)
    requires qos <= 2
    ensures var flight, queue := ToFlight(cfg, ctx, dir, qos, retain, known), ToQueue(cfg, ctx, dir, qos, retain, known);
            var wanted, room := Wanted(cfg, ctx, dir, retain, known), FlightRoom(cfg, ctx, dir, qos);
            && !(flight && queue)
            && InsertPlan(cfg, ctx, dir, qos, retain, known) ==
               if flight || queue then List(StateFor(dir, qos, queue), if queue && ctx.connected then 2 else 0)
               else if !wanted then Leave(0, false)
               else if ctx.connected then (if room then Leave(1, false) else Leave(2, true))
               else Leave(2, qos > 0 || cfg.queueQos0)
  {
    RoomIs(cfg, ctx, dir, qos);
    hide ReadyForFlight, ReadyForQueue, FlightRoom, QueueRoom;
  }

  lemma GainsIs(md: MsgData, e: Entry, qos: nat)
    ensures Gains(md, Inserted(md, e, qos), e, qos, e.state == Queued)
  {
  }

  /** The message was put at the end of a list of its direction, with the result of an insertion. */
  ghost predicate Listed1(cfg: Config, ctx: Context, mid: nat, dir: Direction, qos: nat, retain: bool, x: Store, queued: bool,
                          f: Effect)
  {
    var e := NewFor(ctx, mid, dir, qos, retain, x, queued);
    && f.rc == (if queued && ctx.connected then 2 else 0)
    && if dir == Out then f.ctx == ctx.(msgsOut := f.ctx.msgsOut) && Gains(ctx.msgsOut, f.ctx.msgsOut, e, qos, queued)
       else f.ctx == ctx.(msgsIn := f.ctx.msgsIn) && Gains(ctx.msgsIn, f.ctx.msgsIn, e, qos, queued)
  }

  /** The lists stay as they are: the message is not wanted, is not of a kind that is listed, or finds no
      room, which the client is told once. */
  ghost predicate NotListed(cfg: Config, ctx: Context, dir: Direction, qos: nat, retain: bool, known: bool, f: Effect)
  {
    var wanted := Wanted(cfg, ctx, dir, retain, known);
    var full := wanted && if ctx.connected then !FlightRoom(cfg, ctx, dir, qos) else qos > 0 || cfg.queueQos0;
    && f.ctx == ctx.(isDropping := ctx.isDropping || full)
    && f.rc == if !wanted then 0 else if ctx.connected && FlightRoom(cfg, ctx, dir, qos) then 1 else 2
  }

  /** An insertion without a write: exactly when the message goes where, with which entry and which
      result. */
  lemma InsertIs(cfg: Config, link: Link, ctx: Context, mid: nat, dir: Direction, qos: nat, retain: bool, x: Store, now: int,
                 known: bool, sent: seq<Packet>)
    requires qos <= 2
    ensures var f := InsertEffect(cfg, link, ctx, mid, dir, qos, retain, x, false, now, known, sent);
            && f.sent == sent
            && (ToFlight(cfg, ctx, dir, qos, retain, known) ==> Listed1(cfg, ctx, mid, dir, qos, retain, x, false, f))
            && (ToQueue(cfg, ctx, dir, qos, retain, known) ==> Listed1(cfg, ctx, mid, dir, qos, retain, x, true, f))
            && (!ToFlight(cfg, ctx, dir, qos, retain, known) && !ToQueue(cfg, ctx, dir, qos, retain, known) ==>
                  NotListed(cfg, ctx, dir, qos, retain, known, f))
  {
    PlanIs(cfg, ctx, dir, qos, retain, known);
    var queue := ToQueue(cfg, ctx, dir, qos, retain, known);
    var e := NewFor(ctx, mid, dir, qos, retain, x, queue);
    GainsIs(if dir == Out then ctx.msgsOut else ctx.msgsIn, e, qos);
    assert NewEntry(ctx, mid, dir, qos, retain, x, StateFor(dir, qos, queue)) == e;
    assert (e.state == Queued) == queue;
    hide InsertPlan, ToFlight, ToQueue, FlightRoom, Wanted, Gains, Inserted, StateFor, NewEntry, NewFor;
  }

  // ---------- what is sent ----------

  /** A client that is connected and active, with room and nothing else to be written, is sent the
      message at once, on a network that does not fail. */
  lemma DeliveredAtOnce(cfg: Config, link: Link, ctx: Context, mid: nat, qos: nat, retain: bool, x: Store, now: int,
                        known: bool, sent: seq<Packet>)
    requires qos <= 2 && ctx.active && ToFlight(cfg, ctx, Out, qos, retain, known)
    requires forall n :: link(n) == 0
    requires forall i :: 0 <= i < |ctx.msgsOut.inflight| ==> Idle(ctx.msgsOut.inflight[i], now)
    requires x.expiryTime == 0 || now <= x.expiryTime
    ensures InsertEffect(cfg, link, ctx, mid, Out, qos, retain, x, true, now, known, sent).sent ==
            sent + [Publish(mid, x, if qos <= ctx.maxQos then qos else ctx.maxQos, retain, false)]
  {
    PlanIs(cfg, ctx, Out, qos, retain, known);
    assert Online(ctx);
    hide InsertPlan, ToFlight, ToQueue, ReleaseQueued, From;
    var was, e := ctx.msgsOut.inflight, NewFor(ctx, mid, Out, qos, retain, x, false);
    var md := Inserted(ctx.msgsOut, e, qos);
    assert md.inflight == was + [e];
    LatestSends(md, was, [e], sent, link, now);
    assert NewEntry(ctx, mid, Out, qos, retain, x, StateFor(Out, qos, false)) == e;
    assert [e][1..] == [] && OwedAll([e], now) == Owed(e, now) + [];
    assert Owed(e, now) == [Publish(mid, x, if qos <= ctx.maxQos then qos else ctx.maxQos, retain, false)];
    hide Owed, OwedAll, Inserted, WriteLatest;
  }

  /** A client that is not both active and connected is sent nothing. */
  lemma NothingSent(cfg: Config, link: Link, ctx: Context, mid: nat, dir: Direction, qos: nat, retain: bool, x: Store,
                    update: bool, now: int, known: bool, sent: seq<Packet>)
    requires !ctx.active || !ctx.connected
    ensures InsertEffect(cfg, link, ctx, mid, dir, qos, retain, x, update, now, known, sent).sent == sent
  {
    hide InsertPlan;
  }

  /** After an insertion that was written without failure an active client's queue is empty, or its quota
      used up. */
  lemma QueueServed(cfg: Config, link: Link, ctx: Context, mid: nat, qos: nat, retain: bool, x: Store, now: int,
                    known: bool, sent: seq<Packet>)
    requires qos <= 2 && ctx.active && (ToFlight(cfg, ctx, Out, qos, retain, known) || ToQueue(cfg, ctx, Out, qos, retain, known))
    requires forall n :: link(n) == 0
    ensures var r := InsertEffect(cfg, link, ctx, mid, Out, qos, retain, x, true, now, known, sent).ctx.msgsOut;
            r.queued == [] || (r.inflightMaximum != 0 && r.inflightQuota == 0)
  {
    PlanIs(cfg, ctx, Out, qos, retain, known);
    hide InsertPlan, ToFlight, ToQueue, ReleaseQueued, From, Inserted, NewEntry, SameMessages, CountersOk;
    var e := NewEntry(ctx, mid, Out, qos, retain, x, StateFor(Out, qos, ToQueue(cfg, ctx, Out, qos, retain, known)));
    var md := Inserted(ctx.msgsOut, e, qos);
    WriteExact(md, Start(md.inflight), sent, link, now);
    ReleaseQueuedKeeps(WriteLatest(md, Online(ctx), sent, link, now).md);
  }

  // ---------- a client that is away ----------

  datatype Arrival = Arrival(x: Store, mid: nat, qos: nat, retain: bool, known: bool, now: int)

  function AfterOne(cfg: Config, link: Link, ctx: Context, a: Arrival, sent: seq<Packet>): Context
  {
    InsertEffect(cfg, link, ctx, a.mid, Out, a.qos, a.retain, a.x, true, a.now, a.known, sent).ctx
  }

  /** The client after messages came for it, one after the other. */
  function AfterAll(cfg: Config, link: Link, ctx: Context, arrivals: seq<Arrival>, sent: seq<Packet>): Context
    decreases |arrivals|
  {
    if arrivals == [] then ctx else AfterAll(cfg, link, AfterOne(cfg, link, ctx, arrivals[0], sent), arrivals[1..], sent)
  }

  /** Those for which there was room when they came, as entries. */
  function Kept(cfg: Config, link: Link, ctx: Context, arrivals: seq<Arrival>, sent: seq<Packet>): seq<Entry>
    decreases |arrivals|
  {
    if arrivals == [] then [] else
    var a := arrivals[0];
    (if ToQueue(cfg, ctx, Out, a.qos, a.retain, a.known) then [NewFor(ctx, a.mid, Out, a.qos, a.retain, a.x, true)] else [])
    + Kept(cfg, link, AfterOne(cfg, link, ctx, a, sent), arrivals[1..], sent)
  }

  /** One message for a client that is away: it is put behind all others, or the lists stay. */
  lemma AwayOne(cfg: Config, link: Link, ctx: Context, a: Arrival, sent: seq<Packet>)
    requires !ctx.connected && a.qos <= 2
    ensures var r := AfterOne(cfg, link, ctx, a, sent);
            && r == ctx.(msgsOut := r.msgsOut, isDropping := r.isDropping)
            && SameMessages(All(r.msgsOut), All(ctx.msgsOut) +
                            if ToQueue(cfg, ctx, Out, a.qos, a.retain, a.known)
                            then [NewFor(ctx, a.mid, Out, a.qos, a.retain, a.x, true)] else [])
  {
    PlanIs(cfg, ctx, Out, a.qos, a.retain, a.known);
    assert !ToFlight(cfg, ctx, Out, a.qos, a.retain, a.known);
    hide InsertPlan, ToFlight, ToQueue, ReleaseQueued, CountersOk;
    var e := NewFor(ctx, a.mid, Out, a.qos, a.retain, a.x, true);
    var md := Inserted(ctx.msgsOut, e, a.qos);
    assert All(md) == All(ctx.msgsOut) + [e];
    assert All(ctx.msgsOut) + [] == All(ctx.msgsOut);
    ReleaseQueuedKeeps(md);
    assert NewEntry(ctx, a.mid, Out, a.qos, a.retain, a.x, Queued) == e;
    hide Inserted, NewEntry, NewFor, WriteLatest, SameMessages;
  }

  /** First come, first served: the messages kept for a client that is away are those it had, followed
      by those that found room, in the order in which they came. */
  lemma {:induction false} AwayOrder(cfg: Config, link: Link, ctx: Context, arrivals: seq<Arrival>, sent: seq<Packet>)
    requires !ctx.connected && forall i :: 0 <= i < |arrivals| ==> arrivals[i].qos <= 2
    ensures SameMessages(All(AfterAll(cfg, link, ctx, arrivals, sent).msgsOut),
                         All(ctx.msgsOut) + Kept(cfg, link, ctx, arrivals, sent))
    decreases |arrivals|
  {
    if arrivals == [] {
      assert All(ctx.msgsOut) + [] == All(ctx.msgsOut);
    } else {
      var a := arrivals[0];
      AwayOne(cfg, link, ctx, a, sent);
      hide AfterOne, ToQueue, NewFor;
      var next := AfterOne(cfg, link, ctx, a, sent);
      AwayOrder(cfg, link, next, arrivals[1..], sent);
      var first := if ToQueue(cfg, ctx, Out, a.qos, a.retain, a.known)
                   then [NewFor(ctx, a.mid, Out, a.qos, a.retain, a.x, true)] else [];
      var rest := Kept(cfg, link, next, arrivals[1..], sent);
      SameBoth(All(next.msgsOut), All(ctx.msgsOut) + first, rest);
      assert All(ctx.msgsOut) + first + rest == All(ctx.msgsOut) + (first + rest);
      SameTwice(All(AfterAll(cfg, link, ctx, arrivals, sent).msgsOut), All(next.msgsOut) + rest,
                All(ctx.msgsOut) + (first + rest));
    }
  }

  lemma SameBoth(a: seq<Entry>, b: seq<Entry>, c: seq<Entry>)
    requires SameMessages(a, b)
    ensures SameMessages(a + c, b + c)
  {
  }

  /** Without limits on the queue all of them are kept. */
  lemma {:induction false} AwayAll(cfg: Config, link: Link, ctx: Context, arrivals: seq<Arrival>, sent: seq<Packet>)
    requires !ctx.connected && ctx.hasId && cfg.maxQueuedMessages == cfg.maxQueuedBytes == 0
    requires forall i :: 0 <= i < |arrivals| ==>
               arrivals[i].qos <= 2 && (arrivals[i].qos > 0 || cfg.queueQos0) && !arrivals[i].known
    ensures var kept := Kept(cfg, link, ctx, arrivals, sent);
            && |kept| == |arrivals|
            && forall i :: 0 <= i < |kept| ==> kept[i].store == arrivals[i].x && kept[i].mid == arrivals[i].mid
    decreases |arrivals|
  {
    if arrivals != [] {
      AwayOne(cfg, link, ctx, arrivals[0], sent);
      hide AfterOne;
      AwayAll(cfg, link, AfterOne(cfg, link, ctx, arrivals[0], sent), arrivals[1..], sent);
    }
  }
}
