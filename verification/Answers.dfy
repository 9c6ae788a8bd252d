/** How a client is answered: the packets that follow a PUBLISH and a PUBREL, with their reasons
    (src/module/mqtt/handle_publish.c, lib/handle_pubrel.c and database.c). */
module Answers {
  import opened Tokeniser
  import opened Messages
  import opened OutgoingWriter
  import opened StoreList
  import opened Admission
  import opened SessionLists
  import opened DbSteps
  import opened Inbound
  import opened InsertLaws
  import opened DbInvariant

  // ---------- recognising a message ----------

  /** The first pending message under the id, at position k of the lists. */
  ghost predicate FirstPending(md: MsgData, mid: nat, k: nat)
  {
    && k < |All(md)| && All(md)[k].store.sourceMid == mid
    && forall j :: 0 <= j < k ==> All(md)[j].store.sourceMid != mid
  }

  /** The first pending message under the id is this one again: a retransmission. */
  ghost predicate Retransmitted(md: MsgData, msg: Store)
  {
    exists k: nat :: FirstPending(md, msg.sourceMid, k) &&
                (msg.sourceMid == 0 || (var s := All(md)[k].store;
                                        s.qos == msg.qos && s.topic == msg.topic && s.payload == msg.payload))
  }

  /** It is another one: the id is used again. */
  ghost predicate UsedAgain(md: MsgData, msg: Store)
  {
    exists k: nat :: FirstPending(md, msg.sourceMid, k) && msg.sourceMid != 0 &&
                var s := All(md)[k].store;
                s.qos != msg.qos || s.topic != msg.topic || s.payload != msg.payload
  }

  lemma RecognisedIs(md: MsgData, msg: Store)
    ensures Duplicate(md, msg) <==> Retransmitted(md, msg)
    ensures Reused(md, msg) <==> UsedAgain(md, msg)
  {
    var k := FirstSource(All(md), msg.sourceMid);
    if k < |All(md)| {
      assert FirstPending(md, msg.sourceMid, k);
    }
    hide FirstSource;
    forall j: nat | FirstPending(md, msg.sourceMid, j)
      ensures j == k
    {
    }
  }

  /** The first inflight entry with the id, when its message has quality 2. */
  ghost predicate Clearable(md: MsgData, mid: nat, i: nat)
  {
    && i < |md.inflight| && md.inflight[i].mid == mid && md.inflight[i].store.qos == 2
    && forall j :: 0 <= j < i ==> md.inflight[j].mid != mid
  }

  /** An id that is used again is cleared from the inflight list: exactly one entry goes, or none. */
  lemma CleanedIs(ctx: Context, msg: Store)
    ensures var r := Cleaned(ctx, msg);
            && r == ctx.(msgsIn := r.msgsIn) && r.msgsIn.queued == ctx.msgsIn.queued
            && (forall i: nat :: msg.qos > 0 && UsedAgain(ctx.msgsIn, msg) && Clearable(ctx.msgsIn, msg.sourceMid, i) ==>
                  r.msgsIn.inflight == ctx.msgsIn.inflight[..i] + ctx.msgsIn.inflight[i + 1..])
            && (!(msg.qos > 0 && UsedAgain(ctx.msgsIn, msg) && exists i: nat :: Clearable(ctx.msgsIn, msg.sourceMid, i)) ==> r == ctx)
  {
    RecognisedIs(ctx.msgsIn, msg);
    var k := FirstMid(ctx.msgsIn.inflight, msg.sourceMid);
    if Removes(ctx.msgsIn, msg.sourceMid) {
      assert Clearable(ctx.msgsIn, msg.sourceMid, k);
    }
    hide Reused, UsedAgain, FirstMid;
    forall i: nat | Clearable(ctx.msgsIn, msg.sourceMid, i)
      ensures i == k
    {
    }
  }

  // ---------- the answer to a PUBLISH of quality 2 ----------

  /** What is answered to a new message: a PUBREC, or nothing yet when a connected client's message had
      to be queued. */
  function Receipt(cfg: Config, ctx: Context, mid: nat): seq<Packet>
  {
    if !ctx.hasId || (if ctx.connected then FlightRoom(cfg, ctx, In, 2) else QueueRoom(cfg, ctx, In, 2))
    then [Pubrec(mid, 0)] else []
  }

  /** The own answer, and then the PUBRECs of queued entries, in order, of an active client. */
  ghost predicate Replies(sent: seq<Packet>, sent': seq<Packet>, own: seq<Packet>, active: bool, md: MsgData)
  {
    exists n: nat :: RepliesUpTo(sent, sent', own, active, md, n)
  }

  ghost predicate RepliesUpTo(sent: seq<Packet>, sent': seq<Packet>, own: seq<Packet>, active: bool, md: MsgData, n: nat)
  {
    && |md.inflight| <= n <= |All(md)|
    && sent' == sent + own + if active then Pubrecs(All(md)[|md.inflight|..n]) else []
  }

  lemma FinishedReplies(link: Link, f: Effect, sent: seq<Packet>, own: seq<Packet>)
    requires f.sent == sent + own
    ensures Replies(sent, Finished(link, f).sent, own, f.ctx.active, f.ctx.msgsIn)
    ensures Finished(link, f).rc == f.rc
  {
    var md := f.ctx.msgsIn;
    var n := |md.inflight|;
    if f.ctx.active {
      n := QueuedInExact(md, |md.inflight|, f.ctx.msgsOut.inflightMaximum, f.sent, link);
    }
    hide QueuedIn, Pubrecs;
    assert RepliesUpTo(sent, Finished(link, f).sent, own, f.ctx.active, md, n);
  }

  /** A retransmission is acknowledged again; a message for which there is no room is refused with
      reason 151 and nothing else; any other gets its receipt.  Only PUBRECs of queued entries follow. */
  ghost predicate Answered2(cfg: Config, link: Link, ctx: Context, x: Store, now: int, sent: seq<Packet>, sent': seq<Packet>)
  {
    var cleaned := Cleaned(ctx, x);
    if Retransmitted(ctx.msgsIn, x) then
      Replies(sent, sent', [Pubrec(x.sourceMid, 0)], ctx.active, ctx.msgsIn)
    else if !FlightRoom(cfg, cleaned, In, 2) && !QueueRoom(cfg, cleaned, In, 2) then
      sent' == sent + [Pubrec(x.sourceMid, 151)]
    else
      var taken := InsertEffect(cfg, link, cleaned, x.sourceMid, In, 2, x.retain, x, false, now, false, sent).ctx;
      Replies(sent, sent', Receipt(cfg, cleaned, x.sourceMid), ctx.active, taken.msgsIn)
  }

  lemma Publish2Sends(cfg: Config, link: Link, ctx: Context, x: Store, now: int, sent: seq<Packet>)
    requires x.qos == 2
    ensures Answered2(cfg, link, ctx, x, now, sent, Publish2(cfg, link, ctx, x, now, sent).sent)
  {
    RecognisedIs(ctx.msgsIn, x);
    CleanedIs(ctx, x);
    var cleaned := Cleaned(ctx, x);
    hide Duplicate, Retransmitted, Cleaned, InsertEffect, Finished, FlightRoom, QueueRoom, Replies, UsedAgain, ReadyForFlight,
         ReadyForQueue;
    RoomIs(cfg, cleaned, In, 2);
    if Duplicate(ctx.msgsIn, x) {
      FinishedReplies(link, Acknowledged(link, ctx, x.sourceMid, sent), sent, [Pubrec(x.sourceMid, 0)]);
    } else if Admits(cfg, cleaned, 2) {
      OfferedReplies(cfg, link, cleaned, x, now, sent);
    }
  }

  /** A refusal changes no list; it credits the receive quota at MQTT 5 only. */
  lemma RefusedQuota(cfg: Config, link: Link, ctx: Context, x: Store, now: int, sent: seq<Packet>)
    requires !Retransmitted(ctx.msgsIn, x)
    requires var cleaned := Cleaned(ctx, x); !FlightRoom(cfg, cleaned, In, 2) && !QueueRoom(cfg, cleaned, In, 2)
    ensures var md, r := Cleaned(ctx, x).msgsIn, Publish2(cfg, link, ctx, x, now, sent);
            && r.ctx == Cleaned(ctx, x).(msgsIn := md.(inflightQuota := r.ctx.msgsIn.inflightQuota)) && r.rc == link(|sent|)
            && r.ctx.msgsIn.inflightQuota ==
                 if ctx.mqtt5 && md.inflightQuota < md.inflightMaximum then md.inflightQuota + 1 else md.inflightQuota
  {
    RecognisedIs(ctx.msgsIn, x);
    CleanedIs(ctx, x);
    RoomIs(cfg, Cleaned(ctx, x), In, 2);
    hide Duplicate, Retransmitted, Cleaned, InsertEffect, Finished, FlightRoom, QueueRoom, UsedAgain, ReadyForFlight, ReadyForQueue;
  }

  lemma OfferedReplies(cfg: Config, link: Link, ctx: Context, x: Store, now: int, sent: seq<Packet>)
    requires x.qos == 2 && (FlightRoom(cfg, ctx, In, 2) || QueueRoom(cfg, ctx, In, 2))
    ensures var taken := InsertEffect(cfg, link, ctx, x.sourceMid, In, 2, x.retain, x, false, now, false, sent).ctx;
            Replies(sent, Offered(cfg, link, ctx, x, now, sent).sent, Receipt(cfg, ctx, x.sourceMid), ctx.active, taken.msgsIn)
  {
    var f := InsertEffect(cfg, link, ctx, x.sourceMid, In, 2, x.retain, x, false, now, false, sent);
    RoomIs(cfg, ctx, In, 2);
    InsertIs(cfg, link, ctx, x.sourceMid, In, 2, x.retain, x, now, false, sent);
    hide InsertEffect, FlightRoom, QueueRoom, Gains, Replies, Finished, ReadyForFlight, ReadyForQueue, NewFor;
    assert f.ctx.active == ctx.active && (f.rc == 0 <==> Receipt(cfg, ctx, x.sourceMid) != []);
    if f.rc == 0 {
      FinishedReplies(link, Acknowledged(link, f.ctx, x.sourceMid, f.sent), sent, [Pubrec(x.sourceMid, 0)]);
    } else {
      FinishedReplies(link, f.(rc := if f.rc == 1 then 1 else SUCCESS), sent, []);
    }
  }

  // ---------- the answer to a PUBLISH of quality 0 or 1 ----------

  /** The reason of the PUBACK: 0, or 16 at MQTT 5 for a message without subscribers; no PUBACK at
      MQTT 5 for one that could not be handed on. */
  function Acknowledgement(mqtt5: bool, qos: nat, mid: nat, rc2: int): seq<Packet>
  {
    if qos == 0 then []
    else if !mqtt5 || rc2 == 0 then [Puback(mid, 0)]
    else if rc2 == -3 then [Puback(mid, 16)]
    else []
  }

  /** A message of quality 0 or 1 is answered after its deliveries. */
  lemma Publish01Sends(cfg: Config, link: Link, f: Front, c: nat, x: Store, qos: nat, mid: nat, ds: seq<Delivery>,
                       searchRc: int, now: int)
    requires c < |f.cs| && DeliveriesOk(ds, |f.cs|)
    ensures var ctx := if qos == 1 then f.cs[c].(msgsIn := DecQuota(f.cs[c].msgsIn)) else f.cs[c];
            var refused := x.topic == "" || x.topic == "$share";
            var g := DeliverAll(cfg, link, f.(cs := f.cs[c := ctx]), x, if refused then [] else ds, now);
            Replies(g.sent, Publish01(cfg, link, f, c, x, qos, mid, ds, searchRc, now).0.sent,
                    Acknowledgement(f.cs[c].mqtt5, qos, mid, if refused then 1 else searchRc), f.cs[c].active, ctx.msgsIn)
  {
    hide DeliverAll, Finished, OnlyOut, Replies, DeliveriesOk;
    var ctx := if qos == 1 then f.cs[c].(msgsIn := DecQuota(f.cs[c].msgsIn)) else f.cs[c];
    var f1 := f.(cs := f.cs[c := ctx]);
    NoDeliveries(|f.cs|);
    var ds' := if Untokenised(x.topic) then [] else ds;
    DeliverOnlyOut(cfg, link, f1, x, ds', now);
    var g := DeliverAll(cfg, link, f1, x, ds', now);
    OnlyOutIn(f1.cs, g.cs, c);
    var rc2 := if Untokenised(x.topic) then 1 else searchRc;
    var own := Acknowledgement(f.cs[c].mqtt5, qos, mid, rc2);
    var a := Answered(link, g.cs[c], qos, mid, rc2, g.sent);
    FinishedReplies(link, a, g.sent, own);
    SameReplies(g.sent, Finished(link, a).sent, own, f.cs[c].active, a.ctx.msgsIn, ctx.msgsIn);
  }

  lemma SameReplies(sent: seq<Packet>, sent': seq<Packet>, own: seq<Packet>, active: bool, md: MsgData, md': MsgData)
    requires Replies(sent, sent', own, active, md) && md.inflight == md'.inflight && md.queued == md'.queued
    ensures Replies(sent, sent', own, active, md')
  {
    var n: nat :| RepliesUpTo(sent, sent', own, active, md, n);
    assert RepliesUpTo(sent, sent', own, active, md', n);
  }

  /** Refused with reason 151 for want of room, or handed on and then answered.  The message is the
      pending one when it is recognised, and otherwise the new one under the next number. */
  ghost predicate Answered01(cfg: Config, link: Link, lastId: nat, f0: Front, f: Front, c: nat, msg: Store, ds: seq<Delivery>,
                             searchRc: int, now: int)
    requires c < |f0.cs| && DeliveriesOk(ds, |f0.cs|)
  {
    var cleaned := Cleaned(f0.cs[c], msg);
    var again := msg.qos > 0 && Retransmitted(f0.cs[c].msgsIn, msg);
    if !again && msg.qos > 0 && !FlightRoom(cfg, cleaned, In, msg.qos) && !QueueRoom(cfg, cleaned, In, msg.qos) then
      f.sent == f0.sent + [Puback(msg.sourceMid, 151)]
    else
      var f1 := f0.(cs := f0.cs[c := cleaned]);
      exists x: Store ::
        && (if again then exists k: nat :: FirstPending(f0.cs[c].msgsIn, msg.sourceMid, k) && All(f0.cs[c].msgsIn)[k].store == x
            else x == msg.(id := lastId + 1))
        && HandedAndAnswered(cfg, link, f1, f, c, x, msg.qos, msg.sourceMid, ds, searchRc, now)
  }

  ghost predicate HandedAndAnswered(cfg: Config, link: Link, f0: Front, f: Front, c: nat, x: Store, qos: nat, mid: nat,
                                    ds: seq<Delivery>, searchRc: int, now: int)
    requires c < |f0.cs| && DeliveriesOk(ds, |f0.cs|)
  {
    var ctx := if qos == 1 then f0.cs[c].(msgsIn := DecQuota(f0.cs[c].msgsIn)) else f0.cs[c];
    var refused := x.topic == "" || x.topic == "$share";
    var g := DeliverAll(cfg, link, f0.(cs := f0.cs[c := ctx]), x, if refused then [] else ds, now);
    Replies(g.sent, f.sent, Acknowledgement(f0.cs[c].mqtt5, qos, mid, if refused then 1 else searchRc), f0.cs[c].active, ctx.msgsIn)
  }

  lemma Published01Sends(cfg: Config, link: Link, v0: View, v: View, f0: Front, f: Front, c: nat, msg: Store,
                         ds: seq<Delivery>, searchRc: int, now: int, handed0: seq<Handing>, handed: seq<Handing>, rc: int)
    requires Published01(cfg, link, v0, v, f0, f, c, msg, ds, searchRc, now, handed0, handed, rc)
    ensures c < |f0.cs| && DeliveriesOk(ds, |f0.cs|) && Answered01(cfg, link, v0.lastId, f0, f, c, msg, ds, searchRc, now)
  {
    hide Publish01, Cleaned, FlightRoom, QueueRoom, ReadyForFlight, ReadyForQueue, HandedAndAnswered, DeliveriesOk, Discards,
         Retaining, FirstSource, Retransmitted, Reused, UsedAgain, Credited;
    var md, cleaned := f0.cs[c].msgsIn, Cleaned(f0.cs[c], msg);
    RecognisedIs(md, msg);
    RoomIs(cfg, cleaned, In, msg.qos);
    var again := msg.qos > 0 && Duplicate(md, msg);
    if again || msg.qos == 0 || Admits(cfg, cleaned, msg.qos) {
      var k := FirstSource(All(md), msg.sourceMid);
      if again { FirstIs(md, msg); }
      var x := if again then All(md)[k].store else msg.(id := v0.lastId + 1);
      HandedIs(cfg, link, f0.(cs := f0.cs[c := cleaned]), f, c, x, msg.qos, msg.sourceMid, ds, searchRc, now);
    }
  }

  lemma FirstIs(md: MsgData, msg: Store)
    requires Duplicate(md, msg)
    ensures FirstSource(All(md), msg.sourceMid) < |All(md)| && FirstPending(md, msg.sourceMid, FirstSource(All(md), msg.sourceMid))
  {
    hide FirstSource;
  }

  lemma HandedIs(cfg: Config, link: Link, f0: Front, f: Front, c: nat, x: Store, qos: nat, mid: nat, ds: seq<Delivery>,
                 searchRc: int, now: int)
    requires c < |f0.cs| && DeliveriesOk(ds, |f0.cs|)
    requires f == Publish01(cfg, link, f0, c, x, qos, mid, ds, searchRc, now).0
    ensures HandedAndAnswered(cfg, link, f0, f, c, x, qos, mid, ds, searchRc, now)
  {
    Publish01Sends(cfg, link, f0, c, x, qos, mid, ds, searchRc, now);
    hide Publish01, DeliverAll, Replies;
  }

  // ---------- the result of a release ----------

  /** The entry's message cannot be handed on: it has another quality, a topic that cannot be searched,
      or the hand-over failed.  That nobody has subscribed is no failure. */
  predicate Stuck(e: Entry, mid: nat, result: nat -> int)
  {
    && e.mid == mid
    && (e.store.qos != 2 || e.store.topic == "" || e.store.topic == "$share" || (result(e.store.id) != 0 && result(e.store.id) != -3))
  }

  /** The first such entry. */
  ghost predicate FirstStuck(es: seq<Entry>, mid: nat, result: nat -> int, k: nat)
  {
    k < |es| && Stuck(es[k], mid, result) && forall j :: 0 <= j < k ==> !Stuck(es[j], mid, result)
  }

  /** A release succeeds when it finds the id and nothing is stuck, reports 6 when it does not find it,
      and otherwise 2 for a wrong quality and 1 for a failed hand-over. */
  lemma ReleaseRcIs(es: seq<Entry>, mid: nat, result: nat -> int)
    ensures forall k: nat :: FirstStuck(es, mid, result, k) ==> ReleaseRc(es, mid, result) == if es[k].store.qos != 2 then 2 else 1
    ensures !(exists k: nat :: FirstStuck(es, mid, result, k)) ==>
              && (ReleaseRc(es, mid, result) == 0 <==> exists i :: 0 <= i < |es| && es[i].mid == mid)
              && (ReleaseRc(es, mid, result) == 6 <==> forall i :: 0 <= i < |es| ==> es[i].mid != mid)
    ensures (exists k: nat :: FirstStuck(es, mid, result, k)) <==> exists i :: 0 <= i < |es| && Stuck(es[i], mid, result)
  {
    var n := StopAt(es, mid, result);
    assert forall e: Entry :: Stops(e, mid, result) <==> Stuck(e, mid, result);
    hide Stops, Stuck;
    if n < |es| { assert FirstStuck(es, mid, result, n); }
    WithMidIff(es, mid);
    hide StopAt, WithMid;
  }

  lemma WithMidIff(es: seq<Entry>, mid: nat)
    ensures WithMid(es, mid) != [] <==> exists i :: 0 <= i < |es| && es[i].mid == mid
  {
    if WithMid(es, mid) != [] {
      var e := WithMid(es, mid)[0];
      assert e in WithMid(es, mid);
    }
    if i :| 0 <= i < |es| && es[i].mid == mid {
      assert es[i] in WithMid(es, mid);
    }
  }

  // ---------- what a release hands on ----------

  /** The entry at position k is the only one with the id, from i on. */
  ghost predicate OnlyAt(es: seq<Entry>, i: nat, k: nat, mid: nat)
  {
    i <= k < |es| && es[k].mid == mid && forall j :: i <= j < |es| && j != k ==> es[j].mid != mid
  }

  lemma {:induction false} WalkNone(cfg: Config, link: Link, w: Walk, c: nat, i: nat, mid: nat,
                                    deliveries: nat -> seq<Delivery>, result: nat -> int, now: int)
    requires c < |w.front.cs| && i <= |w.front.cs[c].msgsIn.inflight| && AllDeliveriesOk(deliveries, |w.front.cs|)
    requires forall j :: i <= j < |w.front.cs[c].msgsIn.inflight| ==> w.front.cs[c].msgsIn.inflight[j].mid != mid
    ensures WalkOn(cfg, link, w, c, i, mid, deliveries, result, now) == w
    decreases |w.front.cs[c].msgsIn.inflight| - i
  {
    hide AllDeliveriesOk, HandAndDrop;
    if i < |w.front.cs[c].msgsIn.inflight| {
      WalkNone(cfg, link, w, c, i + 1, mid, deliveries, result, now);
    }
  }

  lemma {:induction false} WalkOne(cfg: Config, link: Link, w: Walk, c: nat, i: nat, k: nat, mid: nat,
                                   deliveries: nat -> seq<Delivery>, result: nat -> int, now: int)
    requires c < |w.front.cs| && i <= |w.front.cs[c].msgsIn.inflight| && AllDeliveriesOk(deliveries, |w.front.cs|)
    requires OnlyAt(w.front.cs[c].msgsIn.inflight, i, k, mid)
    requires w.front.cs[c].msgsIn.inflight[k].store.qos == 2
    ensures var x := w.front.cs[c].msgsIn.inflight[k].store;
            DeliveriesOk(deliveries(x.id), |w.front.cs|) &&
            WalkOn(cfg, link, w, c, i, mid, deliveries, result, now) ==
            HandAndDrop(cfg, link, w, c, k, deliveries(x.id), HandRc(x, result), now)
    decreases k - i
  {
    var es := w.front.cs[c].msgsIn.inflight;
    var x := es[k].store;
    assert DeliveriesOk(deliveries(x.id), |w.front.cs|);
    hide AllDeliveriesOk, HandAndDrop, HandRc, DeliveriesOk;
    if i < k {
      WalkOne(cfg, link, w, c, i + 1, k, mid, deliveries, result, now);
    } else if Succeeded(HandRc(x, result)) {
      var h := HandAndDrop(cfg, link, w, c, k, deliveries(x.id), HandRc(x, result), now);
      var es' := h.front.cs[c].msgsIn.inflight;
      assert es' == es[..k] + es[k + 1..];
      WalkNone(cfg, link, h, c, k, mid, deliveries, result, now);
    }
  }

  /** A release of a message that is pending once hands it to its subscribers and, when it was sent to be
      retained, keeps it as the retained message of its topic, or clears that when it is empty. */
  lemma ReleasedMessage(cfg: Config, link: Link, w: Walk, c: nat, k: nat, mid: nat,
                        deliveries: nat -> seq<Delivery>, result: nat -> int, now: int)
    requires c < |w.front.cs| && AllDeliveriesOk(deliveries, |w.front.cs|)
    requires OnlyAt(w.front.cs[c].msgsIn.inflight, 0, k, mid) && w.front.cs[c].msgsIn.inflight[k].store.qos == 2
    requires w.front.cs[c].msgsIn.inflight[k].store.topic != "" && w.front.cs[c].msgsIn.inflight[k].store.topic != "$share"
    ensures var e := w.front.cs[c].msgsIn.inflight[k];
            var r := WalkOn(cfg, link, w, c, 0, mid, deliveries, result, now);
            && DeliveriesOk(deliveries(e.store.id), |w.front.cs|)
            && r.front.sent == DeliverAll(cfg, link, w.front, e.store, deliveries(e.store.id), now).sent
            && r.front.destIds == DeliverAll(cfg, link, w.front, e.store, deliveries(e.store.id), now).destIds
            && r.retained == if !e.retain then w.retained
                             else if e.store.payload == [] then w.retained - {TokenPath(e.store.topic)}
                             else w.retained[TokenPath(e.store.topic) := e.store]
  {
    WalkOne(cfg, link, w, c, 0, k, mid, deliveries, result, now);
    hide AllDeliveriesOk, WalkOn, DeliverAll, DeliveriesOk, TokenPath, HandRc;
  }
}
