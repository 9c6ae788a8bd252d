/** How a session goes on after a reconnection: which outgoing messages are published again, which
    go on with their PUBREL, and what is sent for them (db__message_reconnect_reset_outgoing of
    src/module/mqtt/database.c). */
module ResumeLaws {
  import opened Messages
  import opened OutgoingWriter
  import opened StoreList
  import opened Admission
  import opened SessionLists
  import opened DbInvariant
  import opened DbSteps
  import opened WriteLaws

  /** The receiver has the message: only its PUBCOMP was outstanding. */
  predicate Arrived(e: Entry)
  {
    e.qos == 2 && e.state == WaitForPubcomp
  }

  /** The entry as it is to be published, by its quality. */
  function Republished(e: Entry): Entry
  {
    match e.qos
    case 0 => e.(state := PublishQos0)
    case 1 => e.(state := PublishQos1)
    case 2 => e.(state := PublishQos2)
    case _ => e
  }

  /** The second loop of a reset changes entries of the queue only: each stays as it is or is to be
      published, and none leaves the inflight list. */
  lemma {:induction false} ReflyStates(cfg: Config, ctx: Context, dir: Direction, md: MsgData, i: nat)
    requires |md.inflight| <= i <= |All(md)|
    ensures var r := Refly(cfg, ctx, dir, md, i);
            && |All(r)| == |All(md)| && |md.inflight| <= |r.inflight| && r.inflightMaximum == md.inflightMaximum
            && (forall j :: 0 <= j < i ==> All(r)[j] == All(md)[j])
            && (forall j :: i <= j < |All(md)| ==> All(r)[j] == All(md)[j] || All(r)[j] == Republished(All(md)[j]))
    decreases |All(md)| - i
  {
    if i < |All(md)| {
      var md' := Reflown(cfg, ctx, dir, md, i);
      ReflownOne(cfg, ctx, dir, md, i);
      ReflownKeeps(cfg, ctx, dir, md, i);
      hide Reflown;
      ReflyStates(cfg, ctx, dir, md', i + 1);
    }
  }

  lemma ReflownOne(cfg: Config, ctx: Context, dir: Direction, md: MsgData, i: nat)
    requires |md.inflight| <= i < |All(md)|
    ensures var r := Reflown(cfg, ctx, dir, md, i);
            && |All(r)| == |All(md)| && |md.inflight| <= |r.inflight|
            && (forall j :: 0 <= j < |All(md)| && j != i ==> All(r)[j] == All(md)[j])
            && (All(r)[i] == All(md)[i] || All(r)[i] == Republished(All(md)[i]))
  {
    hide ReadyForFlight;
    var e := All(md)[i];
    PromoteKeeps(Bumped(md, e.store.Len(), e.qos), i, PublishState(e.qos, e.state));
    hide Promote;
  }

  /** After the outgoing reset an inflight entry goes on with its PUBREL exactly when it has quality 2
      and waited for its PUBCOMP; every other one is to be published again. */
  lemma ResetStates(cfg: Config, ctx: Context)
    ensures var md, r := ctx.msgsOut, ResetOut(cfg, ctx);
            && |All(r)| == |All(md)| && |md.inflight| <= |r.inflight|
            && (forall j :: 0 <= j < |md.inflight| ==>
                  r.inflight[j] == if Arrived(md.inflight[j]) then md.inflight[j].(state := ResendPubrel)
                                   else Republished(md.inflight[j]))
            && (forall j :: |md.inflight| <= j < |All(md)| ==>
                  All(r)[j] == All(md)[j] || All(r)[j] == Republished(All(md)[j]))
  {
    hide Refly;
    var md := ctx.msgsOut;
    var es := ResetEntries(md.inflight);
    var m := Recounted(md, es);
    assert All(m) == es + md.queued;
    ReflyStates(cfg, ctx, Out, m, |es|);
    var r := ResetOut(cfg, ctx);
    assert forall j :: 0 <= j < |md.inflight| ==> r.inflight[j] == All(r)[j] == es[j] == ResetEntry(md.inflight[j]);
  }

  /** After the incoming reset the inflight entries of quality 2 stand as they were: what the client has
      got of them still matches. */
  lemma ResetInStates(cfg: Config, ctx: Context)
    ensures var md, r := ctx.msgsIn, ResetIn(cfg, ctx);
            && r.inflightMaximum == md.inflightMaximum
            && |Qos2(md.inflight)| <= |r.inflight| && r.inflight[..|Qos2(md.inflight)|] == Qos2(md.inflight)
            && |All(r)| == |Qos2(md.inflight)| + |md.queued|
            && forall j :: |Qos2(md.inflight)| <= j < |All(r)| ==>
                 var e := md.queued[j - |Qos2(md.inflight)|];
                 All(r)[j] == e || All(r)[j] == Republished(e)
  {
    hide Refly, Qos2, Republished, Bytes, Bytes12, Count12, QuotaLeft;
    var md := ctx.msgsIn;
    var es := Qos2(md.inflight);
    var m := Recounted(md, es);
    assert All(m) == es + md.queued;
    ReflyStates(cfg, ctx, In, m, |es|);
    var r := ResetIn(cfg, ctx);
    assert forall j :: 0 <= j < |es| ==> r.inflight[j] == All(r)[j] == es[j];
  }

  // ---------- how many go inflight ----------

  /** Everything from i on has to be acknowledged. */
  ghost predicate AckedFrom(md: MsgData, i: nat)
  {
    forall j :: i <= j < |All(md)| ==> 0 < All(md)[j].qos <= 2
  }

  /** Without quota nothing more goes inflight. */
  lemma {:induction false} ReflyStuck(cfg: Config, ctx: Context, md: MsgData, i: nat)
    requires |md.inflight| <= i <= |All(md)| && AckedFrom(md, i)
    requires cfg.maxInflightBytes == 0 && md.inflightMaximum > 0 && md.inflightQuota == 0
    ensures var r := Refly(cfg, ctx, Out, md, i);
            r.inflight == md.inflight && r.queued == md.queued && r.inflightQuota == 0
    decreases |All(md)| - i
  {
    if i < |All(md)| {
      assert Reflown(cfg, ctx, Out, md, i) == Bumped(md, All(md)[i].store.Len(), All(md)[i].qos);
      ReflownKeeps(cfg, ctx, Out, md, i);
      hide Reflown;
      ReflyStuck(cfg, ctx, Bumped(md, All(md)[i].store.Len(), All(md)[i].qos), i + 1);
    }
  }

  /** Otherwise as many as the quota allows, the oldest first, and all of them when there is no limit. */
  lemma {:induction false} ReflyMoves(cfg: Config, ctx: Context, md: MsgData)
    requires AckedFrom(md, |md.inflight|) && cfg.maxInflightBytes == 0 && md.inflightQuota >= 0
    ensures var r := Refly(cfg, ctx, Out, md, |md.inflight|);
            var n := if md.inflightMaximum == 0 || |md.queued| <= md.inflightQuota then |md.queued| else md.inflightQuota;
            && |r.inflight| == |md.inflight| + n
            && r.inflightQuota == if n <= md.inflightQuota then md.inflightQuota - n else 0
    decreases |md.queued|
  {
    var i := |md.inflight|;
    if md.queued != [] {
      if md.inflightMaximum > 0 && md.inflightQuota == 0 {
        ReflyStuck(cfg, ctx, md, i);
      } else {
        ReflownAcked(cfg, ctx, md);
        ReflownKeeps(cfg, ctx, Out, md, i);
        hide Reflown, SameMessages;
        ReflyMoves(cfg, ctx, Reflown(cfg, ctx, Out, md, i));
      }
    }
  }

  lemma ReflownAcked(cfg: Config, ctx: Context, md: MsgData)
    requires AckedFrom(md, |md.inflight|) && cfg.maxInflightBytes == 0 && md.inflightQuota >= 0
    requires md.queued != [] && (md.inflightMaximum == 0 || md.inflightQuota > 0)
    ensures var md' := Reflown(cfg, ctx, Out, md, |md.inflight|);
            && |md'.inflight| == |md.inflight| + 1 && |md'.queued| == |md.queued| - 1
            && md'.inflightMaximum == md.inflightMaximum && AckedFrom(md', |md'.inflight|)
            && md'.inflightQuota == if md.inflightQuota > 0 then md.inflightQuota - 1 else 0
  {
    var e, i := All(md)[|md.inflight|], |md.inflight|;
    var b, st := Bumped(md, e.store.Len(), e.qos), PublishState(e.qos, e.state);
    assert Reflown(cfg, ctx, Out, md, i) == Promote(b, i, st);
    PromoteKeeps(b, i, st);
    hide CountersOk, SameMessages;
  }

  /** With a queue of messages above quality 0 and no limit on bytes, the outgoing reset leaves as many
      inflight as were there, and of the queue as many as fit the maximum beside them. */
  lemma ResetMoves(cfg: Config, ctx: Context)
    requires cfg.maxInflightBytes == 0 && forall e :: e in ctx.msgsOut.queued ==> 0 < e.qos <= 2
    ensures var md, r := ctx.msgsOut, ResetOut(cfg, ctx);
            var room := if Count12(md.inflight) < md.inflightMaximum then md.inflightMaximum - Count12(md.inflight) else 0;
            var n := if md.inflightMaximum == 0 || |md.queued| <= room then |md.queued| else room;
            && |r.inflight| == |md.inflight| + n
            && r.inflightQuota == if n <= room then room - n else 0
  {
    hide Refly;
    var md := ctx.msgsOut;
    var es := ResetEntries(md.inflight);
    var m := Recounted(md, es);
    assert All(m) == es + md.queued;
    forall j | |es| <= j < |All(m)|
      ensures 0 < All(m)[j].qos <= 2
    {
      assert All(m)[j] in md.queued;
    }
    CountPositive(md.inflight);
    ReflyMoves(cfg, ctx, m);
  }

  lemma {:induction false} CountPositive(es: seq<Entry>)
    ensures 0 <= Count12(es) <= |es|
  {
    if es != [] { CountPositive(es[1..]); }
  }

  // ---------- what is sent then ----------

  /** Every packet of a write is owed for one of its entries. */
  lemma {:induction false} OwedFrom(es: seq<Entry>, now: int, p: Packet) returns (j: nat)
    requires p in OwedAll(es, now)
    ensures j < |es| && Owed(es[j], now) == [p]
  {
    if p in Owed(es[0], now) {
      j := 0;
    } else {
      j := OwedFrom(es[1..], now, p);
      j := j + 1;
    }
  }

  /** The packet is the PUBLISH of the entry. */
  predicate PublishFor(p: Packet, e: Entry)
  {
    p.Publish? && p.mid == e.mid && p.store == e.store && p.qos == e.qos && p.retain == e.retain && p.dup == e.dup
  }

  /** After a reset a full write, on any network, publishes no message that has arrived: every PUBLISH
      is for an entry that was not waiting for its PUBCOMP. */
  lemma NoneAgain(cfg: Config, ctx: Context, sent: seq<Packet>, link: Link, now: int, k: nat)
    requires var w := WriteAll(ResetOut(cfg, ctx), true, sent, link, now);
             |sent| <= k < |w.sent| && w.sent[k].Publish?
    ensures var es, p := All(ctx.msgsOut), WriteAll(ResetOut(cfg, ctx), true, sent, link, now).sent[k];
            exists j :: 0 <= j < |es| && PublishFor(p, es[j]) && !(j < |ctx.msgsOut.inflight| && Arrived(es[j]))
  {
    var r, es := ResetOut(cfg, ctx), All(ctx.msgsOut);
    ResetStates(cfg, ctx);
    ResetOutKeeps(cfg, ctx);
    hide ResetOut, From, CountersOk, OwedAll;
    var w := WriteAll(r, true, sent, link, now);
    var n, kept := WriteAny(r, 0, sent, link, now);
    var p := w.sent[k];
    assert p == OwedAll(r.inflight[0..n], now)[k - |sent|];
    assert p in OwedAll(r.inflight[0..n], now);
    var j := OwedFrom(r.inflight[0..n], now, p);
    var e := r.inflight[j];
    assert r.inflight[0..n][j] == e == All(r)[j];
    assert SameMessage(e, es[j]);
    assert PublishFor(p, es[j]);
  }

  /** A session that is taken over goes on in the same way, under the limits of the new connection. */
  lemma AdoptedStates(cfg: Config, ctx: Context, found: Context)
    ensures var md, r := found.msgsOut, Adopted(cfg, ctx, found).msgsOut;
            && |All(r)| == |All(md)| && |md.inflight| <= |r.inflight|
            && r.inflightMaximum == ctx.msgsOut.inflightMaximum
            && (forall j :: 0 <= j < |md.inflight| ==>
                  r.inflight[j] == if Arrived(md.inflight[j]) then md.inflight[j].(state := ResendPubrel)
                                   else Republished(md.inflight[j]))
            && (forall j :: |md.inflight| <= j < |All(md)| ==>
                  All(r)[j] == All(md)[j] || All(r)[j] == Republished(All(md)[j]))
  {
    hide ResetOut, CountersOk;
    var m := Transferred(ctx, found);
    assert m.msgsOut.inflight == found.msgsOut.inflight && All(m.msgsOut) == All(found.msgsOut);
    ResetStates(cfg, m);
    ResetOutKeeps(cfg, m);
    hide ResetIn;
  }

  /** The new connection's limits hold for incoming messages as well. */
  lemma AdoptedIn(cfg: Config, ctx: Context, found: Context)
    ensures var md, r := found.msgsIn, Adopted(cfg, ctx, found).msgsIn;
            && r.inflightMaximum == ctx.msgsIn.inflightMaximum
            && |Qos2(md.inflight)| <= |r.inflight| && r.inflight[..|Qos2(md.inflight)|] == Qos2(md.inflight)
  {
    hide ResetOut, CountersOk, Qos2;
    var m := Transferred(ctx, found);
    ResetInStates(cfg, m.(msgsOut := ResetOut(cfg, m)));
    hide ResetIn;
  }

  /** A session is taken over once: afterwards the old connection is no longer active, and whoever
      asks for its session again gets nothing of it. */
  lemma OnlyOnce(cfg: Config, v: View, v': View, v'': View, c: nat, d: nat, c2: nat)
    requires TakenOver(cfg, v, v', c, d) && TakenOver(cfg, v', v'', c2, d)
    ensures !v'.cs[d].active && |v''.cs| == |v'.cs|
    ensures forall k :: 0 <= k < |v'.cs| ==> All(v''.cs[k].msgsIn) == All(v'.cs[k].msgsIn)
                                             && All(v''.cs[k].msgsOut) == All(v'.cs[k].msgsOut)
  {
    hide Adopted, NotQos2, Refs, Quiet;
  }

  // ---------- after an acknowledgement ----------

  function RepublishedAll(es: seq<Entry>): (r: seq<Entry>)
    ensures |r| == |es| && forall i :: 0 <= i < |es| ==> r[i] == Republished(es[i])
  {
    seq(|es|, i requires 0 <= i < |es| => Republished(es[i]))
  }

  /** The lists after the first n queued entries went inflight, to be published. */
  ghost predicate MovedUp(md: MsgData, r: MsgData, n: nat)
  {
    && n <= |md.queued|
    && r.inflight == md.inflight + RepublishedAll(md.queued[..n]) && r.queued == md.queued[n..]
    && r.inflightMaximum == md.inflightMaximum
    && r.inflightQuota == if n <= md.inflightQuota then md.inflightQuota - n else 0
  }

  lemma MovedOn(md: MsgData, md': MsgData, r: MsgData, n: nat)
    requires md.queued != [] && md.inflightQuota >= 0
    requires MovedUp(md, md', 1) && MovedUp(md', r, n)
    ensures MovedUp(md, r, n + 1)
  {
    var a, b, c := RepublishedAll(md.queued[..1]), RepublishedAll(md'.queued[..n]), RepublishedAll(md.queued[..n + 1]);
    assert a + b == c;
    assert md.inflight + a + b == md.inflight + (a + b);
  }

  lemma MovedOne(md: MsgData)
    requires md.queued != [] && md.inflightQuota >= 0
    ensures MovedUp(md, Promote(md, |md.inflight|, PublishState(md.queued[0].qos, md.queued[0].state)), 1)
  {
    assert All(md)[|md.inflight|] == md.queued[0];
    assert RepublishedAll(md.queued[..1]) == [Republished(md.queued[0])];
  }

  lemma MovedNone(md: MsgData)
    requires md.inflightQuota >= 0
    ensures MovedUp(md, md, 0)
  {
    assert RepublishedAll(md.queued[..0]) == [];
  }

  /** The release by quota moves as many as the quota allows, the oldest first. */
  lemma {:induction false} ReleaseQueuedExact(md: MsgData)
    requires md.inflightQuota >= 0
    ensures MovedUp(md, ReleaseQueued(md),
                    if md.inflightMaximum == 0 || |md.queued| <= md.inflightQuota then |md.queued| else md.inflightQuota)
    decreases |md.queued|
  {
    hide MovedUp;
    MovedNone(md);
    if md.queued != [] && !(md.inflightMaximum != 0 && md.inflightQuota == 0) {
      var md' := Promote(md, |md.inflight|, PublishState(md.queued[0].qos, md.queued[0].state));
      MovedOne(md);
      MovedFacts(md, md', 1);
      hide Promote;
      ReleaseQueuedExact(md');
      MovedOn(md, md', ReleaseQueued(md'),
              if md'.inflightMaximum == 0 || |md'.queued| <= md'.inflightQuota then |md'.queued| else md'.inflightQuota);
    }
  }

  lemma MovedFacts(md: MsgData, r: MsgData, n: nat)
    requires MovedUp(md, r, n) && md.inflightQuota >= 0
    ensures |r.queued| == |md.queued| - n && r.inflightMaximum == md.inflightMaximum
    ensures r.inflightQuota == if n <= md.inflightQuota then md.inflightQuota - n else 0
  {
  }

  /** The release of an acknowledgement moves as many as its count leaves room for. */
  lemma {:induction false} ReleaseCountedExact(md: MsgData, index: nat)
    requires md.inflightQuota >= 0
    ensures MovedUp(md, ReleaseCounted(md, index),
                    if md.inflightMaximum == 0 || |md.queued| <= md.inflightMaximum - index then |md.queued|
                    else if index >= md.inflightMaximum then 0 else md.inflightMaximum - index)
    decreases |md.queued|
  {
    hide MovedUp;
    MovedNone(md);
    if md.queued != [] && !(md.inflightMaximum != 0 && index >= md.inflightMaximum) {
      var md' := Promote(md, |md.inflight|, PublishState(md.queued[0].qos, md.queued[0].state));
      MovedOne(md);
      MovedFacts(md, md', 1);
      hide Promote;
      ReleaseCountedExact(md', index + 1);
      MovedOn(md, md', ReleaseCounted(md', index + 1),
              if md'.inflightMaximum == 0 || |md'.queued| <= md'.inflightMaximum - (index + 1) then |md'.queued|
              else if index + 1 >= md'.inflightMaximum then 0 else md'.inflightMaximum - (index + 1));
    }
  }

  /** The first publishes of the entries. */
  function Publishes(es: seq<Entry>): (r: seq<Packet>)
    ensures |r| == |es|
  {
    seq(|es|, i requires 0 <= i < |es| => Publish(es[i].mid, es[i].store, es[i].qos, es[i].retain, es[i].dup))
  }

  lemma PublishesFirst(es: seq<Entry>)
    requires es != []
    ensures Publishes(es) == [Publish(es[0].mid, es[0].store, es[0].qos, es[0].retain, es[0].dup)] + Publishes(es[1..])
  {
  }

  lemma {:induction false} OwedPublishes(es: seq<Entry>, now: int)
    requires forall i :: 0 <= i < |es| ==> es[i].qos <= 2 && !Over(es[i], now)
    ensures OwedAll(RepublishedAll(es), now) == Publishes(es)
  {
    if es != [] {
      assert RepublishedAll(es)[1..] == RepublishedAll(es[1..]);
      assert Owed(RepublishedAll(es)[0], now) == [Publish(es[0].mid, es[0].store, es[0].qos, es[0].retain, es[0].dup)];
      hide Owed, Republished, Over, Publishes;
      OwedPublishes(es[1..], now);
      PublishesFirst(es);
    }
  }

  /** When an acknowledgement makes room, the next queued messages are published, oldest first and
      once each, and nothing else is sent, on a network that does not fail. */
  lemma NextPublished(md: MsgData, index: nat, sent: seq<Packet>, link: Link, now: int)
    requires md.inflightQuota >= 0 && forall n :: link(n) == 0
    requires forall i :: 0 <= i < |md.inflight| ==> Idle(md.inflight[i], now)
    requires forall i :: 0 <= i < |md.queued| ==> md.queued[i].qos <= 2 && !Over(md.queued[i], now)
    ensures var n := if md.inflightMaximum == 0 || |md.queued| <= md.inflightMaximum - index then |md.queued|
                     else if index >= md.inflightMaximum then 0 else md.inflightMaximum - index;
            WriteLatest(ReleaseCounted(md, index), true, sent, link, now).sent == sent + Publishes(md.queued[..n])
  {
    var n := if md.inflightMaximum == 0 || |md.queued| <= md.inflightMaximum - index then |md.queued|
             else if index >= md.inflightMaximum then 0 else md.inflightMaximum - index;
    ReleaseCountedExact(md, index);
    hide ReleaseCounted, WriteLatest, OwedAll, Idle, Over, Publishes;
    var next := md.queued[..n];
    forall i | 0 <= i < |next|
      ensures IsPublish(RepublishedAll(next)[i].state)
    {
    }
    LatestSends(ReleaseCounted(md, index), md.inflight, RepublishedAll(next), sent, link, now);
    OwedPublishes(next, now);
  }
}
