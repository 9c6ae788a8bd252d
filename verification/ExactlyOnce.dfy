/** Runs of PUBLISH and PUBREL: every accepted message of quality 2 is handed to its subscribers
    exactly once. */
module ExactlyOnce {
  import opened Messages
  import opened OutgoingWriter
  import opened StoreList
  import opened DbInvariant
  import opened Admission
  import opened SessionLists
  import opened DbSteps
  import opened Inbound
  import opened MessageDb
  import opened PendingIds
  import opened Answers

  /** How often a message was handed on with success. */
  function Successes(handed: seq<Handing>, s: nat): nat
  {
    if handed == [] then 0
    else (if handed[0].id == s && Succeeded(handed[0].rc) then 1 else 0) + Successes(handed[1..], s)
  }

  lemma {:induction false} SuccessesConcat(a: seq<Handing>, b: seq<Handing>, s: nat)
    ensures Successes(a + b, s) == Successes(a, s) + Successes(b, s)
  {
    if a == [] {
      assert a + b == b;
    } else {
      assert (a + b)[1..] == a[1..] + b;
      SuccessesConcat(a[1..], b, s);
    }
  }

  lemma {:induction false} NoSuccess(handed: seq<Handing>, s: nat)
    requires forall i :: 0 <= i < |handed| ==> handed[i].id != s || !Succeeded(handed[i].rc)
    ensures Successes(handed, s) == 0
  {
    if handed != [] { NoSuccess(handed[1..], s); }
  }

  /** Released entries that were all handed on with success. */
  lemma {:induction false} SuccessesRefs(es: seq<Entry>, result: nat -> int, s: nat)
    requires forall i :: 0 <= i < |es| ==> Succeeded(HandRc(es[i].store, result))
    ensures Successes(Handings(es, result), s) == Refs(es)[s]
  {
    if es != [] {
      var h := Handings(es, result);
      assert h[1..] == Handings(es[1..], result);
      SuccessesRefs(es[1..], result, s);
    }
  }

  ghost predicate OnlyQos2(es: seq<Entry>)
  {
    forall i :: 0 <= i < |es| ==> es[i].store.qos == es[i].qos == 2
  }

  ghost predicate InQos2(cs: seq<Context>)
  {
    forall c :: 0 <= c < |cs| ==> OnlyQos2(All(cs[c].msgsIn))
  }

  /** The log of hand-overs agrees with the account of incoming messages. */
  ghost predicate Tally(v: View, handed: seq<Handing>)
  {
    && (forall s :: v.accepted[s] > 0 ==> Successes(handed, s) == v.forwarded[s])
    && Bounded(handed, v.lastId)
    && InQos2(v.cs)
  }

  /** A new database starts with an agreeing tally, so the runs below can start from it. */
  lemma StartTally(cs: seq<Context>)
    requires forall c :: 0 <= c < |cs| ==> cs[c].msgsIn.inflight == cs[c].msgsIn.queued == []
    ensures Tally(View([], map[], 0, 0, 0, cs, map[], multiset{}, multiset{}, multiset{}, multiset{}), [])
    ensures AllOrderly(cs)
  {
  }

  /** An accepted message was handed on once, or is pending, or was discarded: exactly one of these. */
  lemma OnceEach(v: View, handed: seq<Handing>, s: nat)
    requires Inv(v) && Tally(v, handed) && v.accepted[s] > 0
    ensures Successes(handed, s) + InUses(v.cs, s) + v.discarded[s] == 1
  {
    hide ListOk, Known, RefsOk, CountersHold, InQos2;
  }

  // ---------- lists of quality 2 ----------

  lemma Qos2Same(a: seq<Entry>, b: seq<Entry>)
    requires SameMessages(a, b) && OnlyQos2(b)
    ensures OnlyQos2(a)
  {
    forall i | 0 <= i < |a|
      ensures a[i].store.qos == a[i].qos == 2
    {
      assert SameMessage(a[i], b[i]);
    }
  }

  lemma Qos2Part(a: seq<Entry>, b: seq<Entry>)
    requires OnlyQos2(b) && forall e :: e in a ==> e in b
    ensures OnlyQos2(a)
  {
    forall i | 0 <= i < |a|
      ensures a[i].store.qos == a[i].qos == 2
    {
      assert a[i] in b;
    }
  }

  lemma FinishedQos2(link: Link, f: Effect)
    requires OnlyQos2(All(f.ctx.msgsIn))
    ensures OnlyQos2(All(Finished(link, f).ctx.msgsIn))
  {
    if f.ctx.active {
      var md := f.ctx.msgsIn;
      QueuedInKeeps(md, |md.inflight|, f.ctx.msgsOut.inflightMaximum, f.sent, link);
      Qos2Same(All(Finished(link, f).ctx.msgsIn), All(md));
    }
  }

  lemma CleanedQos2(ctx: Context, x: Store)
    requires OnlyQos2(All(ctx.msgsIn))
    ensures OnlyQos2(All(Cleaned(ctx, x).msgsIn)) && Cleaned(ctx, x).maxQos == ctx.maxQos
  {
    var md := ctx.msgsIn;
    var i := FirstMid(md.inflight, x.sourceMid);
    if i < |md.inflight| {
      RemoveKeeps(md, i);
      Qos2Part(All(Removed(md, i)), All(md));
    }
  }

  lemma AppendedQos2(md: MsgData, e: Entry)
    requires OnlyQos2(All(md)) && e.store.qos == e.qos == 2
    ensures OnlyQos2(All(Appended(md, e, 2)))
  {
    var a, es := All(Appended(md, e, 2)), All(md);
    forall i | 0 <= i < |a|
      ensures a[i].store.qos == a[i].qos == 2
    {
      assert a[i] == e || a[i] in es;
    }
  }

  lemma InsertQos2(cfg: Config, link: Link, ctx: Context, mid: nat, x: Store, now: int, sent: seq<Packet>)
    requires OnlyQos2(All(ctx.msgsIn)) && x.qos == 2 <= ctx.maxQos
    ensures OnlyQos2(All(InsertEffect(cfg, link, ctx, mid, In, 2, x.retain, x, false, now, false, sent).ctx.msgsIn))
  {
    hide InsertPlan, OnlyQos2, Appended;
    match InsertPlan(cfg, ctx, In, 2, x.retain, false) {
      case Leave(_, _) =>
      case List(state, _) =>
        AppendedQos2(ctx.msgsIn, NewEntry(ctx, mid, In, 2, x.retain, x, state));
    }
  }

  lemma Publish2Qos2(cfg: Config, link: Link, ctx: Context, x: Store, now: int, sent: seq<Packet>)
    requires OnlyQos2(All(ctx.msgsIn)) && x.qos == 2 <= ctx.maxQos
    ensures OnlyQos2(All(Publish2(cfg, link, ctx, x, now, sent).ctx.msgsIn))
  {
    hide Duplicate, Cleaned, Admits, InsertEffect, Finished, OnlyQos2;
    FinishedQos2(link, Acknowledged(link, ctx, x.sourceMid, sent));
    CleanedQos2(ctx, x);
    InsertQos2(cfg, link, Cleaned(ctx, x), x.sourceMid, x, now, sent);
    var f := InsertEffect(cfg, link, Cleaned(ctx, x), x.sourceMid, In, 2, x.retain, x, false, now, false, sent);
    FinishedQos2(link, Acknowledged(link, f.ctx, x.sourceMid, f.sent));
    FinishedQos2(link, f.(rc := if f.rc == 1 then 1 else SUCCESS));
  }

  lemma {:induction false} DropQos2(md: MsgData, i: nat, m: nat, mid: nat)
    requires i + m <= |md.inflight| && OnlyQos2(All(md))
    ensures OnlyQos2(All(DropMid(md, i, m, mid)))
    decreases m
  {
    if m > 0 {
      if md.inflight[i].mid == mid {
        RemoveKeeps(md, i);
        Qos2Part(All(Removed(md, i)), All(md));
        DropQos2(Removed(md, i), i, m - 1, mid);
      } else {
        DropQos2(md, i + 1, m - 1, mid);
      }
    }
  }

  lemma ReleaseQos2(md: MsgData, mid: nat, result: nat -> int)
    requires OnlyQos2(All(md))
    ensures OnlyQos2(All(AfterRelease(md, mid, result)))
  {
    hide OnlyQos2, DropMid, ReleaseIn;
    var n := StopAt(md.inflight, mid, result);
    var d := DropMid(md, 0, n, mid);
    DropQos2(md, 0, n, mid);
    ReleaseInKeeps(d, |d.inflight|, n, []);
    Qos2Same(All(ReleaseIn(d, |d.inflight|, n, []).0), All(d));
  }

  lemma OnlyOutQos2(cs: seq<Context>, cs': seq<Context>)
    requires OnlyOut(cs, cs') && InQos2(cs)
    ensures InQos2(cs')
  {
    hide OnlyQos2;
  }

  // ---------- steps keep the tally ----------

  lemma TallyPublish2(v0: View, v: View, handed: seq<Handing>, c: nat, ctx: Context, x: Store, accept: bool)
    requires Inv(v0) && Tally(v0, handed) && c < |v0.cs| && x.id == v0.lastId + 1
    requires v.cs == v0.cs[c := ctx] && OnlyQos2(All(ctx.msgsIn))
    requires v.accepted == v0.accepted + (if accept then multiset{x.id} else multiset{})
    requires v.forwarded == v0.forwarded && v0.lastId <= v.lastId
    ensures Tally(v, handed)
  {
    InboundZero(v0, x.id);
    hide Inv, OnlyQos2, Successes;
    NoSuccess(handed, x.id);
  }

  /** A message that was never accepted was never forwarded. */
  lemma InboundZero(v: View, s: nat)
    requires Inv(v)
    ensures s > v.lastId ==> v.accepted[s] == 0
    ensures v.accepted[s] == 0 ==> v.forwarded[s] == 0 && v.discarded[s] == 0
  {
    hide ListOk, Known, RefsOk, CountersHold;
  }

  lemma TallyPublish01(v0: View, v: View, handed0: seq<Handing>, handed: seq<Handing>, h: Handing)
    requires Inv(v0) && Tally(v0, handed0) && InQos2(v.cs)
    requires v.accepted == v0.accepted && v.forwarded == v0.forwarded
    requires || (handed == handed0 && v.lastId == v0.lastId)
             || (handed == handed0 + [h] && h.id == v0.lastId + 1 == v.lastId)
    ensures Tally(v, handed)
  {
    InboundZero(v0, h.id);
    hide Inv, InQos2;
    forall s | v.accepted[s] > 0
      ensures Successes(handed, s) == v.forwarded[s]
    {
      if handed == handed0 + [h] {
        SuccessesConcat(handed0, [h], s);
        if h.id != s { NoSuccess([h], s); }
      }
    }
  }

  lemma TallyRelease(v0: View, v: View, c: nat, mid: nat, result: nat -> int, handed0: seq<Handing>, handed: seq<Handing>)
    requires Inv(v0) && Tally(v0, handed0) && ReleaseDone(v0, v, c, mid, result, handed0, handed)
    ensures Tally(v, handed)
  {
    hide Inv, OnlyQos2, Successes, StopAt, AfterRelease, OnlyOut, WithMid, Refs, Handings;
    var md := v0.cs[c].msgsIn;
    var n := StopAt(md.inflight, mid, result);
    ReleaseQos2(md, mid, result);
    OnlyOutQos2(v0.cs[c := v0.cs[c].(msgsIn := AfterRelease(md, mid, result))], v.cs);
    var hits := WithMid(md.inflight[..n], mid);
    var last := if n < |md.inflight| && md.inflight[n].store.qos == 2 then Handings([md.inflight[n]], result) else [];
    HitsKnown(v0, c, mid, result);
    forall s | v.accepted[s] > 0
      ensures Successes(handed, s) == v.forwarded[s]
    {
      SuccessesConcat(handed0 + Handings(hits, result), last, s);
      SuccessesConcat(handed0, Handings(hits, result), s);
      SuccessesRefs(hits, result, s);
      NoSuccess(last, s);
    }
    BoundedConcat(handed0, Handings(hits, result), v.lastId);
    BoundedConcat(handed0 + Handings(hits, result), last, v.lastId);
  }

  ghost predicate Bounded(handed: seq<Handing>, lastId: nat)
  {
    forall i :: 0 <= i < |handed| ==> handed[i].id <= lastId
  }

  lemma BoundedConcat(a: seq<Handing>, b: seq<Handing>, lastId: nat)
    requires Bounded(a, lastId) && Bounded(b, lastId)
    ensures Bounded(a + b, lastId)
  {
  }

  /** The entries a release looks at are stored, those it passes were handed on with success,
      and the one that ends it was not. */
  lemma HitsKnown(v: View, c: nat, mid: nat, result: nat -> int)
    requires Inv(v) && c < |v.cs|
    ensures var es := v.cs[c].msgsIn.inflight;
            var n := StopAt(es, mid, result);
            var hits := WithMid(es[..n], mid);
            var last := if n < |es| && es[n].store.qos == 2 then Handings([es[n]], result) else [];
            && (forall i :: 0 <= i < |hits| ==> Succeeded(HandRc(hits[i].store, result)))
            && (forall i :: 0 <= i < |last| ==> !Succeeded(last[i].rc))
            && Bounded(Handings(hits, result), v.lastId) && Bounded(last, v.lastId)
  {
    var es := v.cs[c].msgsIn.inflight;
    var n := StopAt(es, mid, result);
    var hits := WithMid(es[..n], mid);
    forall j | 0 <= j < |es|
      ensures es[j].store.id <= v.lastId
    {
      EntryListed(v, c, j);
      IdBound(v, es[j].store);
    }
    hide Inv, HandRc, Succeeded;
    forall i | 0 <= i < |hits|
      ensures Succeeded(HandRc(hits[i].store, result)) && hits[i].store.id <= v.lastId
    {
      assert hits[i] in es[..n];
      var j :| 0 <= j < n && es[j] == hits[i];
      assert !Stops(es[j], mid, result);
    }
  }

  lemma Publish01Qos2(cfg: Config, link: Link, f: Front, c: nat, x: Store, qos: nat, mid: nat, ds: seq<Delivery>,
                      searchRc: int, now: int)
    requires c < |f.cs| && DeliveriesOk(ds, |f.cs|) && InQos2(f.cs)
    ensures InQos2(Publish01(cfg, link, f, c, x, qos, mid, ds, searchRc, now).0.cs)
    ensures |Publish01(cfg, link, f, c, x, qos, mid, ds, searchRc, now).0.cs| == |f.cs|
  {
    hide DeliverAll, OnlyOut, OnlyQos2, Finished;
    var ctx := if qos == 1 then f.cs[c].(msgsIn := DecQuota(f.cs[c].msgsIn)) else f.cs[c];
    assert All(ctx.msgsIn) == All(f.cs[c].msgsIn);
    var f1 := f.(cs := f.cs[c := ctx]);
    var ds' := if Untokenised(x.topic) then [] else ds;
    var g := DeliverAll(cfg, link, f1, x, ds', now);
    DeliverOnlyOut(cfg, link, f1, x, ds', now);
    OnlyOutQos2(f1.cs, g.cs);
    FinishedQos2(link, Answered(link, g.cs[c], qos, mid, if Untokenised(x.topic) then 1 else searchRc, g.sent));
  }

  /** With pending messages of quality 2 only, a PUBLISH of quality 1 is never a retransmission. */
  lemma NotDuplicate(md: MsgData, msg: Store)
    requires OnlyQos2(All(md)) && msg.qos == 1 && msg.sourceMid != 0
    ensures !Duplicate(md, msg)
  {
    hide FirstSource;
  }

  lemma Tally01(cfg: Config, link: Link, v0: View, v: View, f0: Front, f: Front, c: nat, msg: Store,
                ds: seq<Delivery>, searchRc: int, now: int, handed0: seq<Handing>, handed: seq<Handing>, rc: int)
    requires Inv(v0) && Tally(v0, handed0) && f0.cs == v0.cs && f.cs == v.cs
    requires msg.qos <= 1 && (msg.qos > 0 ==> msg.sourceMid != 0)
    requires Published01(cfg, link, v0, v, f0, f, c, msg, ds, searchRc, now, handed0, handed, rc)
    ensures Tally(v, handed)
  {
    hide Inv, Cleaned, Duplicate, Admits, Publish01, OnlyQos2, Successes, Discards;
    var cleaned, x := Cleaned(f0.cs[c], msg), msg.(id := v0.lastId + 1);
    if msg.qos == 1 { NotDuplicate(f0.cs[c].msgsIn, msg); }
    CleanedQos2(f0.cs[c], msg);
    Publish01Qos2(cfg, link, f0.(cs := f0.cs[c := cleaned]), c, x, msg.qos, msg.sourceMid, ds, searchRc, now);
    TallyPublish01(v0, v, handed0, handed, Handing(x.id, if Untokenised(x.topic) then 1 else searchRc));
  }

  /** Resetting a list of quality 2 drops nothing. */
  lemma {:induction false} NoneDropped(es: seq<Entry>)
    requires OnlyQos2(es)
    ensures NotQos2(es) == []
  {
    if es != [] { NoneDropped(es[..|es| - 1]); }
  }

  /** A takeover loses no pending message and keeps the tally. */
  lemma TallyTakeover(cfg: Config, v0: View, v: View, c: nat, d: nat, handed: seq<Handing>)
    requires Tally(v0, handed) && TakenOver(cfg, v0, v, c, d)
    ensures Tally(v, handed) && v.accepted == v0.accepted && v.forwarded == v0.forwarded && v.discarded == v0.discarded
    ensures |v.cs| == |v0.cs|
  {
    hide TakenOver, InQos2, OnlyQos2, Successes, Bounded;
    TakeoverAccounts(cfg, v0, v, c, d);
    TakeoverQos2(cfg, v0, v, c, d);
  }

  lemma TakeoverAccounts(cfg: Config, v0: View, v: View, c: nat, d: nat)
    requires TakenOver(cfg, v0, v, c, d) && InQos2(v0.cs)
    ensures v.accepted == v0.accepted && v.forwarded == v0.forwarded && v.discarded == v0.discarded && v.lastId == v0.lastId
    ensures |v.cs| == |v0.cs|
  {
    hide Adopted, OnlyQos2;
    InflightQos2(v0.cs[d].msgsIn);
    NoneDropped(v0.cs[d].msgsIn.inflight);
  }

  lemma TakeoverQos2(cfg: Config, v0: View, v: View, c: nat, d: nat)
    requires TakenOver(cfg, v0, v, c, d) && InQos2(v0.cs)
    ensures InQos2(v.cs)
  {
    hide Adopted, OnlyQos2, Quiet, Refs, NotQos2, CountersOk;
    AdoptedQos2(cfg, v0.cs[c], v0.cs[d]);
    EmptyQos2();
    EmptyCounters();
  }

  lemma InflightQos2(md: MsgData)
    requires OnlyQos2(All(md))
    ensures OnlyQos2(md.inflight)
  {
    assert forall i :: 0 <= i < |md.inflight| ==> md.inflight[i] == All(md)[i];
  }

  lemma EmptyQos2()
    ensures OnlyQos2([])
  {
  }

  lemma AdoptedQos2(cfg: Config, ctx: Context, found: Context)
    requires OnlyQos2(All(found.msgsIn))
    ensures OnlyQos2(All(Adopted(cfg, ctx, found).msgsIn))
  {
    hide Adopted, OnlyQos2, CountersOk;
    var md := found.msgsIn;
    AdoptedKeeps(cfg, ctx, found);
    Qos2Part(Qos2(md.inflight) + md.queued, All(md));
    Qos2Same(All(Adopted(cfg, ctx, found).msgsIn), Qos2(md.inflight) + md.queued);
  }

  lemma TallyDelete(v0: View, v: View, c: nat, force: bool, handed: seq<Handing>)
    requires Tally(v0, handed) && Deleted(v0, v, c, force)
    ensures Tally(v, handed)
  {
    hide OnlyQos2, Successes, Bounded;
    EmptyQos2();
    assert All(Cleared(v0.cs[c].msgsIn)) == [];
  }

  // ---------- steps ----------

  datatype Step =
    | PublishStep(client: nat, msg: Store, ds: seq<Delivery>, searchRc: int, now: int)
    | PubrelStep(client: nat, mid: nat, deliveries: nat -> seq<Delivery>, result: nat -> int, now: int)
    | TakeoverStep(client: nat, found: nat)
    | DeleteStep(client: nat, force: bool)

  /** What the network layer guarantees of a packet, and the search of the subscriptions of its result. */
  ghost predicate StepOk(step: Step, clients: nat)
  {
    && step.client < clients
    && match step
       case PublishStep(_, msg, ds, _, _) =>
         msg.qos <= 2 && (msg.qos > 0 ==> msg.sourceMid != 0) && DeliveriesOk(ds, clients)
       case PubrelStep(_, _, deliveries, _, _) => AllDeliveriesOk(deliveries, clients)
       case TakeoverStep(c, d) => d < clients && c != d
       case DeleteStep(_, _) => true
  }

  /** The database between steps: with its view, what was delivered, sent and handed on so far. */
  datatype State = State(view: View, destIds: set<(nat, string)>, sent: seq<Packet>, handed: seq<Handing>)

  function FrontOf(s: State): Front
  {
    Front(s.view.cs, s.destIds, s.sent)
  }

  /** A step that was taken, and its answer; for a PUBREL also the state and the result of the
      release within it. */
  datatype Event = Event(step: Step, before: State, released: State, found: int, after: State, rc: int)

  /** A client that takes a session over is new: it has no messages yet. */
  predicate Fresh(ctx: Context)
  {
    All(ctx.msgsIn) == [] && All(ctx.msgsOut) == []
  }

  /** What the step has done. */
  ghost predicate Happened(cfg: Config, link: Link, e: Event)
  {
    var a, b := e.before, e.after;
    && StepOk(e.step, |a.view.cs|)
    && match e.step
       case PublishStep(_, _, _, _, _) => PublishHappened(cfg, link, e)
       case PubrelStep(_, _, _, _, _) => PubrelHappened(cfg, link, e)
       case TakeoverStep(c, d) =>
         if Fresh(a.view.cs[c]) then
           TakenOver(cfg, a.view, b.view, c, d) && b == a.(view := b.view)
         else b == a
       case DeleteStep(c, force) => Deleted(a.view, b.view, c, force) && b == a.(view := b.view)
  }

  ghost predicate PublishHappened(cfg: Config, link: Link, e: Event)
    requires e.step.PublishStep? && StepOk(e.step, |e.before.view.cs|)
  {
    var a, b, c, msg := e.before, e.after, e.step.client, e.step.msg;
    if msg.qos > a.view.cs[c].maxQos then
      b == a && e.rc == QOS_NOT_SUPPORTED
    else if msg.qos == 2 then
      && Published2(cfg, link, a.view, b.view, c, msg, e.step.now, a.sent, b.sent, e.rc)
      && b.destIds == a.destIds && b.handed == a.handed
    else
      Published01(cfg, link, a.view, b.view, FrontOf(a), FrontOf(b), c, msg, e.step.ds, e.step.searchRc, e.step.now, a.handed,
                  b.handed, e.rc)
  }

  ghost predicate PubrelHappened(cfg: Config, link: Link, e: Event)
    requires e.step.PubrelStep? && StepOk(e.step, |e.before.view.cs|)
  {
    var a, m, b, c, mid, result := e.before, e.released, e.after, e.step.client, e.step.mid, e.step.result;
    && e.found == ReleaseRc(a.view.cs[c].msgsIn.inflight, mid, result)
    && ReleaseDone(a.view, m.view, c, mid, result, a.handed, m.handed)
    && ReleaseEffect(cfg, link, Walk(FrontOf(a), a.view.retained), Walk(FrontOf(m), m.view.retained), c, mid,
                     e.step.deliveries, result, e.step.now)
    && Completed(link, m.view, b.view, m.sent, b.sent, c, mid, e.found, e.rc)
    && b.handed == m.handed && b.destIds == m.destIds
  }

  /** The step found its id pending with other content. */
  predicate Reuses(e: Event)
  {
    && e.step.PublishStep? && e.step.msg.qos > 0 && e.step.client < |e.before.view.cs|
    && Reused(e.before.view.cs[e.step.client].msgsIn, e.step.msg)
  }

  /** The step deleted messages that were pending. */
  predicate Deletes(e: Event)
  {
    && e.step.DeleteStep? && e.step.client < |e.before.view.cs|
    && (e.step.force || e.before.view.cs[e.step.client].cleanStart)
    && All(e.before.view.cs[e.step.client].msgsIn) != []
  }

  /** The step made a message pending. */
  predicate Accepted(e: Event)
  {
    e.step.PublishStep? && e.after.view.accepted != e.before.view.accepted
  }

  /** The step made a message pending under an id whose old message stays. */
  predicate Doubles(e: Event)
  {
    Accepted(e) && e.step.client < |e.before.view.cs| && Lingers(e.before.view.cs[e.step.client], e.step.msg)
  }

  /** The account after a step: messages are only ever added to it, and given up only on reuse of
      their id or when they are deleted. */
  ghost predicate StepDone(v0: View, v: View, lossy: bool)
  {
    && |v.cs| == |v0.cs|
    && v0.accepted <= v.accepted && v0.forwarded <= v.forwarded
    && (!lossy ==> v.discarded == v0.discarded)
  }

  /** Every step keeps the account; in particular a takeover loses nothing. */
  lemma HappenedTally(cfg: Config, link: Link, e: Event)
    requires Happened(cfg, link, e) && Inv(e.before.view) && Tally(e.before.view, e.before.handed)
    ensures Tally(e.after.view, e.after.handed) && StepDone(e.before.view, e.after.view, Reuses(e) || Deletes(e))
    ensures e.before.handed <= e.after.handed
  {
    hide Inv, Tally, PublishHappened, PubrelHappened, TakenOver, Reused, StepDone;
    var a, b := e.before, e.after;
    match e.step {
      case PublishStep(_, _, _, _, _) => PublishTally(cfg, link, e);
      case PubrelStep(_, _, _, _, _) => PubrelTally(cfg, link, e);
      case TakeoverStep(c, d) =>
        if Fresh(a.view.cs[c]) { TallyTakeover(cfg, a.view, b.view, c, d, a.handed); }
        SameDone(a.view, b.view);
      case DeleteStep(c, force) =>
        TallyDelete(a.view, b.view, c, force, a.handed);
        DoneDelete(a.view, b.view, c, force);
    }
  }

  lemma SameDone(v0: View, v: View)
    requires |v.cs| == |v0.cs| && v.accepted == v0.accepted && v.forwarded == v0.forwarded && v.discarded == v0.discarded
    ensures StepDone(v0, v, false)
  {
  }

  lemma DoneDelete(v0: View, v: View, c: nat, force: bool)
    requires Deleted(v0, v, c, force)
    ensures StepDone(v0, v, (force || v0.cs[c].cleanStart) && All(v0.cs[c].msgsIn) != [])
  {
    assert Refs([]) == multiset{};
  }

  lemma PublishTally(cfg: Config, link: Link, e: Event)
    requires Happened(cfg, link, e) && e.step.PublishStep?
    requires Inv(e.before.view) && Tally(e.before.view, e.before.handed)
    ensures Tally(e.after.view, e.after.handed) && StepDone(e.before.view, e.after.view, Reuses(e))
    ensures e.before.handed <= e.after.handed
  {
    hide Inv, Tally, Publish2, Published01, Accepts, Reused, Removes, OnlyQos2;
    var a, b, c, msg := e.before, e.after, e.step.client, e.step.msg;
    if msg.qos <= a.view.cs[c].maxQos {
      if msg.qos == 2 {
        var x := msg.(id := a.view.lastId + 1);
        TallyIn(a.view, a.handed, c);
        Publish2Qos2(cfg, link, a.view.cs[c], x, e.step.now, a.sent);
        TallyPublish2(a.view, b.view, a.handed, c, Publish2(cfg, link, a.view.cs[c], x, e.step.now, a.sent).ctx, x,
                      Accepts(cfg, a.view.cs[c], x));
      } else {
        Tally01(cfg, link, a.view, b.view, FrontOf(a), FrontOf(b), c, msg, e.step.ds, e.step.searchRc, e.step.now, a.handed,
                b.handed, e.rc);
        Done01(cfg, link, a.view, b.view, FrontOf(a), FrontOf(b), c, msg, e.step.ds, e.step.searchRc, e.step.now, a.handed,
               b.handed, e.rc);
      }
    }
  }

  lemma PubrelTally(cfg: Config, link: Link, e: Event)
    requires Happened(cfg, link, e) && e.step.PubrelStep?
    requires Inv(e.before.view) && Tally(e.before.view, e.before.handed)
    ensures Tally(e.after.view, e.after.handed) && StepDone(e.before.view, e.after.view, false)
    ensures e.before.handed <= e.after.handed
  {
    hide Inv, Tally, ReleaseDone, ReleaseEffect, ReleaseRc, Credited;
    var a, m, c, mid, result := e.before, e.released, e.step.client, e.step.mid, e.step.result;
    TallyRelease(a.view, m.view, c, mid, result, a.handed, m.handed);
    DoneRelease(a.view, m.view, c, mid, result, a.handed, m.handed);
    TallyCredit(m.view, m.handed, c);
  }

  lemma TallyCredit(v: View, handed: seq<Handing>, c: nat)
    requires Tally(v, handed) && c < |v.cs|
    ensures Tally(v.(cs := v.cs[c := Credited(v.cs[c])]), handed)
  {
    hide OnlyQos2, Successes, Bounded;
    assert All(Credited(v.cs[c]).msgsIn) == All(v.cs[c].msgsIn);
  }

  lemma TallyIn(v: View, handed: seq<Handing>, c: nat)
    requires Tally(v, handed) && c < |v.cs|
    ensures OnlyQos2(All(v.cs[c].msgsIn))
  {
  }

  lemma Done01(cfg: Config, link: Link, v0: View, v: View, f0: Front, f: Front, c: nat, msg: Store,
               ds: seq<Delivery>, searchRc: int, now: int, handed0: seq<Handing>, handed: seq<Handing>, rc: int)
    requires f0.cs == v0.cs && f.cs == v.cs
    requires Published01(cfg, link, v0, v, f0, f, c, msg, ds, searchRc, now, handed0, handed, rc)
    ensures StepDone(v0, v, msg.qos > 0 && Reused(f0.cs[c].msgsIn, msg))
    ensures v.accepted == v0.accepted && handed0 <= handed
  {
    hide Cleaned, Duplicate, Admits, Reused, Removes, DeliverAll, Finished, Answered;
  }

  lemma DoneRelease(v0: View, v: View, c: nat, mid: nat, result: nat -> int, handed0: seq<Handing>, handed: seq<Handing>)
    requires ReleaseDone(v0, v, c, mid, result, handed0, handed)
    ensures StepDone(v0, v, false) && v.accepted == v0.accepted && handed0 <= handed
  {
    hide AfterRelease, WithMid, StopAt, Handings;
  }

  // ---------- the pending ids along steps ----------

  function Taken(e: Event): set<(nat, nat)>
  {
    if Accepted(e) then {(e.step.client, e.step.msg.sourceMid)} else {}
  }

  /** A PUBLISH makes only its own id pending, and leaves distinct ids distinct exactly unless it
      makes its id pending twice. */
  lemma PublishIds(cfg: Config, link: Link, e: Event)
    requires Happened(cfg, link, e) && e.step.PublishStep?
    ensures FreshKept(e.before.view.cs, e.after.view.cs, Taken(e))
    ensures AllOrderly(e.before.view.cs) ==> (AllOrderly(e.after.view.cs) <==> !Doubles(e))
    ensures Doubles(e) ==> Reuses(e)
  {
    hide Publish2, Published01, Accepts, Reused, Removes, AllOrderly;
    var a, b, c, msg := e.before, e.after, e.step.client, e.step.msg;
    if msg.qos > a.view.cs[c].maxQos {
    } else if msg.qos == 2 {
      var x := msg.(id := a.view.lastId + 1);
      SameReuse(a.view.cs[c].msgsIn, msg, x);
      hide FreshKept;
      Publish2Ids(cfg, link, a.view.cs, c, x, e.step.now, a.sent);
    } else {
      hide FreshKept;
      Done01(cfg, link, a.view, b.view, FrontOf(a), FrontOf(b), c, msg, e.step.ds, e.step.searchRc, e.step.now, a.handed,
             b.handed, e.rc);
      Published01Ids(cfg, link, a.view, b.view, FrontOf(a), FrontOf(b), c, msg, e.step.ds, e.step.searchRc, e.step.now,
                     a.handed, b.handed, e.rc);
    }
  }

  /** The number a message is given plays no part in finding its id reused. */
  lemma SameReuse(md: MsgData, msg: Store, x: Store)
    requires x == msg.(id := x.id)
    ensures Reused(md, msg) == Reused(md, x)
  {
    hide FirstSource;
  }

  /** A PUBREL makes no id pending.  At a client with distinct pending ids success means that exactly
      one message was handed on and that the id is free; for a free id nothing is handed on. */
  lemma PubrelIds(cfg: Config, link: Link, e: Event)
    requires Happened(cfg, link, e) && e.step.PubrelStep?
    ensures FreshKept(e.before.view.cs, e.after.view.cs, {})
    ensures AllOrderly(e.before.view.cs) ==> AllOrderly(e.after.view.cs)
    ensures var md := e.before.view.cs[e.step.client].msgsIn;
            && |e.after.view.cs| == |e.before.view.cs|
            && (e.found == SUCCESS && Orderly(All(md)) ==>
                  && HandsOne(md, e.step.mid, e.before.handed, e.after.handed, e.before.view.forwarded, e.after.view.forwarded)
                  && MidFree(All(e.after.view.cs[e.step.client].msgsIn), e.step.mid))
            && (MidFree(All(md), e.step.mid) ==>
                  e.found == NOT_FOUND && e.after.handed == e.before.handed
                  && e.after.view.forwarded == e.before.view.forwarded)
  {
    hide ReleaseDone, ReleaseEffect, Orderly, MidFree, FreshKept, AllOrderly, HandsOne, StopAt, WithMid;
    var a, m, b, c, mid, result := e.before, e.released, e.after, e.step.client, e.step.mid, e.step.result;
    var md := a.view.cs[c].msgsIn;
    ReleaseIds(a.view, m.view, c, mid, result, a.handed, m.handed);
    ReleaseLength(a.view, m.view, c, mid, result, a.handed, m.handed);
    CompletedIds(link, m.view, b.view, m.sent, b.sent, c, mid, e.found, e.rc);
    FreshTwice(a.view.cs, m.view.cs, b.view.cs, {}, {});
    if e.found == SUCCESS && Orderly(All(md)) {
      ReleaseOne(a.view, m.view, c, mid, result, a.handed, m.handed);
    }
    if MidFree(All(md), mid) {
      ReleaseNone(a.view, m.view, c, mid, result, a.handed, m.handed);
    }
  }

  // ---------- the answers ----------

  /** A PUBLISH is answered as it should: refused above the client's quality, or with the packets of
      Answered2 or Answered01. */
  ghost predicate WellAnswered(cfg: Config, link: Link, e: Event)
    requires e.step.PublishStep? && StepOk(e.step, |e.before.view.cs|)
  {
    var a, b, c, msg := e.before, e.after, e.step.client, e.step.msg;
    if msg.qos > a.view.cs[c].maxQos then b == a && e.rc == 24
    else if msg.qos == 2 then
      Answered2(cfg, link, a.view.cs[c], msg.(id := a.view.lastId + 1), e.step.now, a.sent, b.sent)
    else
      Answered01(cfg, link, a.view.lastId, FrontOf(a), FrontOf(b), c, msg, e.step.ds, e.step.searchRc, e.step.now)
  }

  lemma PublishAnswered(cfg: Config, link: Link, e: Event)
    requires Happened(cfg, link, e) && e.step.PublishStep?
    ensures WellAnswered(cfg, link, e)
  {
    hide Publish2, Published01, Accepts, Discards, Answered2, Answered01, DeliveriesOk;
    var a, b, c, msg := e.before, e.after, e.step.client, e.step.msg;
    if msg.qos <= a.view.cs[c].maxQos {
      if msg.qos == 2 {
        Publish2Sends(cfg, link, a.view.cs[c], msg.(id := a.view.lastId + 1), e.step.now, a.sent);
      } else {
        Published01Sends(cfg, link, a.view, b.view, FrontOf(a), FrontOf(b), c, msg, e.step.ds, e.step.searchRc, e.step.now,
                         a.handed, b.handed, e.rc);
      }
    }
  }

  /** A PUBREL for a message that nobody has subscribed to is as good as any: the id is free
      afterwards, and a PUBCOMP is the answer. */
  lemma WithoutSubscribers(cfg: Config, link: Link, e: Event)
    requires Happened(cfg, link, e) && e.step.PubrelStep?
    requires var es := e.before.view.cs[e.step.client].msgsIn.inflight;
             && (forall i :: 0 <= i < |es| && es[i].mid == e.step.mid ==>
                   && es[i].store.qos == 2 && es[i].store.topic != "" && es[i].store.topic != "$share"
                   && e.step.result(es[i].store.id) == -3)
             && exists i :: 0 <= i < |es| && es[i].mid == e.step.mid
    ensures e.found == 0 && e.after.sent == e.released.sent + [Pubcomp(e.step.mid)] && e.rc == link(|e.released.sent|)
    ensures |e.after.view.cs| == |e.before.view.cs|
    ensures Orderly(All(e.before.view.cs[e.step.client].msgsIn)) ==>
              MidFree(All(e.after.view.cs[e.step.client].msgsIn), e.step.mid)
  {
    var es := e.before.view.cs[e.step.client].msgsIn.inflight;
    ReleaseRcIs(es, e.step.mid, e.step.result);
    PubrelIds(cfg, link, e);
    hide ReleaseDone, ReleaseEffect, ReleaseRc, Orderly, MidFree, HandsOne, FreshKept, AllOrderly;
    assert forall i :: 0 <= i < |es| ==> !Stuck(es[i], e.step.mid, e.step.result);
  }

  // ---------- runs ----------

  /** Steps that follow one another. */
  ghost predicate Run(cfg: Config, link: Link, run: seq<Event>)
  {
    && (forall i :: 0 <= i < |run| ==> Happened(cfg, link, run[i]))
    && forall i :: 0 <= i < |run| - 1 ==> run[i + 1].before == run[i].after
  }

  /** The run leads from one state to the other. */
  ghost predicate Leads(run: seq<Event>, a: State, b: State)
  {
    if run == [] then a == b else run[0].before == a && run[|run| - 1].after == b
  }

  predicate AnyReuse(run: seq<Event>)
  {
    exists i :: 0 <= i < |run| && Reuses(run[i])
  }

  predicate AnyLoss(run: seq<Event>)
  {
    exists i :: 0 <= i < |run| && (Reuses(run[i]) || Deletes(run[i]))
  }

  lemma NoSteps(cfg: Config, link: Link, a: State)
    ensures Run(cfg, link, []) && Leads([], a, a)
  {
  }

  lemma RunGrows(cfg: Config, link: Link, run: seq<Event>, e: Event, a: State)
    requires Run(cfg, link, run) && Leads(run, a, e.before) && Happened(cfg, link, e)
    ensures Run(cfg, link, run + [e]) && Leads(run + [e], a, e.after)
  {
    hide Happened;
  }

  lemma DoneGrows(run: seq<Event>, e: Event, v0: View)
    requires StepDone(v0, e.before.view, AnyLoss(run))
    requires StepDone(e.before.view, e.after.view, Reuses(e) || Deletes(e))
    ensures StepDone(v0, e.after.view, AnyLoss(run + [e]))
  {
    hide Reuses, Deletes;
    assert (run + [e])[|run|] == e;
    assert forall i :: 0 <= i < |run| ==> (run + [e])[i] == run[i];
  }

  /** From distinct pending ids on, the ids stay distinct along the whole run exactly when no step
      makes an id pending twice. */
  lemma {:induction false} RunOrderly(cfg: Config, link: Link, run: seq<Event>)
    requires Run(cfg, link, run) && (run != [] ==> AllOrderly(run[0].before.view.cs))
    ensures (forall i :: 0 <= i < |run| ==> AllOrderly(run[i].after.view.cs)) <==>
            (forall i :: 0 <= i < |run| ==> !Doubles(run[i]))
  {
    hide Happened, AllOrderly, Doubles;
    if run != [] {
      var n := |run| - 1;
      RunOrderly(cfg, link, run[..n]);
      assert forall i :: 0 <= i < n ==> run[..n][i] == run[i];
      StepOrderly(cfg, link, run[n]);
      if n > 0 { assert run[n].before == run[n - 1].after; }
    }
  }

  lemma StepOrderly(cfg: Config, link: Link, e: Event)
    requires Happened(cfg, link, e)
    ensures AllOrderly(e.before.view.cs) ==> (AllOrderly(e.after.view.cs) <==> !Doubles(e))
  {
    hide PublishHappened, PubrelHappened, TakenOver, Deleted, AllOrderly, Lingers;
    match e.step {
      case PublishStep(_, _, _, _, _) => PublishIds(cfg, link, e);
      case PubrelStep(_, _, _, _, _) => PubrelIds(cfg, link, e);
      case TakeoverStep(c, d) =>
        if Fresh(e.before.view.cs[c]) { TakeoverIds(cfg, e.before.view, e.after.view, c, d); }
      case DeleteStep(c, force) => DeleteIds(e.before.view, e.after.view, c, force);
    }
  }

  /** The step lets its client resume the session of another. */
  predicate Resumes(e: Event)
  {
    && e.step.TakeoverStep? && e.step.client < |e.before.view.cs| && e.step.found < |e.before.view.cs|
    && Fresh(e.before.view.cs[e.step.client])
    && !e.before.view.cs[e.step.client].cleanStart && e.before.view.cs[e.step.found].sessionExpiryInterval > 0
  }

  /** Since the session last had a message accepted under the id, a PUBREL for it has succeeded;
      a client that resumes a session continues its history. */
  predicate Closed(run: seq<Event>, c: nat, mid: nat)
    decreases |run|
  {
    && run != []
    && var e, before := run[|run| - 1], run[..|run| - 1];
       if Accepted(e) && e.step.client == c && e.step.msg.sourceMid == mid then false
       else if Resumes(e) && e.step.client == c then Closed(before, e.step.found, mid)
       else (e.step.PubrelStep? && e.step.client == c && e.step.mid == mid && e.found == SUCCESS) || Closed(before, c, mid)
  }

  ghost predicate ClosedFree(run: seq<Event>, cs: seq<Context>)
  {
    forall c: nat, mid: nat :: c < |cs| && Closed(run, c, mid) ==> MidFree(All(cs[c].msgsIn), mid)
  }

  /** A closed id is not pending. */
  lemma {:induction false} ClosedIsFree(cfg: Config, link: Link, run: seq<Event>)
    requires Run(cfg, link, run) && run != [] && AllOrderly(run[0].before.view.cs)
    requires forall i :: 0 <= i < |run| ==> !Doubles(run[i])
    ensures ClosedFree(run, run[|run| - 1].after.view.cs)
    decreases |run|, 1
  {
    hide Happened, AllOrderly, Doubles, ClosedFree;
    var n := |run| - 1;
    ClosedBefore(cfg, link, run, n);
    assert run == run[..n] + [run[n]];
    StepClosed(cfg, link, run[..n], run[n]);
  }

  lemma NoneClosed(cs: seq<Context>)
    ensures ClosedFree([], cs)
  {
  }

  lemma StepClosed(cfg: Config, link: Link, run: seq<Event>, e: Event)
    requires Happened(cfg, link, e) && AllOrderly(e.before.view.cs) && ClosedFree(run, e.before.view.cs)
    ensures ClosedFree(run + [e], e.after.view.cs)
  {
    hide PublishHappened, PubrelHappened, TakenOver, Deleted, MidFree, Orderly, HandsOne;
    assert (run + [e])[..|run|] == run;
    match e.step {
      case PublishStep(_, _, _, _, _) => PublishIds(cfg, link, e);
      case PubrelStep(_, _, _, _, _) => PubrelIds(cfg, link, e);
      case TakeoverStep(c, d) => TakeoverClosed(cfg, link, run, e);
      case DeleteStep(c, force) => DeleteIds(e.before.view, e.after.view, c, force);
    }
  }

  lemma TakeoverClosed(cfg: Config, link: Link, run: seq<Event>, e: Event)
    requires Happened(cfg, link, e) && e.step.TakeoverStep? && ClosedFree(run, e.before.view.cs)
    ensures ClosedFree(run + [e], e.after.view.cs)
  {
    hide TakenOver;
    assert (run + [e])[..|run|] == run;
    if Fresh(e.before.view.cs[e.step.client]) {
      TakeoverIds(cfg, e.before.view, e.after.view, e.step.client, e.step.found);
    }
  }

  lemma {:induction false} ClosedBefore(cfg: Config, link: Link, run: seq<Event>, j: nat)
    requires Run(cfg, link, run) && j < |run| && AllOrderly(run[0].before.view.cs)
    requires forall i :: 0 <= i < j ==> !Doubles(run[i])
    ensures AllOrderly(run[j].before.view.cs) && ClosedFree(run[..j], run[j].before.view.cs)
    decreases j, 2
  {
    hide Happened, AllOrderly, Doubles, ClosedFree;
    if j > 0 {
      assert forall i :: 0 <= i < j ==> run[..j][i] == run[i];
      ClosedIsFree(cfg, link, run[..j]);
      RunOrderly(cfg, link, run[..j]);
      assert run[j].before == run[j - 1].after;
    } else {
      NoneClosed(run[0].before.view.cs);
      assert run[..0] == [];
    }
  }

  /** A PUBREL of a run that succeeds hands on exactly one message, with success; one for a closed id
      finds nothing and hands nothing on, but is answered with a PUBCOMP all the same. */
  ghost predicate ReleasedOnce(run: seq<Event>, j: nat)
    requires j < |run| && run[j].step.PubrelStep?
  {
    var e := run[j];
    && e.step.client < |e.before.view.cs|
    && (e.found == SUCCESS ==> HandsOne(e.before.view.cs[e.step.client].msgsIn, e.step.mid, e.before.handed, e.after.handed,
                                        e.before.view.forwarded, e.after.view.forwarded))
    && (Closed(run[..j], e.step.client, e.step.mid) ==>
          && e.found == NOT_FOUND && e.after.handed == e.before.handed && e.after.view.forwarded == e.before.view.forwarded
          && e.after.sent == e.released.sent + [Pubcomp(e.step.mid)])
  }

  /** Where no step made an id pending twice, every PUBREL hands on once, whatever other steps come
      between it and the PUBREL it repeats, reconnections included. */
  lemma PubrelsOnce(cfg: Config, link: Link, run: seq<Event>, j: nat)
    requires Run(cfg, link, run) && j < |run| && run[j].step.PubrelStep? && AllOrderly(run[0].before.view.cs)
    requires forall i :: 0 <= i < j ==> !Doubles(run[i])
    ensures ReleasedOnce(run, j)
  {
    hide Happened, Doubles, Closed, Orderly, MidFree, HandsOne;
    ClosedBefore(cfg, link, run, j);
    PubrelIds(cfg, link, run[j]);
    PubrelAnswer(cfg, link, run[j]);
  }

  lemma PubrelAnswer(cfg: Config, link: Link, e: Event)
    requires Happened(cfg, link, e) && e.step.PubrelStep?
    ensures e.step.client < |e.before.view.cs|
    ensures e.found == SUCCESS || e.found == NOT_FOUND ==> e.after.sent == e.released.sent + [Pubcomp(e.step.mid)]
  {
    hide ReleaseDone, ReleaseEffect, ReleaseRc;
  }

  /** A run without reuse of pending ids keeps the ids distinct and releases every message once. */
  lemma RunWithoutReuse(cfg: Config, link: Link, run: seq<Event>, a: State, b: State)
    requires Run(cfg, link, run) && Leads(run, a, b) && AllOrderly(a.view.cs) && !AnyReuse(run)
    ensures AllOrderly(b.view.cs)
    ensures forall j :: 0 <= j < |run| && run[j].step.PubrelStep? ==> ReleasedOnce(run, j)
  {
    hide Happened, AllOrderly, Doubles, ReleasedOnce, Reuses;
    forall i | 0 <= i < |run|
      ensures !Doubles(run[i])
    {
      if Doubles(run[i]) { DoublesReuses(cfg, link, run[i]); }
    }
    RunOrderly(cfg, link, run);
    forall j | 0 <= j < |run| && run[j].step.PubrelStep?
      ensures ReleasedOnce(run, j)
    {
      PubrelsOnce(cfg, link, run, j);
    }
  }

  /** Every PUBLISH of a run is answered as it should. */
  lemma RunAnswered(cfg: Config, link: Link, run: seq<Event>)
    requires Run(cfg, link, run)
    ensures forall j :: 0 <= j < |run| && run[j].step.PublishStep? ==>
              StepOk(run[j].step, |run[j].before.view.cs|) && WellAnswered(cfg, link, run[j])
  {
    hide PublishHappened, PubrelHappened, TakenOver, Deleted, WellAnswered, StepOk;
    forall j | 0 <= j < |run| && run[j].step.PublishStep?
      ensures StepOk(run[j].step, |run[j].before.view.cs|) && WellAnswered(cfg, link, run[j])
    {
      PublishAnswered(cfg, link, run[j]);
    }
  }

  lemma DoublesReuses(cfg: Config, link: Link, e: Event)
    requires Happened(cfg, link, e) && Doubles(e)
    ensures Reuses(e)
  {
    hide Happened;
    PublishIds(cfg, link, e);
  }

  // ---------- the database ----------

  ghost function StateOf(db: Database): State
    reads db
  {
    State(db.Now(), db.destIds, db.sent, db.handed)
  }

  method Take(db: Database, step: Step) returns (ghost e: Event)
    requires db.Valid() && StepOk(step, |db.clients|)
    modifies db
    ensures e.step == step && e.before == old(StateOf(db)) && e.after == StateOf(db)
    ensures Happened(db.cfg, db.link, e)
    ensures db.Valid()
  {
    hide Inv, Published01, Published2, ReleaseDone, ReleaseEffect, ReleaseRc, Completed, TakenOver, Deleted, DeliveriesOk,
         AllDeliveriesOk;
    ghost var before := StateOf(db);
    var rc, found := SUCCESS, SUCCESS;
    ghost var released := before;
    match step {
      case PublishStep(c, msg, ds, searchRc, now) => rc := db.HandlePublish(c, msg, ds, searchRc, now);
      case PubrelStep(c, mid, deliveries, result, now) =>
        ghost var view, log;
        rc, found, view, log := db.HandlePubrel(c, mid, deliveries, result, now);
        released := State(view, db.destIds, log, db.handed);
      case TakeoverStep(c, d) =>
        if Fresh(db.clients[c]) { db.Takeover(c, d); }
      case DeleteStep(c, force) => db.MessagesDelete(c, force);
    }
    e := Event(step, before, released, found, StateOf(db), rc);
  }

  /** Any run of PUBLISH and PUBREL packets, takeovers and deletions of sessions, of any clients:
      each accepted message has been handed to its subscribers with success exactly once, unless it
      is still pending, its id was reused, or its session was deleted.  Without reuse pending ids
      stay distinct and a repeated PUBREL hands nothing on again, also after a reconnection. */
  method Serve(db: Database, steps: seq<Step>) returns (ghost run: seq<Event>)
    requires db.Valid() && Tally(db.Now(), db.handed)
    requires forall i :: 0 <= i < |steps| ==> StepOk(steps[i], |db.clients|)
    modifies db
    ensures |run| == |steps| && forall i :: 0 <= i < |steps| ==> run[i].step == steps[i]
    ensures Run(db.cfg, db.link, run)
    ensures Leads(run, old(StateOf(db)), StateOf(db))
    ensures forall s :: db.accepted[s] > 0 ==> Successes(db.handed, s) + InUses(db.clients, s) + db.discarded[s] == 1
    ensures StepDone(old(db.Now()), db.Now(), AnyLoss(run))
    ensures old(AllOrderly(db.clients)) && !AnyReuse(run) ==>
              && AllOrderly(db.clients)
              && forall j :: 0 <= j < |run| && run[j].step.PubrelStep? ==> ReleasedOnce(run, j)
    ensures forall j :: 0 <= j < |run| && run[j].step.PublishStep? ==>
              StepOk(run[j].step, |run[j].before.view.cs|) && WellAnswered(db.cfg, db.link, run[j])
    ensures Tally(db.Now(), db.handed)
    ensures db.Valid()
  {
    hide Inv, Tally, Happened, Run, Leads, AnyReuse, AnyLoss, AllOrderly, ReleasedOnce, DeliveriesOk, AllDeliveriesOk,
         WellAnswered;
    run := [];
    NoSteps(db.cfg, db.link, StateOf(db));
    for i := 0 to |steps|
      invariant |run| == i && forall k :: 0 <= k < i ==> run[k].step == steps[k]
      invariant Run(db.cfg, db.link, run)
      invariant Leads(run, old(StateOf(db)), StateOf(db))
      invariant StepDone(old(db.Now()), db.Now(), AnyLoss(run))
      invariant Tally(db.Now(), db.handed)
      invariant db.Valid()
    {
      ghost var e := Take(db, steps[i]);
      HappenedTally(db.cfg, db.link, e);
      RunGrows(db.cfg, db.link, run, e, old(StateOf(db)));
      DoneGrows(run, e, old(db.Now()));
      run := run + [e];
    }
    if old(AllOrderly(db.clients)) && !AnyReuse(run) {
      RunWithoutReuse(db.cfg, db.link, run, old(StateOf(db)), StateOf(db));
    }
    RunAnswered(db.cfg, db.link, run);
    forall s | db.accepted[s] > 0
      ensures Successes(db.handed, s) + InUses(db.clients, s) + db.discarded[s] == 1
    {
      OnceEach(db.Now(), db.handed, s);
    }
  }
}
