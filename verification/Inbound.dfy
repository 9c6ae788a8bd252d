/** The receiving side of quality of service 2: recognising retransmissions, accepting new
    messages, and releasing them on PUBREL. */
module Inbound {
  import opened Messages
  import opened OutgoingWriter
  import opened StoreList
  import opened DbInvariant
  import opened Admission
  import opened SessionLists
  import opened DbSteps
  import opened Tokeniser

  // ---------- entries by message id ----------

  function WithMid(es: seq<Entry>, mid: nat): (r: seq<Entry>)
    ensures forall e :: e in r <==> e in es && e.mid == mid
  {
    if es == [] then []
    else WithMid(es[..|es| - 1], mid) + (if es[|es| - 1].mid == mid then [es[|es| - 1]] else [])
  }

  function WithoutMid(es: seq<Entry>, mid: nat): (r: seq<Entry>)
    ensures forall e :: e in r <==> e in es && e.mid != mid
  {
    if es == [] then []
    else (if es[0].mid == mid then [] else [es[0]]) + WithoutMid(es[1..], mid)
  }

  lemma WithMidNext(es: seq<Entry>, n: nat, mid: nat)
    requires n < |es|
    ensures WithMid(es[..n + 1], mid) == if es[n].mid == mid then WithMid(es[..n], mid) + [es[n]] else WithMid(es[..n], mid)
  {
    assert es[..n + 1][..n] == es[..n];
  }

  lemma {:induction false} RefsSnoc(es: seq<Entry>, e: Entry)
    ensures Refs(es + [e]) == Refs(es) + multiset{e.store.id}
  {
    if es == [] {
      assert es + [e] == [e];
    } else {
      assert (es + [e])[1..] == es[1..] + [e];
      RefsSnoc(es[1..], e);
    }
  }

  // ---------- releasing ----------

  /** The result of handing a message on: a topic that cannot be tokenised is refused before the search. */
  function HandRc(x: Store, result: nat -> int): int
  {
    if Untokenised(x.topic) then 1 else result(x.id)
  }

  predicate Succeeded(rc: int)
  {
    rc == SUCCESS || rc == NO_SUBSCRIBERS
  }

  /** The entry ends the release early. */
  predicate Stops(e: Entry, mid: nat, result: nat -> int)
  {
    e.mid == mid && (e.store.qos != 2 || !Succeeded(HandRc(e.store, result)))
  }

  function StopAt(es: seq<Entry>, mid: nat, result: nat -> int): (n: nat)
    ensures n <= |es| && (n < |es| ==> Stops(es[n], mid, result))
    ensures forall j :: 0 <= j < n ==> !Stops(es[j], mid, result)
  {
    if es == [] || Stops(es[0], mid, result) then 0 else 1 + StopAt(es[1..], mid, result)
  }

  function Handings(es: seq<Entry>, result: nat -> int): (r: seq<Handing>)
  {
    seq(|es|, i requires 0 <= i < |es| => Handing(es[i].store.id, HandRc(es[i].store, result)))
  }

  /** The incoming lists after looking at m entries from position i: those with the id are gone. */
  function DropMid(md: MsgData, i: nat, m: nat, mid: nat): MsgData
    requires i + m <= |md.inflight|
    decreases m
  {
    if m == 0 then md
    else if md.inflight[i].mid == mid then DropMid(Removed(md, i), i, m - 1, mid)
    else DropMid(md, i + 1, m - 1, mid)
  }

  /** The list left by looking at m entries from position i. */
  function Sifted(es: seq<Entry>, i: nat, m: nat, mid: nat): seq<Entry>
    requires i + m <= |es|
  {
    es[..i] + WithoutMid(es[i..i + m], mid) + es[i + m..]
  }

  lemma SiftHit(es: seq<Entry>, i: nat, m: nat, mid: nat)
    requires i + m <= |es| && m > 0 && es[i].mid == mid
    ensures Sifted(es[..i] + es[i + 1..], i, m - 1, mid) == Sifted(es, i, m, mid)
  {
    var es' := es[..i] + es[i + 1..];
    assert es'[i..i + (m - 1)] == es[i..i + m][1..];
    assert es'[..i] == es[..i] && es'[i + (m - 1)..] == es[i + m..];
  }

  lemma SiftMiss(es: seq<Entry>, i: nat, m: nat, mid: nat)
    requires i + m <= |es| && m > 0 && es[i].mid != mid
    ensures Sifted(es, i + 1, m - 1, mid) == Sifted(es, i, m, mid)
  {
    hide WithoutMid;
    KeepFirst(es[i..i + m], mid);
    var rest := WithoutMid(es[i..i + m][1..], mid);
    assert es[i + 1..i + 1 + (m - 1)] == es[i..i + m][1..];
    assert es[..i + 1] + rest == es[..i] + ([es[i]] + rest);
    assert es[i + 1 + (m - 1)..] == es[i + m..];
  }

  lemma KeepFirst(es: seq<Entry>, mid: nat)
    requires es != [] && es[0].mid != mid
    ensures WithoutMid(es, mid) == [es[0]] + WithoutMid(es[1..], mid)
  {
  }

  lemma SiftNone(es: seq<Entry>, i: nat, mid: nat)
    requires i <= |es|
    ensures Sifted(es, i, 0, mid) == es
  {
    assert es[i..i + 0] == [] && es[..i] + es[i..] == es;
  }

  lemma {:induction false} DropMidIs(md: MsgData, i: nat, m: nat, mid: nat)
    requires i + m <= |md.inflight|
    ensures var r := DropMid(md, i, m, mid);
            && r.inflight == Sifted(md.inflight, i, m, mid)
            && r.queued == md.queued && r.inflightMaximum == md.inflightMaximum
    decreases m
  {
    hide Sifted;
    if m == 0 {
      SiftNone(md.inflight, i, mid);
    } else if md.inflight[i].mid == mid {
      SiftHit(md.inflight, i, m, mid);
      DropMidIs(Removed(md, i), i, m - 1, mid);
    } else {
      SiftMiss(md.inflight, i, m, mid);
      DropMidIs(md, i + 1, m - 1, mid);
    }
  }

  /** A PUBREL for an id that no inflight entry has forwards nothing. */
  lemma {:induction false} NothingWithMid(es: seq<Entry>, mid: nat, result: nat -> int)
    requires forall j :: 0 <= j < |es| ==> es[j].mid != mid
    ensures StopAt(es, mid, result) == |es| && WithMid(es, mid) == []
  {
    NoneWithMid(es, mid);
  }

  lemma {:induction false} NoneWithMid(es: seq<Entry>, mid: nat)
    requires forall j :: 0 <= j < |es| ==> es[j].mid != mid
    ensures WithMid(es, mid) == []
  {
    if es != [] { NoneWithMid(es[..|es| - 1], mid); }
  }

  lemma {:induction false} ReleaseInSent(md: MsgData, i: nat, index: nat, sent: seq<Packet>)
    requires |md.inflight| <= i <= |All(md)|
    ensures ReleaseIn(md, i, index, sent) == (ReleaseIn(md, i, index, []).0, sent + ReleaseIn(md, i, index, []).1)
    decreases |All(md)| - i
  {
    if i < |All(md)| && !(md.inflightMaximum != 0 && index >= md.inflightMaximum) {
      if All(md)[i].qos == 2 {
        PromoteKeeps(md, i, WaitForPubrel);
        var md', p := Promote(md, i, WaitForPubrel), Pubrec(All(md)[i].mid, 0);
        assert ReleaseIn(md, i, index, sent) == ReleaseIn(md', i + 1, index + 1, sent + [p]);
        assert ReleaseIn(md, i, index, []) == ReleaseIn(md', i + 1, index + 1, [] + [p]);
        ReleaseInSent(md', i + 1, index + 1, sent + [p]);
        ReleaseInSent(md', i + 1, index + 1, [] + [p]);
        var q := ReleaseIn(md', i + 1, index + 1, []).1;
        assert sent + [p] + q == sent + ([] + [p] + q);
      } else {
        ReleaseInSent(md, i + 1, index + 1, sent);
      }
    } else {
      assert sent + [] == sent;
    }
  }

  /** The incoming lists after db__message_release_incoming. */
  function AfterRelease(md: MsgData, mid: nat, result: nat -> int): MsgData
  {
    var n := StopAt(md.inflight, mid, result);
    var r := DropMid(md, 0, n, mid);
    if n < |md.inflight| then r else ReleaseIn(r, |r.inflight|, n, []).0
  }

  // ---------- orderly incoming lists ----------

  /** Pending messages have distinct ids, the ones their sender gave them. */
  ghost predicate Orderly(es: seq<Entry>)
  {
    && (forall i :: 0 <= i < |es| ==> es[i].mid == es[i].store.sourceMid)
    && (forall i, j :: 0 <= i < j < |es| ==> es[i].mid != es[j].mid)
  }

  lemma OrderlySame(a: seq<Entry>, b: seq<Entry>)
    requires SameMessages(a, b)
    ensures Orderly(a) <==> Orderly(b)
  {
    assert forall i :: 0 <= i < |a| ==> SameMessage(a[i], b[i]) && a[i].mid == b[i].mid && a[i].store == b[i].store;
  }

  lemma OrderlyCut(es: seq<Entry>, i: nat)
    requires i < |es| && Orderly(es)
    ensures Orderly(es[..i] + es[i + 1..])
  {
    var r := es[..i] + es[i + 1..];
    assert forall k :: 0 <= k < |r| ==> r[k] == es[if k < i then k else k + 1];
  }

  lemma OrderlyInsert(es: seq<Entry>, k: nat, e: Entry)
    requires k <= |es| && Orderly(es) && e.mid == e.store.sourceMid
    ensures Orderly(es[..k] + [e] + es[k..]) <==> forall i :: 0 <= i < |es| ==> es[i].mid != e.mid
  {
    var r := es[..k] + [e] + es[k..];
    assert r[k] == e;
    assert forall i :: 0 <= i < |r| && i != k ==> r[i] == es[if i < k then i else i - 1];
    if Orderly(r) {
      forall i | 0 <= i < |es|
        ensures es[i].mid != e.mid
      {
        assert es[i] == r[if i < k then i else i + 1];
      }
    }
  }

  /** A new entry keeps the lists orderly exactly when its id is not pending. */
  lemma OrderlyAppended(md: MsgData, e: Entry, qos: nat)
    requires Orderly(All(md)) && e.mid == e.store.sourceMid
    ensures Orderly(All(Appended(md, e, qos))) <==> forall i :: 0 <= i < |All(md)| ==> All(md)[i].mid != e.mid
  {
    hide Orderly;
    var es, k := All(md), if e.state == Queued then |All(md)| else |md.inflight|;
    assert All(Appended(md, e, qos)) == es[..k] + [e] + es[k..];
    OrderlyInsert(es, k, e);
  }

  lemma {:induction false} OrderlyDropped(md: MsgData, i: nat, m: nat, mid: nat)
    requires i + m <= |md.inflight| && Orderly(All(md))
    ensures Orderly(All(DropMid(md, i, m, mid)))
    ensures forall e :: e in All(DropMid(md, i, m, mid)) ==> e in All(md)
    decreases m
  {
    if m > 0 {
      if md.inflight[i].mid == mid {
        RemoveKeeps(md, i);
        OrderlyCut(All(md), i);
        OrderlyDropped(Removed(md, i), i, m - 1, mid);
      } else {
        OrderlyDropped(md, i + 1, m - 1, mid);
      }
    }
  }

  /** A release keeps the lists orderly; one that runs to its end, of an id found inflight,
      leaves that id nowhere in them, so a repeated PUBREL finds nothing. */
  lemma ReleaseOrderly(md: MsgData, mid: nat, result: nat -> int)
    requires Orderly(All(md))
    ensures var r := All(AfterRelease(md, mid, result));
            && Orderly(r)
            && (StopAt(md.inflight, mid, result) == |md.inflight| && WithMid(md.inflight, mid) != [] ==>
                  forall i :: 0 <= i < |r| ==> r[i].mid != mid)
  {
    var n := StopAt(md.inflight, mid, result);
    var d := DropMid(md, 0, n, mid);
    OrderlyDropped(md, 0, n, mid);
    if n == |md.inflight| {
      var r := ReleaseIn(d, |d.inflight|, n, []).0;
      ReleaseInKeeps(d, |d.inflight|, n, []);
      OrderlySame(All(r), All(d));
      if WithMid(md.inflight, mid) != [] {
        GoneEverywhere(md, mid);
        hide DropMid, ReleaseIn;
        assert forall i :: 0 <= i < |All(r)| ==> SameMessage(All(r)[i], All(d)[i]);
      }
    }
  }

  lemma GoneEverywhere(md: MsgData, mid: nat)
    requires Orderly(All(md)) && WithMid(md.inflight, mid) != []
    ensures forall i :: 0 <= i < |All(DropMid(md, 0, |md.inflight|, mid))| ==>
              All(DropMid(md, 0, |md.inflight|, mid))[i].mid != mid
  {
    hide DropMid, Orderly;
    var d := DropMid(md, 0, |md.inflight|, mid);
    DropMidIs(md, 0, |md.inflight|, mid);
    assert md.inflight[0..0 + |md.inflight|] == md.inflight;
    assert d.inflight == WithoutMid(md.inflight, mid);
    QueueWithout(md, mid);
    forall i | 0 <= i < |All(d)|
      ensures All(d)[i].mid != mid
    {
      if i < |d.inflight| {
        assert All(d)[i] in d.inflight;
      } else {
        assert All(d)[i] == md.queued[i - |d.inflight|];
      }
    }
  }

  /** An id found inflight is not queued as well. */
  lemma QueueWithout(md: MsgData, mid: nat)
    requires Orderly(All(md)) && WithMid(md.inflight, mid) != []
    ensures forall i :: 0 <= i < |md.queued| ==> md.queued[i].mid != mid
  {
    hide WithMid;
    var e := WithMid(md.inflight, mid)[0];
    assert e in WithMid(md.inflight, mid);
    assert e in md.inflight && e.mid == mid;
    var k :| 0 <= k < |md.inflight| && md.inflight[k] == e;
    assert All(md)[k].mid == mid;
    forall i | 0 <= i < |md.queued|
      ensures md.queued[i].mid != mid
    {
      assert All(md)[|md.inflight| + i] == md.queued[i];
    }
  }

  // ---------- publishing ----------

  const QUOTA_EXCEEDED: nat := 151
  const QOS_NOT_SUPPORTED: int := 24
  const NO_MATCHING_SUBSCRIBERS: nat := 16

  predicate SameContent(a: Store, b: Store)
  {
    a.qos == b.qos && a.payload == b.payload && a.topic == b.topic
  }

  /** The id is pending with other content: the client reuses it. */
  predicate Reused(md: MsgData, msg: Store)
  {
    var k := FirstSource(All(md), msg.sourceMid);
    k < |All(md)| && msg.sourceMid != 0 && !SameContent(All(md)[k].store, msg)
  }

  /** The id is pending with this content: a retransmission. */
  predicate Duplicate(md: MsgData, msg: Store)
  {
    FirstSource(All(md), msg.sourceMid) < |All(md)| && !Reused(md, msg)
  }

  /** db__message_remove_incoming takes a message off the inflight list. */
  predicate Removes(md: MsgData, mid: nat)
  {
    var i := FirstMid(md.inflight, mid);
    i < |md.inflight| && md.inflight[i].store.qos == 2
  }

  function DropFirst(md: MsgData, mid: nat): MsgData
  {
    if Removes(md, mid) then Removed(md, FirstMid(md.inflight, mid)) else md
  }

  /** What a PUBLISH that reuses an id leaves pending. */
  function Cleaned(ctx: Context, msg: Store): Context
  {
    if msg.qos > 0 && Reused(ctx.msgsIn, msg) then ctx.(msgsIn := DropFirst(ctx.msgsIn, msg.sourceMid)) else ctx
  }

  predicate Admits(cfg: Config, ctx: Context, qos: nat)
  {
    ReadyForFlight(cfg, ctx, In, qos) || ReadyForQueue(cfg, ctx, In, qos)
  }

  /** The queue is looked at after every PUBLISH; its result does not matter. */
  function Finished(link: Link, f: Effect): Effect
  {
    if f.ctx.active then
      var w := QueuedIn(f.ctx.msgsIn, |f.ctx.msgsIn.inflight|, f.ctx.msgsOut.inflightMaximum, f.sent, link);
      Effect(f.ctx.(msgsIn := w.md), w.sent, f.rc)
    else f
  }

  /** util__increment_receive_quota: called by send__puback, send__pubcomp and a refusing send__pubrec. */
  function Credited(ctx: Context): Context
  {
    ctx.(msgsIn := IncQuota(ctx.msgsIn))
  }

  /** A PUBREC that refuses a message ends its flow at MQTT 5, which credits the receive quota. */
  function Refused(ctx: Context): Context
  {
    if ctx.mqtt5 then Credited(ctx) else ctx
  }

  /** A PUBREC, whose failure is reported as 1. */
  function Acknowledged(link: Link, ctx: Context, mid: nat, sent: seq<Packet>): Effect
  {
    Effect(ctx, sent + [Pubrec(mid, 0)], if link(|sent|) == SUCCESS then SUCCESS else 1)
  }

  /** What becomes of a new message of quality 2; x is the message as it would be stored. */
  function Offered(cfg: Config, link: Link, ctx: Context, x: Store, now: int, sent: seq<Packet>): Effect
  {
    var mid := x.sourceMid;
    if !Admits(cfg, ctx, 2) then Effect(Refused(ctx), sent + [Pubrec(mid, QUOTA_EXCEEDED)], link(|sent|))
    else
      var f := InsertEffect(cfg, link, ctx, mid, In, 2, x.retain, x, false, now, false, sent);
      if f.rc == SUCCESS then Finished(link, Acknowledged(link, f.ctx, mid, f.sent))
      else Finished(link, f.(rc := if f.rc == 1 then 1 else SUCCESS))
  }

  /** A PUBLISH of quality 2. */
  function Publish2(cfg: Config, link: Link, ctx: Context, x: Store, now: int, sent: seq<Packet>): Effect
  {
    if Duplicate(ctx.msgsIn, x) then Finished(link, Acknowledged(link, ctx, x.sourceMid, sent))
    else Offered(cfg, link, Cleaned(ctx, x), x, now, sent)
  }

  /** The message of such a PUBLISH becomes pending. */
  predicate Accepts(cfg: Config, ctx: Context, x: Store)
  {
    var cleaned := Cleaned(ctx, x);
    && !Duplicate(ctx.msgsIn, x) && Admits(cfg, cleaned, 2)
    && InsertPlan(cfg, cleaned, In, 2, x.retain, false).List?
  }

  /** How a PUBLISH of quality 0 or 1 is answered once it was handed on with the result rc2. */
  function Answered(link: Link, ctx: Context, qos: nat, mid: nat, rc2: int, sent: seq<Packet>): Effect
  {
    if qos == 0 then Effect(ctx, sent, if rc2 > 0 then 1 else SUCCESS)
    else if rc2 == SUCCESS || !ctx.mqtt5 || rc2 == NO_SUBSCRIBERS then
      Effect(Credited(ctx), sent + [Puback(mid, if rc2 == SUCCESS || !ctx.mqtt5 then 0 else NO_MATCHING_SUBSCRIBERS)],
             if link(|sent|) == SUCCESS then SUCCESS else 1)
    else Effect(ctx, sent, rc2)
  }

  /** Such a PUBLISH, given the message x it is about, new or recognised, on the cleaned-up lists. */
  function Publish01(cfg: Config, link: Link, f: Front, c: nat, x: Store, qos: nat, mid: nat, ds: seq<Delivery>,
                     searchRc: int, now: int): (Front, int)
    requires c < |f.cs| && DeliveriesOk(ds, |f.cs|)
  {
    var ctx := if qos == 1 then f.cs[c].(msgsIn := DecQuota(f.cs[c].msgsIn)) else f.cs[c];
    var g := DeliverAll(cfg, link, f.(cs := f.cs[c := ctx]), x, if Untokenised(x.topic) then [] else ds, now);
    var effect := Finished(link, Answered(link, g.cs[c], qos, mid, if Untokenised(x.topic) then 1 else searchRc, g.sent));
    (g.(cs := g.cs[c := effect.ctx], sent := effect.sent), effect.rc)
  }

  /** A PUBLISH of quality 1 takes one from the receive quota and gives it back with its PUBACK.  So it
      leaves the incoming lists as they were exactly when there was one to take, if it is answered,
      and exactly when there was none, if it is not. */
  lemma QuotaKeptIff(cfg: Config, link: Link, f: Front, c: nat, x: Store, mid: nat, ds: seq<Delivery>, searchRc: int, now: int)
    requires c < |f.cs| && DeliveriesOk(ds, |f.cs|) && f.cs[c].msgsIn.queued == []
    requires 0 <= f.cs[c].msgsIn.inflightQuota <= f.cs[c].msgsIn.inflightMaximum
    ensures var ctx, g := f.cs[c], Publish01(cfg, link, f, c, x, 1, mid, ds, searchRc, now).0;
            var rc2 := if Untokenised(x.topic) then 1 else searchRc;
            && |g.cs| == |f.cs|
            && (g.cs[c].msgsIn == ctx.msgsIn <==>
                  if rc2 == SUCCESS || !ctx.mqtt5 || rc2 == NO_SUBSCRIBERS
                  then ctx.msgsIn.inflightQuota > 0 || ctx.msgsIn.inflightMaximum == 0
                  else ctx.msgsIn.inflightQuota == 0)
  {
    hide DeliverAll, DeliveriesOk, Finished, OnlyOut, DecQuota, Answered, Untokenised;
    var md := f.cs[c].msgsIn;
    var f1 := f.(cs := f.cs[c := f.cs[c].(msgsIn := DecQuota(md))]);
    NoDeliveries(|f.cs|);
    var ds' := if Untokenised(x.topic) then [] else ds;
    DeliverOnlyOut(cfg, link, f1, x, ds', now);
    var g := DeliverAll(cfg, link, f1, x, ds', now);
    OnlyOutIn(f1.cs, g.cs, c);
    var rc2 := if Untokenised(x.topic) then 1 else searchRc;
    QuotaAnswered(link, g.cs[c], md, mid, rc2, g.sent);
    FinishedIdle(link, Answered(link, g.cs[c], 1, mid, rc2, g.sent));
  }

  lemma QuotaAnswered(link: Link, ctx: Context, md: MsgData, mid: nat, rc2: int, sent: seq<Packet>)
    requires ctx.msgsIn == DecQuota(md) && md.queued == [] && 0 <= md.inflightQuota <= md.inflightMaximum
    ensures var r := Answered(link, ctx, 1, mid, rc2, sent).ctx.msgsIn;
            && r.queued == []
            && (r == md <==>
                  if rc2 == SUCCESS || !ctx.mqtt5 || rc2 == NO_SUBSCRIBERS then md.inflightQuota > 0 || md.inflightMaximum == 0
                  else md.inflightQuota == 0)
  {
  }

  lemma FinishedIdle(link: Link, f: Effect)
    requires f.ctx.msgsIn.queued == []
    ensures Finished(link, f).ctx == f.ctx
  {
    assert |All(f.ctx.msgsIn)| == |f.ctx.msgsIn.inflight|;
  }

  /** A reused id whose pending message stays: it is not an inflight message of quality 2. */
  predicate Lingers(ctx: Context, x: Store)
  {
    Reused(ctx.msgsIn, x) && !Removes(ctx.msgsIn, x.sourceMid)
  }

  /** A PUBLISH leaves the lists orderly exactly unless a message is accepted under an id
      whose old message lingers. */
  lemma PublishOrderly(cfg: Config, link: Link, ctx: Context, x: Store, now: int, sent: seq<Packet>)
    requires Orderly(All(ctx.msgsIn)) && x.qos == 2
    ensures Orderly(All(Publish2(cfg, link, ctx, x, now, sent).ctx.msgsIn))
            <==> !(Accepts(cfg, ctx, x) && Lingers(ctx, x))
  {
    hide Orderly, InsertPlan, Admits, Reused, Duplicate, Finished, Cleaned;
    if Duplicate(ctx.msgsIn, x) {
      FinishedOrderly(link, Acknowledged(link, ctx, x.sourceMid, sent));
    } else {
      CleanedOrderly(ctx, x);
      if Admits(cfg, Cleaned(ctx, x), 2) {
        var f := InsertEffect(cfg, link, Cleaned(ctx, x), x.sourceMid, In, 2, x.retain, x, false, now, false, sent);
        FinishedOrderly(link, Acknowledged(link, f.ctx, x.sourceMid, f.sent));
        FinishedOrderly(link, f.(rc := if f.rc == 1 then 1 else SUCCESS));
        InsertOrderly(cfg, link, Cleaned(ctx, x), x, now, sent);
      }
    }
  }

  lemma InsertOrderly(cfg: Config, link: Link, ctx: Context, x: Store, now: int, sent: seq<Packet>)
    requires Orderly(All(ctx.msgsIn))
    ensures var all := All(ctx.msgsIn);
            Orderly(All(InsertEffect(cfg, link, ctx, x.sourceMid, In, 2, x.retain, x, false, now, false, sent).ctx.msgsIn))
            <==> InsertPlan(cfg, ctx, In, 2, x.retain, false).Leave? || forall i :: 0 <= i < |all| ==> all[i].mid != x.sourceMid
  {
    hide Orderly, InsertPlan;
    match InsertPlan(cfg, ctx, In, 2, x.retain, false) {
      case Leave(_, _) =>
      case List(state, _) =>
        OrderlyAppended(ctx.msgsIn, NewEntry(ctx, x.sourceMid, In, 2, x.retain, x, state), 2);
    }
  }

  /** The failing case is real: a queued message whose id is reused with another payload. */
  lemma ReuseDisorders(link: Link, ctx: Context, cfg: Config, e: Entry, x: Store, now: int, sent: seq<Packet>)
    requires ctx.hasId && ctx.connected && ctx.msgsIn.inflight == [] && ctx.msgsIn.queued == [e]
    requires ctx.msgsIn.inflightMaximum == 0 && cfg.maxInflightBytes == 0
    requires e.mid == e.store.sourceMid == x.sourceMid != 0 && x.qos == 2 && e.store.payload != x.payload
    ensures Orderly(All(ctx.msgsIn)) && !Orderly(All(Publish2(cfg, link, ctx, x, now, sent).ctx.msgsIn))
  {
    hide Publish2;
    assert All(ctx.msgsIn) == [e];
    PublishOrderly(cfg, link, ctx, x, now, sent);
  }

  lemma FinishedOrderly(link: Link, f: Effect)
    ensures Orderly(All(Finished(link, f).ctx.msgsIn)) <==> Orderly(All(f.ctx.msgsIn))
  {
    if f.ctx.active {
      var md := f.ctx.msgsIn;
      QueuedInKeeps(md, |md.inflight|, f.ctx.msgsOut.inflightMaximum, f.sent, link);
      OrderlySame(All(Finished(link, f).ctx.msgsIn), All(md));
    }
  }

  /** After the reuse is handled, the id is pending exactly when its old message lingers. */
  lemma CleanedOrderly(ctx: Context, x: Store)
    requires Orderly(All(ctx.msgsIn)) && x.qos == 2 && !Duplicate(ctx.msgsIn, x)
    ensures var all := All(Cleaned(ctx, x).msgsIn);
            && Orderly(all)
            && (Lingers(ctx, x) <==> !forall i :: 0 <= i < |all| ==> all[i].mid != x.sourceMid)
  {
    var md, mid := ctx.msgsIn, x.sourceMid;
    var k := FirstSource(All(md), mid);
    if Reused(md, x) {
      assert All(md)[k].mid == mid;
      if Removes(md, mid) {
        var i := FirstMid(md.inflight, mid);
        assert All(md)[i].mid == mid;
        RemoveKeeps(md, i);
        OrderlyCut(All(md), i);
        CutDistinct(All(md), i);
      }
    }
  }

  lemma CutDistinct(es: seq<Entry>, i: nat)
    requires i < |es| && Orderly(es)
    ensures var r := es[..i] + es[i + 1..];
            forall j :: 0 <= j < |r| ==> r[j].mid != es[i].mid
  {
    var r := es[..i] + es[i + 1..];
    assert forall k :: 0 <= k < |r| ==> r[k] == es[if k < i then k else k + 1];
  }

  // ---------- the loop of a release ----------

  /** From view v0 to v the release of an id has looked at `index` inflight entries of client c
      and is about to look at position i. */
  ghost predicate Releasing(v0: View, v: View, c: nat, mid: nat, result: nat -> int, handed0: seq<Handing>,
                            handed: seq<Handing>, i: nat, index: nat)
  {
    && c < |v0.cs| && c < |v.cs| && LoopAt(v0.cs[c].msgsIn, v.cs[c].msgsIn, mid, result, i, index)
    && OnlyOut(v0.cs[c := v0.cs[c].(msgsIn := v.cs[c].msgsIn)], v.cs)
    && Quiet(v0.(retained := v.retained, forwarded := v.forwarded), v)
    && var hits := WithMid(v0.cs[c].msgsIn.inflight[..index], mid);
       && v.forwarded == v0.forwarded + Refs(hits)
       && handed == handed0 + Handings(hits, result)
  }

  ghost predicate LoopAt(md0: MsgData, md: MsgData, mid: nat, result: nat -> int, i: nat, index: nat)
  {
    var n := StopAt(md0.inflight, mid, result);
    && index <= n
    && i <= |md.inflight| && md.inflight[i..] == md0.inflight[index..]
    && |md.inflight| - i == |md0.inflight| - index
    && DropMid(md, i, n - index, mid) == DropMid(md0, 0, n, mid)
  }

  lemma ReleasingFirst(v: View, c: nat, mid: nat, result: nat -> int, handed: seq<Handing>)
    requires c < |v.cs|
    ensures Releasing(v, v, c, mid, result, handed, handed, 0, 0)
  {
    assert v.cs[c := v.cs[c].(msgsIn := v.cs[c].msgsIn)] == v.cs;
    assert v.cs[c].msgsIn.inflight[..0] == [];
    assert handed + [] == handed;
  }

  lemma LoopEntry(md0: MsgData, md: MsgData, mid: nat, result: nat -> int, i: nat, index: nat)
    requires LoopAt(md0, md, mid, result, i, index) && i < |md.inflight|
    ensures index < |md0.inflight| && md.inflight[i] == md0.inflight[index]
    ensures index == StopAt(md0.inflight, mid, result) <==> Stops(md.inflight[i], mid, result)
  {
    assert md.inflight[i] == md.inflight[i..][0] == md0.inflight[index..][0];
  }

  lemma LoopMiss(md0: MsgData, md: MsgData, mid: nat, result: nat -> int, i: nat, index: nat)
    requires LoopAt(md0, md, mid, result, i, index) && i < |md.inflight| && md.inflight[i].mid != mid
    ensures LoopAt(md0, md, mid, result, i + 1, index + 1)
  {
    LoopEntry(md0, md, mid, result, i, index);
    assert md.inflight[i + 1..] == md.inflight[i..][1..] == md0.inflight[index..][1..] == md0.inflight[index + 1..];
  }

  lemma LoopHit(md0: MsgData, md: MsgData, mid: nat, result: nat -> int, i: nat, index: nat)
    requires LoopAt(md0, md, mid, result, i, index) && i < |md.inflight| && md.inflight[i].mid == mid
    requires !Stops(md.inflight[i], mid, result)
    ensures LoopAt(md0, Removed(md, i), mid, result, i, index + 1)
  {
    LoopEntry(md0, md, mid, result, i, index);
    assert Removed(md, i).inflight[i..] == md.inflight[i + 1..];
    assert md.inflight[i + 1..] == md.inflight[i..][1..] == md0.inflight[index..][1..] == md0.inflight[index + 1..];
  }

  lemma ReleasingMiss(v0: View, v: View, c: nat, mid: nat, result: nat -> int, handed0: seq<Handing>,
                      handed: seq<Handing>, i: nat, index: nat)
    requires Releasing(v0, v, c, mid, result, handed0, handed, i, index)
    requires i < |v.cs[c].msgsIn.inflight| && v.cs[c].msgsIn.inflight[i].mid != mid
    ensures Releasing(v0, v, c, mid, result, handed0, handed, i + 1, index + 1)
  {
    hide Quiet, OnlyOut, LoopAt, WithMid, Refs, Stops;
    LoopEntry(v0.cs[c].msgsIn, v.cs[c].msgsIn, mid, result, i, index);
    LoopMiss(v0.cs[c].msgsIn, v.cs[c].msgsIn, mid, result, i, index);
    WithMidNext(v0.cs[c].msgsIn.inflight, index, mid);
  }

  /** The inflight entry i of client c was handed on with the result rc. */
  ghost predicate HandedOn(v: View, v': View, c: nat, i: nat, rc: int)
  {
    && c < |v.cs| && c < |v'.cs| && i < |v.cs[c].msgsIn.inflight|
    && var md := v.cs[c].msgsIn;
       var md' := if Succeeded(rc) then Removed(md, i) else md;
       && OnlyOut(v.cs[c := v.cs[c].(msgsIn := md')], v'.cs) && v'.cs[c].msgsIn == md'
       && v'.forwarded == v.forwarded + (if Succeeded(rc) then multiset{md.inflight[i].store.id} else multiset{})
       && Quiet(v.(retained := v'.retained, forwarded := v'.forwarded), v')
  }

  lemma HandedOnBy(v: View, v1: View, v2: View, c: nat, i: nat, rc: int)
    requires c < |v.cs| && i < |v.cs[c].msgsIn.inflight|
    requires OnlyOut(v.cs, v1.cs) && Quiet(v.(retained := v1.retained), v1)
    requires if Succeeded(rc) then
               && v2.cs == v1.cs[c := v1.cs[c].(msgsIn := Removed(v.cs[c].msgsIn, i))]
               && v2.forwarded == v1.forwarded + multiset{v.cs[c].msgsIn.inflight[i].store.id}
               && Quiet(v1.(forwarded := v2.forwarded), v2)
             else v2 == v1
    ensures HandedOn(v, v2, c, i, rc)
  {
    hide Removed;
    assert v.cs[c := v.cs[c].(msgsIn := v.cs[c].msgsIn)] == v.cs;
  }

  /** A hit is handed on with success and so taken off the list. */
  lemma ReleasingHit(v0: View, v: View, v': View, c: nat, mid: nat, result: nat -> int, handed0: seq<Handing>,
                     handed: seq<Handing>, i: nat, index: nat)
    requires Releasing(v0, v, c, mid, result, handed0, handed, i, index)
    requires i < |v.cs[c].msgsIn.inflight| && v.cs[c].msgsIn.inflight[i].mid == mid
    requires !Stops(v.cs[c].msgsIn.inflight[i], mid, result)
    requires HandedOn(v, v', c, i, HandRc(v.cs[c].msgsIn.inflight[i].store, result))
    ensures |v'.cs| == |v0.cs| && |v'.cs[c].msgsIn.inflight| == |v.cs[c].msgsIn.inflight| - 1
    ensures var x := v.cs[c].msgsIn.inflight[i].store;
            Releasing(v0, v', c, mid, result, handed0, handed + [Handing(x.id, HandRc(x, result))], i, index + 1)
  {
    hide Quiet, OnlyOut, LoopAt, WithMid, Refs, HandRc;
    var md0, md := v0.cs[c].msgsIn, v.cs[c].msgsIn;
    LoopEntry(md0, md, mid, result, i, index);
    LoopHit(md0, md, mid, result, i, index);
    WithMidNext(md0.inflight, index, mid);
    var hits := WithMid(md0.inflight[..index], mid);
    RefsSnoc(hits, md.inflight[i]);
    HandingsSnoc(hits, md.inflight[i], result);
    HitOnlyOut(v0.cs, v.cs, v'.cs, c, md, Removed(md, i));
    HitQuiet(v0, v, v');
    assert handed0 + Handings(hits, result) + [Handing(md.inflight[i].store.id, HandRc(md.inflight[i].store, result))]
        == handed0 + Handings(hits + [md.inflight[i]], result);
  }

  lemma HandingsSnoc(es: seq<Entry>, e: Entry, result: nat -> int)
    ensures Handings(es + [e], result) == Handings(es, result) + [Handing(e.store.id, HandRc(e.store, result))]
  {
    hide HandRc;
  }

  lemma HitOnlyOut(cs0: seq<Context>, cs: seq<Context>, cs': seq<Context>, c: nat, md: MsgData, md': MsgData)
    requires c < |cs0| && c < |cs| && OnlyOut(cs0[c := cs0[c].(msgsIn := md)], cs)
    requires OnlyOut(cs[c := cs[c].(msgsIn := md')], cs')
    ensures OnlyOut(cs0[c := cs0[c].(msgsIn := md')], cs') && |cs'| == |cs0|
  {
  }

  lemma HitQuiet(v0: View, v: View, v': View)
    requires Quiet(v0.(retained := v.retained, forwarded := v.forwarded), v)
    requires Quiet(v.(retained := v'.retained, forwarded := v'.forwarded), v')
    ensures Quiet(v0.(retained := v'.retained, forwarded := v'.forwarded), v')
  {
  }

  /** What a release that stopped at position n has done between two views. */
  ghost predicate ReleasedTo(v0: View, v: View, c: nat, mid: nat, result: nat -> int, handed0: seq<Handing>,
                             handed: seq<Handing>, n: nat)
  {
    && c < |v0.cs| && n <= |v0.cs[c].msgsIn.inflight|
    && Quiet(v0.(retained := v.retained, forwarded := v.forwarded), v)
    && var md := v0.cs[c].msgsIn;
       var hits := WithMid(md.inflight[..n], mid);
       var failed := n < |md.inflight| && md.inflight[n].store.qos == 2;
       && OnlyOut(v0.cs[c := v0.cs[c].(msgsIn := DropMid(md, 0, n, mid))], v.cs)
       && v.forwarded == v0.forwarded + Refs(hits)
       && handed == handed0 + Handings(hits, result) + (if failed then Handings([md.inflight[n]], result) else [])
  }

  lemma ReleasingAt(v0: View, v: View, c: nat, mid: nat, result: nat -> int, handed0: seq<Handing>,
                    handed: seq<Handing>, i: nat, index: nat)
    requires Releasing(v0, v, c, mid, result, handed0, handed, i, index) && i < |v.cs[c].msgsIn.inflight|
    ensures |v.cs| == |v0.cs| && index < |v0.cs[c].msgsIn.inflight|
    ensures v.cs[c].msgsIn.inflight[i] == v0.cs[c].msgsIn.inflight[index]
    ensures index == StopAt(v0.cs[c].msgsIn.inflight, mid, result) <==> Stops(v.cs[c].msgsIn.inflight[i], mid, result)
  {
    hide Quiet, LoopAt, WithMid, Refs;
    LoopEntry(v0.cs[c].msgsIn, v.cs[c].msgsIn, mid, result, i, index);
  }

  lemma ReleasedEnd(v0: View, v: View, c: nat, mid: nat, result: nat -> int, handed0: seq<Handing>,
                    handed: seq<Handing>, i: nat, index: nat)
    requires Releasing(v0, v, c, mid, result, handed0, handed, i, index) && i == |v.cs[c].msgsIn.inflight|
    ensures index == |v0.cs[c].msgsIn.inflight| == StopAt(v0.cs[c].msgsIn.inflight, mid, result)
    ensures ReleasedTo(v0, v, c, mid, result, handed0, handed, index)
  {
    hide Quiet, WithMid, Refs, OnlyOut;
    assert handed0 + Handings(WithMid(v0.cs[c].msgsIn.inflight[..index], mid), result) + [] == handed;
  }

  /** The release ends at an entry: nothing more happened, or it was handed on in vain. */
  lemma ReleasedStop(v0: View, v: View, v1: View, c: nat, mid: nat, result: nat -> int, handed0: seq<Handing>,
                     handed: seq<Handing>, handed1: seq<Handing>, i: nat, index: nat)
    requires Releasing(v0, v, c, mid, result, handed0, handed, i, index) && i < |v.cs[c].msgsIn.inflight|
    requires Stops(v.cs[c].msgsIn.inflight[i], mid, result)
    requires var x := v.cs[c].msgsIn.inflight[i].store;
             if x.qos != 2 then v1 == v && handed1 == handed
             else HandedOn(v, v1, c, i, HandRc(x, result)) && handed1 == handed + [Handing(x.id, HandRc(x, result))]
    ensures ReleasedTo(v0, v1, c, mid, result, handed0, handed1, index)
  {
    hide WithMid, Refs, HandRc, Quiet, OnlyOut;
    var md0, md := v0.cs[c].msgsIn, v.cs[c].msgsIn;
    var e := md.inflight[i];
    LoopEntry(md0, md, mid, result, i, index);
    assert md == DropMid(md0, 0, index, mid);
    assert Handings([e], result) == [Handing(e.store.id, HandRc(e.store, result))];
    assert handed0 + Handings(WithMid(md0.inflight[..index], mid), result) + [] == handed;
    if e.store.qos == 2 {
      HitOnlyOut(v0.cs, v.cs, v1.cs, c, md, md);
      HitQuiet(v0, v, v1);
      assert v.forwarded + multiset{} == v.forwarded;
    }
  }

  lemma EntryListed(v: View, c: nat, i: nat)
    requires Inv(v) && c < |v.cs| && i < |v.cs[c].msgsIn.inflight|
    ensures v.cs[c].msgsIn.inflight[i].store in v.list
  {
    ListedOut(v, c);
    hide Inv;
    assert All(v.cs[c].msgsIn)[i] == v.cs[c].msgsIn.inflight[i];
  }

  lemma OnlyOutIn(cs: seq<Context>, cs': seq<Context>, c: nat)
    requires OnlyOut(cs, cs') && c < |cs|
    ensures |cs'| == |cs| && cs'[c].msgsIn == cs[c].msgsIn
  {
  }

  lemma QueuedInAll(md: MsgData, outMaximum: nat, sent: seq<Packet>, link: Link)
    ensures var w := QueuedIn(md, |md.inflight|, outMaximum, sent, link);
            SameMessages(All(w.md), All(md)) && (CountersOk(md) ==> CountersOk(w.md))
  {
    QueuedInKeeps(md, |md.inflight|, outMaximum, sent, link);
  }

  // ---------- a whole release ----------

  /** What a PUBREL has done between two views: the entries with the id, up to one that ends the
      walk, were handed on once each, in order, and left the list. */
  ghost predicate ReleaseDone(v0: View, v: View, c: nat, mid: nat, result: nat -> int, handed0: seq<Handing>,
                              handed: seq<Handing>)
  {
    && c < |v0.cs|
    && Quiet(v0.(retained := v.retained, forwarded := v.forwarded), v)
    && var md := v0.cs[c].msgsIn;
       var n := StopAt(md.inflight, mid, result);
       var hits := WithMid(md.inflight[..n], mid);
       var failed := n < |md.inflight| && md.inflight[n].store.qos == 2;
       && OnlyOut(v0.cs[c := v0.cs[c].(msgsIn := AfterRelease(md, mid, result))], v.cs)
       && v.forwarded == v0.forwarded + Refs(hits)
       && handed == handed0 + Handings(hits, result) + (if failed then Handings([md.inflight[n]], result) else [])
  }

  /** What db__message_release_incoming answers. */
  function ReleaseRc(es: seq<Entry>, mid: nat, result: nat -> int): int
  {
    var n := StopAt(es, mid, result);
    if n < |es| then (if es[n].store.qos != 2 then PROTOCOL else 1)
    else if WithMid(es, mid) != [] then SUCCESS else NOT_FOUND
  }

  lemma ReleaseLength(v0: View, v: View, c: nat, mid: nat, result: nat -> int, handed0: seq<Handing>, handed: seq<Handing>)
    requires ReleaseDone(v0, v, c, mid, result, handed0, handed)
    ensures |v.cs| == |v0.cs| && c < |v.cs|
  {
    hide StopAt, WithMid, AfterRelease, Refs, Handings;
  }

  /** The end of handle__pubrel: a PUBCOMP, which credits the receive quota, unless the release failed. */
  ghost predicate Completed(link: Link, v: View, v': View, sent: seq<Packet>, sent': seq<Packet>, c: nat, mid: nat,
                            found: int, rc: int)
  {
    && c < |v.cs|
    && if found == SUCCESS || found == NOT_FOUND then
         v' == v.(cs := v.cs[c := Credited(v.cs[c])]) && sent' == sent + [Pubcomp(mid)] && rc == link(|sent|)
       else
         v' == v && sent' == sent && rc == found
  }

  /** After a PUBREL that found its id, a second one for the same id hands nothing on. */
  lemma SecondPubrel(v0: View, v1: View, v2: View, c: nat, mid: nat, result1: nat -> int, result2: nat -> int,
                     handed0: seq<Handing>, handed1: seq<Handing>, handed2: seq<Handing>)
    requires c < |v0.cs| && Orderly(All(v0.cs[c].msgsIn))
    requires var es := v0.cs[c].msgsIn.inflight;
             StopAt(es, mid, result1) == |es| && WithMid(es, mid) != []
    requires ReleaseDone(v0, v1, c, mid, result1, handed0, handed1) && ReleaseDone(v1, v2, c, mid, result2, handed1, handed2)
    ensures handed2 == handed1 && v2.forwarded == v1.forwarded
    ensures var es := v1.cs[c].msgsIn.inflight; StopAt(es, mid, result2) == |es| && WithMid(es, mid) == []
  {
    hide Quiet, AfterRelease, Orderly, WithMid;
    var md := v1.cs[c].msgsIn;
    assert md == AfterRelease(v0.cs[c].msgsIn, mid, result1);
    ReleaseOrderly(v0.cs[c].msgsIn, mid, result1);
    forall j | 0 <= j < |md.inflight|
      ensures md.inflight[j].mid != mid
    {
      assert All(md)[j] == md.inflight[j];
    }
    hide OnlyOut;
    NothingWithMid(md.inflight, mid, result2);
    assert md.inflight[..|md.inflight|] == md.inflight;
  }

  lemma ReleasedLists(v0: View, v: View, c: nat, mid: nat, result: nat -> int, handed0: seq<Handing>,
                      handed: seq<Handing>, n: nat)
    requires ReleasedTo(v0, v, c, mid, result, handed0, handed, n)
    ensures |v.cs| == |v0.cs| && v.cs[c].msgsIn == DropMid(v0.cs[c].msgsIn, 0, n, mid)
  {
    hide Quiet, WithMid, Refs, DropMid;
  }

  lemma ReleaseStopped(v0: View, v: View, c: nat, mid: nat, result: nat -> int, handed0: seq<Handing>,
                       handed: seq<Handing>, n: nat)
    requires ReleasedTo(v0, v, c, mid, result, handed0, handed, n)
    requires n == StopAt(v0.cs[c].msgsIn.inflight, mid, result) < |v0.cs[c].msgsIn.inflight|
    ensures ReleaseDone(v0, v, c, mid, result, handed0, handed)
  {
    hide Quiet, WithMid, Refs, DropMid, OnlyOut, StopAt;
  }

  lemma ReleaseFinished(v0: View, v: View, v': View, c: nat, mid: nat, result: nat -> int, handed0: seq<Handing>,
                        handed: seq<Handing>, n: nat)
    requires ReleasedTo(v0, v, c, mid, result, handed0, handed, n) && c < |v.cs|
    requires n == StopAt(v0.cs[c].msgsIn.inflight, mid, result) == |v0.cs[c].msgsIn.inflight|
    requires v.cs[c].msgsIn == DropMid(v0.cs[c].msgsIn, 0, n, mid)
    requires var md := v.cs[c].msgsIn;
             v' == v.(cs := v.cs[c := v.cs[c].(msgsIn := ReleaseIn(md, |md.inflight|, n, []).0)])
    ensures ReleaseDone(v0, v', c, mid, result, handed0, handed)
  {
    hide Quiet, WithMid, Refs, DropMid, OnlyOut, StopAt, ReleaseIn;
    var md := v.cs[c].msgsIn;
    var md' := ReleaseIn(md, |md.inflight|, n, []).0;
    SameOnlyOut(v.cs[c := v.cs[c].(msgsIn := md')]);
    HitOnlyOut(v0.cs, v.cs, v'.cs, c, md, md');
    QuietSame(v, v'.cs);
    QuietTwice(v0.(retained := v.retained, forwarded := v.forwarded), v, v');
  }

  lemma SameOnlyOut(cs: seq<Context>)
    ensures OnlyOut(cs, cs)
  {
  }

  lemma ReleaseInAll(md: MsgData, index: nat, sent: seq<Packet>)
    ensures var r := ReleaseIn(md, |md.inflight|, index, sent);
            && r == (ReleaseIn(md, |md.inflight|, index, []).0, sent + ReleaseIn(md, |md.inflight|, index, []).1)
            && SameMessages(All(r.0), All(md)) && (CountersOk(md) ==> CountersOk(r.0))
  {
    ReleaseInSent(md, |md.inflight|, index, sent);
    ReleaseInKeeps(md, |md.inflight|, index, sent);
  }

  /** Whether a message is known to have gone to the client does not matter for incoming ones. */
  lemma KnownIrrelevant(cfg: Config, link: Link, ctx: Context, mid: nat, qos: nat, retain: bool, x: Store,
                        update: bool, now: int, known: bool, sent: seq<Packet>)
    ensures InsertPlan(cfg, ctx, In, qos, retain, known) == InsertPlan(cfg, ctx, In, qos, retain, false)
    ensures InsertEffect(cfg, link, ctx, mid, In, qos, retain, x, update, now, known, sent)
         == InsertEffect(cfg, link, ctx, mid, In, qos, retain, x, update, now, false, sent)
  {
    hide ReadyForFlight, ReadyForQueue;
  }

  /** Recognition looks at the id and the content only. */
  lemma SameRecognised(ctx: Context, msg: Store, id: nat)
    ensures Duplicate(ctx.msgsIn, msg.(id := id)) == Duplicate(ctx.msgsIn, msg)
    ensures Cleaned(ctx, msg.(id := id)) == Cleaned(ctx, msg)
    ensures Reused(ctx.msgsIn, msg.(id := id)) == Reused(ctx.msgsIn, msg)
    ensures Duplicate(ctx.msgsIn, msg) ==> Cleaned(ctx, msg) == ctx
  {
    hide FirstSource, DropFirst;
  }

  /** The messages a PUBLISH discards. */
  function Discards(ctx: Context, msg: Store): multiset<nat>
  {
    if msg.qos > 0 && Reused(ctx.msgsIn, msg) && Removes(ctx.msgsIn, msg.sourceMid) then
      multiset{ctx.msgsIn.inflight[FirstMid(ctx.msgsIn.inflight, msg.sourceMid)].store.id}
    else multiset{}
  }

  lemma FinishedRc(link: Link, ctx: Context, sent: seq<Packet>, rc: int)
    ensures Finished(link, Effect(ctx, sent, rc)) == Finished(link, Effect(ctx, sent, SUCCESS)).(rc := rc)
  {
    hide QueuedIn;
  }

  /** What a PUBLISH of quality 0 or 1 has done between two views. */
  ghost predicate Published01(cfg: Config, link: Link, v0: View, v: View, f0: Front, f: Front, c: nat, msg: Store,
                              ds: seq<Delivery>, searchRc: int, now: int, handed0: seq<Handing>, handed: seq<Handing>,
                              rc: int)
  {
    && c < |f0.cs| && DeliveriesOk(ds, |f0.cs|)
    && v.pins == v0.pins && v.accepted == v0.accepted && v.forwarded == v0.forwarded
    && v.discarded == v0.discarded + Discards(f0.cs[c], msg)
    && var md, cleaned := f0.cs[c].msgsIn, Cleaned(f0.cs[c], msg);
       var dup := msg.qos > 0 && Duplicate(md, msg);
       var k := FirstSource(All(md), msg.sourceMid);
       if !dup && msg.qos > 0 && !Admits(cfg, cleaned, msg.qos) then
         && f == Front(f0.cs[c := Credited(cleaned)], f0.destIds, f0.sent + [Puback(msg.sourceMid, QUOTA_EXCEEDED)])
         && rc == link(|f0.sent|) && handed == handed0 && v.retained == v0.retained && v.lastId == v0.lastId
       else
         var x := if dup then All(md)[k].store else msg.(id := v0.lastId + 1);
         && (f, rc) == Publish01(cfg, link, f0.(cs := f0.cs[c := cleaned]), c, x, msg.qos, msg.sourceMid, ds, searchRc, now)
         && handed == handed0 + [Handing(x.id, if Untokenised(x.topic) then 1 else searchRc)]
         && v.retained == (if !Untokenised(x.topic) && x.retain then Retaining(v0.retained, TokenPath(x.topic), x)
                           else v0.retained)
         && v.lastId == (if dup then v0.lastId else v0.lastId + 1)
  }

  /** A PUBLISH of quality 1 that is refused. */
  lemma PublishRefused(cfg: Config, link: Link, v0: View, v: View, f0: Front, f: Front, c: nat, msg: Store,
                       ds: seq<Delivery>, searchRc: int, now: int, handed: seq<Handing>, rc: int)
    requires c < |f0.cs| && DeliveriesOk(ds, |f0.cs|)
    requires v.pins == v0.pins && v.accepted == v0.accepted && v.forwarded == v0.forwarded && v.retained == v0.retained
    requires v.lastId == v0.lastId && v.discarded == v0.discarded + Discards(f0.cs[c], msg)
    requires msg.qos > 0 && !Duplicate(f0.cs[c].msgsIn, msg) && !Admits(cfg, Cleaned(f0.cs[c], msg), msg.qos)
    requires f == Front(f0.cs[c := Credited(Cleaned(f0.cs[c], msg))], f0.destIds,
                        f0.sent + [Puback(msg.sourceMid, QUOTA_EXCEEDED)])
    requires rc == link(|f0.sent|)
    ensures Published01(cfg, link, v0, v, f0, f, c, msg, ds, searchRc, now, handed, handed, rc)
  {
    hide Cleaned, Duplicate, Admits, Discards, Publish01, Credited, FirstSource, DeliveriesOk;
  }

  /** One that is handed on: x is the message, recognised or new. */
  lemma PublishHanded(cfg: Config, link: Link, v0: View, v: View, f0: Front, f: Front, c: nat, msg: Store,
                      ds: seq<Delivery>, searchRc: int, now: int, handed0: seq<Handing>, handed: seq<Handing>, rc: int,
                      dup: bool, x: Store)
    requires c < |f0.cs| && DeliveriesOk(ds, |f0.cs|)
    requires v.pins == v0.pins && v.accepted == v0.accepted && v.forwarded == v0.forwarded
    requires v.discarded == v0.discarded + Discards(f0.cs[c], msg)
    requires dup == (msg.qos > 0 && Duplicate(f0.cs[c].msgsIn, msg))
    requires dup || msg.qos == 0 || Admits(cfg, Cleaned(f0.cs[c], msg), msg.qos)
    requires if dup then
               && FirstSource(All(f0.cs[c].msgsIn), msg.sourceMid) < |All(f0.cs[c].msgsIn)|
               && x == All(f0.cs[c].msgsIn)[FirstSource(All(f0.cs[c].msgsIn), msg.sourceMid)].store && v.lastId == v0.lastId
             else x == msg.(id := v0.lastId + 1) && v.lastId == x.id
    requires (f, rc) == Publish01(cfg, link, f0.(cs := f0.cs[c := Cleaned(f0.cs[c], msg)]), c, x, msg.qos, msg.sourceMid, ds,
                                  searchRc, now)
    requires handed == handed0 + [Handing(x.id, if Untokenised(x.topic) then 1 else searchRc)]
    requires v.retained == if !Untokenised(x.topic) && x.retain then Retaining(v0.retained, TokenPath(x.topic), x) else v0.retained
    ensures Published01(cfg, link, v0, v, f0, f, c, msg, ds, searchRc, now, handed0, handed, rc)
  {
    hide Cleaned, Duplicate, Admits, Discards, Publish01, FirstSource, DeliveriesOk, Untokenised, Retaining, TokenPath;
  }

  lemma DuplicateListed(v: View, c: nat, msg: Store)
    requires Inv(v) && c < |v.cs| && Duplicate(v.cs[c].msgsIn, msg)
    ensures FirstSource(All(v.cs[c].msgsIn), msg.sourceMid) < |All(v.cs[c].msgsIn)|
    ensures All(v.cs[c].msgsIn)[FirstSource(All(v.cs[c].msgsIn), msg.sourceMid)].store in v.list
  {
    ListedOut(v, c);
    hide Inv, FirstSource;
  }

  /** What a PUBLISH of quality 2 has done between two views. */
  ghost predicate Published2(cfg: Config, link: Link, v0: View, v: View, c: nat, msg: Store, now: int,
                             sent0: seq<Packet>, sent: seq<Packet>, rc: int)
  {
    && c < |v0.cs|
    && var ctx, x := v0.cs[c], msg.(id := v0.lastId + 1);
       var effect := Publish2(cfg, link, ctx, x, now, sent0);
       && v.cs == v0.cs[c := effect.ctx] && sent == effect.sent && rc == effect.rc
       && v.accepted == v0.accepted + (if Accepts(cfg, ctx, x) then multiset{x.id} else multiset{})
       && v.discarded == v0.discarded + Discards(ctx, msg)
       && v0.lastId <= v.lastId <= x.id && (Accepts(cfg, ctx, x) ==> v.lastId == x.id)
       && v.forwarded == v0.forwarded && v.retained == v0.retained && v.pins == v0.pins
  }

  /** It is what the two branches amount to: a duplicate is acknowledged again, a new message is
      offered on the cleaned-up lists. */
  lemma Publish2Done(cfg: Config, link: Link, v0: View, v: View, c: nat, msg: Store, now: int, sent0: seq<Packet>,
                     sent: seq<Packet>, rc: int)
    requires c < |v0.cs| && msg.qos == 2
    requires v.discarded == v0.discarded + Discards(v0.cs[c], msg)
    requires v.forwarded == v0.forwarded && v.retained == v0.retained && v.pins == v0.pins
    requires var ctx, x := v0.cs[c], msg.(id := v0.lastId + 1);
             var cleaned := Cleaned(ctx, msg);
             var dup := Duplicate(ctx.msgsIn, msg);
             var effect := if dup then Finished(link, Acknowledged(link, cleaned, x.sourceMid, sent0))
                           else Offered(cfg, link, cleaned, x, now, sent0);
             var taken := !dup && Admits(cfg, cleaned, 2) && InsertPlan(cfg, cleaned, In, 2, x.retain, false).List?;
             && v.cs == v0.cs[c := effect.ctx] && sent == effect.sent && rc == effect.rc
             && v.accepted == v0.accepted + (if taken then multiset{x.id} else multiset{})
             && v0.lastId <= v.lastId <= x.id && (taken ==> v.lastId == x.id)
    ensures Published2(cfg, link, v0, v, c, msg, now, sent0, sent, rc)
  {
    hide Duplicate, Cleaned, Admits, InsertEffect, InsertPlan, Discards, Finished, Offered;
    SameRecognised(v0.cs[c], msg, v0.lastId + 1);
  }

  // ---------- the subscribers' side of a release ----------

  /** What the hand-overs of a release change for subscribers. */
  datatype Walk = Walk(front: Front, retained: Retained)

  ghost predicate AllDeliveriesOk(deliveries: nat -> seq<Delivery>, clients: nat)
  {
    forall s :: DeliveriesOk(deliveries(s), clients)
  }

  /** sub__messages_queue for the message of an entry. */
  function HandOne(cfg: Config, link: Link, w: Walk, e: Entry, ds: seq<Delivery>, now: int): (r: Walk)
    requires DeliveriesOk(ds, |w.front.cs|)
    ensures |r.front.cs| == |w.front.cs|
  {
    var x := e.store;
    Walk(DeliverAll(cfg, link, w.front, x, if Untokenised(x.topic) then [] else ds, now),
         if !Untokenised(x.topic) && e.retain then Retaining(w.retained, TokenPath(x.topic), x) else w.retained)
  }

  /** The entry at position i is handed on and, on success, taken off the list. */
  function HandAndDrop(cfg: Config, link: Link, w: Walk, c: nat, i: nat, ds: seq<Delivery>, rc: int, now: int): (r: Walk)
    requires c < |w.front.cs| && i < |w.front.cs[c].msgsIn.inflight| && DeliveriesOk(ds, |w.front.cs|)
    ensures |r.front.cs| == |w.front.cs|
    ensures r.front.cs[c].msgsIn == if Succeeded(rc) then Removed(w.front.cs[c].msgsIn, i) else w.front.cs[c].msgsIn
  {
    var md := w.front.cs[c].msgsIn;
    var h := HandOne(cfg, link, w, md.inflight[i], ds, now);
    HandOneIn(cfg, link, w, md.inflight[i], ds, now, c);
    if Succeeded(rc) then h.(front := h.front.(cs := h.front.cs[c := h.front.cs[c].(msgsIn := Removed(md, i))])) else h
  }

  lemma HandOneIn(cfg: Config, link: Link, w: Walk, e: Entry, ds: seq<Delivery>, now: int, c: nat)
    requires c < |w.front.cs| && DeliveriesOk(ds, |w.front.cs|)
    ensures HandOne(cfg, link, w, e, ds, now).front.cs[c].msgsIn == w.front.cs[c].msgsIn
  {
    hide DeliverAll, DeliveriesOk;
    var ds' := if Untokenised(e.store.topic) then [] else ds;
    NoDeliveries(|w.front.cs|);
    DeliverOnlyOut(cfg, link, w.front, e.store, ds', now);
  }

  lemma NoDeliveries(clients: nat)
    ensures DeliveriesOk([], clients)
  {
  }

  /** The walk of a release from position i on: each entry with the id is delivered in turn, and a
      failure ends it. */
  ghost function WalkOn(cfg: Config, link: Link, w: Walk, c: nat, i: nat, mid: nat, deliveries: nat -> seq<Delivery>,
                        result: nat -> int, now: int): (r: Walk)
    requires c < |w.front.cs| && i <= |w.front.cs[c].msgsIn.inflight| && AllDeliveriesOk(deliveries, |w.front.cs|)
    ensures |r.front.cs| == |w.front.cs|
    decreases |w.front.cs[c].msgsIn.inflight| - i
  {
    var es := w.front.cs[c].msgsIn.inflight;
    if i == |es| then w
    else if es[i].mid != mid then WalkOn(cfg, link, w, c, i + 1, mid, deliveries, result, now)
    else if es[i].store.qos != 2 then w
    else
      var rc := HandRc(es[i].store, result);
      var h := HandAndDrop(cfg, link, w, c, i, deliveries(es[i].store.id), rc, now);
      if Succeeded(rc) then WalkOn(cfg, link, h, c, i, mid, deliveries, result, now) else h
  }

  /** The whole release for clients, packets and retained messages: the walk, and after a walk to
      the end the acknowledgement of queued entries. */
  ghost predicate ReleaseEffect(cfg: Config, link: Link, w0: Walk, w: Walk, c: nat, mid: nat,
                                deliveries: nat -> seq<Delivery>, result: nat -> int, now: int)
  {
    && c < |w0.front.cs| && AllDeliveriesOk(deliveries, |w0.front.cs|)
    && var es := w0.front.cs[c].msgsIn.inflight;
       var n := StopAt(es, mid, result);
       var e := WalkOn(cfg, link, w0, c, 0, mid, deliveries, result, now);
       var md := e.front.cs[c].msgsIn;
       var (md', packets) := ReleaseIn(md, |md.inflight|, n, []);
       w == if n < |es| then e
            else e.(front := e.front.(cs := e.front.cs[c := e.front.cs[c].(msgsIn := md')], sent := e.front.sent + packets))
  }
}
