/** The message ids pending at each client along PUBLISH and PUBREL steps: when they stay distinct,
    and how long an id that was released stays away. */
module PendingIds {
  import opened Messages
  import opened OutgoingWriter
  import opened StoreList
  import opened DbInvariant
  import opened Admission
  import opened SessionLists
  import opened DbSteps
  import opened Inbound

  /** No pending entry has the id. */
  ghost predicate MidFree(es: seq<Entry>, mid: nat)
  {
    forall i :: 0 <= i < |es| ==> es[i].mid != mid
  }

  /** Every client's pending ids are distinct. */
  ghost predicate AllOrderly(cs: seq<Context>)
  {
    forall c :: 0 <= c < |cs| ==> Orderly(All(cs[c].msgsIn))
  }

  /** Ids that were not pending are not pending now, except where a message was taken. */
  ghost predicate FreshKept(cs: seq<Context>, cs': seq<Context>, taken: set<(nat, nat)>)
  {
    && |cs'| == |cs|
    && forall c: nat, mid: nat :: c < |cs| && (c, mid) !in taken && MidFree(All(cs[c].msgsIn), mid) ==>
         MidFree(All(cs'[c].msgsIn), mid)
  }

  lemma FreshTwice(cs: seq<Context>, cs1: seq<Context>, cs2: seq<Context>, a: set<(nat, nat)>, b: set<(nat, nat)>)
    requires FreshKept(cs, cs1, a) && FreshKept(cs1, cs2, b)
    ensures FreshKept(cs, cs2, a + b)
    ensures a == b ==> FreshKept(cs, cs2, a)
  {
    hide MidFree;
    assert a == b ==> a + b == a;
  }

  // ---------- one client's list ----------

  lemma FreeSame(a: seq<Entry>, b: seq<Entry>, mid: nat)
    requires SameMessages(a, b) && MidFree(b, mid)
    ensures MidFree(a, mid)
  {
    forall i | 0 <= i < |a|
      ensures a[i].mid != mid
    {
      assert SameMessage(a[i], b[i]);
    }
  }

  lemma FreePart(a: seq<Entry>, b: seq<Entry>, mid: nat)
    requires MidFree(b, mid) && forall e :: e in a ==> e in b
    ensures MidFree(a, mid)
  {
    forall i | 0 <= i < |a|
      ensures a[i].mid != mid
    {
      assert a[i] in b;
    }
  }

  lemma FinishedFree(link: Link, f: Effect, mid: nat)
    requires MidFree(All(f.ctx.msgsIn), mid)
    ensures MidFree(All(Finished(link, f).ctx.msgsIn), mid)
  {
    if f.ctx.active {
      var md := f.ctx.msgsIn;
      QueuedInKeeps(md, |md.inflight|, f.ctx.msgsOut.inflightMaximum, f.sent, link);
      FreeSame(All(Finished(link, f).ctx.msgsIn), All(md), mid);
    }
  }

  lemma CleanedFree(ctx: Context, x: Store, mid: nat)
    requires MidFree(All(ctx.msgsIn), mid)
    ensures MidFree(All(Cleaned(ctx, x).msgsIn), mid)
  {
    hide Reused;
    var md := ctx.msgsIn;
    var i := FirstMid(md.inflight, x.sourceMid);
    if i < |md.inflight| {
      RemoveKeeps(md, i);
      FreePart(All(Removed(md, i)), All(md), mid);
    }
  }

  lemma CleanedStaysOrderly(ctx: Context, x: Store)
    requires Orderly(All(ctx.msgsIn))
    ensures Orderly(All(Cleaned(ctx, x).msgsIn))
  {
    hide Reused;
    var md := ctx.msgsIn;
    var i := FirstMid(md.inflight, x.sourceMid);
    if i < |md.inflight| {
      RemoveKeeps(md, i);
      OrderlyCut(All(md), i);
    }
  }

  lemma AppendedFree(md: MsgData, e: Entry, mid: nat)
    requires MidFree(All(md), mid) && e.mid != mid
    ensures MidFree(All(Appended(md, e, 2)), mid)
  {
    var a, es := All(Appended(md, e, 2)), All(md);
    forall i | 0 <= i < |a|
      ensures a[i].mid != mid
    {
      assert a[i] == e || a[i] in es;
    }
  }

  lemma InsertFree(cfg: Config, link: Link, ctx: Context, x: Store, now: int, sent: seq<Packet>, mid: nat)
    requires MidFree(All(ctx.msgsIn), mid)
    requires InsertPlan(cfg, ctx, In, 2, x.retain, false).List? ==> x.sourceMid != mid
    ensures MidFree(All(InsertEffect(cfg, link, ctx, x.sourceMid, In, 2, x.retain, x, false, now, false, sent).ctx.msgsIn), mid)
  {
    hide InsertPlan, MidFree, Appended;
    match InsertPlan(cfg, ctx, In, 2, x.retain, false) {
      case Leave(_, _) =>
      case List(state, _) =>
        AppendedFree(ctx.msgsIn, NewEntry(ctx, x.sourceMid, In, 2, x.retain, x, state), mid);
    }
  }

  /** A PUBLISH of quality 2 makes no id pending but its own, and that only when it is accepted. */
  lemma Publish2Free(cfg: Config, link: Link, ctx: Context, x: Store, now: int, sent: seq<Packet>, mid: nat)
    requires MidFree(All(ctx.msgsIn), mid) && !(Accepts(cfg, ctx, x) && x.sourceMid == mid)
    ensures MidFree(All(Publish2(cfg, link, ctx, x, now, sent).ctx.msgsIn), mid)
  {
    hide Duplicate, Cleaned, Admits, InsertPlan, InsertEffect, Finished, MidFree;
    if Duplicate(ctx.msgsIn, x) {
      FinishedFree(link, Acknowledged(link, ctx, x.sourceMid, sent), mid);
    } else {
      CleanedFree(ctx, x, mid);
      if Admits(cfg, Cleaned(ctx, x), 2) {
        var f := InsertEffect(cfg, link, Cleaned(ctx, x), x.sourceMid, In, 2, x.retain, x, false, now, false, sent);
        InsertFree(cfg, link, Cleaned(ctx, x), x, now, sent, mid);
        FinishedFree(link, Acknowledged(link, f.ctx, x.sourceMid, f.sent), mid);
        FinishedFree(link, f.(rc := if f.rc == 1 then 1 else SUCCESS), mid);
      }
    }
  }

  lemma {:induction false} DropPart(md: MsgData, i: nat, m: nat, mid: nat)
    requires i + m <= |md.inflight|
    ensures forall e :: e in All(DropMid(md, i, m, mid)) ==> e in All(md)
    decreases m
  {
    if m > 0 {
      if md.inflight[i].mid == mid {
        RemoveKeeps(md, i);
        DropPart(Removed(md, i), i, m - 1, mid);
      } else {
        DropPart(md, i + 1, m - 1, mid);
      }
    }
  }

  /** A release makes no id pending. */
  lemma ReleaseFree(md: MsgData, released: nat, result: nat -> int, mid: nat)
    requires MidFree(All(md), mid)
    ensures MidFree(All(AfterRelease(md, released, result)), mid)
  {
    hide MidFree, DropMid, ReleaseIn;
    var n := StopAt(md.inflight, released, result);
    var d := DropMid(md, 0, n, released);
    DropPart(md, 0, n, released);
    FreePart(All(d), All(md), mid);
    ReleaseInKeeps(d, |d.inflight|, n, []);
    FreeSame(All(ReleaseIn(d, |d.inflight|, n, []).0), All(d), mid);
  }

  /** Distinct ids have at most one entry each. */
  lemma OneWithMid(md: MsgData, mid: nat)
    requires Orderly(All(md)) && WithMid(md.inflight, mid) != []
    ensures |WithMid(md.inflight, mid)| == 1
    ensures WithMid(md.inflight, mid)[0] in md.inflight && WithMid(md.inflight, mid)[0].mid == mid
  {
    assert WithMid(md.inflight, mid)[0] in WithMid(md.inflight, mid);
    assert forall i :: 0 <= i < |md.inflight| ==> md.inflight[i] == All(md)[i];
    OnlyOne(md.inflight, mid);
  }

  lemma {:induction false} OnlyOne(es: seq<Entry>, mid: nat)
    requires forall i, j :: 0 <= i < j < |es| ==> es[i].mid != es[j].mid
    ensures |WithMid(es, mid)| <= 1
  {
    if es != [] {
      var r, e := es[..|es| - 1], es[|es| - 1];
      OnlyOne(r, mid);
      if e.mid == mid {
        NoneWithMid(r, mid);
      }
    }
  }

  // ---------- all clients ----------

  lemma OnlyOutOrderly(cs: seq<Context>, cs': seq<Context>)
    requires OnlyOut(cs, cs') && AllOrderly(cs)
    ensures AllOrderly(cs')
  {
    hide Orderly;
  }

  lemma OnlyOutFresh(cs: seq<Context>, cs': seq<Context>)
    requires OnlyOut(cs, cs')
    ensures FreshKept(cs, cs', {})
  {
    hide MidFree;
  }

  lemma OneFresh(cs: seq<Context>, c: nat, ctx: Context, taken: set<(nat, nat)>)
    requires c < |cs|
    requires forall mid: nat :: (c, mid) !in taken && MidFree(All(cs[c].msgsIn), mid) ==> MidFree(All(ctx.msgsIn), mid)
    ensures FreshKept(cs, cs[c := ctx], taken)
  {
    hide MidFree;
  }

  /** A PUBLISH of quality 2 and the ids of all clients: exact for distinctness. */
  lemma Publish2Ids(cfg: Config, link: Link, cs: seq<Context>, c: nat, x: Store, now: int, sent: seq<Packet>)
    requires c < |cs| && x.qos == 2
    ensures var cs' := cs[c := Publish2(cfg, link, cs[c], x, now, sent).ctx];
            && FreshKept(cs, cs', if Accepts(cfg, cs[c], x) then {(c, x.sourceMid)} else {})
            && (AllOrderly(cs) ==> (AllOrderly(cs') <==> !(Accepts(cfg, cs[c], x) && Lingers(cs[c], x))))
  {
    hide Publish2, Accepts, Lingers, MidFree, Orderly;
    var ctx := Publish2(cfg, link, cs[c], x, now, sent).ctx;
    var taken := if Accepts(cfg, cs[c], x) then {(c, x.sourceMid)} else {};
    forall mid: nat | (c, mid) !in taken && MidFree(All(cs[c].msgsIn), mid)
      ensures MidFree(All(ctx.msgsIn), mid)
    {
      Publish2Free(cfg, link, cs[c], x, now, sent, mid);
    }
    OneFresh(cs, c, ctx, taken);
    if AllOrderly(cs) {
      PublishOrderly(cfg, link, cs[c], x, now, sent);
      assert cs[c := ctx][c] == ctx;
    }
  }

  /** One client's list may only have lost entries, apart from protocol states. */
  lemma ShrunkIds(cs: seq<Context>, c: nat, ctx: Context)
    requires c < |cs|
    requires forall mid: nat :: MidFree(All(cs[c].msgsIn), mid) ==> MidFree(All(ctx.msgsIn), mid)
    requires Orderly(All(cs[c].msgsIn)) ==> Orderly(All(ctx.msgsIn))
    ensures FreshKept(cs, cs[c := ctx], {}) && (AllOrderly(cs) ==> AllOrderly(cs[c := ctx]))
  {
    hide MidFree, Orderly;
  }

  lemma CreditedIds(cs: seq<Context>, c: nat)
    requires c < |cs|
    ensures var cs' := cs[c := Credited(cs[c])];
            FreshKept(cs, cs', {}) && (AllOrderly(cs) ==> AllOrderly(cs'))
  {
    hide MidFree, Orderly;
    assert All(Credited(cs[c]).msgsIn) == All(cs[c].msgsIn);
    ShrunkIds(cs, c, Credited(cs[c]));
  }

  lemma CleanedIds(cs: seq<Context>, c: nat, x: Store)
    requires c < |cs|
    ensures var cs' := cs[c := Cleaned(cs[c], x)];
            FreshKept(cs, cs', {}) && (AllOrderly(cs) ==> AllOrderly(cs'))
  {
    hide MidFree, Orderly, Cleaned;
    forall mid: nat | MidFree(All(cs[c].msgsIn), mid)
      ensures MidFree(All(Cleaned(cs[c], x).msgsIn), mid)
    {
      CleanedFree(cs[c], x, mid);
    }
    if Orderly(All(cs[c].msgsIn)) { CleanedStaysOrderly(cs[c], x); }
    ShrunkIds(cs, c, Cleaned(cs[c], x));
  }

  lemma FinishedIds(link: Link, cs: seq<Context>, c: nat, f: Effect)
    requires c < |cs| && All(f.ctx.msgsIn) == All(cs[c].msgsIn)
    ensures var cs' := cs[c := Finished(link, f).ctx];
            FreshKept(cs, cs', {}) && (AllOrderly(cs) ==> AllOrderly(cs'))
  {
    hide MidFree, Orderly, Finished;
    forall mid: nat | MidFree(All(cs[c].msgsIn), mid)
      ensures MidFree(All(Finished(link, f).ctx.msgsIn), mid)
    {
      FinishedFree(link, f, mid);
    }
    FinishedOrderly(link, f);
    ShrunkIds(cs, c, Finished(link, f).ctx);
  }

  /** A PUBLISH of quality 0 or 1 makes no id pending and keeps pending ids distinct. */
  lemma Publish01Ids(cfg: Config, link: Link, f: Front, c: nat, x: Store, qos: nat, mid: nat, ds: seq<Delivery>,
                     searchRc: int, now: int)
    requires c < |f.cs| && DeliveriesOk(ds, |f.cs|)
    ensures var cs' := Publish01(cfg, link, f, c, x, qos, mid, ds, searchRc, now).0.cs;
            FreshKept(f.cs, cs', {}) && (AllOrderly(f.cs) ==> AllOrderly(cs'))
  {
    hide DeliverAll, OnlyOut, Orderly, MidFree, Finished, DeliveriesOk;
    var ctx := if qos == 1 then f.cs[c].(msgsIn := DecQuota(f.cs[c].msgsIn)) else f.cs[c];
    assert All(ctx.msgsIn) == All(f.cs[c].msgsIn);
    ShrunkIds(f.cs, c, ctx);
    var f1 := f.(cs := f.cs[c := ctx]);
    NoDeliveries(|f.cs|);
    var ds' := if Untokenised(x.topic) then [] else ds;
    var g := DeliverAll(cfg, link, f1, x, ds', now);
    DeliverOnlyOut(cfg, link, f1, x, ds', now);
    OnlyOutFresh(f1.cs, g.cs);
    if AllOrderly(f1.cs) { OnlyOutOrderly(f1.cs, g.cs); }
    var answer := Answered(link, g.cs[c], qos, mid, if Untokenised(x.topic) then 1 else searchRc, g.sent);
    FinishedIds(link, g.cs, c, answer);
    hide FreshKept, AllOrderly;
    FreshTwice(f.cs, f1.cs, g.cs, {}, {});
    FreshTwice(f.cs, g.cs, g.cs[c := Finished(link, answer).ctx], {}, {});
  }

  /** The same for the whole step. */
  lemma Published01Ids(cfg: Config, link: Link, v0: View, v: View, f0: Front, f: Front, c: nat, msg: Store,
                       ds: seq<Delivery>, searchRc: int, now: int, handed0: seq<Handing>, handed: seq<Handing>, rc: int)
    requires Published01(cfg, link, v0, v, f0, f, c, msg, ds, searchRc, now, handed0, handed, rc)
    ensures FreshKept(f0.cs, f.cs, {}) && (AllOrderly(f0.cs) ==> AllOrderly(f.cs))
  {
    hide Cleaned, Reused, Admits, Publish01, FirstSource, FreshKept, AllOrderly, DeliveriesOk, Discards, Retaining;
    var f1 := f0.(cs := f0.cs[c := Cleaned(f0.cs[c], msg)]);
    CleanedIds(f0.cs, c, msg);
    if !(msg.qos > 0 && Duplicate(f0.cs[c].msgsIn, msg)) && msg.qos > 0 && !Admits(cfg, f1.cs[c], msg.qos) {
      CreditedIds(f1.cs, c);
      assert f.cs == f1.cs[c := Credited(f1.cs[c])];
      FreshTwice(f0.cs, f1.cs, f.cs, {}, {});
    } else {
      var k := FirstSource(All(f0.cs[c].msgsIn), msg.sourceMid);
      var x := if msg.qos > 0 && Duplicate(f0.cs[c].msgsIn, msg) then All(f0.cs[c].msgsIn)[k].store
               else msg.(id := v0.lastId + 1);
      Publish01Ids(cfg, link, f1, c, x, msg.qos, msg.sourceMid, ds, searchRc, now);
      FreshTwice(f0.cs, f1.cs, f.cs, {}, {});
    }
  }

  /** A PUBREL makes no id pending and keeps pending ids distinct. */
  lemma ReleaseIds(v0: View, v: View, c: nat, mid: nat, result: nat -> int, handed0: seq<Handing>, handed: seq<Handing>)
    requires ReleaseDone(v0, v, c, mid, result, handed0, handed)
    ensures FreshKept(v0.cs, v.cs, {}) && (AllOrderly(v0.cs) ==> AllOrderly(v.cs))
  {
    hide Quiet, StopAt, AfterRelease, OnlyOut, WithMid, Refs, Handings, Orderly, MidFree;
    var md := v0.cs[c].msgsIn;
    var ctx := v0.cs[c].(msgsIn := AfterRelease(md, mid, result));
    forall m: nat | MidFree(All(md), m)
      ensures MidFree(All(ctx.msgsIn), m)
    {
      ReleaseFree(md, mid, result, m);
    }
    if Orderly(All(md)) { ReleaseOrderly(md, mid, result); }
    ShrunkIds(v0.cs, c, ctx);
    OnlyOutFresh(v0.cs[c := ctx], v.cs);
    if AllOrderly(v0.cs[c := ctx]) { OnlyOutOrderly(v0.cs[c := ctx], v.cs); }
    hide FreshKept, AllOrderly;
    FreshTwice(v0.cs, v0.cs[c := ctx], v.cs, {}, {});
  }

  /** Exactly one message was handed on, with success: one that was pending under the id. */
  ghost predicate HandsOne(md: MsgData, mid: nat, handed0: seq<Handing>, handed: seq<Handing>,
                           forwarded0: multiset<nat>, forwarded: multiset<nat>)
  {
    && |handed| == |handed0| + 1 && handed[..|handed0|] == handed0
    && var h := handed[|handed0|];
       && Succeeded(h.rc) && forwarded == forwarded0 + multiset{h.id}
       && exists e :: e in md.inflight && e.mid == mid && e.store.id == h.id
  }

  /** A PUBREL that finds its id at a client with distinct ids hands on exactly one message, with
      success, and leaves the id free. */
  lemma ReleaseOne(v0: View, v: View, c: nat, mid: nat, result: nat -> int, handed0: seq<Handing>, handed: seq<Handing>)
    requires ReleaseDone(v0, v, c, mid, result, handed0, handed) && Orderly(All(v0.cs[c].msgsIn))
    requires var es := v0.cs[c].msgsIn.inflight; StopAt(es, mid, result) == |es| && WithMid(es, mid) != []
    ensures HandsOne(v0.cs[c].msgsIn, mid, handed0, handed, v0.forwarded, v.forwarded)
    ensures |v.cs| == |v0.cs| && MidFree(All(v.cs[c].msgsIn), mid)
  {
    var md := v0.cs[c].msgsIn;
    OneWithMid(md, mid);
    ReleaseOrderly(md, mid, result);
    var e := WithMid(md.inflight, mid)[0];
    assert md.inflight[..|md.inflight|] == md.inflight;
    assert WithMid(md.inflight, mid) == [e];
    var k :| 0 <= k < |md.inflight| && md.inflight[k] == e;
    assert !Stops(md.inflight[k], mid, result);
    hide Quiet, WithMid, StopAt, AfterRelease, Orderly;
    assert Handings([e], result) == [Handing(e.store.id, HandRc(e.store, result))];
    assert [e][1..] == [] && Refs([e]) == multiset{e.store.id};
    assert handed == handed0 + Handings([e], result) + [] == handed0 + [Handing(e.store.id, HandRc(e.store, result))];
  }

  /** A PUBREL for a free id does nothing but look at the queue. */
  lemma ReleaseNone(v0: View, v: View, c: nat, mid: nat, result: nat -> int, handed0: seq<Handing>, handed: seq<Handing>)
    requires ReleaseDone(v0, v, c, mid, result, handed0, handed) && MidFree(All(v0.cs[c].msgsIn), mid)
    ensures handed == handed0 && v.forwarded == v0.forwarded
    ensures var es := v0.cs[c].msgsIn.inflight; StopAt(es, mid, result) == |es| && WithMid(es, mid) == []
  {
    var md := v0.cs[c].msgsIn;
    assert forall i :: 0 <= i < |md.inflight| ==> md.inflight[i] == All(md)[i];
    NothingWithMid(md.inflight, mid, result);
    hide Quiet, AfterRelease, OnlyOut;
    assert md.inflight[..|md.inflight|] == md.inflight;
  }

  /** A PUBCOMP changes no list. */
  lemma CompletedIds(link: Link, v: View, v': View, sent: seq<Packet>, sent': seq<Packet>, c: nat, mid: nat, found: int,
                     rc: int)
    requires Completed(link, v, v', sent, sent', c, mid, found, rc)
    ensures FreshKept(v.cs, v'.cs, {}) && (AllOrderly(v.cs) ==> AllOrderly(v'.cs))
    ensures |v'.cs| == |v.cs| && All(v'.cs[c].msgsIn) == All(v.cs[c].msgsIn)
  {
    hide MidFree, Orderly;
    CreditedIds(v.cs, c);
  }

  // ---------- sessions ----------

  /** Dropping inflight entries that are not of quality 2 keeps ids distinct. */
  lemma {:induction false} OrderlyQos2(es: seq<Entry>, queued: seq<Entry>)
    requires Orderly(es + queued)
    ensures Orderly(Qos2(es) + queued)
  {
    hide Orderly;
    if es == [] {
      assert Qos2(es) + queued == es + queued;
    } else {
      var n := |es| - 1;
      var r, e := es[..n], es[n];
      if e.qos == 2 {
        assert es + queued == r + ([e] + queued);
        OrderlyQos2(r, [e] + queued);
        assert Qos2(es) + queued == Qos2(r) + ([e] + queued);
      } else {
        OrderlyCut(es + queued, n);
        assert (es + queued)[..n] + (es + queued)[n + 1..] == r + queued;
        OrderlyQos2(r, queued);
        assert Qos2(es) + queued == Qos2(r) + queued;
      }
    }
  }

  /** The session that is resumed has no id pending that the old one had not, and distinct ids if
      that had. */
  lemma AdoptedIds(cfg: Config, ctx: Context, found: Context)
    ensures var a := Adopted(cfg, ctx, found);
            && (Orderly(All(found.msgsIn)) ==> Orderly(All(a.msgsIn)))
            && (forall mid: nat :: MidFree(All(found.msgsIn), mid) ==> MidFree(All(a.msgsIn), mid))
  {
    hide Adopted, Qos2, Orderly, MidFree, SameMessages, CountersOk;
    var a, md := Adopted(cfg, ctx, found), found.msgsIn;
    AdoptedKeeps(cfg, ctx, found);
    var kept := Qos2(md.inflight) + md.queued;
    OrderlySame(All(a.msgsIn), kept);
    if Orderly(All(md)) { OrderlyQos2(md.inflight, md.queued); }
    forall mid: nat | MidFree(All(md), mid)
      ensures MidFree(All(a.msgsIn), mid)
    {
      FreePart(kept, All(md), mid);
      FreeSame(All(a.msgsIn), kept, mid);
    }
  }

  /** A takeover of a session that is resumed: the new client's pending ids are the old one's; a
      takeover of one that is not changes no list. */
  lemma TakeoverIds(cfg: Config, v: View, v': View, c: nat, d: nat)
    requires TakenOver(cfg, v, v', c, d) && All(v.cs[c].msgsIn) == []
    ensures |v'.cs| == |v.cs| && (AllOrderly(v.cs) ==> AllOrderly(v'.cs))
    ensures forall k: nat, mid: nat :: k < |v.cs| && k != c && MidFree(All(v.cs[k].msgsIn), mid) ==> MidFree(All(v'.cs[k].msgsIn), mid)
    ensures !v.cs[c].cleanStart && v.cs[d].sessionExpiryInterval > 0 ==>
              forall mid: nat :: MidFree(All(v.cs[d].msgsIn), mid) ==> MidFree(All(v'.cs[c].msgsIn), mid)
    ensures !(!v.cs[c].cleanStart && v.cs[d].sessionExpiryInterval > 0) ==> All(v'.cs[c].msgsIn) == []
  {
    hide Adopted, Orderly, NotQos2, Refs, Quiet;
    AdoptedIds(cfg, v.cs[c], v.cs[d]);
    assert Orderly([]) by { EmptyOrderly(); }
    EmptyCounters();
    hide CountersOk;
  }

  lemma EmptyOrderly()
    ensures Orderly([])
  {
  }

  /** A deletion makes no id pending. */
  lemma DeleteIds(v: View, v': View, c: nat, force: bool)
    requires Deleted(v, v', c, force)
    ensures FreshKept(v.cs, v'.cs, {}) && (AllOrderly(v.cs) ==> AllOrderly(v'.cs))
  {
    hide Orderly, Refs, Quiet;
    assert Orderly([]) by { EmptyOrderly(); }
    assert All(Cleared(v.cs[c].msgsIn)) == [];
  }
}
