/** The effect of the message database's operations on one client, and how effects compose. */
module DbSteps {
  import opened Messages
  import opened OutgoingWriter
  import opened StoreList
  import opened DbInvariant
  import opened Admission
  import opened SessionLists

  predicate Online(ctx: Context)
  {
    ctx.active && ctx.connected
  }

  /** db__message_insert's effect on a list. */
  function Inserted(md: MsgData, e: Entry, qos: nat): MsgData
  {
    var a := Appended(md, e, qos);
    if e.direction == Out && e.qos > 0 then DecQuota(a) else a
  }

  /** The write that follows an insertion with update: the latest entries, then the queue. */
  function Pushed(ctx: Context, md: MsgData, sent: seq<Packet>, link: Link, now: int): Written
  {
    var w := WriteLatest(md, Online(ctx), sent, link, now);
    if w.rc != SUCCESS then w
    else Written(if ctx.active then ReleaseQueued(w.md) else w.md, w.sent, SUCCESS)
  }

  lemma {:induction false} StartBefore(es: seq<Entry>, k: nat)
    requires k < |es| && forall j :: k < j < |es| ==> IsPublish(es[j].state)
    ensures Start(es) == Start(es[..k + 1])
    decreases |es|
  {
    if k + 1 == |es| {
      assert es[..k + 1] == es;
    } else {
      var r := es[..|es| - 1];
      StartBefore(r, k);
      assert r[..k + 1] == es[..k + 1];
    }
  }

  /** Where the latest-write starts, searched from the end of the list. */
  method FindStart(es: seq<Entry>) returns (k: nat)
    ensures k == Start(es)
  {
    if |es| <= 1 { return 0; }
    k := |es| - 1;
    while k > 0 && IsPublish(es[k].state)
      invariant k < |es| && forall j :: k < j < |es| ==> IsPublish(es[j].state)
    {
      k := k - 1;
    }
    StartBefore(es, k);
    if k != 0 {
      k := k + 1;
    }
  }

  /** From view v to v' a write on client c had exactly the effect w; otherwise only messages
      nobody holds any more left the store list. */
  ghost predicate Wrote(v: View, v': View, c: nat, w: Written, sent: seq<Packet>, rc: int)
  {
    && Quiet(v, v')
    && c < |v.cs| && v'.cs == v.cs[c := v.cs[c].(msgsOut := w.md)]
    && sent == w.sent && rc == w.rc
  }

  lemma WroteBy(v: View, v': View, c: nat, w: Written, sent: seq<Packet>, rc: int)
    requires Quiet(v, v') && c < |v.cs| && v'.cs == v.cs[c := v.cs[c].(msgsOut := w.md)]
    requires sent == w.sent && rc == w.rc
    ensures Wrote(v, v', c, w, sent, rc)
  {
  }

  lemma WroteNothing(v: View, c: nat, w: Written, sent: seq<Packet>)
    requires c < |v.cs| && w == Written(v.cs[c].msgsOut, sent, SUCCESS)
    ensures Wrote(v, v, c, w, sent, SUCCESS)
  {
    assert v.cs == v.cs[c := v.cs[c].(msgsOut := w.md)];
  }

  /** An insertion of an outgoing entry, written out at once when asked to. */
  function Listed(ctx: Context, e: Entry, qos: nat, update: bool, sent: seq<Packet>, link: Link, now: int,
                  queuedRc: int): Written
  {
    var md := Inserted(ctx.msgsOut, e, qos);
    if update then Pushed(ctx, md, sent, link, now) else Written(md, sent, queuedRc)
  }

  /** What an operation made of one client, what it sent and what it returned. */
  datatype Effect = Effect(ctx: Context, sent: seq<Packet>, rc: int)

  /** db__message_insert, given whether the message already went to this client. */
  function InsertEffect(cfg: Config, link: Link, ctx: Context, mid: nat, dir: Direction, qos: nat, retain: bool,
                        x: Store, update: bool, now: int, known: bool, sent: seq<Packet>): Effect
  {
    match InsertPlan(cfg, ctx, dir, qos, retain, known)
    case Leave(r, dropped) => Effect(ctx.(isDropping := ctx.isDropping || dropped), sent, r)
    case List(state, r) =>
      var e := NewEntry(ctx, mid, dir, qos, retain, x, state);
      if dir == In then Effect(ctx.(msgsIn := Inserted(ctx.msgsIn, e, qos)), sent, r)
      else
        var w := Listed(ctx, e, qos, update, sent, link, now, r);
        Effect(ctx.(msgsOut := w.md), w.sent, w.rc)
  }

  /** What db__message_insert did between two views. */
  ghost predicate InsertDone(cfg: Config, link: Link, v: View, v': View, f: Front, f': Front, c: nat, mid: nat,
                             dir: Direction, qos: nat, retain: bool, x: Store, update: bool, now: int, rc: int)
  {
    && c < |f.cs|
    && Quiet(v.(accepted := v'.accepted), v')
    && var ctx := f.cs[c];
       var known := (x.id, ctx.id) in f.destIds;
       var effect := InsertEffect(cfg, link, ctx, mid, dir, qos, retain, x, update, now, known, f.sent);
       var listed := InsertPlan(cfg, ctx, dir, qos, retain, known).List?;
       && f'.cs == f.cs[c := effect.ctx] && f'.sent == effect.sent && rc == effect.rc
       && v'.accepted == v.accepted + (if dir == In && listed then multiset{x.id} else multiset{})
       && f'.destIds == f.destIds + (if listed && !cfg.allowDuplicates && dir == Out && !retain then {(x.id, ctx.id)} else {})
  }

  lemma InsertLeft(cfg: Config, link: Link, v: View, v': View, f: Front, c: nat, mid: nat, dir: Direction, qos: nat,
                   retain: bool, x: Store, update: bool, now: int, rc: int)
    requires c < |f.cs|
    requires var ctx := f.cs[c];
             var plan := InsertPlan(cfg, ctx, dir, qos, retain, (x.id, ctx.id) in f.destIds);
             && plan.Leave? && rc == plan.rc
             && v'.cs == f.cs[c := ctx.(isDropping := ctx.isDropping || plan.dropped)]
    requires Quiet(v, v')
    ensures InsertDone(cfg, link, v, v', f, f.(cs := v'.cs), c, mid, dir, qos, retain, x, update, now, rc)
  {
    hide InsertPlan, Quiet;
    QuietKeeps(v, v');
    assert v.accepted + multiset{} == v.accepted && f.destIds + {} == f.destIds;
  }

  lemma InsertedIn(cfg: Config, link: Link, v: View, v': View, f: Front, c: nat, mid: nat, qos: nat, retain: bool,
                   x: Store, update: bool, now: int, rc: int)
    requires c < |f.cs|
    requires var ctx := f.cs[c];
             var plan := InsertPlan(cfg, ctx, In, qos, retain, (x.id, ctx.id) in f.destIds);
             && plan.List? && rc == plan.rc
             && v'.cs == f.cs[c := ctx.(msgsIn := Inserted(ctx.msgsIn, NewEntry(ctx, mid, In, qos, retain, x, plan.state), qos))]
    requires Quiet(v.(accepted := v'.accepted), v') && v'.accepted == v.accepted + multiset{x.id}
    ensures InsertDone(cfg, link, v, v', f, f.(cs := v'.cs), c, mid, In, qos, retain, x, update, now, rc)
  {
    hide InsertPlan, Quiet, Inserted;
    assert f.destIds + {} == f.destIds;
  }

  lemma InsertedOut(cfg: Config, link: Link, v: View, v': View, f: Front, f': Front, c: nat, mid: nat, qos: nat, retain: bool,
                    x: Store, update: bool, now: int, rc: int)
    requires c < |f.cs| && v.cs == f.cs && v'.cs == f'.cs
    requires var ctx := f.cs[c];
             var plan := InsertPlan(cfg, ctx, Out, qos, retain, (x.id, ctx.id) in f.destIds);
             && plan.List?
             && Wrote(v, v', c, Listed(ctx, NewEntry(ctx, mid, Out, qos, retain, x, plan.state), qos, update, f.sent, link, now,
                                       plan.rc), f'.sent, rc)
             && f'.destIds == (if !cfg.allowDuplicates && !retain then f.destIds + {(x.id, ctx.id)} else f.destIds)
    ensures InsertDone(cfg, link, v, v', f, f', c, mid, Out, qos, retain, x, update, now, rc)
  {
    hide InsertPlan, Quiet, Listed;
    QuietKeeps(v, v');
    assert v.accepted + multiset{} == v.accepted && f.destIds + {} == f.destIds;
  }

  /** An outgoing insertion is a delivery. */
  lemma InsertIsDelivery(cfg: Config, link: Link, v: View, v': View, f: Front, f': Front, d: Delivery, x: Store, now: int,
                         rc: int)
    requires d.client < |f.cs|
    requires InsertDone(cfg, link, v, v', f, f', d.client, d.mid, Out, d.qos, d.retain, x, true, now, rc)
    ensures f' == Delivered(cfg, link, f, x, d, now) && Quiet(v, v')
  {
    hide InsertEffect, InsertPlan, Quiet;
    assert v.accepted + multiset{} == v.accepted;
  }

  /** The inflight entry i of client c was taken off its incoming list, forwarded or not. */
  ghost predicate TakenOff(v: View, v': View, c: nat, i: nat, forward: bool)
  {
    && c < |v.cs| && i < |v.cs[c].msgsIn.inflight|
    && var id := v.cs[c].msgsIn.inflight[i].store.id;
       && v'.cs == v.cs[c := v.cs[c].(msgsIn := Removed(v.cs[c].msgsIn, i))]
       && v'.forwarded == (if forward then v.forwarded + multiset{id} else v.forwarded)
       && v'.discarded == (if forward then v.discarded else v.discarded + multiset{id})
       && Quiet(v.(forwarded := v'.forwarded, discarded := v'.discarded), v')
  }

  lemma TakenOffBy(v: View, v1: View, v2: View, c: nat, i: nat, forward: bool)
    requires c < |v.cs| && i < |v.cs[c].msgsIn.inflight|
    requires var x := v.cs[c].msgsIn.inflight[i].store;
             && x.id in v.refCount && v.refCount[x.id] > 0
             && v1 == v.(cs := v.cs[c := v.cs[c].(msgsIn := Removed(v.cs[c].msgsIn, i))], pins := v.pins + multiset{x.id},
                         forwarded := if forward then v.forwarded + multiset{x.id} else v.forwarded,
                         discarded := if forward then v.discarded else v.discarded + multiset{x.id})
             && v2 == Released(v1, x).(pins := v1.pins - multiset{x.id})
    ensures TakenOff(v, v2, c, i, forward)
  {
    hide Removed, Quiet, Released;
    var x := v.cs[c].msgsIn.inflight[i].store;
    ReleaseQuiet(v.(forwarded := v1.forwarded, discarded := v1.discarded), x, v1.cs);
    assert v1.pins - multiset{x.id} == v.pins;
    QuietAccounts(v.(forwarded := v1.forwarded, discarded := v1.discarded), v2);
  }

  lemma QuietAccounts(v: View, v': View)
    requires Quiet(v, v')
    ensures v'.forwarded == v.forwarded && v'.discarded == v.discarded
  {
  }

  lemma QuietFlag(v: View, c: nat, dropped: bool)
    requires Inv(v) && c < |v.cs|
    ensures var v' := v.(cs := v.cs[c := v.cs[c].(isDropping := v.cs[c].isDropping || dropped)]);
            Inv(v') && Quiet(v, v')
  {
    FlagInv(v, c, v.cs[c].(isDropping := v.cs[c].isDropping || dropped));
  }

  lemma PushedOn(ctx: Context, md: MsgData, sent: seq<Packet>, link: Link, now: int)
    ensures Pushed(ctx.(msgsOut := md), md, sent, link, now) == Pushed(ctx, md, sent, link, now)
  {
    hide WriteLatest, ReleaseQueued;
  }

  lemma WroteIs(v: View, v': View, c: nat, w: Written, sent: seq<Packet>, rc: int)
    requires Wrote(v, v', c, w, sent, rc)
    ensures Quiet(v, v') && c < |v.cs| && v'.cs == v.cs[c := v.cs[c].(msgsOut := w.md)] && sent == w.sent && rc == w.rc
  {
  }

  /** A write that started after the client's list became md. */
  lemma WroteAfter(v: View, v1: View, v2: View, c: nat, md: MsgData, w: Written, sent: seq<Packet>, rc: int)
    requires Quiet(v, v1) && c < |v.cs| && v1.cs == v.cs[c := v.cs[c].(msgsOut := md)]
    requires Wrote(v1, v2, c, w, sent, rc)
    ensures Wrote(v, v2, c, w, sent, rc)
  {
    QuietTwice(v, v1, v2);
  }

  /** A write after which the client's list became md without anything sent. */
  lemma WroteThen(v: View, v1: View, v2: View, c: nat, w: Written, sent: seq<Packet>, md: MsgData)
    requires Wrote(v, v1, c, w, sent, SUCCESS)
    requires v2 == v1.(cs := v1.cs[c := v1.cs[c].(msgsOut := md)])
    ensures Wrote(v, v2, c, Written(md, sent, SUCCESS), sent, SUCCESS)
  {
    QuietSame(v1, v2.cs);
    QuietTwice(v, v1, v2);
  }

  lemma PinnedIs(v: View, x: Store)
    requires x.id in v.refCount
    ensures Pinned(v, x).pins[x.id] > 0 && Pinned(v, x).cs == v.cs && Pinned(v, x).list == v.list
    ensures Pinned(v, x).accepted == v.accepted
  {
  }

  /** The end of an insertion: the temporary reference went to the entry. */
  lemma HeldQuiet(v: View, x: Store, cs: seq<Context>, accepted: multiset<nat>)
    requires x.id in v.refCount
    ensures Quiet(v.(accepted := accepted),
                  Pinned(v, x).(cs := cs, pins := Pinned(v, x).pins - multiset{x.id}, accepted := accepted))
  {
    assert Pinned(v, x).pins - multiset{x.id} == v.pins;
  }

  /** A write that is to end with w has come from view v0 to v and is about to look at entry i. */
  ghost predicate Writing(v0: View, v: View, c: nat, w: Written, i: nat, sent: seq<Packet>, link: Link, now: int)
  {
    && Quiet(v0, v) && c < |v0.cs| && c < |v.cs|
    && v.cs == v0.cs[c := v0.cs[c].(msgsOut := v.cs[c].msgsOut)]
    && i <= |v.cs[c].msgsOut.inflight|
    && From(v.cs[c].msgsOut, i, sent, link, now) == w
  }

  lemma WritingFirst(v: View, c: nat, w: Written, i: nat, sent: seq<Packet>, link: Link, now: int)
    requires c < |v.cs| && i <= |v.cs[c].msgsOut.inflight| && w == From(v.cs[c].msgsOut, i, sent, link, now)
    ensures Writing(v, v, c, w, i, sent, link, now)
  {
  }

  lemma WritingNext(v0: View, v: View, v': View, c: nat, w: Written, i: nat, sent: seq<Packet>, sent': seq<Packet>,
                    link: Link, now: int, rc: int)
    requires Writing(v0, v, c, w, i, sent, link, now) && i < |v.cs[c].msgsOut.inflight|
    requires Wrote(v, v', c, Single(v.cs[c].msgsOut, i, sent, link, now), sent', rc)
    ensures rc != SUCCESS ==> Wrote(v0, v', c, w, sent', rc)
    ensures c < |v'.cs| && |v'.cs[c].msgsOut.inflight| <= |v.cs[c].msgsOut.inflight|
    ensures rc == SUCCESS ==>
      if |v'.cs[c].msgsOut.inflight| == |v.cs[c].msgsOut.inflight| then Writing(v0, v', c, w, i + 1, sent', link, now)
      else i <= |v'.cs[c].msgsOut.inflight| && Writing(v0, v', c, w, i, sent', link, now)
  {
    hide Single, Quiet;
    QuietTwice(v0, v, v');
    FromStep(v.cs[c].msgsOut, i, sent, link, now);
  }

  lemma WritingLast(v0: View, v: View, c: nat, w: Written, sent: seq<Packet>, link: Link, now: int)
    requires c < |v.cs| && Writing(v0, v, c, w, |v.cs[c].msgsOut.inflight|, sent, link, now)
    ensures Wrote(v0, v, c, w, sent, SUCCESS)
  {
    hide Quiet;
  }

  lemma QuietSame(v: View, cs: seq<Context>)
    ensures Quiet(v, v.(cs := cs))
  {
  }

  lemma EmptyInv(cs: seq<Context>)
    requires forall c :: 0 <= c < |cs| ==>
      cs[c].msgsIn.inflight == cs[c].msgsIn.queued == cs[c].msgsOut.inflight == cs[c].msgsOut.queued == []
    requires forall c :: 0 <= c < |cs| ==> CountersOk(cs[c].msgsIn) && CountersOk(cs[c].msgsOut)
    ensures Inv(View([], map[], 0, 0, 0, cs, map[], multiset{}, multiset{}, multiset{}, multiset{}))
  {
    hide CountersOk;
    forall s: nat
      ensures InUses(cs, s) == 0
    {
      NobodyHolds(cs, [], s);
    }
  }

  lemma QuotaSteps(md: MsgData)
    ensures SameMessages(All(IncQuota(md)), All(md)) && (CountersOk(md) ==> CountersOk(IncQuota(md)))
    ensures SameMessages(All(DecQuota(md)), All(md)) && (CountersOk(md) ==> CountersOk(DecQuota(md)))
  {
  }

  lemma FromStep(md: MsgData, i: nat, sent: seq<Packet>, link: Link, now: int)
    requires i < |md.inflight|
    ensures var w := Single(md, i, sent, link, now);
            && (|w.md.inflight| == |md.inflight| || |w.md.inflight| == |md.inflight| - 1)
            && From(md, i, sent, link, now) ==
                 if w.rc != SUCCESS then w
                 else From(w.md, if |w.md.inflight| < |md.inflight| then i else i + 1, w.sent, link, now)
  {
  }

  // ---------- dropping many references ----------

  lemma RefsFirst(es: seq<Entry>, i: nat)
    requires i < |es|
    ensures Refs(es[i..]) == multiset{es[i].store.id} + Refs(es[i + 1..])
  {
    assert es[i..][1..] == es[i + 1..];
  }

  lemma {:induction false} RefsMember(es: seq<Entry>, j: nat)
    requires j < |es|
    ensures Refs(es)[es[j].store.id] > 0
  {
    if j > 0 { RefsMember(es[1..], j - 1); }
  }

  /** Entries whose references are still to be dropped keep their messages listed. */
  ghost predicate Pending(es: seq<Entry>, v: View, rest: multiset<nat>)
  {
    EntriesKnown(es, v.list) && v.pins == rest + Refs(es)
  }

  lemma PendingNext(es: seq<Entry>, i: nat, v: View, v': View, rest: multiset<nat>)
    requires i < |es| && Pending(es[i..], v, rest)
    requires v'.pins == v.pins - multiset{es[i].store.id}
    requires forall y :: y in v.list && (y.id != es[i].store.id || v'.pins[y.id] > 0) ==> y in v'.list
    ensures Pending(es[i + 1..], v', rest)
  {
    RefsFirst(es, i);
    var es' := es[i + 1..];
    forall j | 0 <= j < |es'|
      ensures es'[j].store in v'.list
    {
      assert es'[j] == es[i..][j + 1];
      RefsMember(es', j);
    }
  }

  lemma PendingIs(es: seq<Entry>, i: nat, v: View, rest: multiset<nat>)
    requires i < |es| && Pending(es[i..], v, rest)
    ensures es[i].store in v.list && v.pins[es[i].store.id] > 0
  {
    assert es[i..][0] == es[i];
    RefsFirst(es, i);
  }

  /** Dropping a temporary reference, seen from outside. */
  lemma UnpinQuiet(v: View, x: Store)
    requires x.id in v.refCount && v.refCount[x.id] > 0
    ensures var v' := Released(v, x).(pins := v.pins - multiset{x.id});
            Quiet(v.(pins := v'.pins), v') && v'.cs == v.cs
  {
  }

  lemma QuietPins(v: View, v1: View, v2: View)
    requires Quiet(v.(pins := v1.pins), v1) && Quiet(v1.(pins := v2.pins), v2)
    ensures Quiet(v.(pins := v2.pins), v2)
  {
  }

  lemma PendingStart(es: seq<Entry>, v: View, rest: multiset<nat>)
    requires EntriesKnown(es, v.list) && v.pins == rest + Refs(es)
    ensures Pending(es, v, rest)
  {
  }

  lemma PendingEnd(es: seq<Entry>, v: View, rest: multiset<nat>)
    requires es == [] && Pending(es, v, rest)
    ensures v.pins == rest
  {
  }

  /** Clients may have changed before a step that left the temporary references as they were. */
  lemma QuietClients(v: View, v1: View, v2: View)
    requires v1 == v.(cs := v1.cs, pins := v1.pins) && Quiet(v1.(pins := v2.pins), v2) && v2.pins == v.pins
    ensures Quiet(v, v2)
  {
  }

  // ---------- whole lists ----------

  /** Both lists emptied and the counters zeroed, as db__messages_delete does. */
  function Cleared(md: MsgData): MsgData
  {
    md.(inflight := [], queued := [], msgCount := 0, msgBytes := 0, msgCount12 := 0, msgBytes12 := 0)
  }

  lemma ClearOutInv(v: View, c: nat)
    requires Inv(v) && c < |v.cs|
    ensures var gone := All(v.cs[c].msgsOut);
            && EntriesKnown(gone, v.list)
            && Inv(v.(cs := v.cs[c := v.cs[c].(msgsOut := Cleared(v.cs[c].msgsOut))], pins := v.pins + Refs(gone)))
  {
    ListedOut(v, c);
    hide Inv;
    ShrinkOutInv(v, c, Cleared(v.cs[c].msgsOut), All(v.cs[c].msgsOut));
  }

  lemma ClearInInv(v: View, c: nat)
    requires Inv(v) && c < |v.cs|
    ensures var gone := All(v.cs[c].msgsIn);
            && EntriesKnown(gone, v.list)
            && Inv(v.(cs := v.cs[c := v.cs[c].(msgsIn := Cleared(v.cs[c].msgsIn))], pins := v.pins + Refs(gone),
                      discarded := v.discarded + Refs(gone)))
  {
    ListedOut(v, c);
    hide Inv;
    ShrinkInInv(v, c, Cleared(v.cs[c].msgsIn), All(v.cs[c].msgsIn));
  }

  lemma ResetInInv(v: View, c: nat, cfg: Config)
    requires Inv(v) && c < |v.cs|
    ensures var gone := NotQos2(v.cs[c].msgsIn.inflight);
            && EntriesKnown(gone, v.list)
            && Inv(v.(cs := v.cs[c := v.cs[c].(msgsIn := ResetIn(cfg, v.cs[c]))], pins := v.pins + Refs(gone),
                      discarded := v.discarded + Refs(gone)))
  {
    hide Inv, ResetIn, Uses, CountersOk, Refs, Qos2, NotQos2;
    var ctx := v.cs[c];
    ListedOut(v, c);
    ResetInKeeps(cfg, ctx);
    ResetKnown(cfg, ctx, v.list);
    forall s: nat
      ensures Uses(All(ResetIn(cfg, ctx)), s) + Uses(NotQos2(ctx.msgsIn.inflight), s) == Uses(All(ctx.msgsIn), s)
    {
      ResetInUses(cfg, ctx, s);
    }
    ShrinkInInv(v, c, ResetIn(cfg, ctx), NotQos2(ctx.msgsIn.inflight));
  }

  lemma ResetKnown(cfg: Config, ctx: Context, list: seq<Store>)
    requires EntriesKnown(All(ctx.msgsIn), list)
    ensures EntriesKnown(All(ResetIn(cfg, ctx)), list) && EntriesKnown(NotQos2(ctx.msgsIn.inflight), list)
  {
    hide ResetIn, Qos2, NotQos2;
    var md := ctx.msgsIn;
    var kept, gone := Qos2(md.inflight) + md.queued, NotQos2(md.inflight);
    ResetInKeeps(cfg, ctx);
    assert forall e :: e in kept || e in gone ==> e in All(md);
    assert forall e :: e in All(md) ==> e.store in list;
    forall i | 0 <= i < |kept| ensures kept[i].store in list { assert kept[i] in kept; }
    forall i | 0 <= i < |gone| ensures gone[i].store in list { assert gone[i] in gone; }
    SameKnown(All(ResetIn(cfg, ctx)), kept, list);
  }

  // ---------- handing a message to its subscribers ----------

  /** One subscriber a message goes to, as the search of the subscription tree finds it. */
  datatype Delivery = Delivery(client: nat, mid: nat, qos: nat, retain: bool)

  /** What deliveries change. */
  datatype Front = Front(cs: seq<Context>, destIds: set<(nat, string)>, sent: seq<Packet>)

  /** A message handed to its subscribers, with the result. */
  datatype Handing = Handing(id: nat, rc: int)

  predicate DeliveriesOk(ds: seq<Delivery>, clients: nat)
  {
    forall i :: 0 <= i < |ds| ==> ds[i].client < clients && ds[i].qos <= 2
  }

  function Delivered(cfg: Config, link: Link, f: Front, x: Store, d: Delivery, now: int): (r: Front)
    requires d.client < |f.cs|
    ensures |r.cs| == |f.cs|
  {
    var ctx := f.cs[d.client];
    var known := (x.id, ctx.id) in f.destIds;
    var effect := InsertEffect(cfg, link, ctx, d.mid, Out, d.qos, d.retain, x, true, now, known, f.sent);
    Front(f.cs[d.client := effect.ctx],
          f.destIds + (if InsertPlan(cfg, ctx, Out, d.qos, d.retain, known).List? && !cfg.allowDuplicates && !d.retain
                       then {(x.id, ctx.id)} else {}),
          effect.sent)
  }

  function DeliverAll(cfg: Config, link: Link, f: Front, x: Store, ds: seq<Delivery>, now: int): (r: Front)
    requires DeliveriesOk(ds, |f.cs|)
    ensures |r.cs| == |f.cs|
    decreases |ds|
  {
    if ds == [] then f else DeliverAll(cfg, link, Delivered(cfg, link, f, x, ds[0], now), x, ds[1..], now)
  }

  /** Clients differ at most in their outgoing lists and the dropping flag. */
  ghost predicate OnlyOut(cs: seq<Context>, cs': seq<Context>)
  {
    && |cs'| == |cs|
    && forall i :: 0 <= i < |cs| ==> cs'[i] == cs[i].(msgsOut := cs'[i].msgsOut, isDropping := cs'[i].isDropping)
  }

  lemma {:induction false} DeliverOnlyOut(cfg: Config, link: Link, f: Front, x: Store, ds: seq<Delivery>, now: int)
    requires DeliveriesOk(ds, |f.cs|)
    ensures OnlyOut(f.cs, DeliverAll(cfg, link, f, x, ds, now).cs)
    decreases |ds|
  {
    if ds != [] {
      var f' := Delivered(cfg, link, f, x, ds[0], now);
      DeliveredOnlyOut(cfg, link, f, x, ds[0], now);
      DeliverOnlyOut(cfg, link, f', x, ds[1..], now);
    }
  }

  lemma DeliveredOnlyOut(cfg: Config, link: Link, f: Front, x: Store, d: Delivery, now: int)
    requires d.client < |f.cs|
    ensures OnlyOut(f.cs, Delivered(cfg, link, f, x, d, now).cs)
  {
    hide Listed, InsertPlan;
  }

  /** The delivery is not of a stale retained message and puts the message on the client's list. */
  predicate Copied(cfg: Config, f: Front, x: Store, d: Delivery, id: string)
    requires d.client < |f.cs|
  {
    var ctx := f.cs[d.client];
    ctx.id == id && !d.retain && InsertPlan(cfg, ctx, Out, d.qos, false, (x.id, ctx.id) in f.destIds).List?
  }

  /** How many copies of the message clients with the id are given by the deliveries. */
  function Copies(cfg: Config, link: Link, f: Front, x: Store, ds: seq<Delivery>, now: int, id: string): nat
    requires DeliveriesOk(ds, |f.cs|)
    decreases |ds|
  {
    if ds == [] then 0
    else (if Copied(cfg, f, x, ds[0], id) then 1 else 0)
         + Copies(cfg, link, Delivered(cfg, link, f, x, ds[0], now), x, ds[1..], now, id)
  }

  ghost predicate NoneMqtt5(cs: seq<Context>, id: string)
  {
    forall c :: 0 <= c < |cs| && cs[c].id == id ==> !cs[c].mqtt5
  }

  /** Without MQTT 5 and without allowed duplicates a client is given a message at most once, however
      many of its subscriptions match: exactly once when the message gets recorded for it now, and
      not at all when it was already. */
  lemma {:induction false} OneCopy(cfg: Config, link: Link, f: Front, x: Store, ds: seq<Delivery>, now: int, id: string)
    requires DeliveriesOk(ds, |f.cs|) && !cfg.allowDuplicates && NoneMqtt5(f.cs, id)
    ensures var r := DeliverAll(cfg, link, f, x, ds, now);
            && f.destIds <= r.destIds
            && Copies(cfg, link, f, x, ds, now, id) == if (x.id, id) in r.destIds && (x.id, id) !in f.destIds then 1 else 0
    decreases |ds|
  {
    if ds != [] {
      var g := Delivered(cfg, link, f, x, ds[0], now);
      DeliveredOnlyOut(cfg, link, f, x, ds[0], now);
      DeliveredRecord(cfg, link, f, x, ds[0], now, id);
      hide Delivered, Copied, InsertPlan;
      OneCopy(cfg, link, g, x, ds[1..], now, id);
    }
  }

  lemma DeliveredRecord(cfg: Config, link: Link, f: Front, x: Store, d: Delivery, now: int, id: string)
    requires d.client < |f.cs| && !cfg.allowDuplicates && NoneMqtt5(f.cs, id)
    ensures var g := Delivered(cfg, link, f, x, d, now);
            && f.destIds <= g.destIds
            && ((x.id, id) in g.destIds <==> (x.id, id) in f.destIds || Copied(cfg, f, x, d, id))
            && (Copied(cfg, f, x, d, id) ==> (x.id, id) !in f.destIds)
  {
    hide InsertEffect, ReadyForFlight, ReadyForQueue;
  }

  /** Topics that sub__topic_tokenise refuses. */
  predicate Untokenised(topic: string)
  {
    topic == "" || topic == "$share"
  }

  /** retain__store's effect on the map of retained messages: an empty payload clears. */
  function Retaining(retained: Retained, p: Path, x: Store): Retained
  {
    if x.Len() > 0 then retained[p := x] else retained - {p}
  }

  /** Replacing a retained message drops the old one's reference first: the new message is
      then still listed exactly when it is another one or has a second holder. */
  lemma RetainSafeIff(v: View, p: Path, x: Store)
    requires Inv(v) && p in v.retained && x in v.list
    ensures v.retained[p].id in v.refCount && v.refCount[v.retained[p].id] > 0
    ensures x in Released(v, v.retained[p]).list <==> v.retained[p] != x || v.refCount[x.id] > 1
  {
    UnretainInv(v, p);
    SameIdSame(v, v.retained[p], x);
  }

  lemma SameIdSame(v: View, x: Store, y: Store)
    requires Inv(v) && x in v.list && y in v.list
    ensures x.id == y.id ==> x == y
  {
    hide Known, RefsOk, CountersHold, InboundOk;
  }

  /** The unsafe case is real: a message held by its retained node alone and stored there again. */
  lemma RetainUnsafe(p: Path, x: Store)
    requires x.id == 1
    ensures var v := View([x], map[1 := 1], 1, 1, x.Len(), [], map[p := x], multiset{}, multiset{}, multiset{}, multiset{});
            Inv(v) && x !in Released(v, v.retained[p]).list
  {
    var v := View([x], map[1 := 1], 1, 1, x.Len(), [], map[p := x], multiset{}, multiset{}, multiset{}, multiset{});
    assert RetainedAs(v.retained, 1) == {p};
    assert v.list[1..] == [] && x in v.list && LenSum(v.list) == x.Len() + LenSum(v.list[1..]);
    assert forall y :: y in v.list <==> y == x;
    assert ListOk(v.list, v.refCount, v.lastId, v.count, v.bytes);
    assert Held(v.cs, v.retained, v.pins, 1) == 1;
    assert RefsOk(v.cs, v.retained, v.pins, v.refCount);
    hide Inv;
    RetainSafeIff(v, p, x);
  }

  /** A caller's temporary reference suffices. */
  lemma PinMakesRetainSafe(v: View, p: Path, x: Store)
    requires Inv(v) && p in v.retained && x in v.list && v.pins[x.id] > 0
    ensures v.retained[p].id in v.refCount && v.refCount[v.retained[p].id] > 0
    ensures x in Released(v, v.retained[p]).list
  {
    RetainSafeIff(v, p, x);
    if v.retained[p] == x {
      assert p in RetainedAs(v.retained, x.id);
    }
  }

  /** The steps of sub__messages_queue together: its own reference comes and goes. */
  lemma QueueQuiet(v: View, v1: View, x: Store)
    requires x.id in v.refCount && Quiet(Pinned(v, x).(retained := v1.retained), v1)
    requires x.id in v1.refCount && v1.refCount[x.id] > 0
    ensures var v2 := Released(v1, x).(pins := v1.pins - multiset{x.id});
            && Quiet(v.(retained := v1.retained), v2) && v2.cs == v1.cs && v2.retained == v1.retained
            && (x.id !in v2.refCount || v2.refCount[x.id] > 0)
  {
    assert v.pins + multiset{x.id} - multiset{x.id} == v.pins;
  }

  lemma QuietAnd(v: View, v1: View, v2: View)
    requires Quiet(v, v1) && Quiet(v1.(retained := v2.retained), v2)
    ensures Quiet(v.(retained := v2.retained), v2)
  {
  }

  /** A retained node's reference is dropped. */
  lemma UnretainQuiet(v: View, p: Path)
    requires p in v.retained && v.retained[p].id in v.refCount && v.refCount[v.retained[p].id] > 0
    ensures var x := v.retained[p];
            var pins := v.pins + multiset{x.id};
            var v' := Released(v.(retained := v.retained - {p}, pins := pins), x).(pins := pins - multiset{x.id});
            && Quiet(v.(retained := v.retained - {p}), v') && v'.cs == v.cs
            && forall y :: y in v.list && (y.id != x.id || v.refCount[x.id] > 1) ==> y in v'.list
  {
    var x := v.retained[p];
    assert v.pins + multiset{x.id} - multiset{x.id} == v.pins;
  }

  lemma RetainQuiet(v: View, p: Path, x: Store)
    requires x.id in v.refCount
    ensures var v' := Pinned(v, x).(retained := v.retained[p := x], pins := Pinned(v, x).pins - multiset{x.id});
            Quiet(v.(retained := v'.retained), v') && v'.cs == v.cs
  {
    assert v.pins + multiset{x.id} - multiset{x.id} == v.pins;
  }

  lemma QuietRetained(v: View, v1: View, v2: View)
    requires Quiet(v.(retained := v1.retained), v1) && Quiet(v1.(retained := v2.retained), v2)
    ensures Quiet(v.(retained := v2.retained), v2)
  {
  }

  lemma QuietKeeps(v: View, v': View)
    requires Quiet(v, v')
    ensures v'.pins == v.pins && v'.accepted == v.accepted && v'.retained == v.retained
    ensures forall y :: y in v'.list ==> y in v.list
  {
  }

  lemma DeliverNext(cfg: Config, link: Link, f: Front, x: Store, ds: seq<Delivery>, i: nat, now: int)
    requires i < |ds| && DeliveriesOk(ds[i..], |f.cs|)
    ensures ds[i].client < |f.cs| && ds[i].qos <= 2 && DeliveriesOk(ds[i + 1..], |f.cs|)
    ensures DeliverAll(cfg, link, f, x, ds[i..], now)
         == DeliverAll(cfg, link, Delivered(cfg, link, f, x, ds[i], now), x, ds[i + 1..], now)
  {
    hide Delivered;
    assert ds[i..][0] == ds[i] && ds[i..][1..] == ds[i + 1..];
  }

  /** When a node's old message is dropped, the new one stays listed if it is pinned or another. */
  lemma UnretainSafe(v: View, p: Path, x: Store)
    requires Inv(v) && p in v.retained && x in v.list && (v.pins[x.id] > 0 || v.retained[p] != x)
    ensures v.retained[p].id in v.refCount && (x.id != v.retained[p].id || v.refCount[v.retained[p].id] > 1)
  {
    UnretainInv(v, p);
    SameIdSame(v, v.retained[p], x);
    if v.retained[p] == x {
      assert p in RetainedAs(v.retained, x.id);
    }
  }

  /** What the deletion of a client's messages has done between two views. */
  ghost predicate Deleted(v: View, v': View, c: nat, force: bool)
  {
    && c < |v.cs|
    && Quiet(v.(discarded := v'.discarded), v')
    && var ctx := v.cs[c];
       if force || ctx.cleanStart then
         && v'.cs == v.cs[c := ctx.(msgsIn := Cleared(ctx.msgsIn), msgsOut := Cleared(ctx.msgsOut))]
         && v'.discarded == v.discarded + Refs(All(ctx.msgsIn))
       else
         v'.cs == v.cs && v'.discarded == v.discarded
  }

  // ---------- session takeover ----------

  /** The lists of the old session under the new one's limits. */
  function Transferred(ctx: Context, found: Context): Context
  {
    ctx.(msgsIn := found.msgsIn.(inflightQuota := ctx.msgsIn.inflightQuota, inflightMaximum := ctx.msgsIn.inflightMaximum),
         msgsOut := found.msgsOut.(inflightQuota := ctx.msgsOut.inflightQuota, inflightMaximum := ctx.msgsOut.inflightMaximum))
  }

  /** The new session after the reset of what it took over. */
  function Adopted(cfg: Config, ctx: Context, found: Context): Context
  {
    var m := Transferred(ctx, found);
    var n := m.(msgsOut := ResetOut(cfg, m));
    n.(msgsIn := ResetIn(cfg, n))
  }

  /** The old session once it was taken over: without a claim to be resumed, and no longer active. */
  function Ended(found: Context): Context
  {
    found.(cleanStart := true, sessionExpiryInterval := 0, active := false)
  }

  function Emptied(found: Context): Context
  {
    Ended(found).(msgsIn := EMPTY_DATA, msgsOut := EMPTY_DATA)
  }

  /** The reset looks at the limits and the incoming lists only. */
  lemma AdoptedKeeps(cfg: Config, ctx: Context, found: Context)
    ensures var a := Adopted(cfg, ctx, found);
            && SameMessages(All(a.msgsOut), All(found.msgsOut)) && CountersOk(a.msgsOut)
            && SameMessages(All(a.msgsIn), Qos2(found.msgsIn.inflight) + found.msgsIn.queued) && CountersOk(a.msgsIn)
  {
    hide ResetOut, ResetIn, CountersOk;
    var m := Transferred(ctx, found);
    ResetOutKeeps(cfg, m);
    ResetInKeeps(cfg, m.(msgsOut := ResetOut(cfg, m)));
  }

  lemma AdoptedUses(cfg: Config, ctx: Context, found: Context, s: nat)
    ensures var a := Adopted(cfg, ctx, found);
            && Uses(All(a.msgsOut), s) == Uses(All(found.msgsOut), s)
            && Uses(All(a.msgsIn), s) + Uses(NotQos2(found.msgsIn.inflight), s) == Uses(All(found.msgsIn), s)
  {
    hide ResetOut, ResetIn, CountersOk, Uses, Qos2, NotQos2;
    var m := Transferred(ctx, found);
    ResetOutKeeps(cfg, m);
    SameSums(All(ResetOut(cfg, m)), All(m.msgsOut));
    ResetInUses(cfg, m.(msgsOut := ResetOut(cfg, m)), s);
  }

  lemma AdoptedKnown(cfg: Config, ctx: Context, found: Context, list: seq<Store>)
    requires EntriesKnown(All(found.msgsIn), list) && EntriesKnown(All(found.msgsOut), list)
    ensures var a := Adopted(cfg, ctx, found);
            && EntriesKnown(All(a.msgsIn), list) && EntriesKnown(All(a.msgsOut), list)
            && EntriesKnown(NotQos2(found.msgsIn.inflight), list)
  {
    hide ResetOut, ResetIn, CountersOk, EntriesKnown;
    var m := Transferred(ctx, found);
    ResetOutKeeps(cfg, m);
    SameKnown(All(ResetOut(cfg, m)), All(found.msgsOut), list);
    ResetKnown(cfg, m.(msgsOut := ResetOut(cfg, m)), list);
  }

  lemma TakeoverInv(v: View, c: nat, d: nat, cfg: Config)
    requires Inv(v) && c < |v.cs| && d < |v.cs| && c != d
    requires All(v.cs[c].msgsIn) == [] && All(v.cs[c].msgsOut) == []
    ensures var gone := NotQos2(v.cs[d].msgsIn.inflight);
            && EntriesKnown(gone, v.list)
            && Inv(HandedOver(v, c, d, Adopted(cfg, v.cs[c], v.cs[d]), Emptied(v.cs[d]), Refs(gone)))
  {
    hide Inv, Adopted, CountersOk, Uses, EntriesKnown, Qos2, NotQos2, Refs;
    var ctx, found := v.cs[c], v.cs[d];
    var gone := NotQos2(found.msgsIn.inflight);
    ListedOut(v, d);
    AdoptedKnown(cfg, ctx, found, v.list);
    AdoptedKeeps(cfg, ctx, found);
    EmptyCounters();
    forall s: nat
      ensures Uses(All(Adopted(cfg, ctx, found).msgsOut), s) == Uses(All(found.msgsOut), s)
      ensures Uses(All(Adopted(cfg, ctx, found).msgsIn), s) + Refs(gone)[s] == Uses(All(found.msgsIn), s)
    {
      AdoptedUses(cfg, ctx, found, s);
      RefsAreUses(gone, s);
    }
    HandOverInv(v, c, d, Adopted(cfg, ctx, found), Emptied(found), Refs(gone));
  }

  lemma EmptyCounters()
    ensures CountersOk(EMPTY_DATA) && All(EMPTY_DATA) == []
  {
  }

  /** What a takeover has done between two views. */
  ghost predicate TakenOver(cfg: Config, v: View, v': View, c: nat, d: nat)
  {
    && c < |v.cs| && d < |v.cs| && c != d
    && var ctx, found := v.cs[c], v.cs[d];
       var dropped := NotQos2(found.msgsIn.inflight);
       if !ctx.cleanStart && found.sessionExpiryInterval > 0 && !(All(found.msgsIn) == [] && All(found.msgsOut) == []) then
         && v'.cs == v.cs[c := Adopted(cfg, ctx, found)][d := Emptied(found)]
         && v'.discarded == v.discarded + Refs(dropped)
         && Quiet(v.(discarded := v'.discarded), v')
       else
         v' == v.(cs := v.cs[d := Ended(found)])
  }

  lemma TakenLists(cfg: Config, v: View, v': View, c: nat, d: nat)
    requires c < |v.cs| && d < |v.cs| && c != d
    requires !v.cs[c].cleanStart && v.cs[d].sessionExpiryInterval > 0
    requires !(All(v.cs[d].msgsIn) == [] && All(v.cs[d].msgsOut) == [])
    requires v'.cs == v.cs[c := Adopted(cfg, v.cs[c], v.cs[d])][d := Emptied(v.cs[d])]
    requires v'.discarded == v.discarded + Refs(NotQos2(v.cs[d].msgsIn.inflight))
    requires Quiet(v.(discarded := v'.discarded), v')
    ensures TakenOver(cfg, v, v', c, d)
  {
    hide Adopted, NotQos2, Refs, Quiet;
  }

  lemma TakenFlags(cfg: Config, v: View, v': View, c: nat, d: nat)
    requires c < |v.cs| && d < |v.cs| && c != d
    requires !(!v.cs[c].cleanStart && v.cs[d].sessionExpiryInterval > 0 && !(All(v.cs[d].msgsIn) == [] && All(v.cs[d].msgsOut) == []))
    requires v' == v.(cs := v.cs[d := Ended(v.cs[d])])
    ensures TakenOver(cfg, v, v', c, d)
  {
    hide Adopted, NotQos2, Refs, Quiet;
  }

  lemma NothingTaken()
    ensures SameMessages([], []) && Qos2([]) == []
  {
  }

  lemma QuietEnded(v: View, d: nat)
    requires Inv(v) && d < |v.cs|
    ensures Inv(v.(cs := v.cs[d := Ended(v.cs[d])]))
  {
    FlagInv(v, d, Ended(v.cs[d]));
  }

  // ---------- compaction ----------

  /** The first i messages of the old list were looked at. */
  ghost predicate Compacting(todo: seq<Store>, counts: map<nat, nat>, i: nat, v: View)
  {
    && i <= |todo| && DistinctIds(todo)
    && (forall x :: x in todo ==> x.id in counts)
    && (forall x :: x in v.list <==> x in todo && (counts[x.id] > 0 || x in todo[i..]))
    && (forall s :: s in v.refCount ==> s in counts && v.refCount[s] == counts[s])
  }

  lemma CompactStart(v: View)
    requires Inv(v)
    ensures Compacting(v.list, v.refCount, 0, v)
  {
    hide Known, RefsOk, CountersHold, InboundOk;
    assert v.list[0..] == v.list;
  }

  lemma CompactNext(todo: seq<Store>, counts: map<nat, nat>, i: nat, v: View)
    requires Inv(v) && i < |todo| && Compacting(todo, counts, i, v)
    ensures var x := todo[i];
            && x in v.list && x.id in v.refCount
            && Compacting(todo, counts, i + 1, if v.refCount[x.id] < 1 then Left(v, x) else v)
  {
    hide Inv;
    var x := todo[i];
    ListIds(v);
    RestIs(todo, i);
    var v' := if v.refCount[x.id] < 1 then Left(v, x) else v;
    assert forall y :: y in v'.list <==> y in v.list && (counts[x.id] > 0 || y != x);
  }

  lemma RestIs(todo: seq<Store>, i: nat)
    requires i < |todo| && DistinctIds(todo)
    ensures forall y :: y in todo[i..] <==> y == todo[i] || y in todo[i + 1..]
    ensures todo[i] !in todo[i + 1..]
    ensures forall y :: y in todo && y.id == todo[i].id ==> y == todo[i]
  {
    assert todo[i..] == [todo[i]] + todo[i + 1..];
  }

  lemma ListIds(v: View)
    requires Inv(v)
    ensures forall x :: x in v.list ==> x.id in v.refCount
    ensures forall s :: s in v.refCount ==> exists x :: x in v.list && x.id == s
  {
    hide Known, RefsOk, CountersHold, InboundOk;
  }

  lemma CompactEnd(todo: seq<Store>, counts: map<nat, nat>, v: View)
    requires Inv(v) && Compacting(todo, counts, |todo|, v)
    ensures forall x :: x in v.list <==> x in todo && x.id in counts && counts[x.id] > 0
    ensures forall s :: s in v.refCount ==> s in counts && v.refCount[s] == counts[s] > 0
  {
    ListIds(v);
    hide Inv;
  }

  // ---------- what an insertion keeps of an outgoing list ----------

  ghost predicate QosInRange(es: seq<Entry>)
  {
    forall i :: 0 <= i < |es| ==> es[i].qos <= 2
  }

  lemma SingleInRange(md: MsgData, i: nat, sent: seq<Packet>, link: Link, now: int)
    requires i < |md.inflight| && QosInRange(All(md))
    ensures QosInRange(All(Single(md, i, sent, link, now).md))
  {
    var w := Single(md, i, sent, link, now);
    assert All(md)[i] == md.inflight[i];
    if |w.md.inflight| < |md.inflight| {
      assert All(w.md) == All(md)[..i] + All(md)[i + 1..];
    } else {
      assert All(w.md) == All(md)[i := w.md.inflight[i]];
    }
  }

  lemma {:induction false} FromInRange(md: MsgData, i: nat, sent: seq<Packet>, link: Link, now: int)
    requires i <= |md.inflight| && QosInRange(All(md))
    ensures QosInRange(All(From(md, i, sent, link, now).md))
    decreases |md.inflight| - i
  {
    if i < |md.inflight| {
      hide Single, QosInRange;
      SingleInRange(md, i, sent, link, now);
      FromStep(md, i, sent, link, now);
      var w := Single(md, i, sent, link, now);
      if w.rc == SUCCESS {
        FromInRange(w.md, if |w.md.inflight| < |md.inflight| then i else i + 1, w.sent, link, now);
      }
    }
  }

  /** An insertion keeps the entries waiting to be published a suffix of the inflight list, on
      every network. */
  lemma InsertKeepsSuffix(cfg: Config, link: Link, ctx: Context, mid: nat, qos: nat, retain: bool, x: Store,
                          update: bool, now: int, known: bool, sent: seq<Packet>)
    requires qos <= 2 && PendingSuffix(ctx.msgsOut.inflight) && QosInRange(All(ctx.msgsOut))
    ensures var r := InsertEffect(cfg, link, ctx, mid, Out, qos, retain, x, update, now, known, sent).ctx.msgsOut;
            PendingSuffix(r.inflight)
  {
    hide PendingSuffix, QosInRange;
    match InsertPlan(cfg, ctx, Out, qos, retain, known) {
      case Leave(_, _) =>
      case List(state, _) =>
        PlanState(cfg, ctx, qos, retain, known);
        var e := NewEntry(ctx, mid, Out, qos, retain, x, state);
        var md := Inserted(ctx.msgsOut, e, qos);
        InsertedSuffix(ctx.msgsOut, e, qos);
        PushedSuffix(ctx, md, sent, link, now);
    }
  }

  lemma PlanState(cfg: Config, ctx: Context, qos: nat, retain: bool, known: bool)
    requires qos <= 2
    ensures var plan := InsertPlan(cfg, ctx, Out, qos, retain, known);
            plan.List? ==> plan.state == Queued || IsPublish(plan.state)
  {
    hide ReadyForFlight, ReadyForQueue;
  }

  lemma InsertedSuffix(md: MsgData, e: Entry, qos: nat)
    requires PendingSuffix(md.inflight) && QosInRange(All(md)) && e.qos <= 2
    requires e.state == Queued || IsPublish(e.state)
    ensures PendingSuffix(Inserted(md, e, qos).inflight) && QosInRange(All(Inserted(md, e, qos)))
  {
    if e.state != Queued { SuffixAppend(md.inflight, e); }
    var all, es := All(Inserted(md, e, qos)), All(md);
    forall i | 0 <= i < |all|
      ensures all[i].qos <= 2
    {
      assert all[i] == e || all[i] in es;
    }
  }

  lemma PushedSuffix(ctx: Context, md: MsgData, sent: seq<Packet>, link: Link, now: int)
    requires PendingSuffix(md.inflight) && QosInRange(All(md))
    ensures PendingSuffix(Pushed(ctx, md, sent, link, now).md.inflight)
  {
    hide PendingSuffix, QosInRange, From, Start;
    var w := WriteLatest(md, Online(ctx), sent, link, now);
    SuffixLatest(md, Online(ctx), sent, link, now);
    FromInRange(md, Start(md.inflight), sent, link, now);
    InRangeAll(All(w.md));
    ReleaseKeepsSuffix(w.md);
  }

  lemma InRangeAll(es: seq<Entry>)
    requires QosInRange(es)
    ensures forall e :: e in es ==> e.qos <= 2
  {
  }

  /** An acknowledgement keeps the entries waiting to be published a suffix as well, on every
      network: removal, counted release and latest-write together. */
  lemma AcknowledgeKeepsSuffix(md: MsgData, mid: nat, online: bool, sent: seq<Packet>, link: Link, now: int)
    requires PendingSuffix(md.inflight) && QosInRange(All(md))
    ensures var i := FirstMid(md.inflight, mid);
            var rest := if i < |md.inflight| then Removed(md, i) else md;
            PendingSuffix(WriteLatest(ReleaseCounted(rest, i), online, sent, link, now).md.inflight)
  {
    hide PendingSuffix, QosInRange, ReleaseCounted, WriteLatest, FirstMid;
    var i := FirstMid(md.inflight, mid);
    var rest := if i < |md.inflight| then Removed(md, i) else md;
    if i < |md.inflight| {
      SuffixRemove(md.inflight, i);
      RemovedInRange(md, i);
    }
    InRangeAll(All(rest));
    CountedKeepsSuffix(rest, i);
    SuffixLatest(ReleaseCounted(rest, i), online, sent, link, now);
  }

  lemma RemovedInRange(md: MsgData, i: nat)
    requires i < |md.inflight| && QosInRange(All(md))
    ensures QosInRange(All(Removed(md, i)))
  {
    RemoveKeeps(md, i);
  }

  // ---------- the backlog of a client that is away ----------

  /** What an insertion makes of the outgoing lists of a client that is away. */
  function Backlog(cfg: Config, link: Link, ctx: Context, mid: nat, qos: nat, retain: bool, x: Store,
                   update: bool, now: int, known: bool, sent: seq<Packet>): MsgData
  {
    InsertEffect(cfg, link, ctx, mid, Out, qos, retain, x, update, now, known, sent).ctx.msgsOut
  }

  /** One entry more, or none when the message is left out; the counters stay right. */
  lemma BacklogGrows(cfg: Config, link: Link, ctx: Context, mid: nat, qos: nat, retain: bool, x: Store,
                     update: bool, now: int, known: bool, sent: seq<Packet>)
    requires !ctx.connected
    ensures var plan := InsertPlan(cfg, ctx, Out, qos, retain, known);
            var r := Backlog(cfg, link, ctx, mid, qos, retain, x, update, now, known, sent);
            && |All(r)| == |All(ctx.msgsOut)| + (if plan.List? then 1 else 0)
            && Count12(All(r)) == Count12(All(ctx.msgsOut)) + (if plan.List? && qos > 0 && ctx.maxQos > 0 then 1 else 0)
            && (CountersOk(ctx.msgsOut) && (qos == 0 || ctx.maxQos > 0) ==> CountersOk(r))
  {
    hide InsertPlan, CountersOk, Listed;
    match InsertPlan(cfg, ctx, Out, qos, retain, known) {
      case Leave(_, _) =>
      case List(state, rc) =>
        var e := NewEntry(ctx, mid, Out, qos, retain, x, state);
        AppendSums(ctx.msgsOut, e, qos);
        if CountersOk(ctx.msgsOut) { AppendKeepsIff(ctx.msgsOut, e, qos, ctx.maxQos); }
        OfflineListed(ctx, e, qos, update, sent, link, now, rc);
    }
  }

  /** Nothing is written for a client that is away. */
  lemma OfflineListed(ctx: Context, e: Entry, qos: nat, update: bool, sent: seq<Packet>, link: Link, now: int, rc: int)
    requires !ctx.connected
    ensures var a, r := Appended(ctx.msgsOut, e, qos), Listed(ctx, e, qos, update, sent, link, now, rc).md;
            && |All(r)| == |All(a)| && Count12(All(r)) == Count12(All(a)) && (CountersOk(a) ==> CountersOk(r))
  {
    hide CountersOk, Appended, ReleaseQueued, Count12, SameMessages;
    var a, ins := Appended(ctx.msgsOut, e, qos), Inserted(ctx.msgsOut, e, qos);
    QuotaSteps(a);
    SameSums(All(DecQuota(a)), All(a));
    ReleaseQueuedKeeps(ins);
    SameSums(All(ReleaseQueued(ins)), All(ins));
    SameLength(All(ReleaseQueued(ins)), All(ins));
    SameLength(All(DecQuota(a)), All(a));
  }

  /** The messages of quality above 0 in the backlog never exceed the configured number. */
  lemma BacklogBounded(cfg: Config, link: Link, ctx: Context, mid: nat, qos: nat, retain: bool, x: Store,
                       update: bool, now: int, known: bool, sent: seq<Packet>)
    requires !ctx.connected && CountersOk(ctx.msgsOut)
    requires cfg.maxQueuedMessages > 0 && Count12(All(ctx.msgsOut)) <= cfg.maxQueuedMessages
    ensures var r := Backlog(cfg, link, ctx, mid, qos, retain, x, update, now, known, sent);
            Count12(All(r)) <= cfg.maxQueuedMessages
  {
    hide InsertEffect;
    BacklogGrows(cfg, link, ctx, mid, qos, retain, x, update, now, known, sent);
    assert InsertPlan(cfg, ctx, Out, qos, retain, known).List? ==> ctx.msgsOut.msgCount12 < cfg.maxQueuedMessages;
  }

  /** The backlog as a whole is not kept within that number: a full one takes one more exactly when
      the counters leave room and nothing else refuses the message.  With right counters that is so
      when some of it has quality 0, which the limit does not count. */
  lemma BacklogLengthIff(cfg: Config, link: Link, ctx: Context, mid: nat, qos: nat, retain: bool, x: Store,
                         update: bool, now: int, known: bool, sent: seq<Packet>)
    requires !ctx.connected && |All(ctx.msgsOut)| <= cfg.maxQueuedMessages
    ensures var md, max := ctx.msgsOut, cfg.maxQueuedMessages;
            var r := Backlog(cfg, link, ctx, mid, qos, retain, x, update, now, known, sent);
            var wanted := ctx.hasId && (qos > 0 || cfg.queueQos0) && (known ==> ctx.mqtt5 || cfg.allowDuplicates || retain);
            && (|All(r)| > max <==>
                  && |All(md)| == max && wanted && (max == 0 || md.msgCount12 < max)
                  && (cfg.maxQueuedBytes == 0 || md.msgBytes12 < cfg.maxQueuedBytes))
            && (CountersOk(md) && max > 0 ==>
                  (|All(r)| > max <==>
                     && |All(md)| == max && wanted && Count12(All(md)) < |All(md)|
                     && (cfg.maxQueuedBytes == 0 || Bytes12(All(md)) < cfg.maxQueuedBytes)))
  {
    hide InsertEffect;
    BacklogGrows(cfg, link, ctx, mid, qos, retain, x, update, now, known, sent);
  }

  /** Unless messages of quality 0 are queued, it always stays within the number. */
  lemma BacklogWithoutQos0(cfg: Config, link: Link, ctx: Context, mid: nat, qos: nat, retain: bool, x: Store,
                           update: bool, now: int, known: bool, sent: seq<Packet>)
    requires !ctx.connected && CountersOk(ctx.msgsOut) && ctx.maxQos > 0 && !cfg.queueQos0
    requires cfg.maxQueuedMessages > 0 && Count12(All(ctx.msgsOut)) == |All(ctx.msgsOut)| <= cfg.maxQueuedMessages
    ensures var r := Backlog(cfg, link, ctx, mid, qos, retain, x, update, now, known, sent);
            Count12(All(r)) == |All(r)| <= cfg.maxQueuedMessages
  {
    hide InsertEffect;
    BacklogGrows(cfg, link, ctx, mid, qos, retain, x, update, now, known, sent);
    assert InsertPlan(cfg, ctx, Out, qos, retain, known).List? ==>
             qos > 0 && ctx.msgsOut.msgCount12 < cfg.maxQueuedMessages;
  }

  /** When they are queued it grows without end: every full backlog that has room for a counted
      message takes one more of quality 0. */
  lemma BacklogOverflows(cfg: Config, link: Link, ctx: Context, x: Store, update: bool, now: int, sent: seq<Packet>)
    requires cfg.queueQos0 && cfg.allowDuplicates && cfg.maxQueuedBytes == 0
    requires !ctx.connected && ctx.hasId && ctx.msgsOut.msgCount12 < cfg.maxQueuedMessages <= |All(ctx.msgsOut)|
    ensures |All(Backlog(cfg, link, ctx, 0, 0, false, x, update, now, false, sent))| == |All(ctx.msgsOut)| + 1
  {
    hide InsertEffect;
    BacklogGrows(cfg, link, ctx, 0, 0, false, x, update, now, false, sent);
  }
}
