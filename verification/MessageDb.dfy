/** The message database of src/module/mqtt/database.c with the parts of handle_publish.c,
    handle_connect.c, subs.c and retain.c that drive it. */
module MessageDb {
  import opened Messages
  import opened OutgoingWriter
  import opened StoreList
  import opened DbInvariant
  import opened Admission
  import opened SessionLists
  import opened DbSteps
  import opened Inbound
  import opened Tokeniser

  class Database {
    const cfg: Config
    const link: Link
    var storeList: seq<Store>
    var refCount: map<nat, nat>
    var storeCount: int
    var storeBytes: int
    var lastDbId: nat
    var clients: seq<Context>
    var retained: Retained
    var sent: seq<Packet>
    /** The destination ids recorded at each stored message. */
    var destIds: set<(nat, string)>
    /** Every call of sub__messages_queue with its result. */
    ghost var handed: seq<Handing>
    ghost var pins: multiset<nat>
    ghost var accepted: multiset<nat>
    ghost var forwarded: multiset<nat>
    ghost var discarded: multiset<nat>

    ghost function Now(): View
      reads this
    {
      View(storeList, refCount, lastDbId, storeCount, storeBytes, clients, retained, pins,
           accepted, forwarded, discarded)
    }

    /** What deliveries change. */
    ghost function Subscribers(): Walk
      reads this
    {
      Walk(Front(clients, destIds, sent), retained)
    }

    ghost predicate Valid()
      reads this
    {
      Inv(Now())
    }

    constructor (cfg: Config, link: Link, clients: seq<Context>)
      requires forall c :: 0 <= c < |clients| ==>
        clients[c].msgsIn.inflight == clients[c].msgsIn.queued == clients[c].msgsOut.inflight == clients[c].msgsOut.queued == []
      requires forall c :: 0 <= c < |clients| ==> CountersOk(clients[c].msgsIn) && CountersOk(clients[c].msgsOut)
      ensures Valid()
      ensures Now() == View([], map[], 0, 0, 0, clients, map[], multiset{}, multiset{}, multiset{}, multiset{})
      ensures sent == [] && destIds == {} && handed == []
    {
      this.cfg, this.link, this.clients := cfg, link, clients;
      storeList, refCount, storeCount, storeBytes, lastDbId := [], map[], 0, 0, 0;
      retained, sent, destIds, pins := map[], [], {}, multiset{};
      accepted, forwarded, discarded, handed := multiset{}, multiset{}, multiset{}, [];
      new;
      EmptyInv(clients);
    }

    // ---------- stored messages ----------

    /** db__message_store: a message enters the list, held by nobody yet. */
    method StoreMessage(content: Store) returns (x: Store)
      requires Valid()
      modifies `storeList, `refCount, `storeCount, `storeBytes, `lastDbId
      ensures Valid()
      ensures x == content.(id := old(lastDbId) + 1) && x.id !in old(refCount)
      ensures Now() == Entered(old(Now()), x)
      ensures accepted[x.id] == 0 && pins[x.id] == 0
    {
      hide Inv;
      x := content.(id := lastDbId + 1);
      EnterInv(Now(), x);
      lastDbId := lastDbId + 1;
      storeCount, storeBytes := storeCount + 1, storeBytes + x.Len();
      storeList := [x] + storeList;
      refCount := refCount[x.id := 0];
    }

    method RefInc(x: Store)
      requires Valid()
      requires x in storeList
      modifies `refCount, `pins
      ensures Valid()
      ensures x.id in old(refCount) && Now() == Pinned(old(Now()), x)
    {
      hide Inv;
      PinInv(Now(), x);
      refCount := refCount[x.id := refCount[x.id] + 1];
      pins := pins + multiset{x.id};
    }

    /** Drops a reference; the last one takes the message off the store list. */
    method RefDec(x: Store)
      requires Valid()
      requires x in storeList && pins[x.id] > 0
      modifies `storeList, `refCount, `storeCount, `storeBytes, `pins
      ensures Valid()
      ensures x.id in old(refCount) && old(refCount)[x.id] > 0
      ensures Now() == Released(old(Now()), x).(pins := old(pins) - multiset{x.id})
      ensures forall y :: y in old(storeList) && (y.id != x.id || pins[y.id] > 0) ==> y in storeList
    {
      hide Inv;
      ReleaseInv(Now(), x);
      UnpinInv(Now(), x);
      refCount := refCount[x.id := refCount[x.id] - 1];
      pins := pins - multiset{x.id};
      if refCount[x.id] == 0 {
        StoreRemove(x);
      }
    }

    /** db__msg_store_remove */
    method StoreRemove(x: Store)
      requires Valid()
      requires x in storeList && x.id in refCount && refCount[x.id] == 0
      modifies `storeList, `refCount, `storeCount, `storeBytes
      ensures Valid()
      ensures Now() == Left(old(Now()), x)
    {
      hide Inv;
      LeaveInv(Now(), x);
      storeCount, storeBytes := storeCount - 1, storeBytes - x.Len();
      storeList := WithoutStore(storeList, x.id);
      refCount := refCount - {x.id};
    }

    // ---------- list changes ----------

    method ChangeOut(c: nat, md: MsgData)
      requires Valid() && c < |clients|
      requires SameMessages(All(md), All(clients[c].msgsOut))
      requires CountersOk(clients[c].msgsOut) ==> CountersOk(md)
      modifies `clients
      ensures Valid()
      ensures clients == old(clients)[c := old(clients[c]).(msgsOut := md)]
    {
      hide Inv, SameMessages, CountersOk, All;
      ChangeOutInv(Now(), c, md);
      clients := clients[c := clients[c].(msgsOut := md)];
    }

    method ChangeIn(c: nat, md: MsgData)
      requires Valid() && c < |clients|
      requires SameMessages(All(md), All(clients[c].msgsIn))
      requires CountersOk(clients[c].msgsIn) ==> CountersOk(md)
      modifies `clients
      ensures Valid()
      ensures clients == old(clients)[c := old(clients[c]).(msgsIn := md)]
    {
      hide Inv, SameMessages, CountersOk, All;
      ChangeInInv(Now(), c, md);
      clients := clients[c := clients[c].(msgsIn := md)];
    }

    method Credit(c: nat)
      requires Valid() && c < |clients|
      modifies `clients
      ensures clients == old(clients)[c := Credited(old(clients[c]))]
      ensures Valid()
    {
      hide Inv, SameMessages, CountersOk, All, IncQuota;
      QuotaSteps(clients[c].msgsIn);
      ChangeIn(c, IncQuota(clients[c].msgsIn));
    }

    /** db__message_remove on the outgoing list. */
    method RemoveOut(c: nat, i: nat)
      requires Valid() && c < |clients| && i < |clients[c].msgsOut.inflight|
      modifies `storeList, `refCount, `storeCount, `storeBytes, `pins, `clients
      ensures Valid()
      ensures clients == old(clients)[c := old(clients[c]).(msgsOut := Removed(old(clients[c].msgsOut), i))]
      ensures Quiet(old(Now()), Now())
    {
      hide Inv, Quiet, Released, Removed;
      var x := clients[c].msgsOut.inflight[i].store;
      RemoveOutInv(Now(), c, i);
      clients := clients[c := clients[c].(msgsOut := Removed(clients[c].msgsOut, i))];
      pins := pins + multiset{x.id};
      RefDec(x);
      ReleaseQuiet(old(Now()), x, clients);
    }

    /** db__message_remove on the incoming list. */
    method RemoveIn(c: nat, i: nat, ghost forward: bool)
      requires Valid() && c < |clients| && i < |clients[c].msgsIn.inflight|
      modifies `storeList, `refCount, `storeCount, `storeBytes, `pins, `clients, `forwarded, `discarded
      ensures TakenOff(old(Now()), Now(), c, i, forward)
      ensures Valid()
    {
      hide Inv, TakenOff, Released, Removed;
      ghost var v := Now();
      var x := clients[c].msgsIn.inflight[i].store;
      RemoveInInv(v, c, i, forward);
      clients := clients[c := clients[c].(msgsIn := Removed(clients[c].msgsIn, i))];
      pins := pins + multiset{x.id};
      forwarded := if forward then forwarded + multiset{x.id} else forwarded;
      discarded := if forward then discarded else discarded + multiset{x.id};
      ghost var v1 := Now();
      RefDec(x);
      TakenOffBy(v, v1, Now(), c, i, forward);
    }

    // ---------- writing ----------

    /** db__message_write_inflight_out_single */
    method WriteSingle(c: nat, i: nat, now: int) returns (rc: int)
      requires Valid() && c < |clients| && i < |clients[c].msgsOut.inflight|
      modifies `storeList, `refCount, `storeCount, `storeBytes, `pins, `clients, `sent
      ensures Wrote(old(Now()), Now(), c, Single(old(clients[c].msgsOut), i, old(sent), link, now), sent, rc)
      ensures Valid()
    {
      hide Inv, Quiet, Removed, IncQuota, Wrote;
      ghost var w := Single(clients[c].msgsOut, i, sent, link, now);
      var e := clients[c].msgsOut.inflight[i];
      if e.store.expiryTime != 0 && now > e.store.expiryTime {
        RemoveExpired(c, i);
        rc := SUCCESS;
        WroteBy(old(Now()), Now(), c, w, sent, rc);
      } else if IsPublish(e.state) {
        rc := SendPublish(c, i);
        WroteBy(old(Now()), Now(), c, w, sent, rc);
      } else if e.state == ResendPubrel {
        rc := SendPubrel(c, i);
        WroteBy(old(Now()), Now(), c, w, sent, rc);
      } else {
        rc := SUCCESS;
        WroteNothing(Now(), c, w, sent);
      }
    }

    method SendPubrel(c: nat, i: nat) returns (rc: int)
      requires Valid() && c < |clients| && i < |clients[c].msgsOut.inflight|
      modifies `clients, `sent
      ensures var md := old(clients[c].msgsOut);
              var e := md.inflight[i];
              && clients == old(clients)[c := old(clients[c]).(msgsOut :=
                   if link(|old(sent)|) == SUCCESS then md.(inflight := md.inflight[i := e.(state := WaitForPubcomp)]) else md)]
              && sent == old(sent) + [Pubrel(e.mid)]
              && rc == link(|old(sent)|)
      ensures Quiet(old(Now()), Now())
      ensures Valid()
    {
      hide Inv, Quiet;
      var e := clients[c].msgsOut.inflight[i];
      rc := link(|sent|);
      sent := sent + [Pubrel(e.mid)];
      if rc == SUCCESS {
        SetInflight(c, i, e.(state := WaitForPubcomp));
      }
      QuietSame(old(Now()), clients);
    }

    /** The three publishing states. */
    method SendPublish(c: nat, i: nat) returns (rc: int)
      requires Valid() && c < |clients| && i < |clients[c].msgsOut.inflight|
      requires IsPublish(clients[c].msgsOut.inflight[i].state)
      modifies `storeList, `refCount, `storeCount, `storeBytes, `pins, `clients, `sent
      ensures Quiet(old(Now()), Now())
      ensures var md := old(clients[c].msgsOut);
              var e := md.inflight[i];
              var r := link(|old(sent)|);
              && clients == old(clients)[c := old(clients[c]).(msgsOut :=
                   if r == OVERSIZE_PACKET || (r == SUCCESS && e.state == PublishQos0) then Removed(md, i)
                   else if r == SUCCESS then md.(inflight := md.inflight[i := e.(dup := true, state := AfterPublish(e.state))])
                   else md)]
              && sent == old(sent) + [PublishOf(e)]
              && rc == if r == OVERSIZE_PACKET then SUCCESS else r
      ensures Valid()
    {
      hide Inv, Quiet, Removed;
      var e := clients[c].msgsOut.inflight[i];
      rc := link(|sent|);
      sent := sent + [PublishOf(e)];
      if rc == OVERSIZE_PACKET || (rc == SUCCESS && e.state == PublishQos0) {
        RemoveOut(c, i);
        rc := SUCCESS;
      } else {
        if rc == SUCCESS {
          SetInflight(c, i, e.(dup := true, state := AfterPublish(e.state)));
        }
        QuietSame(old(Now()), clients);
      }
    }

    /** Sets the protocol state of an inflight entry. */
    method SetInflight(c: nat, i: nat, e: Entry)
      requires Valid() && c < |clients| && i < |clients[c].msgsOut.inflight|
      requires SameMessage(clients[c].msgsOut.inflight[i], e)
      modifies `clients
      ensures clients == old(clients)[c := old(clients[c]).(msgsOut := old(clients[c].msgsOut).(inflight :=
                old(clients[c].msgsOut.inflight)[i := e]))]
      ensures Valid()
    {
      hide Inv, SameMessages, CountersOk;
      var md := clients[c].msgsOut;
      assert All(md)[i] == md.inflight[i];
      StateChangeKeeps(md, i, e);
      ChangeOut(c, md.(inflight := md.inflight[i := e]));
    }

    method RemoveExpired(c: nat, i: nat)
      requires Valid() && c < |clients| && i < |clients[c].msgsOut.inflight|
      modifies `storeList, `refCount, `storeCount, `storeBytes, `pins, `clients
      ensures Quiet(old(Now()), Now())
      ensures var md := old(clients[c].msgsOut);
              var e := md.inflight[i];
              clients == old(clients)[c := old(clients[c]).(msgsOut :=
                Removed(if e.direction == Out && e.qos > 0 then IncQuota(md) else md, i))]
      ensures Valid()
    {
      hide Inv, Quiet, Removed, SameMessages, CountersOk, All;
      var e := clients[c].msgsOut.inflight[i];
      if e.direction == Out && e.qos > 0 {
        QuotaSteps(clients[c].msgsOut);
        ChangeOut(c, IncQuota(clients[c].msgsOut));
      }
      QuietSame(old(Now()), clients);
      ghost var middle := Now();
      RemoveOut(c, i);
      QuietTwice(old(Now()), middle, Now());
    }

    method WriteFrom(c: nat, k: nat, now: int) returns (rc: int)
      requires Valid() && c < |clients| && k <= |clients[c].msgsOut.inflight|
      modifies `storeList, `refCount, `storeCount, `storeBytes, `pins, `clients, `sent
      ensures Wrote(old(Now()), Now(), c, From(old(clients[c].msgsOut), k, old(sent), link, now), sent, rc)
      ensures Valid()
    {
      hide Inv, Single, From, Wrote, Writing;
      ghost var v0, w := Now(), From(clients[c].msgsOut, k, sent, link, now);
      WritingFirst(v0, c, w, k, sent, link, now);
      var i: nat := k;
      while i < |clients[c].msgsOut.inflight|
        invariant c < |clients| && i <= |clients[c].msgsOut.inflight|
        invariant Writing(v0, Now(), c, w, i, sent, link, now)
        invariant Valid()
        decreases |clients[c].msgsOut.inflight| - i
      {
        ghost var v, before := Now(), sent;
        var length := |clients[c].msgsOut.inflight|;
        rc := WriteSingle(c, i, now);
        WritingNext(v0, v, Now(), c, w, i, before, sent, link, now, rc);
        if rc != SUCCESS { return; }
        if |clients[c].msgsOut.inflight| == length {
          i := i + 1;
        }
      }
      WritingLast(v0, Now(), c, w, sent, link, now);
      rc := SUCCESS;
    }

    /** db__message_write_inflight_out_all */
    method WriteAllOut(c: nat, now: int) returns (rc: int)
      requires Valid() && c < |clients|
      modifies `storeList, `refCount, `storeCount, `storeBytes, `pins, `clients, `sent
      ensures Wrote(old(Now()), Now(), c,
                    WriteAll(old(clients[c].msgsOut), Online(old(clients[c])), old(sent), link, now), sent, rc)
      ensures Valid()
    {
      hide Inv, From;
      if !clients[c].active || !clients[c].connected { return SUCCESS; }
      rc := WriteFrom(c, 0, now);
    }

    /** db__message_write_inflight_out_latest */
    method WriteLatestOut(c: nat, now: int) returns (rc: int)
      requires Valid() && c < |clients|
      modifies `storeList, `refCount, `storeCount, `storeBytes, `pins, `clients, `sent
      ensures Wrote(old(Now()), Now(), c,
                    WriteLatest(old(clients[c].msgsOut), Online(old(clients[c])), old(sent), link, now), sent, rc)
      ensures Valid()
    {
      hide Inv, From, Start;
      if !clients[c].active || !clients[c].connected { return SUCCESS; }
      var k := FindStart(clients[c].msgsOut.inflight);
      rc := WriteFrom(c, k, now);
    }

    /** db__message_write_queued_out */
    method WriteQueuedOut(c: nat)
      requires Valid() && c < |clients|
      modifies `clients
      ensures Valid()
      ensures clients == old(clients)[c := old(clients[c]).(msgsOut :=
        if old(clients[c]).active then ReleaseQueued(old(clients[c].msgsOut)) else old(clients[c].msgsOut))]
    {
      hide Inv, ReleaseQueued, CountersOk, SameMessages;
      if !clients[c].active { return; }
      ReleaseQueuedKeeps(clients[c].msgsOut);
      var md := WriteQueued(clients[c].msgsOut);
      ChangeOut(c, md);
    }

    // ---------- insertion ----------

    /** A new outgoing entry holds a reference to its message. */
    method AppendOut(c: nat, e: Entry, qos: nat)
      requires Valid() && c < |clients| && e.store in storeList
      requires e.qos == if qos > clients[c].maxQos then clients[c].maxQos else qos
      modifies `refCount, `pins, `clients
      ensures clients == old(clients)[c := old(clients[c]).(msgsOut := Appended(old(clients[c].msgsOut), e, qos))]
      ensures Quiet(old(Now()), Now())
      ensures Valid()
    {
      hide Inv, Quiet, Pinned, Appended;
      RefInc(e.store);
      PinnedIs(old(Now()), e.store);
      AppendOutInv(Now(), c, e, qos);
      clients := clients[c := clients[c].(msgsOut := Appended(clients[c].msgsOut, e, qos))];
      pins := pins - multiset{e.store.id};
      HeldQuiet(old(Now()), e.store, clients, old(accepted));
    }

    /** An outgoing entry that is to be acknowledged also takes its share of the quota. */
    method InsertOut(c: nat, e: Entry, qos: nat)
      requires Valid() && c < |clients| && e.store in storeList && e.direction == Out
      requires e.qos == if qos > clients[c].maxQos then clients[c].maxQos else qos
      modifies `refCount, `pins, `clients
      ensures clients == old(clients)[c := old(clients[c]).(msgsOut := Inserted(old(clients[c].msgsOut), e, qos))]
      ensures Quiet(old(Now()), Now())
      ensures Valid()
    {
      hide Inv, Quiet, Appended, DecQuota, SameMessages, CountersOk, All;
      AppendOut(c, e, qos);
      if e.qos > 0 {
        ghost var v := Now();
        QuotaSteps(clients[c].msgsOut);
        ChangeOut(c, DecQuota(clients[c].msgsOut));
        QuietSame(v, clients);
        QuietTwice(old(Now()), v, Now());
      }
    }

    /** A new incoming entry counts as accepted. */
    method AppendIn(c: nat, e: Entry, qos: nat)
      requires Valid() && c < |clients| && e.store in storeList && e.direction == In && accepted[e.store.id] == 0
      requires e.qos == if qos > clients[c].maxQos then clients[c].maxQos else qos
      modifies `refCount, `pins, `clients, `accepted
      ensures clients == old(clients)[c := old(clients[c]).(msgsIn := Inserted(old(clients[c].msgsIn), e, qos))]
      ensures accepted == old(accepted) + multiset{e.store.id}
      ensures Quiet(old(Now()).(accepted := accepted), Now())
      ensures Valid()
    {
      hide Inv, Quiet, Pinned, Appended;
      RefInc(e.store);
      PinnedIs(old(Now()), e.store);
      AppendInInv(Now(), c, e, qos);
      clients := clients[c := clients[c].(msgsIn := Appended(clients[c].msgsIn, e, qos))];
      pins := pins - multiset{e.store.id};
      accepted := accepted + multiset{e.store.id};
      HeldQuiet(old(Now()), e.store, clients, accepted);
    }

    /** The write after an insertion. */
    method Push(c: nat, now: int) returns (rc: int)
      requires Valid() && c < |clients|
      modifies `storeList, `refCount, `storeCount, `storeBytes, `pins, `clients, `sent
      ensures Wrote(old(Now()), Now(), c, Pushed(old(clients[c]), old(clients[c].msgsOut), old(sent), link, now), sent, rc)
      ensures Valid()
    {
      hide Inv, Wrote, WriteLatest, ReleaseQueued;
      ghost var w := WriteLatest(clients[c].msgsOut, Online(clients[c]), sent, link, now);
      rc := WriteLatestOut(c, now);
      WroteIs(old(Now()), Now(), c, w, sent, rc);
      if rc != SUCCESS { return; }
      ghost var middle := Now();
      WriteQueuedOut(c);
      WroteThen(old(Now()), middle, Now(), c, w, sent, if old(clients[c]).active then ReleaseQueued(w.md) else w.md);
    }

    method ListOut(c: nat, e: Entry, qos: nat, update: bool, now: int, queuedRc: int) returns (rc: int)
      requires Valid() && c < |clients| && e.store in storeList && e.direction == Out
      requires e.qos == if qos > clients[c].maxQos then clients[c].maxQos else qos
      modifies `storeList, `refCount, `storeCount, `storeBytes, `pins, `clients, `sent
      ensures Wrote(old(Now()), Now(), c,
                    Listed(old(clients[c]), e, qos, update, old(sent), link, now, queuedRc), sent, rc)
      ensures Valid()
    {
      hide Inv, Quiet, Wrote, Pushed, Inserted;
      InsertOut(c, e, qos);
      rc := queuedRc;
      ghost var middle := Now();
      if update {
        rc := Push(c, now);
        PushedOn(old(clients[c]), Inserted(old(clients[c].msgsOut), e, qos), old(sent), link, now);
        WroteAfter(old(Now()), middle, Now(), c, Inserted(old(clients[c].msgsOut), e, qos),
                   Listed(old(clients[c]), e, qos, update, old(sent), link, now, queuedRc), sent, rc);
      } else {
        WroteBy(old(Now()), Now(), c, Listed(old(clients[c]), e, qos, update, old(sent), link, now, queuedRc), sent, rc);
      }
    }

    /** db__message_insert */
    method Insert(c: nat, mid: nat, dir: Direction, qos: nat, retain: bool, x: Store, update: bool, now: int)
      returns (rc: int)
      requires Valid() && c < |clients| && x in storeList && qos <= 2
      requires dir == In ==> accepted[x.id] == 0
      modifies `storeList, `refCount, `storeCount, `storeBytes, `pins, `clients, `sent, `destIds, `accepted
      ensures InsertDone(cfg, link, old(Now()), Now(), Front(old(clients), old(destIds), old(sent)),
                         Front(clients, destIds, sent), c, mid, dir, qos, retain, x, update, now, rc)
      ensures Valid()
    {
      hide Inv, Quiet, Wrote, InsertPlan, Listed, Inserted, InsertDone;
      ghost var v, f := Now(), Front(clients, destIds, sent);
      var ctx := clients[c];
      var plan := InsertPlan(cfg, ctx, dir, qos, retain, (x.id, ctx.id) in destIds);
      match plan {
        case Leave(r, dropped) =>
          QuietFlag(Now(), c, dropped);
          clients := clients[c := ctx.(isDropping := ctx.isDropping || dropped)];
          rc := r;
          InsertLeft(cfg, link, v, Now(), f, c, mid, dir, qos, retain, x, update, now, rc);
        case List(state, r) =>
          var e := NewEntry(ctx, mid, dir, qos, retain, x, state);
          if !cfg.allowDuplicates && dir == Out && !retain {
            destIds := destIds + {(x.id, ctx.id)};
          }
          if dir == In {
            AppendIn(c, e, qos);
            rc := r;
            InsertedIn(cfg, link, v, Now(), f, c, mid, qos, retain, x, update, now, rc);
          } else {
            rc := ListOut(c, e, qos, update, now, r);
            InsertedOut(cfg, link, v, Now(), f, Front(clients, destIds, sent), c, mid, qos, retain, x, update, now, rc);
          }
      }
    }

    // ---------- acknowledgements of outgoing messages ----------

    /** db__message_delete_outgoing: the acknowledged entry goes, queued ones move up. */
    method DeleteOutgoing(c: nat, mid: nat, wanted: MsgState, qos: nat, now: int) returns (rc: int)
      requires Valid() && c < |clients|
      modifies `storeList, `refCount, `storeCount, `storeBytes, `pins, `clients, `sent
      ensures var md := old(clients[c].msgsOut);
              var i := FirstMid(md.inflight, mid);
              if i < |md.inflight| && (md.inflight[i].qos != qos || (qos == 2 && md.inflight[i].state != wanted)) then
                rc == PROTOCOL && Now() == old(Now()) && sent == old(sent)
              else
                var rest := if i < |md.inflight| then Removed(md, i) else md;
                Wrote(old(Now()), Now(), c,
                      WriteLatest(ReleaseCounted(rest, i), Online(old(clients[c])), old(sent), link, now), sent, rc)
      ensures Valid()
    {
      hide Inv, Quiet, Wrote, FirstMid, Removed, ReleaseCounted, WriteLatest;
      var md := clients[c].msgsOut;
      var i := FindMid(md.inflight, mid);
      if i < |md.inflight| {
        if md.inflight[i].qos != qos { return PROTOCOL; }
        if qos == 2 && md.inflight[i].state != wanted { return PROTOCOL; }
        RemoveOut(c, i);
        md := clients[c].msgsOut;
      } else {
        QuietSame(Now(), clients);
      }
      ghost var v := Now();
      rc := MoveUp(c, i, now);
      WroteAfter(old(Now()), v, Now(), c, md,
                 WriteLatest(ReleaseCounted(md, i), Online(old(clients[c])), old(sent), link, now), sent, rc);
    }

    method MoveUp(c: nat, index: nat, now: int) returns (rc: int)
      requires Valid() && c < |clients|
      modifies `storeList, `refCount, `storeCount, `storeBytes, `pins, `clients, `sent
      ensures Wrote(old(Now()), Now(), c,
                    WriteLatest(ReleaseCounted(old(clients[c].msgsOut), index), Online(old(clients[c])), old(sent), link, now),
                    sent, rc)
      ensures Valid()
    {
      hide Inv, Quiet, Wrote, ReleaseCounted, WriteLatest, CountersOk, SameMessages, All;
      ReleaseCountedKeeps(clients[c].msgsOut, index);
      var md := WriteCounted(clients[c].msgsOut, index);
      ChangeOut(c, md);
      QuietSame(old(Now()), clients);
      ghost var v := Now();
      rc := WriteLatestOut(c, now);
      WroteAfter(old(Now()), v, Now(), c, md,
                 WriteLatest(md, Online(old(clients[c])), old(sent), link, now), sent, rc);
    }

    /** db__message_update_outgoing */
    method UpdateOutgoing(c: nat, mid: nat, state: MsgState, qos: nat) returns (rc: int)
      requires Valid() && c < |clients|
      modifies `clients
      ensures var md := old(clients[c].msgsOut);
              var i := FirstMid(md.inflight, mid);
              if i == |md.inflight| then rc == NOT_FOUND && clients == old(clients)
              else if md.inflight[i].qos != qos then rc == PROTOCOL && clients == old(clients)
              else
                && rc == SUCCESS
                && clients == old(clients)[c := old(clients[c]).(msgsOut :=
                     md.(inflight := md.inflight[i := md.inflight[i].(state := state)]))]
      ensures Valid()
    {
      hide Inv, FirstMid;
      var md := clients[c].msgsOut;
      var i := FindMid(md.inflight, mid);
      if i == |md.inflight| { return NOT_FOUND; }
      if md.inflight[i].qos != qos { return PROTOCOL; }
      SetInflight(c, i, md.inflight[i].(state := state));
      rc := SUCCESS;
    }

    // ---------- deletion and reset ----------

    /** The references of entries that left a list are dropped one by one. */
    method ReleaseAll(es: seq<Entry>, ghost rest: multiset<nat>)
      requires Valid() && Pending(es, Now(), rest)
      modifies `storeList, `refCount, `storeCount, `storeBytes, `pins
      ensures pins == rest
      ensures Quiet(old(Now()).(pins := pins), Now())
      ensures Valid()
    {
      hide Inv, Quiet, Pending, Released;
      var i := 0;
      assert es[0..] == es;
      QuietSame(Now(), clients);
      while i < |es|
        invariant 0 <= i <= |es|
        invariant Pending(es[i..], Now(), rest)
        invariant Quiet(old(Now()).(pins := pins), Now())
        invariant Valid()
      {
        PendingIs(es, i, Now(), rest);
        ghost var v := Now();
        RefDec(es[i].store);
        UnpinQuiet(v, es[i].store);
        QuietPins(old(Now()), v, Now());
        PendingNext(es, i, v, Now(), rest);
        i := i + 1;
      }
      PendingEnd(es[i..], Now(), rest);
    }

    method DeleteOut(c: nat)
      requires Valid() && c < |clients|
      modifies `storeList, `refCount, `storeCount, `storeBytes, `pins, `clients
      ensures clients == old(clients)[c := old(clients[c]).(msgsOut := Cleared(old(clients[c].msgsOut)))]
      ensures Quiet(old(Now()), Now())
      ensures Valid()
    {
      hide Inv, Quiet, Pending;
      var es := All(clients[c].msgsOut);
      ClearOutInv(Now(), c);
      clients := clients[c := clients[c].(msgsOut := Cleared(clients[c].msgsOut))];
      pins := pins + Refs(es);
      PendingStart(es, Now(), old(pins));
      ghost var middle := Now();
      ReleaseAll(es, old(pins));
      QuietClients(old(Now()), middle, Now());
    }

    method DeleteIn(c: nat)
      requires Valid() && c < |clients|
      modifies `storeList, `refCount, `storeCount, `storeBytes, `pins, `clients, `discarded
      ensures clients == old(clients)[c := old(clients[c]).(msgsIn := Cleared(old(clients[c].msgsIn)))]
      ensures discarded == old(discarded) + Refs(All(old(clients[c].msgsIn)))
      ensures Quiet(old(Now()).(discarded := discarded), Now())
      ensures Valid()
    {
      hide Inv, Quiet, Pending;
      var es := All(clients[c].msgsIn);
      ClearInInv(Now(), c);
      clients := clients[c := clients[c].(msgsIn := Cleared(clients[c].msgsIn))];
      pins := pins + Refs(es);
      discarded := discarded + Refs(es);
      PendingStart(es, Now(), old(pins));
      ghost var middle := Now();
      ReleaseAll(es, old(pins));
      QuietClients(old(Now()).(discarded := discarded), middle, Now());
    }

    /** db__messages_delete */
    method MessagesDelete(c: nat, force: bool)
      requires Valid() && c < |clients|
      modifies `storeList, `refCount, `storeCount, `storeBytes, `pins, `clients, `discarded
      ensures Deleted(old(Now()), Now(), c, force)
      ensures Valid()
    {
      hide Inv, Quiet, Refs, All;
      QuietSame(Now(), clients);
      if force || clients[c].cleanStart {
        DeleteIn(c);
        ghost var v := Now();
        DeleteOut(c);
        QuietTwice(old(Now()).(discarded := discarded), v, Now());
      }
    }

    /** db__message_reconnect_reset_outgoing */
    method ResetOutgoing(c: nat)
      requires Valid() && c < |clients|
      modifies `clients
      ensures clients == old(clients)[c := old(clients[c]).(msgsOut := ResetOut(cfg, old(clients[c])))]
      ensures Valid()
    {
      hide Inv, ResetOut, CountersOk, SameMessages, All;
      ResetOutKeeps(cfg, clients[c]);
      var md := ResetOutLists(cfg, clients[c]);
      ChangeOut(c, md);
    }

    /** db__message_reconnect_reset_incoming */
    method ResetIncoming(c: nat)
      requires Valid() && c < |clients|
      modifies `storeList, `refCount, `storeCount, `storeBytes, `pins, `clients, `discarded
      ensures clients == old(clients)[c := old(clients[c]).(msgsIn := ResetIn(cfg, old(clients[c])))]
      ensures discarded == old(discarded) + Refs(NotQos2(old(clients[c].msgsIn.inflight)))
      ensures Quiet(old(Now()).(discarded := discarded), Now())
      ensures Valid()
    {
      hide Inv, Quiet, Pending, ResetIn, NotQos2;
      ResetInInv(Now(), c, cfg);
      var md, dropped := ResetInLists(cfg, clients[c]);
      clients := clients[c := clients[c].(msgsIn := md)];
      pins := pins + Refs(dropped);
      discarded := discarded + Refs(dropped);
      PendingStart(dropped, Now(), old(pins));
      ghost var middle := Now();
      ReleaseAll(dropped, old(pins));
      QuietClients(old(Now()).(discarded := discarded), middle, Now());
    }

    // ---------- retained messages and subscribers ----------

    /** The retained message of a node gives up its reference. */
    method Unretain(p: Path)
      requires Valid() && p in retained
      modifies `storeList, `refCount, `storeCount, `storeBytes, `pins, `retained
      ensures retained == old(retained) - {p}
      ensures Quiet(old(Now()).(retained := retained), Now()) && clients == old(clients)
      ensures var x := old(retained)[p];
              && x.id in old(refCount)
              && forall y :: y in old(storeList) && (y.id != x.id || old(refCount)[x.id] > 1) ==> y in storeList
      ensures Valid()
    {
      hide Inv, Quiet, Released;
      var x := retained[p];
      UnretainInv(Now(), p);
      UnretainQuiet(Now(), p);
      retained := retained - {p};
      pins := pins + multiset{x.id};
      RefDec(x);
    }

    method Retain(p: Path, x: Store)
      requires Valid() && p !in retained && x in storeList
      modifies `refCount, `pins, `retained
      ensures retained == old(retained)[p := x]
      ensures Quiet(old(Now()).(retained := retained), Now())
      ensures Valid()
    {
      hide Inv, Quiet, Pinned;
      RefInc(x);
      PinnedIs(old(Now()), x);
      RetainInv(Now(), p, x);
      RetainQuiet(old(Now()), p, x);
      retained := retained[p := x];
      pins := pins - multiset{x.id};
    }

    /** retain__store at the node of a topic. */
    method RetainStore(p: Path, x: Store)
      requires Valid() && x in storeList
      requires pins[x.id] > 0 || p !in retained || retained[p] != x
      modifies `storeList, `refCount, `storeCount, `storeBytes, `pins, `retained
      ensures retained == Retaining(old(retained), p, x)
      ensures retained == if x.payload == [] then old(retained) - {p} else old(retained)[p := x]
      ensures Quiet(old(Now()).(retained := retained), Now())
      ensures pins[x.id] > 0 ==> x in storeList
      ensures Valid()
    {
      hide Inv, Quiet;
      QuietSame(Now(), clients);
      if p in retained {
        UnretainSafe(Now(), p, x);
        Unretain(p);
      }
      assert retained == old(retained) - {p} && x in storeList;
      ghost var v := Now();
      if |x.payload| > 0 {
        Retain(p, x);
        QuietRetained(old(Now()), v, Now());
        assert retained == old(retained)[p := x];
      }
    }

    /** The expiry branch of retain__process: an expired message leaves its node. */
    method RetainExpire(p: Path, now: int)
      requires Valid() && p in retained
      modifies `storeList, `refCount, `storeCount, `storeBytes, `pins, `retained
      ensures var x := old(retained)[p];
              retained == if x.expiryTime > 0 && now >= x.expiryTime then old(retained) - {p} else old(retained)
      ensures Quiet(old(Now()).(retained := retained), Now())
      ensures Valid()
    {
      hide Inv, Quiet;
      QuietSame(Now(), clients);
      if retained[p].expiryTime > 0 && now >= retained[p].expiryTime {
        Unretain(p);
      }
    }

    /** sub__search as far as messages are concerned: an insertion for each subscriber. */
    method Deliver(x: Store, ds: seq<Delivery>, now: int)
      requires Valid() && x in storeList && pins[x.id] > 0 && DeliveriesOk(ds, |clients|)
      modifies `storeList, `refCount, `storeCount, `storeBytes, `pins, `clients, `sent, `destIds, `accepted
      ensures Front(clients, destIds, sent) ==
                DeliverAll(cfg, link, Front(old(clients), old(destIds), old(sent)), x, ds, now)
      ensures Quiet(old(Now()), Now()) && x in storeList
      ensures Valid()
    {
      hide Inv, Quiet, InsertDone, Delivered;
      ghost var goal := DeliverAll(cfg, link, Front(clients, destIds, sent), x, ds, now);
      QuietSame(Now(), clients);
      var i := 0;
      assert ds[0..] == ds;
      while i < |ds|
        invariant 0 <= i <= |ds| && |clients| == |old(clients)|
        invariant DeliveriesOk(ds[i..], |clients|)
        invariant DeliverAll(cfg, link, Front(clients, destIds, sent), x, ds[i..], now) == goal
        invariant Quiet(old(Now()), Now()) && x in storeList
        invariant Valid()
      {
        ghost var v := Now();
        ghost var f := Front(clients, destIds, sent);
        var d := ds[i];
        DeliverNext(cfg, link, f, x, ds, i, now);
        var rc := Insert(d.client, d.mid, Out, d.qos, d.retain, x, true, now);
        InsertIsDelivery(cfg, link, v, Now(), f, Front(clients, destIds, sent), d, x, now, rc);
        QuietTwice(old(Now()), v, Now());
        QuietKeeps(v, Now());
        PinnedStays(v, Now(), x);
        i := i + 1;
      }
      assert ds[i..] == [];
    }

    method DeliverAndRetain(x: Store, retain: bool, ds: seq<Delivery>, now: int)
      requires Valid() && x in storeList && pins[x.id] > 0 && DeliveriesOk(ds, |clients|) && !Untokenised(x.topic)
      modifies `storeList, `refCount, `storeCount, `storeBytes, `pins, `clients, `sent, `destIds, `accepted, `retained
      ensures Front(clients, destIds, sent) ==
                DeliverAll(cfg, link, Front(old(clients), old(destIds), old(sent)), x, ds, now)
      ensures retained == if retain then Retaining(old(retained), TokenPath(x.topic), x) else old(retained)
      ensures Quiet(old(Now()).(retained := retained), Now()) && x in storeList && pins == old(pins)
      ensures Valid()
    {
      hide Inv, Quiet, Retaining, DeliverAll, DeliveriesOk, TokenPath;
      Deliver(x, ds, now);
      ghost var v := Now();
      QuietKeeps(old(Now()), v);
      if retain {
        RetainStore(TokenPath(x.topic), x);
        QuietKeeps(v.(retained := retained), Now());
        QuietAnd(old(Now()), v, Now());
      }
    }

    /** The protected part of sub__messages_queue: a temporary reference keeps the message while
        it is delivered and retained. */
    method Hand(x: Store, retain: bool, ds: seq<Delivery>, now: int)
      requires Valid() && x in storeList && DeliveriesOk(ds, |clients|) && !Untokenised(x.topic)
      modifies `storeList, `refCount, `storeCount, `storeBytes, `pins, `clients, `sent, `destIds, `accepted, `retained
      ensures Front(clients, destIds, sent) ==
                DeliverAll(cfg, link, Front(old(clients), old(destIds), old(sent)), x, ds, now)
      ensures retained == if retain then Retaining(old(retained), TokenPath(x.topic), x) else old(retained)
      ensures x.id !in refCount || refCount[x.id] > 0
      ensures Quiet(old(Now()).(retained := retained), Now())
      ensures Valid()
    {
      hide Inv, Quiet, Pinned, Released, Retaining, DeliverAll, DeliveriesOk, TokenPath;
      RefInc(x);
      PinnedIs(old(Now()), x);
      DeliverAndRetain(x, retain, ds, now);
      ghost var v := Now();
      RefDec(x);
      QueueQuiet(old(Now()), v, x);
    }

    /** sub__messages_queue; it returns what the search of the subscriptions returned. */
    method MessagesQueue(x: Store, retain: bool, ds: seq<Delivery>, searchRc: int, now: int) returns (rc: int)
      requires Valid() && x in storeList && DeliveriesOk(ds, |clients|)
      modifies `storeList, `refCount, `storeCount, `storeBytes, `pins, `clients, `sent, `destIds, `accepted,
               `retained, `handed
      ensures handed == old(handed) + [Handing(x.id, rc)]
      ensures rc == if Untokenised(x.topic) then 1 else searchRc
      ensures Front(clients, destIds, sent) ==
                DeliverAll(cfg, link, Front(old(clients), old(destIds), old(sent)), x,
                           if Untokenised(x.topic) then [] else ds, now)
      ensures OnlyOut(old(clients), clients)
      ensures retained == if !Untokenised(x.topic) && retain then Retaining(old(retained), TokenPath(x.topic), x) else old(retained)
      ensures !Untokenised(x.topic) ==> x.id !in refCount || refCount[x.id] > 0
      ensures Quiet(old(Now()).(retained := retained), Now())
      ensures Valid()
    {
      hide Inv, Quiet, Retaining;
      DeliverOnlyOut(cfg, link, Front(clients, destIds, sent), x, ds, now);
      if Untokenised(x.topic) {
        QuietSame(Now(), clients);
        rc := 1;
      } else {
        Hand(x, retain, ds, now);
        rc := searchRc;
      }
      handed := handed + [Handing(x.id, rc)];
    }

    // ---------- incoming messages ----------

    /** db__message_write_queued_in */
    method WriteQueuedIn(c: nat) returns (rc: int)
      requires Valid() && c < |clients|
      modifies `clients, `sent
      ensures var ctx := old(clients[c]);
              var effect := Finished(link, Effect(ctx, old(sent), SUCCESS));
              clients == old(clients)[c := effect.ctx] && sent == effect.sent
      ensures Valid()
    {
      hide Inv, QueuedIn, CountersOk, SameMessages, All;
      if !clients[c].active { return SUCCESS; }
      var md := clients[c].msgsIn;
      QueuedInAll(md, clients[c].msgsOut.inflightMaximum, sent, link);
      md, sent, rc := WriteQueuedInto(md, clients[c].msgsOut.inflightMaximum, sent, link);
      ChangeIn(c, md);
    }

    /** db__message_remove_incoming */
    method RemoveIncoming(c: nat, mid: nat) returns (rc: int)
      requires Valid() && c < |clients|
      modifies `storeList, `refCount, `storeCount, `storeBytes, `pins, `clients, `forwarded, `discarded
      ensures var md := old(clients[c].msgsIn);
              var i := FirstMid(md.inflight, mid);
              && clients == old(clients)[c := old(clients[c]).(msgsIn := DropFirst(md, mid))]
              && rc == (if i == |md.inflight| then NOT_FOUND else if Removes(md, mid) then SUCCESS else PROTOCOL)
              && discarded == old(discarded) + (if Removes(md, mid) then multiset{md.inflight[i].store.id} else multiset{})
      ensures forwarded == old(forwarded) && Quiet(old(Now()).(discarded := discarded), Now())
      ensures Valid()
    {
      hide Inv, Quiet, FirstMid, Removed;
      var i := FindMid(clients[c].msgsIn.inflight, mid);
      if i == |clients[c].msgsIn.inflight| || clients[c].msgsIn.inflight[i].store.qos != 2 {
        QuietSame(Now(), clients);
        return if i == |clients[c].msgsIn.inflight| then NOT_FOUND else PROTOCOL;
      }
      RemoveIn(c, i, false);
      rc := SUCCESS;
    }

    /** One entry of a release is handed to its subscribers and, on success, taken off the list. */
    method ForwardEntry(c: nat, i: nat, ds: seq<Delivery>, searchRc: int, now: int) returns (rc: int)
      requires Valid() && c < |clients| && i < |clients[c].msgsIn.inflight| && DeliveriesOk(ds, |clients|)
      modifies `storeList, `refCount, `storeCount, `storeBytes, `pins, `clients, `sent, `destIds, `accepted,
               `retained, `handed, `forwarded, `discarded
      ensures var e := old(clients[c].msgsIn.inflight[i]);
              && rc == (if Untokenised(e.store.topic) then 1 else searchRc)
              && handed == old(handed) + [Handing(e.store.id, rc)]
              && HandedOn(old(Now()), Now(), c, i, rc)
              && Subscribers() == HandAndDrop(cfg, link, old(Subscribers()), c, i, ds, rc, now)
      ensures Valid()
    {
      hide Inv, Quiet, OnlyOut, Removed, HandedOn, DeliverAll, DeliveriesOk, TokenPath, Retaining, Untokenised;
      var e := clients[c].msgsIn.inflight[i];
      EntryListed(Now(), c, i);
      rc := MessagesQueue(e.store, e.retain, ds, searchRc, now);
      ghost var v := Now();
      OnlyOutIn(old(clients), clients, c);
      if rc == SUCCESS || rc == NO_SUBSCRIBERS {
        RemoveIn(c, i, true);
      }
      HandedOnBy(old(Now()), v, Now(), c, i, rc);
    }

    /** The walk of db__message_release_incoming over the inflight list: every entry with the id is
        handed to the subscribers, whose part is given by `deliveries` and `result`. */
    method ForwardAll(c: nat, mid: nat, deliveries: nat -> seq<Delivery>, result: nat -> int, now: int)
      returns (index: nat, deleted: bool, rc: int)
      requires Valid() && c < |clients| && AllDeliveriesOk(deliveries, |clients|)
      modifies `storeList, `refCount, `storeCount, `storeBytes, `pins, `clients, `sent, `destIds, `accepted,
               `retained, `handed, `forwarded, `discarded
      ensures var es := old(clients[c].msgsIn.inflight);
              && index == StopAt(es, mid, result)
              && rc == (if index == |es| then SUCCESS else if es[index].store.qos != 2 then PROTOCOL else 1)
              && (deleted <==> WithMid(es[..index], mid) != [])
              && ReleasedTo(old(Now()), Now(), c, mid, result, old(handed), handed, index)
      ensures Subscribers() == WalkOn(cfg, link, old(Subscribers()), c, 0, mid, deliveries, result, now)
      ensures Valid()
    {
      hide Inv, Releasing, StopAt, ReleasedTo, HandedOn, DeliveriesOk, WithMid, HandAndDrop;
      ghost var goal := WalkOn(cfg, link, Subscribers(), c, 0, mid, deliveries, result, now);
      ghost var v0, handed0 := Now(), handed;
      ReleasingFirst(v0, c, mid, result, handed);
      var i: nat;
      i, index, deleted := 0, 0, false;
      NoneWithMid(clients[c].msgsIn.inflight[..0], mid);
      while i < |clients[c].msgsIn.inflight|
        invariant c < |clients| == |v0.cs| && i <= |clients[c].msgsIn.inflight|
        invariant Releasing(v0, Now(), c, mid, result, handed0, handed, i, index)
        invariant index <= |v0.cs[c].msgsIn.inflight|
        invariant deleted <==> WithMid(v0.cs[c].msgsIn.inflight[..index], mid) != []
        invariant WalkOn(cfg, link, Subscribers(), c, i, mid, deliveries, result, now) == goal
        invariant Valid()
        decreases |clients[c].msgsIn.inflight| - i
      {
        ghost var v, before := Now(), handed;
        var e := clients[c].msgsIn.inflight[i];
        ReleasingAt(v0, v, c, mid, result, handed0, handed, i, index);
        WithMidNext(v0.cs[c].msgsIn.inflight, index, mid);
        if e.mid != mid {
          ReleasingMiss(v0, v, c, mid, result, handed0, handed, i, index);
          i := i + 1;
        } else {
          if e.store.qos != 2 {
            ReleasedStop(v0, v, v, c, mid, result, handed0, handed, handed, i, index);
            return index, deleted, PROTOCOL;
          }
          var handRc := ForwardEntry(c, i, deliveries(e.store.id), result(e.store.id), now);
          if handRc != SUCCESS && handRc != NO_SUBSCRIBERS {
            ReleasedStop(v0, v, Now(), c, mid, result, handed0, before, handed, i, index);
            return index, deleted, 1;
          }
          ReleasingHit(v0, v, Now(), c, mid, result, handed0, before, i, index);
          deleted := true;
        }
        index := index + 1;
      }
      ReleasedEnd(v0, Now(), c, mid, result, handed0, handed, i, index);
      rc := SUCCESS;
    }

    /** db__message_release_incoming, called for a PUBREL. */
    method ReleaseIncoming(c: nat, mid: nat, deliveries: nat -> seq<Delivery>, result: nat -> int, now: int)
      returns (rc: int)
      requires Valid() && c < |clients| && AllDeliveriesOk(deliveries, |clients|)
      modifies `storeList, `refCount, `storeCount, `storeBytes, `pins, `clients, `sent, `destIds, `accepted,
               `retained, `handed, `forwarded, `discarded
      ensures rc == ReleaseRc(old(clients[c].msgsIn.inflight), mid, result)
      ensures ReleaseDone(old(Now()), Now(), c, mid, result, old(handed), handed)
      ensures ReleaseEffect(cfg, link, old(Subscribers()), Subscribers(), c, mid, deliveries, result, now)
      ensures Valid()
    {
      hide Inv, Quiet, OnlyOut, ReleasedTo, ReleaseDone, StopAt, WithMid, CountersOk, SameMessages, ReleaseIn, WalkOn;
      ghost var es := clients[c].msgsIn.inflight;
      var index, deleted;
      index, deleted, rc := ForwardAll(c, mid, deliveries, result, now);
      ReleasedLists(old(Now()), Now(), c, mid, result, old(handed), handed, index);
      if rc != SUCCESS {
        ReleaseStopped(old(Now()), Now(), c, mid, result, old(handed), handed, index);
        return;
      }
      assert es[..index] == es;
      ghost var v := Now();
      var md := clients[c].msgsIn;
      ReleaseInAll(md, index, sent);
      md, sent := AcknowledgeQueued(md, index, sent);
      ChangeIn(c, md);
      ReleaseFinished(old(Now()), v, Now(), c, mid, result, old(handed), handed, index);
      rc := if deleted then SUCCESS else NOT_FOUND;
    }

    // ---------- PUBLISH ----------

    /** The search for a pending message with the id: a retransmission is recognised, a reused
        id is cleared from the inflight list. */
    method Recognise(c: nat, msg: Store) returns (dup: bool)
      requires Valid() && c < |clients|
      modifies `storeList, `refCount, `storeCount, `storeBytes, `pins, `clients, `forwarded, `discarded
      ensures dup <==> msg.qos > 0 && Duplicate(old(clients[c].msgsIn), msg)
      ensures clients == old(clients)[c := Cleaned(old(clients[c]), msg)]
      ensures discarded == old(discarded) + Discards(old(clients[c]), msg)
      ensures forwarded == old(forwarded) && Quiet(old(Now()).(discarded := discarded), Now())
      ensures Valid()
    {
      hide Inv, Quiet, FirstSource, FirstMid, Removed, Removes, DropFirst;
      QuietSame(Now(), clients);
      dup := false;
      if msg.qos > 0 {
        var md := clients[c].msgsIn;
        var k := StoreFind(md, msg.sourceMid);
        dup := k < |md.inflight| + |md.queued|;
        if dup && msg.sourceMid != 0 {
          var x := if k < |md.inflight| then md.inflight[k].store else md.queued[k - |md.inflight|].store;
          assert x == All(md)[k].store;
          if x.qos != msg.qos || |x.payload| != |msg.payload| || x.topic != msg.topic || x.payload != msg.payload {
            var _ := RemoveIncoming(c, msg.sourceMid);
            dup := false;
          }
        }
      }
    }

    /** Stores a new message and makes it pending. */
    method Accept(c: nat, msg: Store, now: int) returns (x: Store, rc: int)
      requires Valid() && c < |clients| && msg.qos == 2
      modifies `storeList, `refCount, `storeCount, `storeBytes, `lastDbId, `pins, `clients, `sent, `destIds, `accepted
      ensures x == msg.(id := old(lastDbId) + 1) && lastDbId == x.id
      ensures var effect := InsertEffect(cfg, link, old(clients[c]), x.sourceMid, In, 2, x.retain, x, false, now, false, old(sent));
              clients == old(clients)[c := effect.ctx] && sent == effect.sent && rc == effect.rc
      ensures accepted == old(accepted) +
                (if InsertPlan(cfg, old(clients[c]), In, 2, x.retain, false).List? then multiset{x.id} else multiset{})
      ensures pins == old(pins) && retained == old(retained) && destIds == old(destIds)
      ensures forwarded == old(forwarded) && discarded == old(discarded)
      ensures Valid()
    {
      hide Inv, Quiet, InsertEffect, InsertPlan;
      x := StoreMessage(msg);
      ghost var v := Now();
      KnownIrrelevant(cfg, link, clients[c], x.sourceMid, 2, x.retain, x, false, now, (x.id, clients[c].id) in destIds, sent);
      assert destIds + {} == destIds;
      rc := Insert(c, x.sourceMid, In, 2, x.retain, x, false, now);
      QuietKeeps(v.(accepted := accepted), Now());
    }

    /** process_bad_message: the answer to a PUBLISH that is not taken. */
    method Refuse(c: nat, packet: Packet, credit: bool) returns (rc: int)
      requires Valid() && c < |clients|
      modifies `clients, `sent
      ensures clients == old(clients)[c := if credit then Credited(old(clients[c])) else old(clients[c])]
      ensures sent == old(sent) + [packet] && rc == link(|old(sent)|)
      ensures Valid()
    {
      hide Inv, Credited;
      if credit { Credit(c); }
      rc := link(|sent|);
      sent := sent + [packet];
    }

    /** A message of quality 2 that is new: refused, or stored, made pending and acknowledged. */
    method Offer(c: nat, msg: Store, now: int) returns (rc: int)
      requires Valid() && c < |clients| && msg.qos == 2
      modifies `storeList, `refCount, `storeCount, `storeBytes, `lastDbId, `pins, `clients, `sent, `destIds, `accepted
      ensures var x := msg.(id := old(lastDbId) + 1);
              var effect := Offered(cfg, link, old(clients[c]), x, now, old(sent));
              var taken := Admits(cfg, old(clients[c]), 2) && InsertPlan(cfg, old(clients[c]), In, 2, x.retain, false).List?;
              && clients == old(clients)[c := effect.ctx] && sent == effect.sent && rc == effect.rc
              && accepted == old(accepted) + (if taken then multiset{x.id} else multiset{})
              && old(lastDbId) <= lastDbId <= x.id && (taken ==> lastDbId == x.id)
      ensures pins == old(pins) && retained == old(retained) && destIds == old(destIds)
      ensures forwarded == old(forwarded) && discarded == old(discarded)
      ensures Valid()
    {
      hide Inv, Quiet, Admits, InsertEffect, InsertPlan, Finished, Credited;
      assert accepted + multiset{} == accepted;
      if Admits(cfg, clients[c], 2) {
        var x, res := Accept(c, msg, now);
        rc := Reply(c, msg.sourceMid, res);
      } else {
        rc := Refuse(c, Pubrec(msg.sourceMid, QUOTA_EXCEEDED), clients[c].mqtt5);
      }
    }

    /** handle__publish from the search on, for quality 2. */
    method PublishQos2(c: nat, msg: Store, now: int) returns (rc: int)
      requires Valid() && c < |clients| && msg.qos == 2
      modifies `storeList, `refCount, `storeCount, `storeBytes, `lastDbId, `pins, `clients, `sent, `destIds,
               `accepted, `forwarded, `discarded
      ensures Published2(cfg, link, old(Now()), Now(), c, msg, now, old(sent), sent, rc) && destIds == old(destIds)
      ensures Valid()
    {
      hide Inv, Quiet, Duplicate, Cleaned, Admits, InsertEffect, InsertPlan, Discards, Finished, Offered, Published2;
      ghost var v0 := Now();
      var dup := Recognise(c, msg);
      QuietKeeps(old(Now()).(discarded := discarded), Now());
      if dup {
        rc := Reply(c, msg.sourceMid, SUCCESS);
      } else {
        rc := Offer(c, msg, now);
      }
      Publish2Done(cfg, link, v0, Now(), c, msg, now, old(sent), sent, rc);
    }

    /** The PUBREC for a message that is pending now, and the look at the queue. */
    method Reply(c: nat, mid: nat, res: int) returns (rc: int)
      requires Valid() && c < |clients|
      modifies `clients, `sent
      ensures var ctx := old(clients[c]);
              var effect := Finished(link, if res == SUCCESS then Acknowledged(link, ctx, mid, old(sent))
                                           else Effect(ctx, old(sent), if res == 1 then 1 else SUCCESS));
              clients == old(clients)[c := effect.ctx] && sent == effect.sent && rc == effect.rc
      ensures Valid()
    {
      hide Inv, Finished;
      rc := SUCCESS;
      if res == SUCCESS {
        if link(|sent|) != SUCCESS { rc := 1; }
        sent := sent + [Pubrec(mid, 0)];
      } else if res == 1 {
        rc := 1;
      }
      FinishedRc(link, clients[c], sent, rc);
      var _ := WriteQueuedIn(c);
    }

    /** The answer to a message of quality 0 or 1 that was handed on with the result rc2. */
    method Answer(c: nat, qos: nat, mid: nat, rc2: int) returns (rc: int)
      requires Valid() && c < |clients|
      modifies `clients, `sent
      ensures var effect := Finished(link, Answered(link, old(clients[c]), qos, mid, rc2, old(sent)));
              clients == old(clients)[c := effect.ctx] && sent == effect.sent && rc == effect.rc
      ensures Valid()
    {
      hide Inv, Finished;
      rc := SUCCESS;
      if qos == 0 {
        if rc2 > 0 { rc := 1; }
      } else if rc2 == SUCCESS || !clients[c].mqtt5 {
        Credit(c);
        if link(|sent|) != SUCCESS { rc := 1; }
        sent := sent + [Puback(mid, 0)];
      } else if rc2 == NO_SUBSCRIBERS {
        Credit(c);
        if link(|sent|) != SUCCESS { rc := 1; }
        sent := sent + [Puback(mid, NO_MATCHING_SUBSCRIBERS)];
      } else {
        rc := rc2;
      }
      FinishedRc(link, clients[c], sent, rc);
      var _ := WriteQueuedIn(c);
    }

    /** A message of quality 0 or 1 is handed on at once and answered. */
    method HandNow(c: nat, x: Store, qos: nat, mid: nat, ds: seq<Delivery>, searchRc: int, now: int) returns (rc: int)
      requires Valid() && c < |clients| && x in storeList && DeliveriesOk(ds, |clients|)
      modifies `storeList, `refCount, `storeCount, `storeBytes, `pins, `clients, `sent, `destIds, `accepted,
               `retained, `handed
      ensures (Front(clients, destIds, sent), rc) ==
                Publish01(cfg, link, Front(old(clients), old(destIds), old(sent)), c, x, qos, mid, ds, searchRc, now)
      ensures handed == old(handed) + [Handing(x.id, if Untokenised(x.topic) then 1 else searchRc)]
      ensures retained == if !Untokenised(x.topic) && x.retain then Retaining(old(retained), TokenPath(x.topic), x) else old(retained)
      ensures pins == old(pins) && accepted == old(accepted) && forwarded == old(forwarded) && discarded == old(discarded)
      ensures Valid()
    {
      hide Inv, Quiet, Finished, Answered, DeliverAll, OnlyOut, TokenPath, Retaining, Untokenised, DecQuota, SameMessages,
           CountersOk, All;
      if qos == 1 {
        QuotaSteps(clients[c].msgsIn);
        ChangeIn(c, DecQuota(clients[c].msgsIn));
      }
      assert old(clients)[c := old(clients[c])] == old(clients);
      ghost var v := Now();
      var rc2 := MessagesQueue(x, x.retain, ds, searchRc, now);
      QuietKeeps(v.(retained := retained), Now());
      OnlyOutIn(v.cs, clients, c);
      rc := Answer(c, qos, mid, rc2);
    }

    /** The pending message that a retransmission repeats. */
    method Recall(c: nat, msg: Store) returns (x: Store)
      requires Valid() && c < |clients| && Duplicate(clients[c].msgsIn, msg)
      ensures FirstSource(All(clients[c].msgsIn), msg.sourceMid) < |All(clients[c].msgsIn)|
      ensures x == All(clients[c].msgsIn)[FirstSource(All(clients[c].msgsIn), msg.sourceMid)].store && x in storeList
    {
      hide Inv, FirstSource, Duplicate;
      var md := clients[c].msgsIn;
      var k := StoreFind(md, msg.sourceMid);
      DuplicateListed(Now(), c, msg);
      x := if k < |md.inflight| then md.inflight[k].store else md.queued[k - |md.inflight|].store;
      assert x == All(md)[k].store;
    }

    /** handle__publish from the search on, for quality 0 and 1. */
    method PublishQos01(c: nat, msg: Store, ds: seq<Delivery>, searchRc: int, now: int) returns (rc: int)
      requires Valid() && c < |clients| && msg.qos <= 1 && DeliveriesOk(ds, |clients|)
      modifies `storeList, `refCount, `storeCount, `storeBytes, `lastDbId, `pins, `clients, `sent, `destIds,
               `accepted, `forwarded, `discarded, `retained, `handed
      ensures Published01(cfg, link, old(Now()), Now(), Front(old(clients), old(destIds), old(sent)),
                          Front(clients, destIds, sent), c, msg, ds, searchRc, now, old(handed), handed, rc)
      ensures Valid()
    {
      hide Inv, Quiet, Cleaned, Duplicate, Admits, Discards, Publish01, Retaining, TokenPath, Untokenised, FirstSource,
           Credited, Published01, DeliveriesOk;
      ghost var v0, f0 := Now(), Front(clients, destIds, sent);
      var dup := Recognise(c, msg);
      QuietKeeps(old(Now()).(discarded := discarded), Now());
      SameRecognised(old(clients[c]), msg, 0);
      var x := msg;
      if dup {
        x := Recall(c, msg);
      } else if msg.qos == 0 || Admits(cfg, clients[c], msg.qos) {
        x := StoreMessage(msg);
      } else {
        rc := Refuse(c, Puback(msg.sourceMid, QUOTA_EXCEEDED), true);
        PublishRefused(cfg, link, v0, Now(), f0, Front(clients, destIds, sent), c, msg, ds, searchRc, now, handed, rc);
        return;
      }
      rc := HandNow(c, x, msg.qos, msg.sourceMid, ds, searchRc, now);
      PublishHanded(cfg, link, v0, Now(), f0, Front(clients, destIds, sent), c, msg, ds, searchRc, now, old(handed), handed,
                    rc, dup, x);
    }

    /** handle__publish: the check of the quality, and everything from the search for a pending
        message on. */
    method HandlePublish(c: nat, msg: Store, ds: seq<Delivery>, searchRc: int, now: int) returns (rc: int)
      requires Valid() && c < |clients| && msg.qos <= 2 && DeliveriesOk(ds, |clients|)
      requires msg.qos > 0 ==> msg.sourceMid != 0
      modifies `storeList, `refCount, `storeCount, `storeBytes, `lastDbId, `pins, `clients, `sent, `destIds,
               `accepted, `forwarded, `discarded, `retained, `handed
      ensures if msg.qos > old(clients[c]).maxQos then
                rc == QOS_NOT_SUPPORTED && Now() == old(Now()) && Subscribers() == old(Subscribers()) && handed == old(handed)
              else if msg.qos == 2 then
                Published2(cfg, link, old(Now()), Now(), c, msg, now, old(sent), sent, rc)
                && destIds == old(destIds) && handed == old(handed)
              else
                Published01(cfg, link, old(Now()), Now(), Front(old(clients), old(destIds), old(sent)),
                            Front(clients, destIds, sent), c, msg, ds, searchRc, now, old(handed), handed, rc)
      ensures Valid()
    {
      hide Inv, Publish2, Accepts, Discards, Published01;
      if msg.qos > clients[c].maxQos {
        rc := QOS_NOT_SUPPORTED;
      } else if msg.qos == 2 {
        rc := PublishQos2(c, msg, now);
      } else {
        rc := PublishQos01(c, msg, ds, searchRc, now);
      }
    }

    /** handle__pubrel: the release, and a PUBCOMP also when there was nothing to release, as after
        a repeated PUBREL. */
    method HandlePubrel(c: nat, mid: nat, deliveries: nat -> seq<Delivery>, result: nat -> int, now: int)
      returns (rc: int, found: int, ghost released: View, ghost log: seq<Packet>)
      requires Valid() && c < |clients| && AllDeliveriesOk(deliveries, |clients|)
      modifies `storeList, `refCount, `storeCount, `storeBytes, `pins, `clients, `sent, `destIds, `accepted,
               `retained, `handed, `forwarded, `discarded
      ensures found == ReleaseRc(old(clients[c].msgsIn.inflight), mid, result)
      ensures ReleaseDone(old(Now()), released, c, mid, result, old(handed), handed)
      ensures ReleaseEffect(cfg, link, old(Subscribers()), Walk(Front(released.cs, destIds, log), released.retained),
                            c, mid, deliveries, result, now)
      ensures Completed(link, released, Now(), log, sent, c, mid, found, rc)
      ensures Valid()
    {
      hide Inv, ReleaseDone, ReleaseEffect, StopAt, WithMid, Credited;
      found := ReleaseIncoming(c, mid, deliveries, result, now);
      ReleaseLength(old(Now()), Now(), c, mid, result, old(handed), handed);
      released, log := Now(), sent;
      if found != SUCCESS && found != NOT_FOUND {
        rc := found;
        return;
      }
      Credit(c);
      rc := link(|sent|);
      sent := sent + [Pubcomp(mid)];
    }

    // ---------- session takeover ----------

    /** The part of connect__on_authorised that finds the client id in use by context d. */
    method Takeover(c: nat, d: nat)
      requires Valid() && c < |clients| && d < |clients| && c != d
      requires All(clients[c].msgsIn) == [] && All(clients[c].msgsOut) == []
      modifies `storeList, `refCount, `storeCount, `storeBytes, `pins, `clients, `discarded
      ensures TakenOver(cfg, old(Now()), Now(), c, d)
      ensures !old(clients[c]).cleanStart && old(clients[d]).sessionExpiryInterval > 0 ==>
                && |clients| == |old(clients)|
                && SameMessages(All(clients[c].msgsOut), All(old(clients[d].msgsOut)))
                && SameMessages(All(clients[c].msgsIn), Qos2(old(clients[d].msgsIn.inflight)) + old(clients[d].msgsIn.queued))
                && All(clients[d].msgsIn) == [] && All(clients[d].msgsOut) == []
      ensures Valid()
    {
      hide Inv, Quiet, Adopted, NotQos2, Qos2, Refs, SameMessages, TakenOver;
      var found := clients[d];
      if !clients[c].cleanStart && found.sessionExpiryInterval > 0 &&
         !(found.msgsIn.inflight == [] && found.msgsIn.queued == [] && found.msgsOut.inflight == [] && found.msgsOut.queued == []) {
        AdoptedKeeps(cfg, clients[c], found);
        TakeLists(c, d);
        TakenLists(cfg, old(Now()), Now(), c, d);
      } else {
        QuietEnded(Now(), d);
        NothingTaken();
        clients := clients[d := Ended(found)];
        TakenFlags(cfg, old(Now()), Now(), c, d);
      }
    }

    method TakeLists(c: nat, d: nat)
      requires Valid() && c < |clients| && d < |clients| && c != d
      requires All(clients[c].msgsIn) == [] && All(clients[c].msgsOut) == []
      modifies `storeList, `refCount, `storeCount, `storeBytes, `pins, `clients, `discarded
      ensures clients == old(clients)[c := Adopted(cfg, old(clients[c]), old(clients[d]))][d := Emptied(old(clients[d]))]
      ensures discarded == old(discarded) + Refs(NotQos2(old(clients[d].msgsIn.inflight)))
      ensures Quiet(old(Now()).(discarded := discarded), Now())
      ensures Valid()
    {
      hide Inv, Quiet, Pending, ResetIn, ResetOut, NotQos2, Refs, All;
      TakeoverInv(Now(), c, d, cfg);
      var ctx := Transferred(clients[c], clients[d]);
      var out := ResetOutLists(cfg, ctx);
      ctx := ctx.(msgsOut := out);
      var inn, dropped := ResetInLists(cfg, ctx);
      ctx := ctx.(msgsIn := inn);
      clients := clients[c := ctx][d := Emptied(clients[d])];
      pins := pins + Refs(dropped);
      discarded := discarded + Refs(dropped);
      PendingStart(dropped, Now(), old(pins));
      ghost var middle := Now();
      ReleaseAll(dropped, old(pins));
      QuietClients(old(Now()).(discarded := discarded), middle, Now());
    }

    // ---------- compaction ----------

    /** db__msg_store_compact: messages nobody holds leave the list, the others stay. */
    method Compact()
      requires Valid()
      modifies `storeList, `refCount, `storeCount, `storeBytes
      ensures forall x :: x in storeList <==> x in old(storeList) && x.id in old(refCount) && old(refCount)[x.id] > 0
      ensures forall s :: s in refCount ==> s in old(refCount) && refCount[s] == old(refCount)[s] > 0
      ensures Valid()
    {
      hide Inv;
      var todo := storeList;
      var i := 0;
      CompactStart(Now());
      while i < |todo|
        invariant 0 <= i <= |todo|
        invariant Compacting(todo, old(refCount), i, Now())
        invariant Valid()
      {
        CompactNext(todo, old(refCount), i, Now());
        if refCount[todo[i].id] < 1 {
          StoreRemove(todo[i]);
        }
        i := i + 1;
      }
      CompactEnd(todo, old(refCount), Now());
    }
  }
}
