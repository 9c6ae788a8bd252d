/** The invariant of the message database: reference counts, the store list, the cached
    counters and the account of inbound messages, with the steps that keep it. */
module DbInvariant {
  import opened Messages
  import opened StoreList

  // ---------- inbound bookkeeping ----------

  /** Each accepted inbound message is pending, handed to subscribers once, or discarded. */
  ghost predicate InboundOk(cs: seq<Context>, accepted: multiset<nat>, forwarded: multiset<nat>,
                            discarded: multiset<nat>, lastId: nat)
  {
    forall s: nat ::
      && accepted[s] == InUses(cs, s) + forwarded[s] + discarded[s]
      && accepted[s] <= 1
      && (accepted[s] > 0 ==> s <= lastId)
  }

  /** Clients that are not limited to qos 0 have right counters. */
  ghost predicate CountersHold(cs: seq<Context>)
  {
    forall c :: 0 <= c < |cs| ==> CountersRight(cs[c])
  }

  ghost predicate CountersRight(ctx: Context)
  {
    ctx.maxQos > 0 ==> CountersOk(ctx.msgsIn) && CountersOk(ctx.msgsOut)
  }

  // ---------- the invariant of the database ----------

  /** All the database's state that the invariant is about. */
  datatype View = View(list: seq<Store>, refCount: map<nat, nat>, lastId: nat, count: int, bytes: int,
                       cs: seq<Context>, retained: Retained, pins: multiset<nat>,
                       accepted: multiset<nat>, forwarded: multiset<nat>, discarded: multiset<nat>)

  ghost predicate Inv(v: View)
  {
    && ListOk(v.list, v.refCount, v.lastId, v.count, v.bytes)
    && Known(v.cs, v.retained, v.pins, v.list, v.refCount)
    && RefsOk(v.cs, v.retained, v.pins, v.refCount)
    && CountersHold(v.cs)
    && InboundOk(v.cs, v.accepted, v.forwarded, v.discarded, v.lastId)
  }

  // ---------- steps on the store list ----------

  function Entered(v: View, x: Store): View
  {
    v.(list := [x] + v.list, refCount := v.refCount[x.id := 0], lastId := x.id,
       count := v.count + 1, bytes := v.bytes + x.Len())
  }

  /** The next message to be stored is new to every holder. */
  lemma EnterInv(v: View, x: Store)
    requires Inv(v) && x.id == v.lastId + 1
    ensures Inv(Entered(v, x))
    ensures x.id !in v.refCount && v.pins[x.id] == 0 && v.accepted[x.id] == 0
  {
    hide RefsOk, CountersHold, Known, ListOk, InboundOk;
    NewListOk(v, x);
    InboundLater(v, x.id);
    EnterKnown(v, x);
    EnterRefs(v, x);
  }

  lemma InboundLater(v: View, id: nat)
    requires InboundOk(v.cs, v.accepted, v.forwarded, v.discarded, v.lastId) && id > v.lastId
    ensures v.accepted[id] == 0 && InboundOk(v.cs, v.accepted, v.forwarded, v.discarded, id)
  {
    hide InUses;
  }

  lemma EnterKnown(v: View, x: Store)
    requires Known(v.cs, v.retained, v.pins, v.list, v.refCount) && x.id !in v.refCount
    ensures v.pins[x.id] == 0
    ensures Known(v.cs, v.retained, v.pins, [x] + v.list, v.refCount[x.id := 0])
  {
    forall c | 0 <= c < |v.cs|
      ensures EntriesKnown(All(v.cs[c].msgsIn), [x] + v.list)
      ensures EntriesKnown(All(v.cs[c].msgsOut), [x] + v.list)
    {
      assert EntriesKnown(All(v.cs[c].msgsIn), v.list) && EntriesKnown(All(v.cs[c].msgsOut), v.list);
    }
  }

  lemma EnterRefs(v: View, x: Store)
    requires Known(v.cs, v.retained, v.pins, v.list, v.refCount) && RefsOk(v.cs, v.retained, v.pins, v.refCount)
    requires x.id !in v.refCount && forall y :: y in v.list ==> y.id != x.id
    ensures RefsOk(v.cs, v.retained, v.pins, v.refCount[x.id := 0])
  {
    NobodyHolds(v.cs, v.list, x.id);
    assert RetainedAs(v.retained, x.id) == {};
    assert Held(v.cs, v.retained, v.pins, x.id) == 0;
  }

  lemma NewListOk(v: View, x: Store)
    requires ListOk(v.list, v.refCount, v.lastId, v.count, v.bytes)
    requires x.id == v.lastId + 1
    ensures x.id !in v.refCount && forall y :: y in v.list ==> y.id != x.id
    ensures ListOk([x] + v.list, v.refCount[x.id := 0], v.lastId + 1, v.count + 1, v.bytes + x.Len())
  {
    var list, refCount := [x] + v.list, v.refCount[x.id := 0];
    assert list[1..] == v.list;
    assert LenSum(list) == x.Len() + LenSum(v.list);
    hide LenSum;
    assert DistinctIds(list);
    hide DistinctIds;
    forall s | s in refCount
      ensures exists y :: y in list && y.id == s
    {
      if s == x.id {
        assert x in list;
      } else {
        var y :| y in v.list && y.id == s;
        assert y in list;
      }
    }
  }

  /** Nobody holds a message that is not in the list. */
  lemma {:induction false} NobodyHolds(cs: seq<Context>, list: seq<Store>, s: nat)
    requires forall c :: 0 <= c < |cs| ==> EntriesKnown(All(cs[c].msgsIn), list) && EntriesKnown(All(cs[c].msgsOut), list)
    requires forall x :: x in list ==> x.id != s
    ensures InUses(cs, s) == OutUses(cs, s) == 0
  {
    if cs != [] {
      NoUses(All(cs[0].msgsIn), list, s);
      NoUses(All(cs[0].msgsOut), list, s);
      NobodyHolds(cs[1..], list, s);
    }
  }

  lemma {:induction false} NoUses(es: seq<Entry>, list: seq<Store>, s: nat)
    requires EntriesKnown(es, list) && forall x :: x in list ==> x.id != s
    ensures Uses(es, s) == 0
  {
    if es != [] {
      assert EntriesKnown(es[1..], list);
      NoUses(es[1..], list, s);
    }
  }

  function Pinned(v: View, x: Store): View
    requires x.id in v.refCount
  {
    v.(refCount := v.refCount[x.id := v.refCount[x.id] + 1], pins := v.pins + multiset{x.id})
  }

  /** Dropping a reference; the last one takes the message off the list. */
  function Released(v: View, x: Store): View
    requires x.id in v.refCount && v.refCount[x.id] > 0
  {
    var r := v.(refCount := v.refCount[x.id := v.refCount[x.id] - 1]);
    if v.refCount[x.id] == 1 then Left(r, x) else r
  }

  function Unpinned(v: View, x: Store): View
    requires x.id in v.refCount && v.refCount[x.id] > 0
  {
    v.(refCount := v.refCount[x.id := v.refCount[x.id] - 1], pins := v.pins - multiset{x.id})
  }

  function Left(v: View, x: Store): View
  {
    v.(list := WithoutStore(v.list, x.id), refCount := v.refCount - {x.id},
       count := v.count - 1, bytes := v.bytes - x.Len())
  }

  lemma ListCongruent(list: seq<Store>, refCount: map<nat, nat>, lastId: nat, count: int, bytes: int,
                      refCount': map<nat, nat>)
    requires ListOk(list, refCount, lastId, count, bytes) && refCount'.Keys == refCount.Keys
    ensures ListOk(list, refCount', lastId, count, bytes)
  {
    forall s | s in refCount'
      ensures exists x :: x in list && x.id == s
    {
      assert s in refCount;
    }
  }

  lemma PinInv(v: View, x: Store)
    requires Inv(v) && x in v.list
    ensures x.id in v.refCount && Inv(Pinned(v, x))
  {
    assert x.id in v.refCount;
    hide Known, RefsOk, CountersHold, InboundOk;
    PinKeeps(v.cs, v.retained, v.pins, v.list, v.refCount, x);
    ListCongruent(v.list, v.refCount, v.lastId, v.count, v.bytes, Pinned(v, x).refCount);
  }

  lemma UnpinInv(v: View, x: Store)
    requires Inv(v) && x in v.list && v.pins[x.id] > 0
    ensures x.id in v.refCount && v.refCount[x.id] > 0 && Inv(Unpinned(v, x))
  {
    assert x.id in v.refCount;
    hide Known, RefsOk, CountersHold, InboundOk;
    UnpinKeeps(v.cs, v.retained, v.pins, v.list, v.refCount, x);
    ListCongruent(v.list, v.refCount, v.lastId, v.count, v.bytes, Unpinned(v, x).refCount);
  }

  lemma LeaveInv(v: View, x: Store)
    requires Inv(v) && x in v.list && x.id in v.refCount && v.refCount[x.id] == 0
    ensures Inv(Left(v, x))
  {
    hide Known, RefsOk, CountersHold, InboundOk;
    RemoveUnheld(v.cs, v.retained, v.pins, v.list, v.refCount, x);
    RemoveFromList(v.list, v.refCount, v.lastId, v.count, v.bytes, x);
  }

  /** Dropping a temporary reference keeps the invariant; what is still held stays listed. */
  lemma ReleaseInv(v: View, x: Store)
    requires Inv(v) && x in v.list && v.pins[x.id] > 0
    ensures x.id in v.refCount && v.refCount[x.id] > 0
    ensures var v' := Released(v, x).(pins := v.pins - multiset{x.id});
            && Inv(v')
            && forall y :: y in v.list && (y.id != x.id || v'.pins[y.id] > 0) ==> y in v'.list
  {
    hide Inv;
    UnpinInv(v, x);
    PinsCounted(Unpinned(v, x), x);
    if v.refCount[x.id] == 1 {
      LeaveInv(Unpinned(v, x), x);
    }
  }

  lemma PinsCounted(v: View, x: Store)
    requires Inv(v) && x.id in v.refCount
    ensures v.refCount[x.id] >= v.pins[x.id]
  {
    hide ListOk, Known, CountersHold, InboundOk;
  }

  /** Only the store list shrank, by messages that nobody holds any more, and clients changed. */
  ghost predicate Quiet(v: View, v': View)
  {
    && v' == v.(list := v'.list, refCount := v'.refCount, count := v'.count, bytes := v'.bytes, cs := v'.cs)
    && (forall y :: y in v'.list ==> y in v.list)
    && (forall s :: s in v'.refCount && v'.refCount[s] == 0 ==> s in v.refCount && v.refCount[s] == 0)
  }

  lemma QuietTwice(v: View, v': View, v'': View)
    requires Quiet(v, v') && Quiet(v', v'')
    ensures Quiet(v, v'')
  {
  }

  /** The end of a removal: the entry's reference, held for a moment, is dropped. */
  lemma ReleaseQuiet(v: View, x: Store, cs: seq<Context>)
    requires x.id in v.refCount && v.refCount[x.id] > 0
    ensures var pins := v.pins + multiset{x.id};
            var r := Released(v.(cs := cs, pins := pins), x).(pins := pins - multiset{x.id});
            Quiet(v, r) && r.cs == cs
  {
    assert v.pins + multiset{x.id} - multiset{x.id} == v.pins;
  }

  lemma RemoveFromList(list: seq<Store>, refCount: map<nat, nat>, lastId: nat, count: int, bytes: int, x: Store)
    requires ListOk(list, refCount, lastId, count, bytes) && x in list
    ensures ListOk(WithoutStore(list, x.id), refCount - {x.id}, lastId, count - 1, bytes - x.Len())
  {
    WithoutStoreSums(list, x);
    forall s | s in refCount - {x.id}
      ensures exists y :: y in WithoutStore(list, x.id) && y.id == s
    {
      var y :| y in list && y.id == s;
      assert y in WithoutStore(list, x.id);
    }
  }

  // ---------- steps on a client's lists ----------

  /** The stored messages a list holds. */
  function Refs(es: seq<Entry>): multiset<nat>
  {
    if es == [] then multiset{} else multiset{es[0].store.id} + Refs(es[1..])
  }

  lemma {:induction false} RefsAreUses(es: seq<Entry>, s: nat)
    ensures Refs(es)[s] == Uses(es, s)
  {
    if es != [] { RefsAreUses(es[1..], s); }
  }

  /** The change of a client's holdings that a change of pins makes up for. */
  ghost predicate Trades(old_: MsgData, new_: MsgData, pins: multiset<nat>, pins': multiset<nat>)
  {
    forall s :: Uses(All(new_), s) + pins'[s] == Uses(All(old_), s) + pins[s]
  }

  lemma OutInv(v: View, c: nat, md: MsgData, pins': multiset<nat>)
    requires Inv(v) && c < |v.cs|
    requires EntriesKnown(All(md), v.list) && Trades(v.cs[c].msgsOut, md, v.pins, pins')
    requires forall s :: pins'[s] > 0 ==> s in v.refCount
    requires v.cs[c].maxQos > 0 && CountersOk(v.cs[c].msgsOut) ==> CountersOk(md)
    ensures Inv(v.(cs := v.cs[c := v.cs[c].(msgsOut := md)], pins := pins'))
  {
    var ctx := v.cs[c].(msgsOut := md);
    assert EntriesKnown(All(ctx.msgsIn), v.list);
    hide EntriesKnown, ListOk, CountersOk;
    ClientKeeps(v.cs, v.retained, v.pins, v.list, v.refCount, c, ctx, pins');
    hide Known, RefsOk;
    assert CountersRight(v.cs[c]);
    InboundSame(v, c, ctx);
  }

  lemma InboundSame(v: View, c: nat, ctx: Context)
    requires InboundOk(v.cs, v.accepted, v.forwarded, v.discarded, v.lastId) && c < |v.cs|
    requires forall s :: Uses(All(ctx.msgsIn), s) == Uses(All(v.cs[c].msgsIn), s)
    ensures InboundOk(v.cs[c := ctx], v.accepted, v.forwarded, v.discarded, v.lastId)
  {
    forall s: nat
      ensures InUses(v.cs[c := ctx], s) == InUses(v.cs, s)
    {
      UsesUpdate(v.cs, c, ctx, s);
    }
  }

  /** An incoming list changes; what enters or leaves it is booked as accepted, forwarded or discarded. */
  lemma InInv(v: View, c: nat, md: MsgData, pins': multiset<nat>,
              accepted: multiset<nat>, forwarded: multiset<nat>, discarded: multiset<nat>)
    requires Inv(v) && c < |v.cs|
    requires EntriesKnown(All(md), v.list) && Trades(v.cs[c].msgsIn, md, v.pins, pins')
    requires forall s :: pins'[s] > 0 ==> s in v.refCount
    requires v.cs[c].maxQos > 0 && CountersOk(v.cs[c].msgsIn) ==> CountersOk(md)
    requires forall s: nat :: accepted[s] - Uses(All(md), s) - forwarded[s] - discarded[s]
                           == v.accepted[s] - Uses(All(v.cs[c].msgsIn), s) - v.forwarded[s] - v.discarded[s]
    requires forall s: nat :: accepted[s] <= 1 && (accepted[s] > 0 ==> s <= v.lastId)
    ensures Inv(v.(cs := v.cs[c := v.cs[c].(msgsIn := md)], pins := pins',
                   accepted := accepted, forwarded := forwarded, discarded := discarded))
  {
    var ctx := v.cs[c].(msgsIn := md);
    assert EntriesKnown(All(ctx.msgsOut), v.list);
    hide EntriesKnown, ListOk, CountersOk, InboundOk;
    ClientKeeps(v.cs, v.retained, v.pins, v.list, v.refCount, c, ctx, pins');
    hide Known, RefsOk;
    assert CountersRight(v.cs[c]);
    hide CountersRight;
    InboundChange(v, c, ctx, accepted, forwarded, discarded);
  }

  lemma InboundChange(v: View, c: nat, ctx: Context,
                      accepted: multiset<nat>, forwarded: multiset<nat>, discarded: multiset<nat>)
    requires InboundOk(v.cs, v.accepted, v.forwarded, v.discarded, v.lastId) && c < |v.cs|
    requires forall s: nat :: accepted[s] - Uses(All(ctx.msgsIn), s) - forwarded[s] - discarded[s]
                           == v.accepted[s] - Uses(All(v.cs[c].msgsIn), s) - v.forwarded[s] - v.discarded[s]
    requires forall s: nat :: accepted[s] <= 1 && (accepted[s] > 0 ==> s <= v.lastId)
    ensures InboundOk(v.cs[c := ctx], accepted, forwarded, discarded, v.lastId)
  {
    hide Uses, InUses;
    forall s: nat
      ensures accepted[s] == InUses(v.cs[c := ctx], s) + forwarded[s] + discarded[s]
    {
      UsesUpdate(v.cs, c, ctx, s);
    }
  }

  /** An outgoing list changes in protocol states only. */
  lemma ChangeOutInv(v: View, c: nat, md: MsgData)
    requires Inv(v) && c < |v.cs|
    requires SameMessages(All(md), All(v.cs[c].msgsOut))
    requires CountersOk(v.cs[c].msgsOut) ==> CountersOk(md)
    ensures Inv(v.(cs := v.cs[c := v.cs[c].(msgsOut := md)]))
  {
    ListedOut(v, c);
    hide Inv;
    SameKnown(All(md), All(v.cs[c].msgsOut), v.list);
    SameSums(All(md), All(v.cs[c].msgsOut));
    OutInv(v, c, md, v.pins);
  }

  lemma ChangeInInv(v: View, c: nat, md: MsgData)
    requires Inv(v) && c < |v.cs|
    requires SameMessages(All(md), All(v.cs[c].msgsIn))
    requires CountersOk(v.cs[c].msgsIn) ==> CountersOk(md)
    ensures Inv(v.(cs := v.cs[c := v.cs[c].(msgsIn := md)]))
  {
    ListedOut(v, c);
    InboundBounds(v);
    hide Inv;
    SameKnown(All(md), All(v.cs[c].msgsIn), v.list);
    SameSums(All(md), All(v.cs[c].msgsIn));
    InInv(v, c, md, v.pins, v.accepted, v.forwarded, v.discarded);
  }

  /** A change of a client's flags. */
  lemma FlagInv(v: View, c: nat, ctx: Context)
    requires Inv(v) && c < |v.cs| && ctx.msgsIn == v.cs[c].msgsIn && ctx.msgsOut == v.cs[c].msgsOut
    requires ctx.maxQos == v.cs[c].maxQos
    ensures Inv(v.(cs := v.cs[c := ctx]))
  {
    ListedOut(v, c);
    hide EntriesKnown, ListOk, CountersOk, InboundOk, Known, RefsOk;
    ClientKeeps(v.cs, v.retained, v.pins, v.list, v.refCount, c, ctx, v.pins);
    assert CountersRight(v.cs[c]);
    InboundSame(v, c, ctx);
  }

  lemma SameKnown(a: seq<Entry>, b: seq<Entry>, list: seq<Store>)
    requires SameMessages(a, b) && EntriesKnown(b, list)
    ensures EntriesKnown(a, list)
  {
    forall i | 0 <= i < |a|
      ensures a[i].store in list
    {
      assert SameMessage(a[i], b[i]);
    }
  }

  /** What the invariant says of one client and of temporary references. */
  lemma ListedOut(v: View, c: nat)
    requires Inv(v) && c < |v.cs|
    ensures EntriesKnown(All(v.cs[c].msgsOut), v.list) && EntriesKnown(All(v.cs[c].msgsIn), v.list)
    ensures forall s :: v.pins[s] > 0 ==> s in v.refCount
    ensures forall x :: x in v.list ==> x.id in v.refCount
  {
    hide RefsOk, CountersHold, InboundOk, EntriesKnown;
  }

  lemma InboundBounds(v: View)
    requires Inv(v)
    ensures forall s: nat :: v.accepted[s] <= 1 && (v.accepted[s] > 0 ==> s <= v.lastId)
  {
    hide RefsOk, CountersHold, ListOk, Known;
  }

  /** The reference of a removed outgoing entry becomes a temporary one. */
  lemma RemoveOutInv(v: View, c: nat, i: nat)
    requires Inv(v) && c < |v.cs| && i < |v.cs[c].msgsOut.inflight|
    ensures var x := v.cs[c].msgsOut.inflight[i].store;
            && x in v.list
            && Inv(v.(cs := v.cs[c := v.cs[c].(msgsOut := Removed(v.cs[c].msgsOut, i))], pins := v.pins + multiset{x.id}))
  {
    var md := v.cs[c].msgsOut;
    ListedOut(v, c);
    assert All(md)[i] == md.inflight[i];
    RemoveKeeps(md, i);
    CutKnown(All(md), i, v.list);
    hide Inv, Uses, CountersOk, EntriesKnown;
    OutInv(v, c, Removed(md, i), v.pins + multiset{md.inflight[i].store.id});
  }

  lemma CutKnown(es: seq<Entry>, i: nat, list: seq<Store>)
    requires i < |es| && EntriesKnown(es, list)
    ensures EntriesKnown(es[..i] + es[i + 1..], list)
  {
  }

  /** A removed incoming entry is booked as forwarded or as discarded. */
  lemma RemoveInInv(v: View, c: nat, i: nat, forward: bool)
    requires Inv(v) && c < |v.cs| && i < |v.cs[c].msgsIn.inflight|
    ensures var x := v.cs[c].msgsIn.inflight[i].store;
            && x in v.list
            && Inv(v.(cs := v.cs[c := v.cs[c].(msgsIn := Removed(v.cs[c].msgsIn, i))], pins := v.pins + multiset{x.id},
                      forwarded := if forward then v.forwarded + multiset{x.id} else v.forwarded,
                      discarded := if forward then v.discarded else v.discarded + multiset{x.id}))
  {
    var md := v.cs[c].msgsIn;
    var x := md.inflight[i].store;
    ListedOut(v, c);
    InboundBounds(v);
    assert All(md)[i] == md.inflight[i];
    RemoveKeeps(md, i);
    CutKnown(All(md), i, v.list);
    hide Inv, Uses, CountersOk, EntriesKnown;
    InInv(v, c, Removed(md, i), v.pins + multiset{x.id}, v.accepted,
          if forward then v.forwarded + multiset{x.id} else v.forwarded,
          if forward then v.discarded else v.discarded + multiset{x.id});
  }

  /** A new outgoing entry takes over a temporary reference. */
  lemma AppendOutInv(v: View, c: nat, e: Entry, qos: nat)
    requires Inv(v) && c < |v.cs| && e.store in v.list && v.pins[e.store.id] > 0
    requires e.qos == if qos > v.cs[c].maxQos then v.cs[c].maxQos else qos
    ensures Inv(v.(cs := v.cs[c := v.cs[c].(msgsOut := Appended(v.cs[c].msgsOut, e, qos))],
                   pins := v.pins - multiset{e.store.id}))
  {
    var md := v.cs[c].msgsOut;
    ListedOut(v, c);
    AppendSums(md, e, qos);
    AppendKnown(md, e, qos, v.list);
    if CountersOk(md) { AppendKeepsIff(md, e, qos, v.cs[c].maxQos); }
    hide Inv, Uses, CountersOk, EntriesKnown, Appended;
    OutInv(v, c, Appended(md, e, qos), v.pins - multiset{e.store.id});
  }

  /** A new incoming entry counts as accepted. */
  lemma AppendInInv(v: View, c: nat, e: Entry, qos: nat)
    requires Inv(v) && c < |v.cs| && e.store in v.list && v.pins[e.store.id] > 0
    requires e.qos == if qos > v.cs[c].maxQos then v.cs[c].maxQos else qos
    requires v.accepted[e.store.id] == 0
    ensures Inv(v.(cs := v.cs[c := v.cs[c].(msgsIn := Appended(v.cs[c].msgsIn, e, qos))],
                   pins := v.pins - multiset{e.store.id}, accepted := v.accepted + multiset{e.store.id}))
  {
    var md := v.cs[c].msgsIn;
    ListedOut(v, c);
    InboundBounds(v);
    IdBound(v, e.store);
    AppendSums(md, e, qos);
    AppendKnown(md, e, qos, v.list);
    if CountersOk(md) { AppendKeepsIff(md, e, qos, v.cs[c].maxQos); }
    hide Inv, Uses, CountersOk, EntriesKnown, Appended;
    InInv(v, c, Appended(md, e, qos), v.pins - multiset{e.store.id}, v.accepted + multiset{e.store.id},
          v.forwarded, v.discarded);
  }

  lemma IdBound(v: View, x: Store)
    requires Inv(v) && x in v.list
    ensures x.id <= v.lastId
  {
  }

  lemma AppendKnown(md: MsgData, e: Entry, qos: nat, list: seq<Store>)
    requires EntriesKnown(All(md), list) && e.store in list
    ensures EntriesKnown(All(Appended(md, e, qos)), list)
  {
    var all := All(Appended(md, e, qos));
    forall i | 0 <= i < |all|
      ensures all[i].store in list
    {
      assert all[i] == e || all[i] in All(md);
    }
  }

  /** Entries leave an outgoing list together; their references become temporary. */
  lemma ShrinkOutInv(v: View, c: nat, md: MsgData, gone: seq<Entry>)
    requires Inv(v) && c < |v.cs| && CountersOk(md)
    requires EntriesKnown(All(md), v.list) && EntriesKnown(gone, v.list)
    requires forall s :: Uses(All(md), s) + Uses(gone, s) == Uses(All(v.cs[c].msgsOut), s)
    ensures Inv(v.(cs := v.cs[c := v.cs[c].(msgsOut := md)], pins := v.pins + Refs(gone)))
  {
    GoneListed(v, c, gone);
    hide Inv, Uses, CountersOk, EntriesKnown, Refs;
    OutInv(v, c, md, v.pins + Refs(gone));
  }

  /** Entries leave an incoming list together, as discarded. */
  lemma ShrinkInInv(v: View, c: nat, md: MsgData, gone: seq<Entry>)
    requires Inv(v) && c < |v.cs| && CountersOk(md)
    requires EntriesKnown(All(md), v.list) && EntriesKnown(gone, v.list)
    requires forall s :: Uses(All(md), s) + Uses(gone, s) == Uses(All(v.cs[c].msgsIn), s)
    ensures Inv(v.(cs := v.cs[c := v.cs[c].(msgsIn := md)], pins := v.pins + Refs(gone),
                   discarded := v.discarded + Refs(gone)))
  {
    GoneListed(v, c, gone);
    InboundBounds(v);
    hide Inv, Uses, CountersOk, EntriesKnown, Refs;
    InInv(v, c, md, v.pins + Refs(gone), v.accepted, v.forwarded, v.discarded + Refs(gone));
  }

  lemma GoneListed(v: View, c: nat, gone: seq<Entry>)
    requires Inv(v) && c < |v.cs| && EntriesKnown(gone, v.list)
    ensures forall s :: Refs(gone)[s] == Uses(gone, s)
    ensures forall s :: (v.pins + Refs(gone))[s] > 0 ==> s in v.refCount
  {
    ListedOut(v, c);
    hide Inv;
    forall s: nat
      ensures Refs(gone)[s] == Uses(gone, s)
    {
      RefsAreUses(gone, s);
    }
    forall s: nat | Refs(gone)[s] > 0
      ensures s in v.refCount
    {
      UsedListed(gone, v.list, s);
    }
  }

  /** A message with a temporary reference stays in the list. */
  lemma PinnedStays(v: View, v': View, x: Store)
    requires Inv(v) && Inv(v') && x in v.list && v'.pins[x.id] > 0
    requires forall y :: y in v'.list ==> y in v.list
    ensures x in v'.list
  {
    hide RefsOk, CountersHold, InboundOk, EntriesKnown;
    var y :| y in v'.list && y.id == x.id;
    assert y in v.list;
  }

  // ---------- steps on retained messages ----------

  lemma RetainInv(v: View, p: Path, x: Store)
    requires Inv(v) && p !in v.retained && v.pins[x.id] > 0 && x in v.list
    ensures Inv(v.(retained := v.retained[p := x], pins := v.pins - multiset{x.id}))
  {
    hide Known, RefsOk, CountersHold, InboundOk, ListOk;
    RetainKeeps(v.cs, v.retained, v.pins, v.list, v.refCount, p, x);
  }

  lemma UnretainInv(v: View, p: Path)
    requires Inv(v) && p in v.retained
    ensures v.retained[p] in v.list && v.retained[p].id in v.refCount && v.refCount[v.retained[p].id] > 0
    ensures Inv(v.(retained := v.retained - {p}, pins := v.pins + multiset{v.retained[p].id}))
  {
    assert v.retained[p] in v.list;
    assert ListOkIds(v.list, v.refCount);
    hide Known, CountersHold, InboundOk, ListOk;
    assert p in RetainedAs(v.retained, v.retained[p].id);
    hide RefsOk;
    UnretainKeeps(v.cs, v.retained, v.pins, v.list, v.refCount, p);
  }

  // ---------- handing a session over ----------

  /** Clients c and d exchange entries: c takes what d held, except incoming entries whose
      references go back to `dropped`. */
  ghost predicate Moves(v: View, c: nat, d: nat, ctx: Context, found: Context, dropped: multiset<nat>)
    requires c < |v.cs| && d < |v.cs|
  {
    && All(v.cs[c].msgsIn) == [] && All(v.cs[c].msgsOut) == []
    && All(found.msgsIn) == [] && All(found.msgsOut) == []
    && (forall s :: Uses(All(ctx.msgsOut), s) == Uses(All(v.cs[d].msgsOut), s))
    && (forall s: nat :: Uses(All(ctx.msgsIn), s) + dropped[s] == Uses(All(v.cs[d].msgsIn), s))
  }

  function HandedOver(v: View, c: nat, d: nat, ctx: Context, found: Context, dropped: multiset<nat>): View
    requires c < |v.cs| && d < |v.cs|
  {
    v.(cs := v.cs[c := ctx][d := found], pins := v.pins + dropped, discarded := v.discarded + dropped)
  }

  lemma HandOverInv(v: View, c: nat, d: nat, ctx: Context, found: Context, dropped: multiset<nat>)
    requires Inv(v) && c < |v.cs| && d < |v.cs| && c != d && Moves(v, c, d, ctx, found, dropped)
    requires EntriesKnown(All(ctx.msgsIn), v.list) && EntriesKnown(All(ctx.msgsOut), v.list)
    requires CountersRight(ctx) && CountersRight(found)
    ensures Inv(HandedOver(v, c, d, ctx, found, dropped))
  {
    hide ListOk, CountersRight, InUses, OutUses, EntriesKnown, Known, RefsOk, InboundOk, Uses, Moves;
    var v' := HandedOver(v, c, d, ctx, found, dropped);
    assert CountersHold(v'.cs);
    hide CountersHold;
    HandOverUses(v, c, d, ctx, found, dropped);
    HandOverKnown(v, c, d, ctx, found, dropped);
    HandOverRefs(v, v', dropped);
  }

  lemma HandOverUses(v: View, c: nat, d: nat, ctx: Context, found: Context, dropped: multiset<nat>)
    requires c < |v.cs| && d < |v.cs| && c != d && Moves(v, c, d, ctx, found, dropped)
    ensures var cs' := v.cs[c := ctx][d := found];
            forall s: nat :: InUses(cs', s) + dropped[s] == InUses(v.cs, s) && OutUses(cs', s) == OutUses(v.cs, s)
  {
    hide InUses, OutUses;
    forall s: nat
      ensures InUses(v.cs[c := ctx][d := found], s) + dropped[s] == InUses(v.cs, s)
      ensures OutUses(v.cs[c := ctx][d := found], s) == OutUses(v.cs, s)
    {
      UsesUpdate(v.cs, c, ctx, s);
      UsesUpdate(v.cs[c := ctx], d, found, s);
    }
  }

  lemma HandOverKnown(v: View, c: nat, d: nat, ctx: Context, found: Context, dropped: multiset<nat>)
    requires ListOk(v.list, v.refCount, v.lastId, v.count, v.bytes)
    requires Known(v.cs, v.retained, v.pins, v.list, v.refCount)
    requires c < |v.cs| && d < |v.cs| && c != d && Moves(v, c, d, ctx, found, dropped)
    requires EntriesKnown(All(ctx.msgsIn), v.list) && EntriesKnown(All(ctx.msgsOut), v.list)
    ensures Known(v.cs[c := ctx][d := found], v.retained, v.pins + dropped, v.list, v.refCount)
  {
    forall s | (v.pins + dropped)[s] > 0
      ensures s in v.refCount
    {
      if v.pins[s] == 0 {
        UsedListed(All(v.cs[d].msgsIn), v.list, s);
      }
    }
    hide ListOk, Uses, EntriesKnown;
    EmptyKnown(v.list);
  }

  lemma HandOverRefs(v: View, v': View, dropped: multiset<nat>)
    requires v' == v.(cs := v'.cs, pins := v.pins + dropped, discarded := v.discarded + dropped)
    requires forall s: nat :: InUses(v'.cs, s) + dropped[s] == InUses(v.cs, s) && OutUses(v'.cs, s) == OutUses(v.cs, s)
    requires RefsOk(v.cs, v.retained, v.pins, v.refCount)
    requires InboundOk(v.cs, v.accepted, v.forwarded, v.discarded, v.lastId)
    ensures RefsOk(v'.cs, v'.retained, v'.pins, v'.refCount)
    ensures InboundOk(v'.cs, v'.accepted, v'.forwarded, v'.discarded, v'.lastId)
  {
    hide InUses, OutUses;
  }

  /** A message that a list holds is in the store list. */
  lemma {:induction false} UsedListed(es: seq<Entry>, list: seq<Store>, s: nat)
    requires EntriesKnown(es, list) && Uses(es, s) > 0
    ensures exists x :: x in list && x.id == s
  {
    if es[0].store.id == s {
      assert es[0].store in list;
    } else {
      assert EntriesKnown(es[1..], list);
      UsedListed(es[1..], list, s);
    }
  }

  lemma EmptyKnown(list: seq<Store>)
    ensures EntriesKnown([], list)
  {
  }
}
