/** Reference counts of stored messages: every list entry of a client, every retained node
    and every temporary reference is counted, and only those. */
module StoreList {
  import opened Messages

  type Path = seq<string>
  type Retained = map<Path, Store>

  /** The part of a client context that concerns messages. */
  datatype Context = Context(id: string, hasId: bool, mqtt5: bool, connected: bool, active: bool,
                             maxQos: nat, cleanStart: bool, sessionExpiryInterval: nat,
                             isDropping: bool, outPacketCount: int, msgsIn: MsgData, msgsOut: MsgData)

  // ---------- counting holders ----------

  function InUses(cs: seq<Context>, s: nat): nat
  {
    if cs == [] then 0 else Uses(All(cs[0].msgsIn), s) + InUses(cs[1..], s)
  }

  function OutUses(cs: seq<Context>, s: nat): nat
  {
    if cs == [] then 0 else Uses(All(cs[0].msgsOut), s) + OutUses(cs[1..], s)
  }

  ghost function RetainedAs(retained: Retained, s: nat): set<Path>
  {
    set p | p in retained && retained[p].id == s
  }

  /** Holders of the stored message s: entries, retained nodes, temporary references. */
  ghost function Held(cs: seq<Context>, retained: Retained, pins: multiset<nat>, s: nat): nat
  {
    InUses(cs, s) + OutUses(cs, s) + |RetainedAs(retained, s)| + pins[s]
  }

  lemma {:induction false} UsesUpdate(cs: seq<Context>, c: nat, ctx: Context, s: nat)
    requires c < |cs|
    ensures InUses(cs[c := ctx], s) == InUses(cs, s) - Uses(All(cs[c].msgsIn), s) + Uses(All(ctx.msgsIn), s)
    ensures OutUses(cs[c := ctx], s) == OutUses(cs, s) - Uses(All(cs[c].msgsOut), s) + Uses(All(ctx.msgsOut), s)
    ensures Uses(All(cs[c].msgsIn), s) <= InUses(cs, s)
    ensures Uses(All(cs[c].msgsOut), s) <= OutUses(cs, s)
  {
    var cs' := cs[c := ctx];
    if c == 0 {
      assert cs'[1..] == cs[1..];
    } else {
      assert cs'[1..] == cs[1..][c - 1 := ctx];
      UsesUpdate(cs[1..], c - 1, ctx, s);
    }
  }

  lemma {:induction false} UsesMember(es: seq<Entry>, i: nat)
    requires i < |es|
    ensures Uses(es, es[i].store.id) > 0
  {
    if i > 0 { UsesMember(es[1..], i - 1); }
  }

  // ---------- the store list ----------

  function LenSum(list: seq<Store>): int
  {
    if list == [] then 0 else list[0].Len() + LenSum(list[1..])
  }

  function WithoutStore(list: seq<Store>, s: nat): (r: seq<Store>)
    ensures forall x :: x in r <==> x in list && x.id != s
    ensures DistinctIds(list) ==> DistinctIds(r)
  {
    if list == [] then [] else
    var rest := WithoutStore(list[1..], s);
    if list[0].id == s then rest else [list[0]] + rest
  }

  ghost predicate DistinctIds(list: seq<Store>)
  {
    forall i, j :: 0 <= i < j < |list| ==> list[i].id != list[j].id
  }

  lemma {:induction false} WithoutStoreSums(list: seq<Store>, x: Store)
    requires DistinctIds(list) && x in list
    ensures |WithoutStore(list, x.id)| == |list| - 1
    ensures LenSum(WithoutStore(list, x.id)) == LenSum(list) - x.Len()
  {
    if list[0].id == x.id {
      assert list[0] == x;
      WithoutStoreAbsent(list[1..], x.id);
    } else {
      WithoutStoreSums(list[1..], x);
      assert WithoutStore(list, x.id)[1..] == WithoutStore(list[1..], x.id);
    }
  }

  lemma {:induction false} WithoutStoreAbsent(list: seq<Store>, s: nat)
    requires forall x :: x in list ==> x.id != s
    ensures WithoutStore(list, s) == list
  {
    if list != [] { WithoutStoreAbsent(list[1..], s); }
  }

  // ---------- the invariant ----------

  /** The store list, its cached count and bytes, and one reference count per message in it. */
  ghost predicate ListOk(list: seq<Store>, refCount: map<nat, nat>, lastId: nat, count: int, bytes: int)
  {
    && DistinctIds(list)
    && (forall x :: x in list ==> x.id in refCount && 0 < x.id <= lastId)
    && (forall s :: s in refCount ==> exists x :: x in list && x.id == s)
    && count == |list| && bytes == LenSum(list)
  }

  ghost predicate EntriesKnown(es: seq<Entry>, list: seq<Store>)
  {
    forall i :: 0 <= i < |es| ==> es[i].store in list
  }

  /** No holder points to a message that is not in the store list. */
  ghost predicate Known(cs: seq<Context>, retained: Retained, pins: multiset<nat>, list: seq<Store>,
                        refCount: map<nat, nat>)
  {
    && (forall c :: 0 <= c < |cs| ==> EntriesKnown(All(cs[c].msgsIn), list) && EntriesKnown(All(cs[c].msgsOut), list))
    && (forall p :: p in retained ==> retained[p] in list)
    && (forall s :: pins[s] > 0 ==> s in refCount)
  }

  ghost predicate RefsOk(cs: seq<Context>, retained: Retained, pins: multiset<nat>, refCount: map<nat, nat>)
  {
    forall s :: s in refCount ==> refCount[s] == Held(cs, retained, pins, s)
  }

  // ---------- steps ----------

  /** Taking a temporary reference. */
  lemma PinKeeps(cs: seq<Context>, retained: Retained, pins: multiset<nat>, list: seq<Store>,
                 refCount: map<nat, nat>, x: Store)
    requires Known(cs, retained, pins, list, refCount) && RefsOk(cs, retained, pins, refCount)
    requires x.id in refCount
    ensures Known(cs, retained, pins + multiset{x.id}, list, refCount[x.id := refCount[x.id] + 1])
    ensures RefsOk(cs, retained, pins + multiset{x.id}, refCount[x.id := refCount[x.id] + 1])
  {
    hide EntriesKnown, InUses, OutUses;
  }

  /** Dropping a temporary reference that is not the last one. */
  lemma UnpinKeeps(cs: seq<Context>, retained: Retained, pins: multiset<nat>, list: seq<Store>,
                   refCount: map<nat, nat>, x: Store)
    requires Known(cs, retained, pins, list, refCount) && RefsOk(cs, retained, pins, refCount)
    requires pins[x.id] > 0
    ensures x.id in refCount && refCount[x.id] > 0
    ensures Known(cs, retained, pins - multiset{x.id}, list, refCount[x.id := refCount[x.id] - 1])
    ensures RefsOk(cs, retained, pins - multiset{x.id}, refCount[x.id := refCount[x.id] - 1])
  {
    hide EntriesKnown, InUses, OutUses;
  }

  /** A message nobody holds can leave the list: no holder is left pointing to it. */
  lemma RemoveUnheld(cs: seq<Context>, retained: Retained, pins: multiset<nat>, list: seq<Store>,
                     refCount: map<nat, nat>, x: Store)
    requires Known(cs, retained, pins, list, refCount) && RefsOk(cs, retained, pins, refCount)
    requires x.id in refCount && refCount[x.id] == 0
    ensures Known(cs, retained, pins, WithoutStore(list, x.id), refCount - {x.id})
    ensures RefsOk(cs, retained, pins, refCount - {x.id})
  {
    assert Held(cs, retained, pins, x.id) == 0;
    forall c | 0 <= c < |cs|
      ensures EntriesKnown(All(cs[c].msgsIn), WithoutStore(list, x.id))
      ensures EntriesKnown(All(cs[c].msgsOut), WithoutStore(list, x.id))
    {
      UsesUpdate(cs, c, cs[c], x.id);
      UnusedKnown(All(cs[c].msgsIn), list, x.id);
      UnusedKnown(All(cs[c].msgsOut), list, x.id);
    }
    forall p | p in retained
      ensures retained[p] in WithoutStore(list, x.id)
    {
      assert p !in RetainedAs(retained, x.id);
    }
  }

  lemma UnusedKnown(es: seq<Entry>, list: seq<Store>, s: nat)
    requires EntriesKnown(es, list) && Uses(es, s) == 0
    ensures EntriesKnown(es, WithoutStore(list, s))
  {
    forall i | 0 <= i < |es|
      ensures es[i].store in WithoutStore(list, s)
    {
      UsesMember(es, i);
    }
  }

  /** A change of one client's lists against temporary references. */
  lemma ClientKeeps(cs: seq<Context>, retained: Retained, pins: multiset<nat>, list: seq<Store>,
                    refCount: map<nat, nat>, c: nat, ctx: Context, pins': multiset<nat>)
    requires Known(cs, retained, pins, list, refCount) && RefsOk(cs, retained, pins, refCount)
    requires c < |cs|
    requires EntriesKnown(All(ctx.msgsIn), list) && EntriesKnown(All(ctx.msgsOut), list)
    requires forall s :: Uses(All(ctx.msgsIn), s) + Uses(All(ctx.msgsOut), s) + pins'[s]
                      == Uses(All(cs[c].msgsIn), s) + Uses(All(cs[c].msgsOut), s) + pins[s]
    requires forall s :: pins'[s] > 0 ==> s in refCount
    ensures Known(cs[c := ctx], retained, pins', list, refCount)
    ensures RefsOk(cs[c := ctx], retained, pins', refCount)
  {
    hide EntriesKnown;
    forall s | s in refCount
      ensures refCount[s] == Held(cs[c := ctx], retained, pins', s)
    {
      UsesUpdate(cs, c, ctx, s);
    }
  }

  /** A retained node takes over a temporary reference. */
  lemma RetainKeeps(cs: seq<Context>, retained: Retained, pins: multiset<nat>, list: seq<Store>,
                    refCount: map<nat, nat>, p: Path, x: Store)
    requires Known(cs, retained, pins, list, refCount) && RefsOk(cs, retained, pins, refCount)
    requires p !in retained && pins[x.id] > 0 && x in list
    ensures Known(cs, retained[p := x], pins - multiset{x.id}, list, refCount)
    ensures RefsOk(cs, retained[p := x], pins - multiset{x.id}, refCount)
  {
    hide EntriesKnown, InUses, OutUses;
    forall s
      ensures |RetainedAs(retained[p := x], s)| == |RetainedAs(retained, s)| + if s == x.id then 1 else 0
    {
      if s == x.id {
        assert RetainedAs(retained[p := x], s) == RetainedAs(retained, s) + {p};
      } else {
        assert RetainedAs(retained[p := x], s) == RetainedAs(retained, s);
      }
    }
  }

  /** A retained node gives its reference up to a temporary one. */
  lemma UnretainKeeps(cs: seq<Context>, retained: Retained, pins: multiset<nat>, list: seq<Store>,
                      refCount: map<nat, nat>, p: Path)
    requires ListOkIds(list, refCount)
    requires Known(cs, retained, pins, list, refCount) && RefsOk(cs, retained, pins, refCount)
    requires p in retained
    ensures Known(cs, retained - {p}, pins + multiset{retained[p].id}, list, refCount)
    ensures RefsOk(cs, retained - {p}, pins + multiset{retained[p].id}, refCount)
  {
    hide EntriesKnown, InUses, OutUses;
    var x := retained[p];
    forall s
      ensures |RetainedAs(retained - {p}, s)| == |RetainedAs(retained, s)| - if s == x.id then 1 else 0
    {
      if s == x.id {
        assert RetainedAs(retained - {p}, s) == RetainedAs(retained, s) - {p};
      } else {
        assert RetainedAs(retained - {p}, s) == RetainedAs(retained, s);
      }
    }
  }

  ghost predicate ListOkIds(list: seq<Store>, refCount: map<nat, nat>)
  {
    forall x :: x in list ==> x.id in refCount
  }
}
