/** Stored messages, the per-client message lists and their cached counters
    (src/module/mqtt/database.c and the structures it works on). */
module Messages {

  datatype MsgState =
    | Invalid | PublishQos0 | PublishQos1 | WaitForPuback | PublishQos2 | WaitForPubrec
    | ResendPubrel | WaitForPubrel | ResendPubcomp | WaitForPubcomp | SendPubrec | Queued

  datatype Direction = In | Out

  /** What never changes of a stored message; `id` tells two messages of the store list apart. */
  datatype Store = Store(id: nat, topic: string, payload: seq<int>, qos: nat, retain: bool,
                         sourceMid: nat, expiryTime: int)
  {
    function Len(): nat { |payload| }
  }

  /** An entry of a client's list. */
  datatype Entry = Entry(store: Store, mid: nat, qos: nat, retain: bool, direction: Direction,
                         state: MsgState, dup: bool)

  datatype MsgData = MsgData(inflight: seq<Entry>, queued: seq<Entry>,
                             msgCount: int, msgBytes: int, msgCount12: int, msgBytes12: int,
                             inflightQuota: int, inflightMaximum: nat)

  const EMPTY_DATA: MsgData := MsgData([], [], 0, 0, 0, 0, 0, 0)

  // ---------- sums over lists ----------

  function Bytes(es: seq<Entry>): int
  {
    if es == [] then 0 else es[0].store.Len() + Bytes(es[1..])
  }

  function Count12(es: seq<Entry>): int
  {
    if es == [] then 0 else (if es[0].qos > 0 then 1 else 0) + Count12(es[1..])
  }

  function Bytes12(es: seq<Entry>): int
  {
    if es == [] then 0 else (if es[0].qos > 0 then es[0].store.Len() else 0) + Bytes12(es[1..])
  }

  /** Entries of a list that hold the stored message s. */
  function Uses(es: seq<Entry>, s: nat): nat
  {
    if es == [] then 0 else (if es[0].store.id == s then 1 else 0) + Uses(es[1..], s)
  }

  lemma {:induction false} SumsConcat(a: seq<Entry>, b: seq<Entry>)
    ensures Bytes(a + b) == Bytes(a) + Bytes(b)
    ensures Count12(a + b) == Count12(a) + Count12(b)
    ensures Bytes12(a + b) == Bytes12(a) + Bytes12(b)
    ensures forall s :: Uses(a + b, s) == Uses(a, s) + Uses(b, s)
  {
    if a == [] {
      assert a + b == b;
    } else {
      assert (a + b)[1..] == a[1..] + b;
      SumsConcat(a[1..], b);
    }
  }

  lemma SumsOne(e: Entry)
    ensures Bytes([e]) == e.store.Len()
    ensures Count12([e]) == if e.qos > 0 then 1 else 0
    ensures Bytes12([e]) == if e.qos > 0 then e.store.Len() else 0
    ensures forall s :: Uses([e], s) == if e.store.id == s then 1 else 0
  {
    assert [e][1..] == [];
  }

  /** Cutting one entry out of a list takes exactly its share off the sums. */
  lemma SumsCut(es: seq<Entry>, i: nat)
    requires i < |es|
    ensures var r := es[..i] + es[i + 1..];
            && Bytes(r) == Bytes(es) - es[i].store.Len()
            && Count12(r) == Count12(es) - (if es[i].qos > 0 then 1 else 0)
            && Bytes12(r) == Bytes12(es) - (if es[i].qos > 0 then es[i].store.Len() else 0)
            && forall s :: Uses(r, s) == Uses(es, s) - (if es[i].store.id == s then 1 else 0)
  {
    assert es == es[..i] + [es[i]] + es[i + 1..];
    SumsConcat(es[..i] + [es[i]], es[i + 1..]);
    SumsConcat(es[..i], [es[i]]);
    SumsConcat(es[..i], es[i + 1..]);
    SumsOne(es[i]);
  }

  /** Entries that differ in protocol state only. */
  predicate SameMessage(a: Entry, b: Entry)
  {
    a.(state := Invalid, dup := false) == b.(state := Invalid, dup := false)
  }

  predicate SameMessages(a: seq<Entry>, b: seq<Entry>)
  {
    |a| == |b| && forall i :: 0 <= i < |a| ==> SameMessage(a[i], b[i])
  }

  lemma {:induction false} SameSums(a: seq<Entry>, b: seq<Entry>)
    requires SameMessages(a, b)
    ensures Bytes(a) == Bytes(b) && Count12(a) == Count12(b) && Bytes12(a) == Bytes12(b)
    ensures forall s :: Uses(a, s) == Uses(b, s)
  {
    if a != [] {
      assert SameMessage(a[0], b[0]);
      SameSums(a[1..], b[1..]);
    }
  }

  // ---------- one client's lists ----------

  /** All entries, in the order they will be sent. */
  function All(md: MsgData): seq<Entry>
  {
    md.inflight + md.queued
  }

  /** The cached counters are the sums over both lists. */
  ghost predicate CountersOk(md: MsgData)
  {
    && md.msgCount == |All(md)|
    && md.msgBytes == Bytes(All(md))
    && md.msgCount12 == Count12(All(md))
    && md.msgBytes12 == Bytes12(All(md))
  }

  /** The counters after an entry for a message of the given quality of service. */
  function Bumped(md: MsgData, len: nat, qos: nat): MsgData
  {
    md.(msgCount := md.msgCount + 1, msgBytes := md.msgBytes + len,
        msgCount12 := md.msgCount12 + (if qos > 0 then 1 else 0),
        msgBytes12 := md.msgBytes12 + (if qos > 0 then len else 0))
  }

  /** db__message_insert's bookkeeping: the counters follow the requested qos, the entry the
      capped one. */
  function Appended(md: MsgData, e: Entry, qos: nat): MsgData
  {
    var md' := if e.state == Queued then md.(queued := md.queued + [e]) else md.(inflight := md.inflight + [e]);
    Bumped(md', e.store.Len(), qos)
  }

  /** db__message_remove. */
  function Removed(md: MsgData, i: nat): MsgData
    requires i < |md.inflight|
  {
    var e := md.inflight[i];
    md.(inflight := md.inflight[..i] + md.inflight[i + 1..],
        msgCount := md.msgCount - 1, msgBytes := md.msgBytes - e.store.Len(),
        msgCount12 := md.msgCount12 - (if e.qos > 0 then 1 else 0),
        msgBytes12 := md.msgBytes12 - (if e.qos > 0 then e.store.Len() else 0))
  }

  function DecQuota(md: MsgData): MsgData
  {
    if md.inflightQuota > 0 then md.(inflightQuota := md.inflightQuota - 1) else md
  }

  function IncQuota(md: MsgData): MsgData
  {
    if md.inflightQuota < md.inflightMaximum then md.(inflightQuota := md.inflightQuota + 1) else md
  }

  /** db__message_dequeue_first. */
  function Dequeued(md: MsgData): MsgData
    requires md.queued != []
  {
    DecQuota(md.(inflight := md.inflight + [md.queued[0]], queued := md.queued[1..]))
  }

  /** Overwrites the entry at a position of the concatenated lists. */
  function Updated(md: MsgData, i: nat, e: Entry): MsgData
    requires i < |All(md)|
  {
    if i < |md.inflight| then md.(inflight := md.inflight[i := e])
    else md.(queued := md.queued[i - |md.inflight| := e])
  }

  lemma AllUpdated(md: MsgData, i: nat, e: Entry)
    requires i < |All(md)|
    ensures All(Updated(md, i, e)) == All(md)[i := e]
  {
  }

  /** Changing the protocol state of an entry keeps messages and counters. */
  lemma StateChangeKeeps(md: MsgData, i: nat, e: Entry)
    requires i < |All(md)| && SameMessage(All(md)[i], e)
    ensures SameMessages(All(Updated(md, i, e)), All(md))
    ensures CountersOk(md) ==> CountersOk(Updated(md, i, e))
    ensures forall s :: Uses(All(Updated(md, i, e)), s) == Uses(All(md), s)
  {
    AllUpdated(md, i, e);
    SameSums(All(md)[i := e], All(md));
  }

  /** Dequeuing moves the boundary between the lists, never an entry. */
  lemma DequeueKeeps(md: MsgData)
    requires md.queued != []
    ensures All(Dequeued(md)) == All(md)
    ensures CountersOk(md) ==> CountersOk(Dequeued(md))
  {
    assert md.queued == [md.queued[0]] + md.queued[1..];
  }

  lemma RemoveKeeps(md: MsgData, i: nat)
    requires i < |md.inflight|
    ensures CountersOk(md) ==> CountersOk(Removed(md, i))
    ensures All(Removed(md, i)) == All(md)[..i] + All(md)[i + 1..]
    ensures forall s :: Uses(All(Removed(md, i)), s) ==
              Uses(All(md), s) - (if md.inflight[i].store.id == s then 1 else 0)
  {
    SumsCut(All(md), i);
    assert All(Removed(md, i)) == All(md)[..i] + All(md)[i + 1..];
  }

  lemma AppendSums(md: MsgData, e: Entry, qos: nat)
    ensures var md' := Appended(md, e, qos);
            && |All(md')| == |All(md)| + 1
            && Bytes(All(md')) == Bytes(All(md)) + e.store.Len()
            && Count12(All(md')) == Count12(All(md)) + (if e.qos > 0 then 1 else 0)
            && Bytes12(All(md')) == Bytes12(All(md)) + (if e.qos > 0 then e.store.Len() else 0)
            && forall s :: Uses(All(md'), s) == Uses(All(md), s) + (if e.store.id == s then 1 else 0)
  {
    SumsOne(e);
    SumsConcat(md.inflight, md.queued);
    if e.state == Queued {
      SumsConcat(md.inflight, md.queued + [e]);
      SumsConcat(md.queued, [e]);
    } else {
      SumsConcat(md.inflight + [e], md.queued);
      SumsConcat(md.inflight, [e]);
    }
  }

  /** The counters stay right exactly when the requested and the capped qos agree on being
      above zero: a client limited to qos 0 makes them drift. */
  lemma AppendKeepsIff(md: MsgData, e: Entry, qos: nat, maxQos: nat)
    requires CountersOk(md)
    requires e.qos == if qos > maxQos then maxQos else qos
    ensures CountersOk(Appended(md, e, qos)) <==> (qos == 0 || maxQos > 0)
  {
    AppendSums(md, e, qos);
  }

  /** The drift is real: the first message of quality 1 for a client limited to quality 0. */
  lemma CountersDrift(x: Store, mid: nat)
    ensures var e := Entry(x, mid, 0, false, Out, PublishQos1, false);
            CountersOk(EMPTY_DATA) && !CountersOk(Appended(EMPTY_DATA, e, 1))
  {
    var e := Entry(x, mid, 0, false, Out, PublishQos1, false);
    assert All(EMPTY_DATA) == [];
    AppendKeepsIff(EMPTY_DATA, e, 1, 0);
  }

  /** The entries an access check lets stay. */
  function Allowed(es: seq<Entry>, check: Entry -> bool): (r: seq<Entry>)
    ensures |r| <= |es|
    ensures |r| == |es| ==> r == es && forall e :: e in es ==> check(e)
  {
    if es == [] then [] else (if check(es[0]) then [es[0]] else []) + Allowed(es[1..], check)
  }

  lemma {:induction false} AllowedAll(es: seq<Entry>, check: Entry -> bool)
    requires forall e :: e in es ==> check(e)
    ensures Allowed(es, check) == es
  {
    if es != [] { AllowedAll(es[1..], check); }
  }

  /** connection_check_acl drops entries without touching the counters, which therefore stay
      right exactly when it drops nothing. */
  lemma AclDropIff(md: MsgData, check: Entry -> bool)
    requires CountersOk(md)
    ensures CountersOk(md.(inflight := Allowed(md.inflight, check), queued := Allowed(md.queued, check)))
            <==> forall e :: e in All(md) ==> check(e)
  {
    if forall e :: e in All(md) ==> check(e) {
      assert forall e :: e in md.inflight || e in md.queued ==> e in All(md);
      AllowedAll(md.inflight, check);
      AllowedAll(md.queued, check);
    } else {
      assert forall e :: e in All(md) ==> e in md.inflight || e in md.queued;
    }
  }

  /** The other case is real: one entry that is no longer allowed. */
  lemma AclDrops(md: MsgData, e: Entry, check: Entry -> bool)
    requires CountersOk(md) && md.inflight == [e] && md.queued == [] && !check(e)
    ensures !CountersOk(md.(inflight := Allowed(md.inflight, check), queued := Allowed(md.queued, check)))
  {
    assert e in All(md);
    AclDropIff(md, check);
  }

  // ---------- publish states ----------

  predicate IsPublish(st: MsgState)
  {
    st == PublishQos0 || st == PublishQos1 || st == PublishQos2
  }

  /** The publish state for a quality of service; other values leave the state alone. */
  function PublishState(qos: nat, otherwise: MsgState): MsgState
  {
    if qos == 0 then PublishQos0 else if qos == 1 then PublishQos1
    else if qos == 2 then PublishQos2 else otherwise
  }
}
