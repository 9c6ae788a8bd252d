/** The loops of src/module/mqtt/database.c that walk one client's lists: releasing queued
    entries, searching by message id, and the recount on reconnection. */
module SessionLists {
  import opened Messages
  import opened OutgoingWriter
  import opened StoreList
  import opened Admission

  // ---------- moving the boundary ----------

  /** The entry at position i gets a new state and the first queued entry goes inflight.  The
      loops below examine position i while the boundary may lag behind it. */
  function Promote(md: MsgData, i: nat, st: MsgState): MsgData
    requires |md.inflight| <= i < |All(md)|
  {
    Dequeued(Updated(md, i, All(md)[i].(state := st)))
  }

  lemma PromoteKeeps(md: MsgData, i: nat, st: MsgState)
    requires |md.inflight| <= i < |All(md)|
    ensures var md' := Promote(md, i, st);
            && All(md') == All(md)[i := All(md)[i].(state := st)]
            && SameMessages(All(md'), All(md))
            && (CountersOk(md) ==> CountersOk(md'))
            && |md'.inflight| == |md.inflight| + 1
            && md'.inflightMaximum == md.inflightMaximum
  {
    var e := All(md)[i].(state := st);
    AllUpdated(md, i, e);
    StateChangeKeeps(md, i, e);
    DequeueKeeps(Updated(md, i, e));
  }

  lemma SameTwice(a: seq<Entry>, b: seq<Entry>, c: seq<Entry>)
    requires SameMessages(a, b) && SameMessages(b, c)
    ensures SameMessages(a, c)
  {
    forall i | 0 <= i < |a|
      ensures SameMessage(a[i], c[i])
    {
      assert SameMessage(a[i], b[i]) && SameMessage(b[i], c[i]);
    }
  }

  // ---------- releasing queued outgoing entries ----------

  /** No room for another inflight entry. */
  predicate Saturated(md: MsgData)
  {
    md.inflightMaximum != 0 && md.inflightQuota == 0
  }

  /** db__message_write_queued_out: queued entries go inflight, to be published, while there is quota. */
  function ReleaseQueued(md: MsgData): MsgData
    decreases |md.queued|
  {
    if md.queued == [] || Saturated(md) then md
    else ReleaseQueued(Promote(md, |md.inflight|, PublishState(md.queued[0].qos, md.queued[0].state)))
  }

  method WriteQueued(md: MsgData) returns (r: MsgData)
    ensures r == ReleaseQueued(md)
  {
    r := md;
    while r.queued != []
      invariant ReleaseQueued(r) == ReleaseQueued(md)
      decreases |r.queued|
    {
      if r.inflightMaximum != 0 && r.inflightQuota == 0 { break; }
      var e := r.queued[0];
      r := r.(queued := r.queued[0 := e.(state := PublishState(e.qos, e.state))]);
      r := Dequeued(r);
    }
  }

  /** Released entries keep their order; the release stops only for want of quota. */
  lemma {:induction false} ReleaseQueuedKeeps(md: MsgData)
    ensures var r := ReleaseQueued(md);
            && SameMessages(All(r), All(md))
            && (CountersOk(md) ==> CountersOk(r))
            && r.inflightMaximum == md.inflightMaximum
            && (r.queued == [] || Saturated(r))
            && |md.inflight| <= |r.inflight| && r.inflight[..|md.inflight|] == md.inflight
            && forall j :: |md.inflight| <= j < |r.inflight| && r.inflight[j].qos <= 2 ==> IsPublish(r.inflight[j].state)
    decreases |md.queued|
  {
    if md.queued != [] && !Saturated(md) {
      var st := PublishState(md.queued[0].qos, md.queued[0].state);
      var md' := Promote(md, |md.inflight|, st);
      PromoteKeeps(md, |md.inflight|, st);
      assert md'.inflight == md.inflight + [md.queued[0].(state := st)];
      ReleaseQueuedKeeps(md');
      var r := ReleaseQueued(md');
      SameTwice(All(r), All(md'), All(md));
      assert r.inflight[..|md.inflight|] == r.inflight[..|md'.inflight|][..|md.inflight|];
      assert r.inflight[|md.inflight|] == r.inflight[..|md'.inflight|][|md.inflight|];
    }
  }

  /** Releasing keeps the entries waiting to be published a suffix. */
  lemma ReleaseKeepsSuffix(md: MsgData)
    requires PendingSuffix(md.inflight) && forall e :: e in All(md) ==> e.qos <= 2
    ensures PendingSuffix(ReleaseQueued(md).inflight)
  {
    ReleaseQueuedKeeps(md);
    var r := ReleaseQueued(md);
    forall j | 0 <= j < |r.inflight|
      ensures r.inflight[j].qos <= 2
    {
      assert SameMessage(All(r)[j], All(md)[j]);
      assert All(md)[j] in All(md);
    }
    assert forall j :: 0 <= j < |md.inflight| ==> r.inflight[j] == r.inflight[..|md.inflight|][j] == md.inflight[j];
  }

  /** db__message_delete_outgoing's release, which counts entries instead of asking the quota. */
  function ReleaseCounted(md: MsgData, index: nat): MsgData
    decreases |md.queued|
  {
    if md.queued == [] || (md.inflightMaximum != 0 && index >= md.inflightMaximum) then md
    else ReleaseCounted(Promote(md, |md.inflight|, PublishState(md.queued[0].qos, md.queued[0].state)), index + 1)
  }

  method WriteCounted(md: MsgData, index: nat) returns (r: MsgData)
    ensures r == ReleaseCounted(md, index)
  {
    r := md;
    var n: nat := index;
    while r.queued != []
      invariant ReleaseCounted(r, n) == ReleaseCounted(md, index)
      decreases |r.queued|
    {
      if r.inflightMaximum != 0 && n >= r.inflightMaximum { break; }
      n := n + 1;
      var e := r.queued[0];
      r := r.(queued := r.queued[0 := e.(state := PublishState(e.qos, e.state))]);
      r := Dequeued(r);
    }
  }

  /** It moves as many entries as the count leaves room for, in order. */
  lemma {:induction false} ReleaseCountedKeeps(md: MsgData, index: nat)
    ensures var r := ReleaseCounted(md, index);
            && SameMessages(All(r), All(md))
            && (CountersOk(md) ==> CountersOk(r))
            && r.inflightMaximum == md.inflightMaximum
            && |r.inflight| - |md.inflight| ==
                 if md.inflightMaximum == 0 || |md.queued| <= md.inflightMaximum - index then |md.queued|
                 else if index >= md.inflightMaximum then 0 else md.inflightMaximum - index
    decreases |md.queued|
  {
    if md.queued != [] && !(md.inflightMaximum != 0 && index >= md.inflightMaximum) {
      var st := PublishState(md.queued[0].qos, md.queued[0].state);
      var md' := Promote(md, |md.inflight|, st);
      PromoteKeeps(md, |md.inflight|, st);
      ReleaseCountedKeeps(md', index + 1);
      SameTwice(All(ReleaseCounted(md', index + 1)), All(md'), All(md));
    }
  }

  /** What it moves is to be published, and what was inflight stays as it was. */
  lemma {:induction false} ReleaseCountedMoves(md: MsgData, index: nat)
    ensures var r := ReleaseCounted(md, index);
            && |md.inflight| <= |r.inflight| && r.inflight[..|md.inflight|] == md.inflight
            && forall j :: |md.inflight| <= j < |r.inflight| && r.inflight[j].qos <= 2 ==> IsPublish(r.inflight[j].state)
    decreases |md.queued|
  {
    if md.queued != [] && !(md.inflightMaximum != 0 && index >= md.inflightMaximum) {
      var st := PublishState(md.queued[0].qos, md.queued[0].state);
      var md' := Promote(md, |md.inflight|, st);
      assert md'.inflight == md.inflight + [md.queued[0].(state := st)] && |md'.queued| == |md.queued| - 1;
      hide Promote;
      ReleaseCountedMoves(md', index + 1);
      var r := ReleaseCounted(md', index + 1);
      assert r.inflight[..|md.inflight|] == r.inflight[..|md'.inflight|][..|md.inflight|];
      assert r.inflight[|md.inflight|] == r.inflight[..|md'.inflight|][|md.inflight|];
    }
  }

  /** The release of an acknowledgement keeps the entries waiting to be published a suffix. */
  lemma CountedKeepsSuffix(md: MsgData, index: nat)
    requires PendingSuffix(md.inflight) && forall e :: e in All(md) ==> e.qos <= 2
    ensures PendingSuffix(ReleaseCounted(md, index).inflight)
    ensures forall e :: e in All(ReleaseCounted(md, index)) ==> e.qos <= 2
  {
    ReleaseCountedKeeps(md, index);
    ReleaseCountedMoves(md, index);
    hide ReleaseCounted;
    var r := ReleaseCounted(md, index);
    forall j | 0 <= j < |All(r)|
      ensures All(r)[j].qos <= 2
    {
      assert SameMessage(All(r)[j], All(md)[j]);
      assert All(md)[j] in All(md);
    }
    assert forall j :: 0 <= j < |r.inflight| ==> r.inflight[j] == All(r)[j];
    assert forall j :: 0 <= j < |md.inflight| ==> r.inflight[j] == r.inflight[..|md.inflight|][j] == md.inflight[j];
  }

  /** An acknowledgement of entry i keeps the inflight list within the client's maximum exactly when
      it is the last entry or the queue fits the room left: the count starts at i, not at the length
      of the list. */
  lemma AckedWithinMaximumIff(md: MsgData, i: nat)
    requires i < |md.inflight| <= md.inflightMaximum
    ensures |ReleaseCounted(Removed(md, i), i).inflight| <= md.inflightMaximum
            <==> i == |md.inflight| - 1 || |md.queued| <= md.inflightMaximum - |md.inflight| + 1
  {
    ReleaseCountedKeeps(Removed(md, i), i);
  }

  /** The other case is real: two entries inflight, two allowed, and the older one is acknowledged
      while two wait. */
  lemma AckExceedsMaximum(md: MsgData)
    requires |md.inflight| == md.inflightMaximum == 2 && |md.queued| >= 2
    ensures |ReleaseCounted(Removed(md, 0), 0).inflight| == 3
  {
    ReleaseCountedKeeps(Removed(md, 0), 0);
  }

  // ---------- releasing queued incoming entries ----------

  /** The tail of db__message_release_incoming: entries of quality 2 are acknowledged, whatever
      the network says, and wait for their PUBREL. */
  function ReleaseIn(md: MsgData, i: nat, index: nat, sent: seq<Packet>): (MsgData, seq<Packet>)
    requires |md.inflight| <= i <= |All(md)|
    decreases |All(md)| - i
  {
    if i == |All(md)| || (md.inflightMaximum != 0 && index >= md.inflightMaximum) then (md, sent)
    else if All(md)[i].qos == 2 then
      PromoteKeeps(md, i, WaitForPubrel);
      ReleaseIn(Promote(md, i, WaitForPubrel), i + 1, index + 1, sent + [Pubrec(All(md)[i].mid, 0)])
    else ReleaseIn(md, i + 1, index + 1, sent)
  }

  method AcknowledgeQueued(md: MsgData, index: nat, sent: seq<Packet>) returns (r: MsgData, log: seq<Packet>)
    ensures (r, log) == ReleaseIn(md, |md.inflight|, index, sent)
  {
    r, log := md, sent;
    var n: nat, i: nat := index, |md.inflight|;
    while i < |r.inflight| + |r.queued|
      invariant |r.inflight| <= i <= |All(r)|
      invariant ReleaseIn(r, i, n, log) == ReleaseIn(md, |md.inflight|, index, sent)
      decreases |All(r)| - i
    {
      if r.inflightMaximum != 0 && n >= r.inflightMaximum { break; }
      n := n + 1;
      var e := r.queued[i - |r.inflight|];
      assert e == All(r)[i];
      if e.qos == 2 {
        log := log + [Pubrec(e.mid, 0)];
        PromoteKeeps(r, i, WaitForPubrel);
        r := r.(queued := r.queued[i - |r.inflight| := e.(state := WaitForPubrel)]);
        r := Dequeued(r);
      }
      i := i + 1;
    }
  }

  lemma {:induction false} ReleaseInKeeps(md: MsgData, i: nat, index: nat, sent: seq<Packet>)
    requires |md.inflight| <= i <= |All(md)|
    ensures var (r, log) := ReleaseIn(md, i, index, sent);
            && SameMessages(All(r), All(md))
            && (CountersOk(md) ==> CountersOk(r))
            && sent <= log
    decreases |All(md)| - i
  {
    if i < |All(md)| && !(md.inflightMaximum != 0 && index >= md.inflightMaximum) {
      if All(md)[i].qos == 2 {
        var md', sent' := Promote(md, i, WaitForPubrel), sent + [Pubrec(All(md)[i].mid, 0)];
        PromoteKeeps(md, i, WaitForPubrel);
        ReleaseInKeeps(md', i + 1, index + 1, sent');
        SameTwice(All(ReleaseIn(md', i + 1, index + 1, sent').0), All(md'), All(md));
      } else {
        ReleaseInKeeps(md, i + 1, index + 1, sent);
      }
    }
  }

  /** The PUBREC packets for the entries of quality 2, in order. */
  function Pubrecs(es: seq<Entry>): seq<Packet>
  {
    if es == [] then []
    else (if es[0].qos == 2 then [Pubrec(es[0].mid, 0)] else []) + Pubrecs(es[1..])
  }

  /** The entry of quality 2 is put in the state, others are left. */
  function Marked(e: Entry, state: MsgState): Entry
  {
    if e.qos == 2 then e.(state := state) else e
  }

  /** How many entries the release looks at. */
  function Examined(md: MsgData, i: nat, index: nat): nat
    requires i <= |All(md)|
  {
    var rest := |All(md)| - i;
    if md.inflightMaximum == 0 || rest <= md.inflightMaximum - index then rest
    else if index >= md.inflightMaximum then 0 else md.inflightMaximum - index
  }

  /** The entries of quality 2 from i to n are marked as waiting for their PUBREL, the last as given. */
  ghost predicate MarkedUpTo(es: seq<Entry>, es': seq<Entry>, i: nat, n: nat, last: MsgState)
  {
    && |es'| == |es|
    && forall j :: 0 <= j < |es| ==>
         es'[j] == if i <= j < n then Marked(es[j], if j == n - 1 then last else WaitForPubrel) else es[j]
  }

  /** They were acknowledged, each once and in order, and as many entries went inflight. */
  ghost predicate ReleasedUpTo(md: MsgData, i: nat, n: nat, sent: seq<Packet>, r: MsgData, log: seq<Packet>)
  {
    && i <= n <= |All(md)|
    && log == sent + Pubrecs(All(md)[i..n])
    && |r.inflight| == |md.inflight| + |Pubrecs(All(md)[i..n])|
    && MarkedUpTo(All(md), All(r), i, n, WaitForPubrel)
  }

  /** The release acknowledges exactly the entries of quality 2 it looks at. */
  lemma {:induction false} ReleaseInExact(md: MsgData, i: nat, index: nat, sent: seq<Packet>)
    requires |md.inflight| <= i <= |All(md)|
    ensures var (r, log) := ReleaseIn(md, i, index, sent);
            ReleasedUpTo(md, i, i + Examined(md, i, index), sent, r, log)
    decreases |All(md)| - i
  {
    hide Promote, ReleasedUpTo;
    if i < |All(md)| && !(md.inflightMaximum != 0 && index >= md.inflightMaximum) {
      var e, n := All(md)[i], i + Examined(md, i, index);
      if e.qos == 2 {
        PromoteKeeps(md, i, WaitForPubrel);
        var md', sent' := Promote(md, i, WaitForPubrel), sent + [Pubrec(e.mid, 0)];
        ReleaseInExact(md', i + 1, index + 1, sent');
        var (r, log) := ReleaseIn(md', i + 1, index + 1, sent');
        ReleasedOn(md, md', i, n, sent, r, log);
      } else {
        ReleaseInExact(md, i + 1, index + 1, sent);
        var (r, log) := ReleaseIn(md, i + 1, index + 1, sent);
        ReleasedSkips(md, i, n, sent, r, log);
      }
    } else {
      ReleasedEnds(md, i, sent);
    }
  }

  lemma ReleasedEnds(md: MsgData, i: nat, sent: seq<Packet>)
    requires i <= |All(md)|
    ensures ReleasedUpTo(md, i, i, sent, md, sent)
  {
  }

  lemma ReleasedOn(md: MsgData, md': MsgData, i: nat, n: nat, sent: seq<Packet>, r: MsgData, log: seq<Packet>)
    requires i < |All(md)| && All(md)[i].qos == 2
    requires All(md') == All(md)[i := All(md)[i].(state := WaitForPubrel)] && |md'.inflight| == |md.inflight| + 1
    requires ReleasedUpTo(md', i + 1, n, sent + [Pubrec(All(md)[i].mid, 0)], r, log)
    ensures ReleasedUpTo(md, i, n, sent, r, log)
  {
    var es, es' := All(md), All(md');
    assert es'[i + 1..n] == es[i + 1..n] == es[i..n][1..];
    PubrecsFirst(es[i..n]);
    hide Pubrecs;
  }

  lemma ReleasedSkips(md: MsgData, i: nat, n: nat, sent: seq<Packet>, r: MsgData, log: seq<Packet>)
    requires i < |All(md)| && All(md)[i].qos != 2 && ReleasedUpTo(md, i + 1, n, sent, r, log)
    ensures ReleasedUpTo(md, i, n, sent, r, log)
  {
    assert All(md)[i..n][1..] == All(md)[i + 1..n];
    PubrecsFirst(All(md)[i..n]);
    hide Pubrecs;
  }

  lemma PubrecsFirst(es: seq<Entry>)
    requires es != []
    ensures Pubrecs(es) == (if es[0].qos == 2 then [Pubrec(es[0].mid, 0)] else []) + Pubrecs(es[1..])
  {
  }

  /** db__message_write_queued_in: as above, but a failing send stops the loop with the entry
      left waiting for its PUBREC; `outMaximum` is the limit of the outgoing lists. */
  function QueuedIn(md: MsgData, i: nat, outMaximum: nat, sent: seq<Packet>, link: Link): Written
    requires |md.inflight| <= i <= |All(md)|
    decreases |All(md)| - i
  {
    if i == |All(md)| || (outMaximum != 0 && md.inflightQuota == 0) then Written(md, sent, SUCCESS)
    else if All(md)[i].qos == 2 then
      var sent' := sent + [Pubrec(All(md)[i].mid, 0)];
      PromoteKeeps(md, i, WaitForPubrel);
      if link(|sent|) == SUCCESS then QueuedIn(Promote(md, i, WaitForPubrel), i + 1, outMaximum, sent', link)
      else Written(Promote(md, i, SendPubrec), sent', link(|sent|))
    else QueuedIn(md, i + 1, outMaximum, sent, link)
  }

  method WriteQueuedInto(md: MsgData, outMaximum: nat, sent: seq<Packet>, link: Link)
    returns (r: MsgData, log: seq<Packet>, rc: int)
    ensures Written(r, log, rc) == QueuedIn(md, |md.inflight|, outMaximum, sent, link)
  {
    r, log := md, sent;
    var i := |md.inflight|;
    while i < |r.inflight| + |r.queued|
      invariant |r.inflight| <= i <= |All(r)|
      invariant QueuedIn(r, i, outMaximum, log, link) == QueuedIn(md, |md.inflight|, outMaximum, sent, link)
      decreases |All(r)| - i
    {
      if outMaximum != 0 && r.inflightQuota == 0 { break; }
      var e := r.queued[i - |r.inflight|];
      assert e == All(r)[i];
      if e.qos == 2 {
        PromoteKeeps(r, i, SendPubrec);
        PromoteKeeps(r, i, WaitForPubrel);
        ghost var was := r;
        r := r.(queued := r.queued[i - |r.inflight| := e.(state := SendPubrec)]);
        r := Dequeued(r);
        rc := link(|log|);
        log := log + [Pubrec(e.mid, 0)];
        if rc != SUCCESS { return; }
        SetStateLater(was, i);
        r := Updated(r, i, e.(state := WaitForPubrel));
      }
      i := i + 1;
    }
    rc := SUCCESS;
  }

  /** Setting the state after the move gives what setting it before the move gives. */
  lemma SetStateLater(md: MsgData, i: nat)
    requires |md.inflight| <= i < |All(md)|
    ensures var md' := Promote(md, i, SendPubrec);
            && i < |All(md')| && Updated(md', i, All(md)[i].(state := WaitForPubrel)) == Promote(md, i, WaitForPubrel)
  {
    PromoteKeeps(md, i, SendPubrec);
    var e := All(md)[i];
    var a, b := Updated(Promote(md, i, SendPubrec), i, e.(state := WaitForPubrel)), Promote(md, i, WaitForPubrel);
    assert a.inflight == b.inflight;
    assert a.queued == b.queued;
  }

  /** Of the entries from i on, those of quality 2 before n were acknowledged, each once and in order.
      They wait for their PUBREL, except the last when sending failed; and it ended there only
      because of that, for want of quota, or at the end of the queue. */
  ghost predicate QueuedUpTo(md: MsgData, i: nat, n: nat, outMaximum: nat, sent: seq<Packet>, link: Link, w: Written)
  {
    && i <= n <= |All(md)|
    && w.sent == sent + Pubrecs(All(md)[i..n])
    && |w.md.inflight| == |md.inflight| + |Pubrecs(All(md)[i..n])|
    && (if w.rc == SUCCESS then n == |All(md)| || (outMaximum != 0 && w.md.inflightQuota == 0)
        else i < n && All(md)[n - 1].qos == 2 && |sent| < |w.sent| && w.rc == link(|w.sent| - 1))
    && (forall k: nat :: |sent| <= k < |w.sent| - (if w.rc == SUCCESS then 0 else 1) ==> link(k) == SUCCESS)
    && MarkedUpTo(All(md), All(w.md), i, n, if w.rc == SUCCESS then WaitForPubrel else SendPubrec)
  }

  lemma {:induction false} QueuedInExact(md: MsgData, i: nat, outMaximum: nat, sent: seq<Packet>, link: Link) returns (n: nat)
    requires |md.inflight| <= i <= |All(md)|
    ensures QueuedUpTo(md, i, n, outMaximum, sent, link, QueuedIn(md, i, outMaximum, sent, link))
    decreases |All(md)| - i
  {
    hide Promote, QueuedUpTo;
    var es := All(md);
    if i < |es| && !(outMaximum != 0 && md.inflightQuota == 0) {
      if es[i].qos == 2 {
        PromoteKeeps(md, i, WaitForPubrel);
        PromoteKeeps(md, i, SendPubrec);
        if link(|sent|) == SUCCESS {
          var md', sent' := Promote(md, i, WaitForPubrel), sent + [Pubrec(es[i].mid, 0)];
          n := QueuedInExact(md', i + 1, outMaximum, sent', link);
          QueuedOn(md, md', i, n, outMaximum, sent, link, QueuedIn(md', i + 1, outMaximum, sent', link));
        } else {
          n := i + 1;
          QueuedFails(md, Promote(md, i, SendPubrec), i, outMaximum, sent, link);
        }
      } else {
        n := QueuedInExact(md, i + 1, outMaximum, sent, link);
        QueuedSkips(md, i, n, outMaximum, sent, link, QueuedIn(md, i + 1, outMaximum, sent, link));
      }
    } else {
      n := i;
      QueuedEnds(md, i, outMaximum, sent, link);
    }
  }

  lemma QueuedEnds(md: MsgData, i: nat, outMaximum: nat, sent: seq<Packet>, link: Link)
    requires i == |All(md)| || (i < |All(md)| && outMaximum != 0 && md.inflightQuota == 0)
    ensures QueuedUpTo(md, i, i, outMaximum, sent, link, Written(md, sent, SUCCESS))
  {
  }

  lemma QueuedFails(md: MsgData, md': MsgData, i: nat, outMaximum: nat, sent: seq<Packet>, link: Link)
    requires i < |All(md)| && All(md)[i].qos == 2 && link(|sent|) != SUCCESS
    requires All(md') == All(md)[i := All(md)[i].(state := SendPubrec)] && |md'.inflight| == |md.inflight| + 1
    ensures QueuedUpTo(md, i, i + 1, outMaximum, sent, link, Written(md', sent + [Pubrec(All(md)[i].mid, 0)], link(|sent|)))
  {
    assert All(md)[i..i + 1] == [All(md)[i]];
  }

  lemma QueuedOn(md: MsgData, md': MsgData, i: nat, n: nat, outMaximum: nat, sent: seq<Packet>, link: Link, w: Written)
    requires i < |All(md)| && All(md)[i].qos == 2 && link(|sent|) == SUCCESS
    requires All(md') == All(md)[i := All(md)[i].(state := WaitForPubrel)] && |md'.inflight| == |md.inflight| + 1
    requires QueuedUpTo(md', i + 1, n, outMaximum, sent + [Pubrec(All(md)[i].mid, 0)], link, w)
    ensures QueuedUpTo(md, i, n, outMaximum, sent, link, w)
  {
    var es, es' := All(md), All(md');
    assert es'[i + 1..n] == es[i + 1..n] == es[i..n][1..];
    PubrecsFirst(es[i..n]);
    hide Pubrecs;
  }

  lemma QueuedSkips(md: MsgData, i: nat, n: nat, outMaximum: nat, sent: seq<Packet>, link: Link, w: Written)
    requires i < |All(md)| && All(md)[i].qos != 2 && QueuedUpTo(md, i + 1, n, outMaximum, sent, link, w)
    ensures QueuedUpTo(md, i, n, outMaximum, sent, link, w)
  {
    var es := All(md);
    assert es[i..n][1..] == es[i + 1..n];
    PubrecsFirst(es[i..n]);
    hide Pubrecs;
  }

  lemma {:induction false} QueuedInKeeps(md: MsgData, i: nat, outMaximum: nat, sent: seq<Packet>, link: Link)
    requires |md.inflight| <= i <= |All(md)|
    ensures var w := QueuedIn(md, i, outMaximum, sent, link);
            && SameMessages(All(w.md), All(md))
            && (CountersOk(md) ==> CountersOk(w.md))
            && sent <= w.sent
    decreases |All(md)| - i
  {
    if i < |All(md)| && !(outMaximum != 0 && md.inflightQuota == 0) {
      if All(md)[i].qos == 2 {
        PromoteKeeps(md, i, WaitForPubrel);
        PromoteKeeps(md, i, SendPubrec);
        hide Promote, CountersOk;
        if link(|sent|) == SUCCESS {
          var md', sent' := Promote(md, i, WaitForPubrel), sent + [Pubrec(All(md)[i].mid, 0)];
          QueuedInKeeps(md', i + 1, outMaximum, sent', link);
          SameTwice(All(QueuedIn(md', i + 1, outMaximum, sent', link).md), All(md'), All(md));
        }
      } else {
        QueuedInKeeps(md, i + 1, outMaximum, sent, link);
      }
    }
  }

  // ---------- searching by message id ----------

  /** The position of the first entry with the message id; the length when there is none. */
  function FirstMid(es: seq<Entry>, mid: nat): (i: nat)
    ensures i <= |es| && (i < |es| ==> es[i].mid == mid)
    ensures forall j :: 0 <= j < i ==> es[j].mid != mid
  {
    if es == [] || es[0].mid == mid then 0 else 1 + FirstMid(es[1..], mid)
  }

  method FindMid(es: seq<Entry>, mid: nat) returns (i: nat)
    ensures i == FirstMid(es, mid)
  {
    i := 0;
    while i < |es| && es[i].mid != mid
      invariant 0 <= i <= |es|
      invariant forall j :: 0 <= j < i ==> es[j].mid != mid
    {
      i := i + 1;
    }
  }

  /** The position of the first message the client gave that id; the length when there is none. */
  function FirstSource(es: seq<Entry>, mid: nat): (i: nat)
    ensures i <= |es| && (i < |es| ==> es[i].store.sourceMid == mid)
    ensures forall j :: 0 <= j < i ==> es[j].store.sourceMid != mid
  {
    if es == [] || es[0].store.sourceMid == mid then 0 else 1 + FirstSource(es[1..], mid)
  }

  /** db__message_store_find: inflight before queued. */
  method StoreFind(md: MsgData, mid: nat) returns (k: nat)
    ensures k == FirstSource(All(md), mid)
  {
    k := 0;
    while k < |md.inflight|
      invariant 0 <= k <= |md.inflight|
      invariant forall j :: 0 <= j < k ==> All(md)[j].store.sourceMid != mid
    {
      assert All(md)[k] == md.inflight[k];
      if md.inflight[k].store.sourceMid == mid { return; }
      k := k + 1;
    }
    var i := 0;
    while i < |md.queued|
      invariant 0 <= i <= |md.queued| && k == |md.inflight| + i
      invariant forall j :: 0 <= j < k ==> All(md)[j].store.sourceMid != mid
    {
      assert All(md)[k] == md.queued[i];
      if md.queued[i].store.sourceMid == mid { return; }
      i := i + 1;
      k := k + 1;
    }
  }

  // ---------- the recount on reconnection ----------

  function WithLists(ctx: Context, dir: Direction, md: MsgData): Context
  {
    if dir == Out then ctx.(msgsOut := md) else ctx.(msgsIn := md)
  }

  /** The state from which an outgoing inflight entry is sent again. */
  function ResetEntry(e: Entry): Entry
  {
    if e.qos == 2 && e.state == WaitForPubcomp then e.(state := ResendPubrel)
    else e.(state := PublishState(e.qos, e.state))
  }

  function ResetEntries(es: seq<Entry>): (r: seq<Entry>)
    ensures SameMessages(r, es)
    ensures forall i :: 0 <= i < |es| ==> r[i] == ResetEntry(es[i])
  {
    seq(|es|, i requires 0 <= i < |es| => ResetEntry(es[i]))
  }

  /** Incoming inflight entries that survive: the client sends the others again. */
  function Qos2(es: seq<Entry>): (r: seq<Entry>)
    ensures forall e :: e in r <==> e in es && e.qos == 2
  {
    if es == [] then []
    else Qos2(es[..|es| - 1]) + (if es[|es| - 1].qos == 2 then [es[|es| - 1]] else [])
  }

  function NotQos2(es: seq<Entry>): (r: seq<Entry>)
    ensures forall e :: e in r <==> e in es && e.qos != 2
  {
    if es == [] then []
    else NotQos2(es[..|es| - 1]) + (if es[|es| - 1].qos != 2 then [es[|es| - 1]] else [])
  }

  /** The quota left after so many inflight entries. */
  function QuotaLeft(maximum: nat, inflight: int): int
  {
    if inflight < maximum then maximum - inflight else 0
  }

  /** The counters are the sums over the first n entries. */
  ghost predicate CountedTo(md: MsgData, n: nat)
    requires n <= |All(md)|
  {
    && md.msgCount == n
    && md.msgBytes == Bytes(All(md)[..n])
    && md.msgCount12 == Count12(All(md)[..n])
    && md.msgBytes12 == Bytes12(All(md)[..n])
  }

  lemma CountNext(md: MsgData, n: nat)
    requires n < |All(md)| && CountedTo(md, n)
    ensures CountedTo(Bumped(md, All(md)[n].store.Len(), All(md)[n].qos), n + 1)
  {
    assert All(md)[..n + 1] == All(md)[..n] + [All(md)[n]];
    SumsConcat(All(md)[..n], [All(md)[n]]);
    SumsOne(All(md)[n]);
  }

  /** One entry of the outgoing recount. */
  function Restarted(r: MsgData, i: nat): MsgData
    requires i < |r.inflight|
  {
    var e := r.inflight[i];
    var b := Bumped(r, e.store.Len(), e.qos);
    var q := if e.qos > 0 then DecQuota(b) else b;
    q.(inflight := q.inflight[i := ResetEntry(e)])
  }

  ghost predicate Restarting(md: MsgData, r: MsgData, i: nat)
  {
    && i <= |md.inflight| == |r.inflight|
    && r.inflight == ResetEntries(md.inflight)[..i] + md.inflight[i..]
    && r.queued == md.queued && r.inflightMaximum == md.inflightMaximum
    && r.inflightQuota == QuotaLeft(md.inflightMaximum, Count12(md.inflight[..i]))
    && CountedTo(r, i)
  }

  /** The first loop of the outgoing recount. */
  method RestartOut(md: MsgData) returns (r: MsgData)
    ensures Restarting(md, r, |md.inflight|)
  {
    hide CountedTo, QuotaLeft, Restarting;
    r := md.(msgBytes := 0, msgBytes12 := 0, msgCount := 0, msgCount12 := 0, inflightQuota := md.inflightMaximum);
    RestartFirst(md, r);
    var i := 0;
    while i < |r.inflight|
      invariant 0 <= i <= |r.inflight| == |md.inflight|
      invariant Restarting(md, r, i)
    {
      RestartNext(md, r, i);
      var e := r.inflight[i];
      r := Bumped(r, e.store.Len(), e.qos);
      if e.qos > 0 { r := DecQuota(r); }
      r := r.(inflight := r.inflight[i := ResetEntry(e)]);
      i := i + 1;
    }
  }

  lemma RestartFirst(md: MsgData, r: MsgData)
    requires r == md.(msgBytes := 0, msgBytes12 := 0, msgCount := 0, msgCount12 := 0, inflightQuota := md.inflightMaximum)
    ensures Restarting(md, r, 0)
  {
    assert All(r)[..0] == [] && md.inflight[..0] == [];
  }

  lemma RestartNext(md: MsgData, r: MsgData, i: nat)
    requires i < |md.inflight| && Restarting(md, r, i)
    ensures i < |r.inflight| && Restarting(md, Restarted(r, i), i + 1)
  {
    hide CountedTo, Count12, Qos2, NotQos2, All, SameMessages;
    var e := md.inflight[i];
    assert r.inflight[i] == e;
    RestartCounts(r, i);
    FilterStep(md.inflight, i);
    assert r.inflight[i := ResetEntry(e)] == ResetEntries(md.inflight)[..i + 1] + md.inflight[i + 1..];
  }

  lemma RestartCounts(r: MsgData, i: nat)
    requires i < |r.inflight| && CountedTo(r, i)
    ensures CountedTo(Restarted(r, i), i + 1)
  {
    var e := r.inflight[i];
    var b, r' := Bumped(r, e.store.Len(), e.qos), Restarted(r, i);
    CountNext(r, i);
    assert All(r)[i] == e && All(r') == All(b)[i := ResetEntry(e)];
    SameSums(All(r')[..i + 1], All(b)[..i + 1]);
  }

  /** One entry of the incoming recount: counted, charged to the quota, and kept or removed. */
  function Refiltered(r: MsgData, e: Entry): MsgData
  {
    var b := Bumped(r, e.store.Len(), e.qos);
    var q := if e.qos > 0 then DecQuota(b) else b;
    var k := q.(inflight := q.inflight + [e]);
    if e.qos == 2 then k else Removed(k, |k.inflight| - 1)
  }

  ghost predicate Filtering(md: MsgData, r: MsgData, dropped: seq<Entry>, i: nat)
  {
    && i <= |md.inflight|
    && r.inflight == Qos2(md.inflight[..i]) && dropped == NotQos2(md.inflight[..i])
    && r.queued == md.queued && r.inflightMaximum == md.inflightMaximum
    && r.inflightQuota == QuotaLeft(md.inflightMaximum, Count12(md.inflight[..i]))
    && CountedTo(r, |r.inflight|)
  }

  /** The first loop of the incoming recount; the entries it drops are returned. */
  method RestartIn(md: MsgData) returns (r: MsgData, dropped: seq<Entry>)
    ensures Filtering(md, r, dropped, |md.inflight|)
  {
    hide CountedTo, QuotaLeft, Filtering;
    var todo := md.inflight;
    r := md.(inflight := [], msgBytes := 0, msgBytes12 := 0, msgCount := 0, msgCount12 := 0,
             inflightQuota := md.inflightMaximum);
    dropped := [];
    FilterFirst(md, r);
    var i := 0;
    while i < |todo|
      invariant 0 <= i <= |todo|
      invariant Filtering(md, r, dropped, i)
    {
      var e := todo[i];
      FilterNext(md, r, dropped, i);
      r := Bumped(r, e.store.Len(), e.qos);
      if e.qos > 0 { r := DecQuota(r); }
      r := r.(inflight := r.inflight + [e]);
      if e.qos != 2 {
        r := Removed(r, |r.inflight| - 1);
        dropped := dropped + [e];
      }
      i := i + 1;
    }
  }

  lemma FilterFirst(md: MsgData, r: MsgData)
    requires r == md.(inflight := [], msgBytes := 0, msgBytes12 := 0, msgCount := 0, msgCount12 := 0,
                      inflightQuota := md.inflightMaximum)
    ensures Filtering(md, r, [], 0)
  {
    assert All(r)[..0] == [] && md.inflight[..0] == [];
  }

  lemma FilterNext(md: MsgData, r: MsgData, dropped: seq<Entry>, i: nat)
    requires i < |md.inflight| && Filtering(md, r, dropped, i)
    ensures var e := md.inflight[i];
            Filtering(md, Refiltered(r, e), if e.qos == 2 then dropped else dropped + [e], i + 1)
  {
    hide CountedTo, Count12, Qos2, NotQos2, All, Refiltered;
    var e := md.inflight[i];
    FilterStep(md.inflight, i);
    FilterCounts(r, e);
    RefilteredIs(r, e);
  }

  lemma RefilteredIs(r: MsgData, e: Entry)
    ensures var r' := Refiltered(r, e);
            && r'.inflight == r.inflight + (if e.qos == 2 then [e] else [])
            && r'.queued == r.queued && r'.inflightMaximum == r.inflightMaximum
            && r'.inflightQuota == if e.qos > 0 && r.inflightQuota > 0 then r.inflightQuota - 1 else r.inflightQuota
  {
    var k := r.inflight + [e];
    assert k[..|k| - 1] + k[|k|..] == r.inflight;
  }

  lemma FilterCounts(r: MsgData, e: Entry)
    requires CountedTo(r, |r.inflight|)
    ensures CountedTo(Refiltered(r, e), |Refiltered(r, e).inflight|)
  {
    if e.qos == 2 {
      KeepCounted(r, e);
    } else {
      var k := r.inflight + [e];
      assert k[..|k| - 1] + k[|k|..] == r.inflight;
    }
  }

  lemma KeepCounted(r: MsgData, e: Entry)
    requires CountedTo(r, |r.inflight|)
    ensures CountedTo(Bumped(r, e.store.Len(), e.qos).(inflight := r.inflight + [e]), |r.inflight| + 1)
  {
    var r' := Bumped(r, e.store.Len(), e.qos).(inflight := r.inflight + [e]);
    assert All(r)[..|r.inflight|] == r.inflight && All(r')[..|r.inflight| + 1] == r.inflight + [e];
    SumsConcat(r.inflight, [e]);
    SumsOne(e);
  }

  lemma FilterStep(es: seq<Entry>, i: nat)
    requires i < |es|
    ensures Qos2(es[..i + 1]) == Qos2(es[..i]) + if es[i].qos == 2 then [es[i]] else []
    ensures NotQos2(es[..i + 1]) == NotQos2(es[..i]) + if es[i].qos != 2 then [es[i]] else []
    ensures Count12(es[..i + 1]) == Count12(es[..i]) + if es[i].qos > 0 then 1 else 0
  {
    assert es[..i + 1][..i] == es[..i];
    assert es[..i + 1] == es[..i] + [es[i]];
    SumsConcat(es[..i], [es[i]]);
    SumsOne(es[i]);
  }

  ghost predicate Parted(es: seq<Entry>, s: nat)
  {
    Uses(Qos2(es), s) + Uses(NotQos2(es), s) == Uses(es, s)
  }

  lemma {:induction false} FilterUses(es: seq<Entry>, s: nat)
    ensures Parted(es, s)
  {
    hide Parted, Qos2, NotQos2, Uses;
    if es == [] {
      PartedNone(s);
    } else {
      FilterUses(es[..|es| - 1], s);
      PartedSnoc(es[..|es| - 1], es[|es| - 1], s);
      assert es == es[..|es| - 1] + [es[|es| - 1]];
    }
  }

  lemma PartedNone(s: nat)
    ensures Parted([], s)
  {
  }

  lemma PartedSnoc(es: seq<Entry>, e: Entry, s: nat)
    requires Parted(es, s)
    ensures Parted(es + [e], s)
  {
    hide Qos2, NotQos2, Uses;
    FilterSnoc(es, e);
    UsesSnoc(es, e, s);
    UsesSnoc(Qos2(es), e, s);
    UsesSnoc(NotQos2(es), e, s);
  }

  lemma FilterSnoc(es: seq<Entry>, e: Entry)
    ensures Qos2(es + [e]) == if e.qos == 2 then Qos2(es) + [e] else Qos2(es)
    ensures NotQos2(es + [e]) == if e.qos == 2 then NotQos2(es) else NotQos2(es) + [e]
  {
    assert (es + [e])[..|es|] == es;
  }

  lemma UsesSnoc(es: seq<Entry>, e: Entry, s: nat)
    ensures Uses(es + [e], s) == Uses(es, s) + if e.store.id == s then 1 else 0
  {
    SumsConcat(es, [e]);
    SumsOne(e);
  }

  /** One entry of the second loop of both recounts, over the queued entries: position i of the
      lists is counted, and readiness is judged on the counters so far. */
  function Reflown(cfg: Config, ctx: Context, dir: Direction, md: MsgData, i: nat): MsgData
    requires |md.inflight| <= i < |All(md)|
  {
    var e := All(md)[i];
    var b := Bumped(md, e.store.Len(), e.qos);
    if ReadyForFlight(cfg, WithLists(ctx, dir, b), dir, e.qos) then Promote(b, i, PublishState(e.qos, e.state)) else b
  }

  lemma ReflownKeeps(cfg: Config, ctx: Context, dir: Direction, md: MsgData, i: nat)
    requires |md.inflight| <= i < |All(md)|
    ensures var r := Reflown(cfg, ctx, dir, md, i);
            && SameMessages(All(r), All(md))
            && |r.inflight| <= i + 1 && r.inflightMaximum == md.inflightMaximum
            && (CountedTo(md, i) ==> CountedTo(r, i + 1))
  {
    hide ReadyForFlight, CountedTo, Promote, PublishState;
    var e := All(md)[i];
    var b := Bumped(md, e.store.Len(), e.qos);
    if CountedTo(md, i) {
      CountNext(md, i);
      PromoteCounted(b, i, PublishState(e.qos, e.state));
    }
    PromoteKeeps(b, i, PublishState(e.qos, e.state));
  }

  lemma PromoteCounted(md: MsgData, i: nat, st: MsgState)
    requires |md.inflight| <= i < |All(md)| && CountedTo(md, i + 1)
    ensures |All(Promote(md, i, st))| == |All(md)| && CountedTo(Promote(md, i, st), i + 1)
  {
    PromoteKeeps(md, i, st);
    SameSums(All(Promote(md, i, st))[..i + 1], All(md)[..i + 1]);
  }

  function Refly(cfg: Config, ctx: Context, dir: Direction, md: MsgData, i: nat): MsgData
    requires |md.inflight| <= i <= |All(md)|
    decreases |All(md)| - i
  {
    if i == |All(md)| then md else
    ReflownKeeps(cfg, ctx, dir, md, i);
    Refly(cfg, ctx, dir, Reflown(cfg, ctx, dir, md, i), i + 1)
  }

  /** The loop body of RequeueAll is one step of Refly. */
  lemma ReflyNext(cfg: Config, ctx: Context, dir: Direction, md: MsgData, i: nat)
    requires |md.inflight| <= i < |md.inflight| + |md.queued|
    ensures var e := md.queued[i - |md.inflight|];
            var b := Bumped(md, e.store.Len(), e.qos);
            var r := Reflown(cfg, ctx, dir, md, i);
            && b.inflight == md.inflight && b.queued == md.queued
            && r == (if ReadyForFlight(cfg, WithLists(ctx, dir, b), dir, e.qos) then
                       Dequeued(b.(queued := b.queued[i - |b.inflight| := e.(state := PublishState(e.qos, e.state))]))
                     else b)
            && |r.inflight| <= i + 1 && |r.inflight| + |r.queued| == |md.inflight| + |md.queued|
            && Refly(cfg, ctx, dir, md, i) == Refly(cfg, ctx, dir, r, i + 1)
  {
    hide ReadyForFlight, PublishState, CountedTo;
    assert All(md)[i] == md.queued[i - |md.inflight|];
    ReflownKeeps(cfg, ctx, dir, md, i);
  }

  method RequeueAll(cfg: Config, ctx: Context, dir: Direction, md: MsgData) returns (r: MsgData)
    ensures r == Refly(cfg, ctx, dir, md, |md.inflight|)
  {
    hide ReadyForFlight, PublishState, Reflown, Refly, Bumped, Dequeued;
    r := md;
    var i := |r.inflight|;
    while i < |r.inflight| + |r.queued|
      invariant |r.inflight| <= i <= |r.inflight| + |r.queued|
      invariant Refly(cfg, ctx, dir, r, i) == Refly(cfg, ctx, dir, md, |md.inflight|)
      decreases |r.inflight| + |r.queued| - i
    {
      ReflyNext(cfg, ctx, dir, r, i);
      var e := r.queued[i - |r.inflight|];
      r := Bumped(r, e.store.Len(), e.qos);
      if ReadyForFlight(cfg, WithLists(ctx, dir, r), dir, e.qos) {
        r := r.(queued := r.queued[i - |r.inflight| := e.(state := PublishState(e.qos, e.state))]);
        r := Dequeued(r);
      }
      i := i + 1;
    }
    ReflyEnd(cfg, ctx, dir, r);
  }

  lemma ReflyEnd(cfg: Config, ctx: Context, dir: Direction, md: MsgData)
    ensures Refly(cfg, ctx, dir, md, |md.inflight| + |md.queued|) == md
  {
  }

  /** The recount ends with right counters and never reorders the entries. */
  lemma {:induction false} ReflyCounts(cfg: Config, ctx: Context, dir: Direction, md: MsgData, i: nat)
    requires |md.inflight| <= i <= |All(md)| && CountedTo(md, i)
    ensures var r := Refly(cfg, ctx, dir, md, i);
            && SameMessages(All(r), All(md)) && CountersOk(r) && r.inflightMaximum == md.inflightMaximum
    decreases |All(md)| - i
  {
    hide Reflown, CountedTo, CountersOk, SameMessages, All;
    if i == |All(md)| {
      CountedAll(md);
    } else {
      var p := Reflown(cfg, ctx, dir, md, i);
      ReflownKeeps(cfg, ctx, dir, md, i);
      SameLength(All(p), All(md));
      ReflyCounts(cfg, ctx, dir, p, i + 1);
      SameTwice(All(Refly(cfg, ctx, dir, p, i + 1)), All(p), All(md));
    }
  }

  lemma CountedAll(md: MsgData)
    requires CountedTo(md, |All(md)|)
    ensures CountersOk(md) && SameMessages(All(md), All(md))
  {
    assert All(md)[..|All(md)|] == All(md);
  }

  lemma SameLength(a: seq<Entry>, b: seq<Entry>)
    requires SameMessages(a, b)
    ensures |a| == |b|
  {
  }

  /** What the first loops leave: the counters cover the inflight list, the quota starts anew. */
  function Recounted(md: MsgData, inflight: seq<Entry>): MsgData
  {
    md.(inflight := inflight, msgCount := |inflight|, msgBytes := Bytes(inflight), msgCount12 := Count12(inflight),
        msgBytes12 := Bytes12(inflight), inflightQuota := QuotaLeft(md.inflightMaximum, Count12(md.inflight)))
  }

  /** db__message_reconnect_reset_outgoing */
  function ResetOut(cfg: Config, ctx: Context): MsgData
  {
    var es := ResetEntries(ctx.msgsOut.inflight);
    Refly(cfg, ctx, Out, Recounted(ctx.msgsOut, es), |es|)
  }

  /** db__message_reconnect_reset_incoming */
  function ResetIn(cfg: Config, ctx: Context): MsgData
  {
    var es := Qos2(ctx.msgsIn.inflight);
    Refly(cfg, ctx, In, Recounted(ctx.msgsIn, es), |es|)
  }

  lemma RecountedCounts(md: MsgData, inflight: seq<Entry>)
    ensures CountedTo(Recounted(md, inflight), |inflight|)
  {
    assert All(Recounted(md, inflight))[..|inflight|] == inflight;
  }

  method ResetOutLists(cfg: Config, ctx: Context) returns (r: MsgData)
    ensures r == ResetOut(cfg, ctx)
  {
    hide Refly, Bytes, Count12, Bytes12, ResetEntries;
    r := RestartOut(ctx.msgsOut);
    RestartedIs(ctx.msgsOut, r);
    r := RequeueAll(cfg, ctx, Out, r);
  }

  lemma RestartedIs(md: MsgData, r: MsgData)
    requires Restarting(md, r, |md.inflight|)
    ensures r == Recounted(md, ResetEntries(md.inflight))
  {
    var es := ResetEntries(md.inflight);
    assert es[..|md.inflight|] + md.inflight[|md.inflight|..] == es;
    assert md.inflight[..|md.inflight|] == md.inflight;
    assert All(r)[..|es|] == es;
  }

  method ResetInLists(cfg: Config, ctx: Context) returns (r: MsgData, dropped: seq<Entry>)
    ensures r == ResetIn(cfg, ctx) && dropped == NotQos2(ctx.msgsIn.inflight)
  {
    hide Refly, Bytes, Count12, Bytes12, Qos2, NotQos2;
    r, dropped := RestartIn(ctx.msgsIn);
    FilteredIs(ctx.msgsIn, r, dropped);
    r := RequeueAll(cfg, ctx, In, r);
  }

  lemma FilteredIs(md: MsgData, r: MsgData, dropped: seq<Entry>)
    requires Filtering(md, r, dropped, |md.inflight|)
    ensures r == Recounted(md, Qos2(md.inflight)) && dropped == NotQos2(md.inflight)
  {
    assert md.inflight[..|md.inflight|] == md.inflight;
    assert All(r)[..|r.inflight|] == r.inflight;
  }

  /** The outgoing reset conserves the entries in order; its recount is right, and agrees with
      counters that were right before. */
  lemma ResetOutKeeps(cfg: Config, ctx: Context)
    ensures var r := ResetOut(cfg, ctx);
            && SameMessages(All(r), All(ctx.msgsOut)) && CountersOk(r)
            && r.inflightMaximum == ctx.msgsOut.inflightMaximum
            && (CountersOk(ctx.msgsOut) ==>
                  && r.msgCount == ctx.msgsOut.msgCount && r.msgBytes == ctx.msgsOut.msgBytes
                  && r.msgCount12 == ctx.msgsOut.msgCount12 && r.msgBytes12 == ctx.msgsOut.msgBytes12)
  {
    hide Refly;
    var md := ctx.msgsOut;
    var es := ResetEntries(md.inflight);
    var m := Recounted(md, es);
    RecountedCounts(md, es);
    ReflyCounts(cfg, ctx, Out, m, |es|);
    assert SameMessages(All(m), All(md));
    SameTwice(All(ResetOut(cfg, ctx)), All(m), All(md));
    SameSums(All(ResetOut(cfg, ctx)), All(md));
  }

  /** The incoming reset keeps the entries of quality 2 and the queue, in order. */
  lemma ResetInKeeps(cfg: Config, ctx: Context)
    ensures var r := ResetIn(cfg, ctx);
            SameMessages(All(r), Qos2(ctx.msgsIn.inflight) + ctx.msgsIn.queued) && CountersOk(r)
  {
    hide Refly;
    var es := Qos2(ctx.msgsIn.inflight);
    var m := Recounted(ctx.msgsIn, es);
    RecountedCounts(ctx.msgsIn, es);
    ReflyCounts(cfg, ctx, In, m, |es|);
    assert All(m) == es + ctx.msgsIn.queued;
  }

  /** The reset and the entries it drops hold together what the lists held. */
  lemma ResetInUses(cfg: Config, ctx: Context, s: nat)
    ensures Uses(All(ResetIn(cfg, ctx)), s) + Uses(NotQos2(ctx.msgsIn.inflight), s) == Uses(All(ctx.msgsIn), s)
  {
    hide Refly, Qos2, NotQos2, Uses;
    var md := ctx.msgsIn;
    ResetInKeeps(cfg, ctx);
    SameSums(All(ResetIn(cfg, ctx)), Qos2(md.inflight) + md.queued);
    SumsConcat(Qos2(md.inflight), md.queued);
    SumsConcat(md.inflight, md.queued);
    FilterUses(md.inflight, s);
  }

  // ---------- states after the reset ----------

  /** The entry is sent again: to be published, or its PUBREL to be repeated. */
  predicate AtWork(e: Entry)
  {
    IsPublish(e.state) || e.state == ResendPubrel
  }

  /** The reset judges the queued entry at position i ready. */
  predicate ReadyAt(cfg: Config, ctx: Context, dir: Direction, md: MsgData, i: nat)
    requires i < |All(md)|
  {
    var e := All(md)[i];
    ReadyForFlight(cfg, WithLists(ctx, dir, Bumped(md, e.store.Len(), e.qos)), dir, e.qos)
  }

  /** No entry from position i on will be judged ready. */
  predicate NoneReady(cfg: Config, ctx: Context, dir: Direction, md: MsgData, i: nat)
    requires |md.inflight| <= i <= |All(md)|
    decreases |All(md)| - i
  {
    ReflownLength(cfg, ctx, dir, md, i);
    i == |All(md)| ||
    (!ReadyAt(cfg, ctx, dir, md, i) && NoneReady(cfg, ctx, dir, Reflown(cfg, ctx, dir, md, i), i + 1))
  }

  /** No entry judged ready comes behind one that is not. */
  predicate ReadyFirst(cfg: Config, ctx: Context, dir: Direction, md: MsgData, i: nat)
    requires |md.inflight| <= i <= |All(md)|
    decreases |All(md)| - i
  {
    ReflownLength(cfg, ctx, dir, md, i);
    i == |All(md)| ||
    if ReadyAt(cfg, ctx, dir, md, i) then ReadyFirst(cfg, ctx, dir, Reflown(cfg, ctx, dir, md, i), i + 1)
    else NoneReady(cfg, ctx, dir, Reflown(cfg, ctx, dir, md, i), i + 1)
  }

  lemma ReflownLength(cfg: Config, ctx: Context, dir: Direction, md: MsgData, i: nat)
    requires |md.inflight| <= i <= |All(md)|
    ensures i < |All(md)| ==>
              var r := Reflown(cfg, ctx, dir, md, i);
              && |All(r)| == |All(md)|
              && |r.inflight| == |md.inflight| + if ReadyAt(cfg, ctx, dir, md, i) then 1 else 0
  {
    hide ReadyForFlight;
  }

  /** The reset's second loop on the entries' states: only ready positions change. */
  lemma ReflownStates(cfg: Config, ctx: Context, dir: Direction, md: MsgData, i: nat)
    requires |md.inflight| <= i < |All(md)| && All(md)[i].qos <= 2
    ensures var r := Reflown(cfg, ctx, dir, md, i);
            && |All(r)| == |All(md)|
            && (forall j :: 0 <= j < |All(md)| && j != i ==> All(r)[j] == All(md)[j])
            && All(r)[i].qos == All(md)[i].qos
            && (if ReadyAt(cfg, ctx, dir, md, i) then AtWork(All(r)[i]) else All(r)[i] == All(md)[i])
  {
    hide ReadyForFlight;
    var e := All(md)[i];
    PromoteKeeps(Bumped(md, e.store.Len(), e.qos), i, PublishState(e.qos, e.state));
  }

  ghost predicate InflightAtWork(md: MsgData)
  {
    forall j :: 0 <= j < |md.inflight| ==> AtWork(md.inflight[j])
  }

  /** The shape of the lists while the second loop stands at position i. */
  ghost predicate Idling(md: MsgData, i: nat)
  {
    && |md.inflight| <= i <= |All(md)|
    && (forall j :: 0 <= j < |All(md)| ==> All(md)[j].qos <= 2)
    && (forall j :: i <= j < |All(md)| ==> All(md)[j].state == Queued)
  }

  lemma IdlingNext(cfg: Config, ctx: Context, dir: Direction, md: MsgData, i: nat)
    requires Idling(md, i) && i < |All(md)|
    ensures Idling(Reflown(cfg, ctx, dir, md, i), i + 1)
  {
    hide ReadyForFlight, Reflown;
    ReflownLength(cfg, ctx, dir, md, i);
    ReflownStates(cfg, ctx, dir, md, i);
  }

  /** Without a ready entry the boundary stays. */
  lemma {:induction false} NoneReadyStays(cfg: Config, ctx: Context, dir: Direction, md: MsgData, i: nat)
    requires Idling(md, i)
    ensures var r := Refly(cfg, ctx, dir, md, i);
            if NoneReady(cfg, ctx, dir, md, i) then r.inflight == md.inflight
            else |r.inflight| > |md.inflight|
    ensures |All(Refly(cfg, ctx, dir, md, i))| == |All(md)|
    ensures forall j :: 0 <= j < i ==> All(Refly(cfg, ctx, dir, md, i))[j] == All(md)[j]
    decreases |All(md)| - i
  {
    if i < |All(md)| {
      hide ReadyAt, Reflown, AtWork;
      var p := Reflown(cfg, ctx, dir, md, i);
      ReflownLength(cfg, ctx, dir, md, i);
      ReflownStates(cfg, ctx, dir, md, i);
      ReflyOnce(cfg, ctx, dir, md, i);
      IdlingNext(cfg, ctx, dir, md, i);
      hide Idling;
      NoneReadyStays(cfg, ctx, dir, p, i + 1);
      if !ReadyAt(cfg, ctx, dir, md, i) {
        assert forall j :: 0 <= j < |md.inflight| ==> p.inflight[j] == All(p)[j] == All(md)[j] == md.inflight[j];
        assert p.inflight == md.inflight;
      }
      ReflyGrows(cfg, ctx, dir, p, i + 1);
    }
  }

  lemma ReflyOnce(cfg: Config, ctx: Context, dir: Direction, md: MsgData, i: nat)
    requires |md.inflight| <= i < |All(md)|
    ensures |Reflown(cfg, ctx, dir, md, i).inflight| <= i + 1 <= |All(Reflown(cfg, ctx, dir, md, i))|
    ensures Refly(cfg, ctx, dir, md, i) == Refly(cfg, ctx, dir, Reflown(cfg, ctx, dir, md, i), i + 1)
  {
    hide Reflown;
    ReflownLength(cfg, ctx, dir, md, i);
  }

  lemma {:induction false} ReflyGrows(cfg: Config, ctx: Context, dir: Direction, md: MsgData, i: nat)
    requires |md.inflight| <= i <= |All(md)|
    ensures |Refly(cfg, ctx, dir, md, i).inflight| >= |md.inflight|
    decreases |All(md)| - i
  {
    if i < |All(md)| {
      hide Reflown, ReadyAt;
      ReflownLength(cfg, ctx, dir, md, i);
      ReflyOnce(cfg, ctx, dir, md, i);
      ReflyGrows(cfg, ctx, dir, Reflown(cfg, ctx, dir, md, i), i + 1);
    }
  }

  /** While the boundary keeps up with the position, everything inflight ends at work exactly when
      the ready entries come first. */
  lemma {:induction false} ReflyAtWorkIff(cfg: Config, ctx: Context, dir: Direction, md: MsgData)
    requires Idling(md, |md.inflight|) && InflightAtWork(md)
    ensures InflightAtWork(Refly(cfg, ctx, dir, md, |md.inflight|)) <==> ReadyFirst(cfg, ctx, dir, md, |md.inflight|)
    decreases |md.queued|
  {
    hide ReadyAt, Reflown;
    var i := |md.inflight|;
    if i < |All(md)| {
      var p := Reflown(cfg, ctx, dir, md, i);
      ReflownLength(cfg, ctx, dir, md, i);
      ReflownStates(cfg, ctx, dir, md, i);
      ReflyOnce(cfg, ctx, dir, md, i);
      IdlingNext(cfg, ctx, dir, md, i);
      assert forall j :: 0 <= j < |p.inflight| ==> p.inflight[j] == All(p)[j];
      assert forall j :: 0 <= j < |md.inflight| ==> md.inflight[j] == All(md)[j];
      if ReadyAt(cfg, ctx, dir, md, i) {
        ReflyAtWorkIff(cfg, ctx, dir, p);
      } else {
        LaggingIff(cfg, ctx, dir, p, i + 1);
      }
    }
  }

  /** Once an entry was passed over, any later ready entry pushes it inflight as it is. */
  lemma LaggingIff(cfg: Config, ctx: Context, dir: Direction, md: MsgData, i: nat)
    requires Idling(md, i) && |md.inflight| < i && InflightAtWork(md) && All(md)[|md.inflight|].state == Queued
    ensures InflightAtWork(Refly(cfg, ctx, dir, md, i)) <==> NoneReady(cfg, ctx, dir, md, i)
  {
    hide Refly, NoneReady;
    var b, r := |md.inflight|, Refly(cfg, ctx, dir, md, i);
    NoneReadyStays(cfg, ctx, dir, md, i);
    if |r.inflight| > b {
      assert r.inflight[b] == All(r)[b] == All(md)[b];
    }
  }

  /** After the outgoing reset every inflight entry is sent again exactly when, among the queued
      entries, no entry judged ready comes behind one that is not. */
  lemma ResetAtWorkIff(cfg: Config, ctx: Context)
    requires forall e :: e in All(ctx.msgsOut) ==> e.qos <= 2
    requires forall e :: e in ctx.msgsOut.queued ==> e.state == Queued
    ensures var md := Recounted(ctx.msgsOut, ResetEntries(ctx.msgsOut.inflight));
            InflightAtWork(ResetOut(cfg, ctx)) <==> ReadyFirst(cfg, ctx, Out, md, |md.inflight|)
  {
    hide Refly, ReadyFirst;
    var md := Recounted(ctx.msgsOut, ResetEntries(ctx.msgsOut.inflight));
    ResetIdle(ctx.msgsOut);
    ReflyAtWorkIff(cfg, ctx, Out, md);
  }

  lemma ResetIdle(md: MsgData)
    requires forall e :: e in All(md) ==> e.qos <= 2
    requires forall e :: e in md.queued ==> e.state == Queued
    ensures var r := Recounted(md, ResetEntries(md.inflight));
            Idling(r, |r.inflight|) && InflightAtWork(r)
  {
    hide ResetEntries, AtWork, Count12, Bytes, Bytes12, QuotaLeft;
    var es := ResetEntries(md.inflight);
    assert forall e :: e in md.inflight || e in md.queued ==> e in All(md);
    ResetAtWork(md.inflight);
    var all := All(Recounted(md, es));
    assert all == es + md.queued;
    forall j | |es| <= j < |all|
      ensures all[j].qos <= 2 && all[j].state == Queued
    {
      assert all[j] in md.queued;
    }
  }

  lemma ResetAtWork(es: seq<Entry>)
    requires forall e :: e in es ==> e.qos <= 2
    ensures |ResetEntries(es)| == |es|
    ensures forall j :: 0 <= j < |es| ==> AtWork(ResetEntries(es)[j]) && ResetEntries(es)[j].qos <= 2
  {
    forall j | 0 <= j < |es|
      ensures AtWork(ResetEntries(es)[j]) && ResetEntries(es)[j].qos <= 2
    {
      assert es[j] in es && ResetEntries(es)[j] == ResetEntry(es[j]);
    }
  }

  /** In particular when everything queued has a quality above 0, as it has unless messages of
      quality 0 are queued as well: readiness then only ever ends. */
  lemma {:induction false} AckedReadyFirst(cfg: Config, ctx: Context, md: MsgData, i: nat)
    requires |md.inflight| <= i <= |All(md)| && forall j :: i <= j < |All(md)| ==> 0 < All(md)[j].qos <= 2
    ensures ReadyFirst(cfg, ctx, Out, md, i)
    decreases |All(md)| - i
  {
    if i < |All(md)| {
      hide Reflown, ReadyAt;
      ReflownLength(cfg, ctx, Out, md, i);
      ReflownStates(cfg, ctx, Out, md, i);
      if ReadyAt(cfg, ctx, Out, md, i) {
        AckedReadyFirst(cfg, ctx, Reflown(cfg, ctx, Out, md, i), i + 1);
      } else {
        UnreadyStays(cfg, ctx, md, i);
        AckedNoneReady(cfg, ctx, Reflown(cfg, ctx, Out, md, i), i + 1);
      }
    }
  }

  /** No room for another acknowledged message on these counters. */
  predicate NoRoom(cfg: Config, md: MsgData)
  {
    var validBytes, validCount := md.msgBytes12 < cfg.maxInflightBytes, md.inflightQuota > 0;
    && !(md.inflightMaximum == 0 && cfg.maxInflightBytes == 0)
    && !(if md.inflightMaximum == 0 then validBytes
         else if cfg.maxInflightBytes == 0 then validCount else validBytes && validCount)
  }

  lemma UnreadyStays(cfg: Config, ctx: Context, md: MsgData, i: nat)
    requires |md.inflight| <= i < |All(md)| && All(md)[i].qos > 0 && !ReadyAt(cfg, ctx, Out, md, i)
    ensures NoRoom(cfg, Reflown(cfg, ctx, Out, md, i))
  {
  }

  lemma {:induction false} AckedNoneReady(cfg: Config, ctx: Context, md: MsgData, i: nat)
    requires |md.inflight| <= i <= |All(md)| && forall j :: i <= j < |All(md)| ==> 0 < All(md)[j].qos <= 2
    requires NoRoom(cfg, md)
    ensures NoneReady(cfg, ctx, Out, md, i)
    decreases |All(md)| - i
  {
    if i < |All(md)| {
      NoRoomNext(cfg, ctx, md, i);
      hide Reflown, ReadyAt, NoRoom;
      ReflownLength(cfg, ctx, Out, md, i);
      ReflownStates(cfg, ctx, Out, md, i);
      AckedNoneReady(cfg, ctx, Reflown(cfg, ctx, Out, md, i), i + 1);
    }
  }

  lemma NoRoomNext(cfg: Config, ctx: Context, md: MsgData, i: nat)
    requires |md.inflight| <= i < |All(md)| && All(md)[i].qos > 0 && NoRoom(cfg, md)
    ensures !ReadyAt(cfg, ctx, Out, md, i) && NoRoom(cfg, Reflown(cfg, ctx, Out, md, i))
  {
  }

  /** The other case is real: with one acknowledged entry allowed inflight, a queue of a message of
      quality 1 and one of quality 0 leaves the former inflight in the queued state. */
  lemma ResetLeavesQueued(cfg: Config, ctx: Context, a: Entry, b: Entry, z: Entry)
    requires cfg.maxInflightBytes == 0 && cfg.maxQueuedMessages == 0
    requires ctx.msgsOut.inflight == [a] && ctx.msgsOut.queued == [b, z] && ctx.msgsOut.inflightMaximum == 1
    requires a.qos == b.qos == 1 && z.qos == 0 && b.state == z.state == Queued
    ensures !InflightAtWork(ResetOut(cfg, ctx))
  {
    var md := Recounted(ctx.msgsOut, ResetEntries(ctx.msgsOut.inflight));
    SumsOne(a);
    assert All(ctx.msgsOut) == [a, b, z];
    ResetAtWorkIff(cfg, ctx);
    hide ResetOut, InflightAtWork;
    assert All(md)[1] == b && All(md)[2] == z && |md.inflight| == 1 && md.inflightQuota == 0;
    assert !ReadyAt(cfg, ctx, Out, md, 1);
    var p := Reflown(cfg, ctx, Out, md, 1);
    assert All(p) == All(md) && ReadyAt(cfg, ctx, Out, p, 2);
  }
}
