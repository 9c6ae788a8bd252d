/** Writing a client's inflight list to the network: db__message_write_inflight_out_single,
    _all and _latest of src/module/mqtt/database.c.

    The network is an oracle: `link(n)` is the result of the n-th send ever made.  The
    packets handed to it are logged in `sent`. */
module OutgoingWriter {
  import opened Messages

  const SUCCESS: int := 0
  const OVERSIZE_PACKET: int := 25
  const PROTOCOL: int := 2
  const NOT_FOUND: int := 6
  const NO_SUBSCRIBERS: int := -3

  datatype Packet =
    | Publish(mid: nat, store: Store, qos: nat, retain: bool, dup: bool)
    | Pubrel(mid: nat)
    | Pubrec(mid: nat, reason: nat)
    | Puback(mid: nat, reason: nat)
    | Pubcomp(mid: nat)

  type Link = nat -> int

  /** Lists, log and result of a write. */
  datatype Written = Written(md: MsgData, sent: seq<Packet>, rc: int)

  predicate Expired(e: Entry, now: int)
  {
    e.store.expiryTime != 0 && now > e.store.expiryTime
  }

  function PublishOf(e: Entry): Packet
  {
    Publish(e.mid, e.store, e.qos, e.retain, e.dup)
  }

  /** The state after a successful publish. */
  function AfterPublish(st: MsgState): MsgState
    requires st == PublishQos1 || st == PublishQos2
  {
    if st == PublishQos1 then WaitForPuback else WaitForPubrec
  }

  /** One entry: expired entries go, publishes and PUBREL retries are sent, others rest. */
  function Single(md: MsgData, i: nat, sent: seq<Packet>, link: Link, now: int): Written
    requires i < |md.inflight|
  {
    var e := md.inflight[i];
    if Expired(e, now) then
      Written(Removed(if e.direction == Out && e.qos > 0 then IncQuota(md) else md, i), sent, SUCCESS)
    else if IsPublish(e.state) then
      var rc, sent' := link(|sent|), sent + [PublishOf(e)];
      if rc == OVERSIZE_PACKET || (rc == SUCCESS && e.state == PublishQos0) then
        Written(Removed(md, i), sent', SUCCESS)
      else if rc == SUCCESS then
        Written(md.(inflight := md.inflight[i := e.(dup := true, state := AfterPublish(e.state))]), sent', SUCCESS)
      else
        Written(md, sent', rc)
    else if e.state == ResendPubrel then
      var rc, sent' := link(|sent|), sent + [Pubrel(e.mid)];
      if rc == SUCCESS then
        Written(md.(inflight := md.inflight[i := e.(state := WaitForPubcomp)]), sent', SUCCESS)
      else
        Written(md, sent', rc)
    else
      Written(md, sent, SUCCESS)
  }

  /** The loop from position i: the next entry is the one behind, which moves up on removal. */
  function From(md: MsgData, i: nat, sent: seq<Packet>, link: Link, now: int): Written
    requires i <= |md.inflight|
    decreases |md.inflight| - i
  {
    if i == |md.inflight| then Written(md, sent, SUCCESS) else
    var w := Single(md, i, sent, link, now);
    if w.rc != SUCCESS then w
    else if |w.md.inflight| < |md.inflight| then From(w.md, i, w.sent, link, now)
    else From(w.md, i + 1, w.sent, link, now)
  }

  /** Where the latest-write starts: behind the last entry, other than the head, that is not
      waiting to be published; at the head when there is none. */
  function Start(es: seq<Entry>): (k: nat)
    ensures k <= |es|
  {
    if |es| <= 1 then 0
    else if !IsPublish(es[|es| - 1].state) then |es|
    else Start(es[..|es| - 1])
  }

  /** Entries from the start on wait to be published, apart from the head; the one before it does not. */
  lemma {:induction false} StartMeans(es: seq<Entry>)
    ensures forall i :: 1 <= i < |es| && Start(es) <= i ==> IsPublish(es[i].state)
    ensures Start(es) > 0 ==> Start(es) >= 2 && !IsPublish(es[Start(es) - 1].state)
  {
    if |es| > 1 && IsPublish(es[|es| - 1].state) {
      StartMeans(es[..|es| - 1]);
    }
  }

  function WriteAll(md: MsgData, online: bool, sent: seq<Packet>, link: Link, now: int): Written
  {
    if online then From(md, 0, sent, link, now) else Written(md, sent, SUCCESS)
  }

  function WriteLatest(md: MsgData, online: bool, sent: seq<Packet>, link: Link, now: int): Written
  {
    if online then From(md, Start(md.inflight), sent, link, now) else Written(md, sent, SUCCESS)
  }

  // ---------- latest and all ----------

  /** The writer leaves the entry alone. */
  predicate Idle(e: Entry, now: int)
  {
    !Expired(e, now) && !IsPublish(e.state) && e.state != ResendPubrel
  }

  ghost predicate IdleUpTo(es: seq<Entry>, k: nat, now: int)
    requires k <= |es|
  {
    forall j :: 0 <= j < k ==> Idle(es[j], now)
  }

  lemma {:induction false} SkipIdle(md: MsgData, i: nat, k: nat, sent: seq<Packet>, link: Link, now: int)
    requires i <= k <= |md.inflight|
    requires forall j :: i <= j < k ==> Idle(md.inflight[j], now)
    ensures From(md, i, sent, link, now) == From(md, k, sent, link, now)
    decreases k - i
  {
    if i < k {
      assert Single(md, i, sent, link, now) == Written(md, sent, SUCCESS);
      hide Single;
      SkipIdle(md, i + 1, k, sent, link, now);
    }
  }

  /** On a link that never fails, a single write removes its entry or leaves it idle. */
  lemma SingleSettles(md: MsgData, i: nat, sent: seq<Packet>, link: Link, now: int)
    requires i < |md.inflight| && link(|sent|) == SUCCESS
    ensures var w := Single(md, i, sent, link, now);
            && w.rc == SUCCESS
            && (w.md.inflight == md.inflight[..i] + md.inflight[i + 1..]
                || (|w.md.inflight| == |md.inflight| && Idle(w.md.inflight[i], now) && w.md.inflight[..i] == md.inflight[..i]))
  {
  }

  /** Writing from i on leaves the entries before i alone, and no entry from i on with work to do. */
  ghost predicate Settled(md: MsgData, i: nat, w: Written, now: int)
    requires i <= |md.inflight|
  {
    && i <= |w.md.inflight| && w.md.inflight[..i] == md.inflight[..i]
    && forall j :: i <= j < |w.md.inflight| ==> Idle(w.md.inflight[j], now)
  }

  lemma SettledCut(md: MsgData, md': MsgData, i: nat, w: Written, now: int)
    requires i < |md.inflight| && md'.inflight == md.inflight[..i] + md.inflight[i + 1..]
    requires Settled(md', i, w, now)
    ensures Settled(md, i, w, now)
  {
    assert md'.inflight[..i] == md.inflight[..i];
  }

  lemma SettledNext(md: MsgData, md': MsgData, i: nat, w: Written, now: int)
    requires i < |md.inflight| == |md'.inflight| && md'.inflight[..i] == md.inflight[..i]
    requires Idle(md'.inflight[i], now) && Settled(md', i + 1, w, now)
    ensures Settled(md, i, w, now)
  {
    hide Idle;
    var r, es := w.md.inflight, md'.inflight;
    assert r[..i] == r[..i + 1][..i] && es[..i] == es[..i + 1][..i];
    assert r[i] == r[..i + 1][i] == es[..i + 1][i];
  }

  lemma {:induction false} NothingLeft(md: MsgData, i: nat, sent: seq<Packet>, link: Link, now: int)
    requires i <= |md.inflight|
    requires forall n :: link(n) == SUCCESS
    ensures Settled(md, i, From(md, i, sent, link, now), now)
    decreases |md.inflight| - i
  {
    if i < |md.inflight| {
      hide Single, Idle, Settled;
      var w := Single(md, i, sent, link, now);
      SingleSettles(md, i, sent, link, now);
      if |w.md.inflight| < |md.inflight| {
        NothingLeft(w.md, i, w.sent, link, now);
        SettledCut(md, w.md, i, From(w.md, i, w.sent, link, now), now);
      } else {
        NothingLeft(w.md, i + 1, w.sent, link, now);
        SettledNext(md, w.md, i, From(w.md, i + 1, w.sent, link, now), now);
      }
    }
  }

  /** The latest-write does what the full write does, on every network, exactly when the
      writer would leave every entry before its start alone. */
  lemma LatestIsAll(md: MsgData, now: int)
    ensures (forall sent, link :: WriteLatest(md, true, sent, link, now) == WriteAll(md, true, sent, link, now))
            <==> IdleUpTo(md.inflight, Start(md.inflight), now)
  {
    var k := Start(md.inflight);
    if IdleUpTo(md.inflight, k, now) {
      forall sent, link
        ensures WriteLatest(md, true, sent, link, now) == WriteAll(md, true, sent, link, now)
      {
        SkipIdle(md, 0, k, sent, link, now);
      }
    } else {
      var j :| 0 <= j < k && !Idle(md.inflight[j], now);
      var link: Link := n => SUCCESS;
      var latest, all := WriteLatest(md, true, [], link, now), WriteAll(md, true, [], link, now);
      NothingLeft(md, k, [], link, now);
      NothingLeft(md, 0, [], link, now);
      assert latest.md.inflight[j] == latest.md.inflight[..k][j] == md.inflight[j];
      assert latest != all;
    }
  }

  // ---------- the suffix shape ----------

  /** Entries waiting to be published form a suffix. */
  ghost predicate PendingSuffix(es: seq<Entry>)
  {
    forall i, j :: 0 <= i < j < |es| && IsPublish(es[i].state) ==> IsPublish(es[j].state)
  }

  /** With a pending suffix and nothing else to do before it, the latest-write suffices. */
  lemma SuffixSuffices(md: MsgData, now: int, sent: seq<Packet>, link: Link, online: bool)
    requires PendingSuffix(md.inflight)
    requires forall i :: 0 <= i < |md.inflight| && !IsPublish(md.inflight[i].state) ==>
               !Expired(md.inflight[i], now) && md.inflight[i].state != ResendPubrel
    ensures WriteLatest(md, online, sent, link, now) == WriteAll(md, online, sent, link, now)
  {
    var k := Start(md.inflight);
    StartMeans(md.inflight);
    assert forall j :: 0 <= j < k ==> !IsPublish(md.inflight[j].state);
    LatestIsAll(md, now);
  }

  lemma SuffixAppend(es: seq<Entry>, e: Entry)
    requires PendingSuffix(es) && IsPublish(e.state)
    ensures PendingSuffix(es + [e])
  {
  }

  lemma SuffixRemove(es: seq<Entry>, i: nat)
    requires PendingSuffix(es) && i < |es|
    ensures PendingSuffix(es[..i] + es[i + 1..])
  {
    var r := es[..i] + es[i + 1..];
    assert forall k :: 0 <= k < |r| ==> r[k] == es[if k < i then k else k + 1];
  }

  /** Exactly the entries from i on wait to be published. */
  ghost predicate PendingFrom(es: seq<Entry>, i: nat)
  {
    && i <= |es|
    && (forall j :: 0 <= j < i ==> !IsPublish(es[j].state))
    && (forall j :: i <= j < |es| ==> IsPublish(es[j].state))
  }

  lemma SinglePending(md: MsgData, i: nat, sent: seq<Packet>, link: Link, now: int)
    requires PendingFrom(md.inflight, i) && i < |md.inflight|
    ensures var w := Single(md, i, sent, link, now);
            if w.rc != SUCCESS then w.md == md
            else PendingFrom(w.md.inflight, if |w.md.inflight| < |md.inflight| then i else i + 1)
  {
    var w := Single(md, i, sent, link, now);
    if |w.md.inflight| < |md.inflight| {
      assert forall j :: 0 <= j < |w.md.inflight| ==> w.md.inflight[j] == md.inflight[if j < i then j else j + 1];
    }
  }

  /** Writing on from the first pending entry keeps the suffix shape, also when a send fails. */
  lemma {:induction false} SuffixFrom(md: MsgData, i: nat, sent: seq<Packet>, link: Link, now: int)
    requires PendingFrom(md.inflight, i)
    ensures PendingSuffix(From(md, i, sent, link, now).md.inflight)
    decreases |md.inflight| - i
  {
    if i < |md.inflight| {
      var w := Single(md, i, sent, link, now);
      SinglePending(md, i, sent, link, now);
      hide Single;
      if w.rc == SUCCESS {
        SuffixFrom(w.md, if |w.md.inflight| < |md.inflight| then i else i + 1, w.sent, link, now);
      }
    }
  }

  /** The latest-write keeps the suffix shape. */
  lemma SuffixLatest(md: MsgData, online: bool, sent: seq<Packet>, link: Link, now: int)
    requires PendingSuffix(md.inflight)
    ensures PendingSuffix(WriteLatest(md, online, sent, link, now).md.inflight)
  {
    if online {
      var es, k := md.inflight, Start(md.inflight);
      StartMeans(es);
      if k == 0 && es != [] && !IsPublish(es[0].state) {
        var w := Single(md, 0, sent, link, now);
        if w.rc == SUCCESS {
          if |w.md.inflight| < |es| {
            assert w.md.inflight == es[1..];
            SuffixFrom(w.md, 0, w.sent, link, now);
          } else {
            SuffixFrom(w.md, 1, w.sent, link, now);
          }
        }
      } else {
        assert forall j :: 0 <= j < k ==> !IsPublish(es[j].state);
        SuffixFrom(md, k, sent, link, now);
      }
    }
  }

  // ---------- what writing keeps ----------

  /** Writing keeps the counters right. */
  lemma SingleKeepsCounters(md: MsgData, i: nat, sent: seq<Packet>, link: Link, now: int)
    requires i < |md.inflight| && CountersOk(md)
    ensures CountersOk(Single(md, i, sent, link, now).md)
  {
    var e := md.inflight[i];
    RemoveKeeps(md, i);
    RemoveKeeps(IncQuota(md), i);
    StateChangeKeeps(md, i, e.(state := WaitForPubcomp));
    StateChangeKeeps(md, i, e.(dup := true, state := WaitForPuback));
    StateChangeKeeps(md, i, e.(dup := true, state := WaitForPubrec));
  }
}
