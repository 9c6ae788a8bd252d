/** What a write of a client's inflight list owes the network, packet by packet, and what every
    entry waits for afterwards (db__message_write_inflight_out_single, _all and _latest of
    src/module/mqtt/database.c). */
module WriteLaws {
  import opened Messages
  import opened OutgoingWriter

  predicate Over(e: Entry, now: int)
  {
    e.store.expiryTime != 0 && now > e.store.expiryTime
  }

  /** The packet that an entry is to be sent with. */
  function Owed(e: Entry, now: int): seq<Packet>
  {
    if Over(e, now) then [] else
    match e.state
    case PublishQos0 | PublishQos1 | PublishQos2 => [Publish(e.mid, e.store, e.qos, e.retain, e.dup)]
    case ResendPubrel => [Pubrel(e.mid)]
    case _ => []
  }

  /** What is left of an entry once it was sent: quality 0 is done, quality 1 waits for a PUBACK,
      quality 2 for a PUBREC, and a PUBREL for a PUBCOMP. */
  function Remains(e: Entry, now: int): seq<Entry>
  {
    if Over(e, now) then [] else
    match e.state
    case PublishQos0 => []
    case PublishQos1 => [e.(state := WaitForPuback, dup := true)]
    case PublishQos2 => [e.(state := WaitForPubrec, dup := true)]
    case ResendPubrel => [e.(state := WaitForPubcomp)]
    case _ => [e]
  }

  function OwedAll(es: seq<Entry>, now: int): seq<Packet>
  {
    if es == [] then [] else Owed(es[0], now) + OwedAll(es[1..], now)
  }

  function RemainsAll(es: seq<Entry>, now: int): seq<Entry>
  {
    if es == [] then [] else Remains(es[0], now) + RemainsAll(es[1..], now)
  }

  /** Expired entries that had taken from the send quota. */
  function Freed(es: seq<Entry>, now: int): nat
  {
    if es == [] then 0
    else (if Over(es[0], now) && es[0].direction == Out && es[0].qos > 0 then 1 else 0) + Freed(es[1..], now)
  }

  /** A quota after so many credits. */
  function Topped(quota: int, maximum: nat, credits: nat): int
  {
    if quota >= maximum then quota else if quota + credits >= maximum then maximum else quota + credits
  }

  /** The send failed for good: neither done nor given up as too large. */
  predicate Broken(e: Entry, now: int, rc: int)
  {
    Owed(e, now) != [] && rc != 0 && !(rc == 25 && e.state != ResendPubrel)
  }

  /** One entry, for every result of the send: a PUBLISH too large for the client is given up, any
      other failure leaves the entry as it was. */
  lemma SingleIs(md: MsgData, i: nat, sent: seq<Packet>, link: Link, now: int)
    requires i < |md.inflight|
    ensures var e, rc, w := md.inflight[i], link(|sent|), Single(md, i, sent, link, now);
            && w.sent == sent + Owed(e, now)
            && w.rc == (if Broken(e, now, rc) then rc else 0)
            && w.md.inflight == md.inflight[..i] + (if Broken(e, now, rc) then [e]
                                                    else if Owed(e, now) != [] && rc == 25 then []
                                                    else Remains(e, now)) + md.inflight[i + 1..]
            && w.md.queued == md.queued && w.md.inflightMaximum == md.inflightMaximum
            && w.md.inflightQuota == Topped(md.inflightQuota, md.inflightMaximum, Freed([e], now))
  {
    var e := md.inflight[i];
    assert [e][1..] == [];
    assert md.inflight == md.inflight[..i] + [e] + md.inflight[i + 1..];
    assert md.inflight[i := e.(state := WaitForPubcomp)] == md.inflight[..i] + [e.(state := WaitForPubcomp)] + md.inflight[i + 1..];
  }

  /** From entry i on exactly the packets owed were sent, one for each entry with work to do, in the
      order of the list; exactly what is left of them remains. */
  ghost predicate WroteOut(md: MsgData, i: nat, sent: seq<Packet>, now: int, w: Written)
    requires i <= |md.inflight|
  {
    && w.rc == 0
    && w.sent == sent + OwedAll(md.inflight[i..], now)
    && w.md.inflight == md.inflight[..i] + RemainsAll(md.inflight[i..], now)
    && w.md.queued == md.queued && w.md.inflightMaximum == md.inflightMaximum
    && w.md.inflightQuota == Topped(md.inflightQuota, md.inflightMaximum, Freed(md.inflight[i..], now))
  }

  /** On a network that never fails this is what a write does. */
  lemma {:induction false} WriteExact(md: MsgData, i: nat, sent: seq<Packet>, link: Link, now: int)
    requires i <= |md.inflight| && forall n :: link(n) == 0
    ensures WroteOut(md, i, sent, now, From(md, i, sent, link, now))
    decreases |md.inflight| - i
  {
    hide Single, Owed, Remains, WroteOut, Freed, Topped;
    if i < |md.inflight| {
      var w, e := Single(md, i, sent, link, now), md.inflight[i];
      SingleIs(md, i, sent, link, now);
      RemainsAtMostOne(e, now);
      WriteExact(w.md, i + |Remains(e, now)|, w.sent, link, now);
      WroteOn(md, w.md, i, sent, w.sent, now, From(w.md, i + |Remains(e, now)|, w.sent, link, now));
    } else {
      WroteEnd(md, sent, now);
    }
  }

  lemma WroteEnd(md: MsgData, sent: seq<Packet>, now: int)
    ensures WroteOut(md, |md.inflight|, sent, now, Written(md, sent, 0))
  {
  }

  lemma WroteOn(md: MsgData, md': MsgData, i: nat, sent: seq<Packet>, sent': seq<Packet>, now: int, w: Written)
    requires i < |md.inflight| && |Remains(md.inflight[i], now)| <= 1 && sent' == sent + Owed(md.inflight[i], now)
    requires md'.inflight == md.inflight[..i] + Remains(md.inflight[i], now) + md.inflight[i + 1..]
    requires md'.queued == md.queued && md'.inflightMaximum == md.inflightMaximum
    requires md'.inflightQuota == Topped(md.inflightQuota, md.inflightMaximum, Freed([md.inflight[i]], now))
    requires WroteOut(md', i + |Remains(md.inflight[i], now)|, sent', now, w)
    ensures WroteOut(md, i, sent, now, w)
  {
    hide Owed, Remains, Over;
    var es, e := md.inflight, md.inflight[i];
    var k := i + |Remains(e, now)|;
    assert es[i..][1..] == es[i + 1..] == md'.inflight[k..];
    assert md'.inflight[..k] == es[..i] + Remains(e, now);
    assert [e][1..] == [];
  }

  lemma RemainsAtMostOne(e: Entry, now: int)
    ensures |Remains(e, now)| <= 1
  {
  }

  /** On any network the write sends what it owes up to some entry.  It ends early only with a send
      that failed: the log ends with that packet, and that entry and those behind it are as they
      were.  Of the entries before, what is left is what should be, unless given up as too large. */
  lemma {:induction false} WriteAny(md: MsgData, i: nat, sent: seq<Packet>, link: Link, now: int)
    returns (n: nat, kept: seq<Entry>)
    requires i <= |md.inflight|
    ensures WrittenTo(md.inflight, i, n, kept, sent, link, now, From(md, i, sent, link, now))
    decreases |md.inflight| - i
  {
    hide Single, Owed, Remains, WrittenTo;
    var es := md.inflight;
    if i == |es| {
      n, kept := i, [];
      WrittenAll(es, sent, link, now, md);
    } else {
      var e, rc := es[i], link(|sent|);
      var w := Single(md, i, sent, link, now);
      SingleIs(md, i, sent, link, now);
      RemainsAtMostOne(e, now);
      if w.rc != 0 {
        n, kept := i + 1, [];
        WrittenBroken(es, i, sent, link, now, w);
      } else {
        var mine := if Owed(e, now) != [] && rc == 25 then [] else Remains(e, now);
        assert w.md.inflight == es[..i] + mine + es[i + 1..];
        var rest: seq<Entry>;
        if mine == [] {
          n, rest := WriteAny(w.md, i, w.sent, link, now);
          assert |w.md.inflight| < |es|;
        } else {
          n, rest := WriteAny(w.md, i + 1, w.sent, link, now);
          assert |w.md.inflight| == |es|;
        }
        WrittenOn(es, w.md.inflight, i, mine, n, rest, sent, link, now,
                  From(w.md, i + |mine|, w.sent, link, now));
        n := n + 1 - |mine|;
        kept := mine + rest;
      }
    }
  }

  ghost predicate WrittenTo(es: seq<Entry>, i: nat, n: nat, kept: seq<Entry>, sent: seq<Packet>, link: Link, now: int, w: Written)
  {
    && i <= n <= |es|
    && w.sent == sent + OwedAll(es[i..n], now)
    && (w.rc == 0 ==> n == |es| && w.md.inflight == es[..i] + kept)
    && (w.rc != 0 ==>
          && i < n && w.md.inflight == es[..i] + kept + es[n - 1..]
          && Owed(es[n - 1], now) != [] && w.sent != [] && w.sent[|w.sent| - 1] == Owed(es[n - 1], now)[0]
          && w.rc == link(|w.sent| - 1))
    && KeptFrom(es, i, n, kept, now)
  }

  /** What is kept is what is left of some of the entries. */
  ghost predicate KeptFrom(es: seq<Entry>, i: nat, n: nat, kept: seq<Entry>, now: int)
    requires n <= |es|
  {
    forall x :: x in kept ==> exists j :: i <= j < n && Remains(es[j], now) == [x]
  }

  lemma WrittenAll(es: seq<Entry>, sent: seq<Packet>, link: Link, now: int, md: MsgData)
    requires md.inflight == es
    ensures WrittenTo(es, |es|, |es|, [], sent, link, now, Written(md, sent, 0))
  {
  }

  lemma WrittenBroken(es: seq<Entry>, i: nat, sent: seq<Packet>, link: Link, now: int, w: Written)
    requires i < |es| && w.rc != 0 && Broken(es[i], now, link(|sent|))
    requires w.rc == link(|sent|) && w.sent == sent + Owed(es[i], now) && w.md.inflight == es[..i] + [es[i]] + es[i + 1..]
    ensures WrittenTo(es, i, i + 1, [], sent, link, now, w)
  {
    assert es[i..i + 1] == [es[i]] && [es[i]][1..] == [];
    assert OwedAll([es[i]], now) == Owed(es[i], now) + [];
    assert es[i..] == [es[i]] + es[i + 1..];
  }

  lemma KeptOn(es: seq<Entry>, es': seq<Entry>, i: nat, mine: seq<Entry>, n: nat, rest: seq<Entry>, now: int)
    requires i < |es| && |mine| <= 1 && es' == es[..i] + mine + es[i + 1..] && i + |mine| <= n <= |es'|
    requires mine == [] || Remains(es[i], now) == mine
    requires KeptFrom(es', i + |mine|, n, rest, now)
    ensures KeptFrom(es, i, n + 1 - |mine|, mine + rest, now)
  {
    hide Remains;
    forall x | x in mine + rest
      ensures exists j :: i <= j < n + 1 - |mine| && Remains(es[j], now) == [x]
    {
      if x in rest {
        var j :| i + |mine| <= j < n && Remains(es'[j], now) == [x];
        assert es'[j] == es[j + 1 - |mine|];
      } else {
        assert Remains(es[i], now) == [x];
      }
    }
  }

  lemma ListOn(es: seq<Entry>, es': seq<Entry>, i: nat, mine: seq<Entry>, n: nat, rest: seq<Entry>)
    requires i < |es| && |mine| <= 1 && es' == es[..i] + mine + es[i + 1..] && i + |mine| <= n <= |es'|
    ensures es'[..i + |mine|] + rest == es[..i] + (mine + rest)
    ensures n > i + |mine| ==> es'[n - 1] == es[n - |mine|] && es'[n - 1..] == es[n - |mine|..]
  {
    assert es'[..i + |mine|] == es[..i] + mine;
  }

  /** One entry was dealt with and mine is left of it; the rest was written from there. */
  lemma WrittenOn(es: seq<Entry>, es': seq<Entry>, i: nat, mine: seq<Entry>, n: nat, rest: seq<Entry>, sent: seq<Packet>,
                  link: Link, now: int, w: Written)
    requires i < |es| && |mine| <= 1 && es' == es[..i] + mine + es[i + 1..]
    requires mine == [] || Remains(es[i], now) == mine
    requires WrittenTo(es', i + |mine|, n, rest, sent + Owed(es[i], now), link, now, w)
    ensures WrittenTo(es, i, n + 1 - |mine|, mine + rest, sent, link, now, w)
  {
    hide Owed, Remains, KeptFrom;
    var k, m := i + |mine|, n + 1 - |mine|;
    assert es'[k..n] == es[i + 1..m] == es[i..m][1..];
    assert OwedAll(es[i..m], now) == Owed(es[i], now) + OwedAll(es'[k..n], now);
    hide OwedAll;
    KeptOn(es, es', i, mine, n, rest, now);
    ListOn(es, es', i, mine, n, rest);
  }

  lemma {:induction false} OwedConcat(a: seq<Entry>, b: seq<Entry>, now: int)
    ensures OwedAll(a + b, now) == OwedAll(a, now) + OwedAll(b, now)
  {
    if a == [] {
      assert a + b == b;
    } else {
      assert (a + b)[1..] == a[1..] + b;
      OwedConcat(a[1..], b, now);
    }
  }

  lemma {:induction false} NothingOwed(es: seq<Entry>, now: int)
    requires forall i :: 0 <= i < |es| ==> Idle(es[i], now)
    ensures OwedAll(es, now) == []
  {
    if es != [] { NothingOwed(es[1..], now); }
  }

  lemma {:induction false} StartAtMost(a: seq<Entry>, b: seq<Entry>)
    requires b != [] && forall i :: 0 <= i < |b| ==> IsPublish(b[i].state)
    ensures Start(a + b) <= |a|
    decreases |b|
  {
    var n := |b| - 1;
    assert (a + b)[..|a| + n] == a + b[..n];
    if n > 0 { StartAtMost(a, b[..n]); } else { assert a + b[..0] == a; }
  }

  /** The latest-write of a list whose entries with work to do stand at its end, all to be published. */
  lemma LatestSends(md: MsgData, idle: seq<Entry>, next: seq<Entry>, sent: seq<Packet>, link: Link, now: int)
    requires md.inflight == idle + next && forall n :: link(n) == 0
    requires forall i :: 0 <= i < |idle| ==> Idle(idle[i], now)
    requires forall i :: 0 <= i < |next| ==> IsPublish(next[i].state)
    ensures WriteLatest(md, true, sent, link, now).sent == sent + OwedAll(next, now)
  {
    hide From, OwedAll, RemainsAll, Freed, Topped, Start, Idle, IsPublish;
    var k := Start(md.inflight);
    if next != [] { StartAtMost(idle, next); }
    WriteExact(md, k, sent, link, now);
    assert md.inflight[k..] == idle[k..] + next;
    OwedConcat(idle[k..], next, now);
    NothingOwed(idle[k..], now);
    assert [] + OwedAll(next, now) == OwedAll(next, now);
  }
}
