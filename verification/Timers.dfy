/** The timer list of src/opbox/uloop.c, ordered by a millisecond difference that
    truncates toward zero. */
module Timers {

  /** struct timeval.  A set timer may carry tv_usec == 1000000. */
  datatype Time = Time(sec: int, usec: int)

  predicate Normal(t: Time)
  {
    0 <= t.usec <= 1_000_000
  }

  /** What clock_gettime gives after dividing nanoseconds. */
  predicate Clock(t: Time)
  {
    0 <= t.usec < 1_000_000
  }

  function Micros(t: Time): int
  {
    t.sec * 1_000_000 + t.usec
  }

  /** C division by 1000. */
  function Trunc1000(x: int): int
  {
    if x >= 0 then x / 1000 else -((-x) / 1000)
  }

  /** Conversion of a long to int. */
  function ToInt32(x: int): (r: int)
    ensures -0x8000_0000 <= r < 0x8000_0000
    ensures -0x8000_0000 <= x < 0x8000_0000 ==> r == x
  {
    var m := x % 0x1_0000_0000;
    if m < 0x8000_0000 then m else m - 0x1_0000_0000
  }

  function Millis(t1: Time, t2: Time): int
  {
    (t1.sec - t2.sec) * 1000 + Trunc1000(t1.usec - t2.usec)
  }

  function TvDiff(t1: Time, t2: Time): int
  {
    ToInt32(Millis(t1, t2))
  }

  /** The difference fits the int it is returned in. */
  predicate InRange(t1: Time, t2: Time)
  {
    -0x8000_0000 <= Millis(t1, t2) < 0x8000_0000
  }

  /** tv_diff reports t1 later than t2. */
  predicate Later(t1: Time, t2: Time)
  {
    TvDiff(t1, t2) > 0
  }

  // ---------- the order ----------

  /** What "later" means: inside a second a full millisecond, across seconds any difference. */
  lemma LaterMeans(a: Time, b: Time)
    requires Normal(a) && Normal(b) && InRange(a, b)
    ensures Later(a, b) <==>
              a.sec > b.sec + 1 || (a.sec == b.sec + 1 && Micros(a) > Micros(b)) ||
              (a.sec == b.sec && Micros(a) - Micros(b) >= 1000)
  {
  }

  lemma LaterTransitive(a: Time, b: Time, c: Time)
    requires Normal(a) && Normal(b) && Normal(c)
    requires InRange(a, b) && InRange(b, c) && InRange(a, c)
    requires Later(a, b) && Later(b, c)
    ensures Later(a, c)
  {
    LaterMeans(a, b);
    LaterMeans(b, c);
    LaterMeans(a, c);
  }

  lemma LaterAsymmetric(a: Time, b: Time)
    requires Normal(a) && Normal(b) && InRange(a, b) && InRange(b, a)
    requires Later(a, b)
    ensures !Later(b, a)
  {
    LaterMeans(a, b);
    LaterMeans(b, a);
  }

  /** Ties are not transitive, so the order is not a total preorder. */
  lemma TiesNotTransitive(a: Time, b: Time, c: Time)
    requires Normal(a) && Normal(b) && Normal(c) && a.sec == b.sec == c.sec
    requires b.usec == a.usec + 600 && c.usec == b.usec + 600
    ensures !Later(a, b) && !Later(b, a) && !Later(b, c) && !Later(c, b) && Later(c, a)
  {
    assert InRange(a, b) && InRange(b, a) && InRange(b, c) && InRange(c, b) && InRange(c, a);
    hide Later, InRange;
    LaterMeans(a, b);
    LaterMeans(b, a);
    LaterMeans(b, c);
    LaterMeans(c, b);
    LaterMeans(c, a);
  }

  /** The comparison has the sign of the millisecond difference exactly when the difference,
      reduced to an int, is positive just if it was before; below 2^32 milliseconds, exactly
      when the difference fits the int. */
  lemma LaterRightIff(a: Time, b: Time)
    ensures (Later(a, b) <==> Millis(a, b) > 0) <==>
            (0 < Millis(a, b) % 0x1_0000_0000 < 0x8000_0000 <==> Millis(a, b) > 0)
    ensures -0x1_0000_0000 < Millis(a, b) < 0x1_0000_0000 ==>
              ((Later(a, b) <==> Millis(a, b) > 0) <==> InRange(a, b))
  {
    hide Millis;
    var x := Millis(a, b);
    if 0 <= x < 0x1_0000_0000 {
      assert x % 0x1_0000_0000 == x;
    } else if -0x1_0000_0000 < x < 0 {
      assert x % 0x1_0000_0000 == x + 0x1_0000_0000;
    }
  }

  /** From 2^31 to 2^32 milliseconds apart two times are ordered the wrong way round. */
  lemma WrapMisorders(late: Time, early: Time)
    requires 0x8000_0000 < Millis(late, early) < 0x1_0000_0000
    ensures !Later(late, early) && Later(early, late)
  {
    hide Millis;
    MillisBack(early, late);
    LaterRightIff(late, early);
    LaterRightIff(early, late);
  }

  lemma MillisBack(a: Time, b: Time)
    ensures Millis(a, b) == -Millis(b, a)
  {
  }

  lemma LaterIsLater(a: Time, b: Time)
    requires Normal(a) && Normal(b) && InRange(a, b) && Later(a, b)
    ensures Micros(a) > Micros(b)
  {
    LaterMeans(a, b);
  }

  // ---------- the list ----------

  datatype Timer = Timer(id: nat, time: Time)

  /** A set of times any two of which differ by milliseconds that fit an int. */
  ghost predicate Comparable(span: iset<Time>)
  {
    forall a, b :: a in span && b in span ==> Normal(a) && InRange(a, b)
  }

  /** Times at most the largest int of milliseconds apart are comparable, so every int delay is. */
  lemma DelaysComparable(lo: int)
    ensures Comparable(iset t: Time | Normal(t) && lo <= Micros(t) <= lo + 2_147_483_647_000)
  {
    var span := iset t: Time | Normal(t) && lo <= Micros(t) <= lo + 2_147_483_647_000;
    forall a, b | a in span && b in span
      ensures Normal(a) && InRange(a, b)
    {
      MicrosInRange(a, b);
    }
  }

  lemma MicrosInRange(a: Time, b: Time)
    requires Normal(a) && Normal(b) && -2_147_483_647_000 <= Micros(a) - Micros(b) <= 2_147_483_647_000
    ensures InRange(a, b)
  {
    var s, u := a.sec - b.sec, a.usec - b.usec;
    assert Micros(a) - Micros(b) == s * 1_000_000 + u;
    assert -1000 <= Trunc1000(u) <= 1000 && -999 <= u - 1000 * Trunc1000(u) <= 999;
  }

  /** No timer stands before one it is later than. */
  ghost predicate Ordered(ts: seq<Timer>)
  {
    forall i, j :: 0 <= i < j < |ts| ==> !Later(ts[i].time, ts[j].time)
  }

  ghost predicate AllIn(span: iset<Time>, ts: seq<Timer>)
  {
    forall i :: 0 <= i < |ts| ==> ts[i].time in span
  }

  /** The list is ordered, with all its times in the span. */
  ghost predicate Good(span: iset<Time>, ts: seq<Timer>)
  {
    Ordered(ts) && AllIn(span, ts)
  }

  ghost predicate Distinct(ts: seq<Timer>)
  {
    forall i, j :: 0 <= i < j < |ts| ==> ts[i].id != ts[j].id
  }

  function Ids(ts: seq<Timer>): set<nat>
  {
    set i | 0 <= i < |ts| :: ts[i].id
  }

  /** Inserting before the first later timer keeps the order although ties do not compose. */
  lemma InsertKeepsOrder(span: iset<Time>, ts: seq<Timer>, x: Timer, k: nat)
    requires Comparable(span) && Good(span, ts) && x.time in span && k <= |ts|
    requires forall i :: 0 <= i < k ==> !Later(ts[i].time, x.time)
    requires k < |ts| ==> Later(ts[k].time, x.time)
    ensures Good(span, ts[..k] + [x] + ts[k..])
  {
    hide Later, Comparable;
    var r := ts[..k] + [x] + ts[k..];
    forall j | k <= j < |ts|
      ensures !Later(x.time, ts[j].time)
    {
      LaterThanNone(span, ts, x, k, j);
    }
    forall i, j | 0 <= i < j < |r|
      ensures !Later(r[i].time, r[j].time)
    {
      assert i != k ==> r[i] == ts[if i < k then i else i - 1];
      assert j != k ==> r[j] == ts[if j < k then j else j - 1];
    }
  }

  lemma LaterThanNone(span: iset<Time>, ts: seq<Timer>, x: Timer, k: nat, j: nat)
    requires Comparable(span) && Good(span, ts) && x.time in span
    requires k <= j < |ts| && Later(ts[k].time, x.time)
    ensures !Later(x.time, ts[j].time)
  {
    hide Later, InRange;
    var a, b := ts[k].time, ts[j].time;
    if Later(x.time, b) {
      LaterTransitive(a, x.time, b);
      if j == k { LaterAsymmetric(a, x.time); }
    }
  }

  lemma CutKeepsOrder(span: iset<Time>, ts: seq<Timer>, k: nat)
    requires Good(span, ts) && k < |ts|
    ensures Good(span, ts[..k] + ts[k + 1..])
  {
    hide Later;
    var r := ts[..k] + ts[k + 1..];
    assert forall i :: 0 <= i < |r| ==> r[i] == ts[if i < k then i else i + 1];
  }

  /** If the head is later than now, so is every timer's true time. */
  lemma HeadDecides(span: iset<Time>, ts: seq<Timer>, now: Time, j: nat)
    requires Comparable(span) && Good(span, ts) && now in span && Clock(now)
    requires j < |ts| && Later(ts[0].time, now)
    ensures Micros(ts[j].time) > Micros(now)
  {
    hide Later, InRange;
    var a, b := ts[0].time, ts[j].time;
    LaterMeans(a, now);
    LaterMeans(a, b);
    assert j > 0 ==> !Later(a, b);
  }

  /** A timer that is not later than now is less than a millisecond away. */
  lemma DueMeans(t: Time, now: Time)
    requires Normal(t) && Normal(now) && InRange(t, now) && !Later(t, now)
    ensures Micros(t) - Micros(now) < 1000
  {
    LaterMeans(t, now);
  }

  // ---------- setting a time ----------

  /** C remainder by 1000. */
  function Rem1000(x: int): int
  {
    x - 1000 * Trunc1000(x)
  }

  /** The time a timer is set to, `msecs` after the clock. */
  function DueTime(clock: Time, msecs: int): Time
  {
    var sec, usec := clock.sec + Trunc1000(msecs), clock.usec + Rem1000(msecs) * 1000;
    if usec > 1_000_000 then Time(sec + 1, usec - 1_000_000) else Time(sec, usec)
  }

  /** The set time is exactly the delay away; it is normal for delays that are not negative. */
  lemma DueTimeExact(clock: Time, msecs: int)
    ensures Micros(DueTime(clock, msecs)) == Micros(clock) + 1000 * msecs
    ensures Clock(clock) && msecs >= 0 ==> Normal(DueTime(clock, msecs))
  {
  }

  // ---------- the loop's timers ----------

  /** What a callback may do to the list: uloop_timeout_set and uloop_timeout_cancel. */
  datatype Action = Arm(id: nat, msecs: int, clock: Time) | Disarm(id: nat)

  ghost predicate ActionsIn(span: iset<Time>, actions: seq<Action>)
  {
    forall i :: 0 <= i < |actions| && actions[i].Arm? ==> DueTime(actions[i].clock, actions[i].msecs) in span
  }

  ghost predicate ScriptIn(span: iset<Time>, script: seq<seq<Action>>)
  {
    forall i :: 0 <= i < |script| ==> ActionsIn(span, script[i])
  }

  /** The position uloop_timeout_add inserts at: before the first later timer. */
  ghost predicate Place(ts: seq<Timer>, t: Timer, k: int)
  {
    && 0 <= k <= |ts|
    && (forall i :: 0 <= i < k ==> !Later(ts[i].time, t.time))
    && (k < |ts| ==> Later(ts[k].time, t.time))
  }

  /** What processing at `now` promises of a list whose times lie in the span. */
  ghost predicate Punctual(span: iset<Time>, now: Time, fired: seq<Timer>, left: seq<Timer>)
  {
    && Good(span, left)
    && (forall i :: 0 <= i < |left| ==> Micros(left[i].time) > Micros(now))
    && (forall i :: 0 <= i < |fired| ==> Micros(fired[i].time) - Micros(now) < 1000)
  }

  class TimerList {
    var timeouts: seq<Timer>
    var pending: set<nat>

    ghost predicate Valid()
      reads this
    {
      Distinct(timeouts) && pending == Ids(timeouts)
    }

    constructor ()
      ensures Valid() && timeouts == []
    {
      timeouts, pending := [], {};
    }

    method Add(t: Timer) returns (rc: int)
      requires Valid()
      modifies this
      ensures Valid()
      ensures old(t.id in pending) ==> rc == -1 && timeouts == old(timeouts)
      ensures old(t.id !in pending) ==>
                rc == 0 && exists k :: Place(old(timeouts), t, k) && timeouts == old(timeouts)[..k] + [t] + old(timeouts)[k..]
      ensures forall span :: Comparable(span) && Good(span, old(timeouts)) && t.time in span ==> Good(span, timeouts)
    {
      if t.id in pending {
        return -1;
      }
      hide Later, Comparable, Good;
      var k := 0;
      while k < |timeouts| && !Later(timeouts[k].time, t.time)
        invariant 0 <= k <= |timeouts|
        invariant forall i :: 0 <= i < k ==> !Later(timeouts[i].time, t.time)
      {
        k := k + 1;
      }
      InsertDistinct(timeouts, t, k);
      assert Place(timeouts, t, k);
      forall span | Comparable(span) && Good(span, timeouts) && t.time in span
        ensures Good(span, timeouts[..k] + [t] + timeouts[k..])
      {
        InsertKeepsOrder(span, timeouts, t, k);
      }
      timeouts := timeouts[..k] + [t] + timeouts[k..];
      pending := pending + {t.id};
      return 0;
    }

    method Cancel(id: nat) returns (rc: int)
      requires Valid()
      modifies this
      ensures Valid()
      ensures old(id !in pending) ==> rc == -1 && timeouts == old(timeouts)
      ensures old(id in pending) ==>
                rc == 0 && exists k :: && 0 <= k < |old(timeouts)| && old(timeouts)[k].id == id
                                       && timeouts == old(timeouts)[..k] + old(timeouts)[k + 1..]
      ensures id !in pending
      ensures forall span :: Good(span, old(timeouts)) ==> Good(span, timeouts)
    {
      if id !in pending {
        return -1;
      }
      hide Later, Good;
      var k := 0;
      while timeouts[k].id != id
        invariant 0 <= k < |timeouts|
        invariant forall i :: 0 <= i < k ==> timeouts[i].id != id
        decreases |timeouts| - k
      {
        k := k + 1;
      }
      CutDistinct(timeouts, k);
      forall span | Good(span, timeouts)
        ensures Good(span, timeouts[..k] + timeouts[k + 1..])
      {
        CutKeepsOrder(span, timeouts, k);
      }
      timeouts := timeouts[..k] + timeouts[k + 1..];
      pending := pending - {id};
      return 0;
    }

    /** Re-arms a timer at the given delay from the clock; the other timers stay. */
    method Set(id: nat, msecs: int, clock: Time) returns (rc: int)
      requires Valid()
      modifies this
      ensures Valid()
      ensures rc == 0
      ensures forall t :: t in timeouts <==> t == Timer(id, DueTime(clock, msecs)) || (t in old(timeouts) && t.id != id)
      ensures forall span :: Comparable(span) && Good(span, old(timeouts)) && DueTime(clock, msecs) in span ==>
                Good(span, timeouts)
    {
      hide Good, Comparable, DueTime, Later;
      if id in pending {
        var _ := Cancel(id);
        ghost var k :| 0 <= k < |old(timeouts)| && old(timeouts)[k].id == id
                       && timeouts == old(timeouts)[..k] + old(timeouts)[k + 1..];
        CutMembers(old(timeouts), k);
      } else {
        NotAmong(timeouts, id);
      }
      assert forall t :: t in timeouts <==> t in old(timeouts) && t.id != id;
      ghost var before := timeouts;
      rc := Add(Timer(id, DueTime(clock, msecs)));
      InsertMembers(before, timeouts, Timer(id, DueTime(clock, msecs)));
    }

    method Perform(actions: seq<Action>)
      requires Valid()
      modifies this
      ensures Valid()
      ensures forall span :: Comparable(span) && Good(span, old(timeouts)) && ActionsIn(span, actions) ==> Good(span, timeouts)
    {
      hide Good, Comparable, DueTime;
      for i := 0 to |actions|
        invariant Valid()
        invariant forall span :: Comparable(span) && Good(span, old(timeouts)) && ActionsIn(span, actions) ==> Good(span, timeouts)
      {
        match actions[i] {
          case Arm(id, msecs, clock) => var _ := Set(id, msecs, clock);
          case Disarm(id) => var _ := Cancel(id);
        }
      }
    }

    /** Fires the timers not reported later from the head on; the k-th callback performs
        script[k].  While all times compare, no pending timer's time has come afterwards and none
        fired a millisecond or more early. */
    method Process(now: Time, script: seq<seq<Action>>) returns (fired: seq<Timer>)
      requires Valid()
      requires Clock(now)
      modifies this
      ensures Valid()
      ensures forall span ::
                Comparable(span) && Good(span, old(timeouts)) && now in span && ScriptIn(span, script) ==>
                  Punctual(span, now, fired, timeouts)
      ensures forall i :: 0 <= i < |fired| ==> !Later(fired[i].time, now)
      ensures timeouts != [] ==> Later(timeouts[0].time, now)
      ensures script == [] ==> fired + timeouts == old(timeouts)
    {
      hide Good, Comparable, ActionsIn, Later;
      fired := [];
      while timeouts != []
        invariant Valid()
        invariant forall span :: Comparable(span) && Good(span, old(timeouts)) && ScriptIn(span, script) ==> Good(span, timeouts)
        invariant forall span ::
                    Comparable(span) && Good(span, old(timeouts)) && now in span && ScriptIn(span, script) ==>
                      forall i :: 0 <= i < |fired| ==> Micros(fired[i].time) - Micros(now) < 1000
        invariant forall i :: 0 <= i < |fired| ==> !Later(fired[i].time, now)
        invariant script == [] ==> fired + timeouts == old(timeouts)
        decreases if |fired| < |script| then |script| - |fired| else 0, |timeouts|
      {
        var t := timeouts[0];
        if Later(t.time, now) {
          break;
        }
        forall span | Comparable(span) && Good(span, timeouts) && now in span
          ensures Micros(t.time) - Micros(now) < 1000
        {
          HeadDue(span, timeouts, now);
        }
        var _ := Cancel(t.id);
        fired := fired + [t];
        if |fired| <= |script| {
          Perform(script[|fired| - 1]);
        }
      }
      forall span, i | Comparable(span) && Good(span, timeouts) && now in span && 0 <= i < |timeouts|
        ensures Micros(timeouts[i].time) > Micros(now)
      {
        HeadDecides(span, timeouts, now, i);
      }
    }
  }

  // ---------- times that do not compare ----------

  /** A list of one timer fires it exactly when it is not reported later.  Below 2^32 milliseconds
      that is the right decision exactly when the difference fits an int. */
  method FiresOne(t: Timer, now: Time) returns (fired: seq<Timer>)
    requires Clock(now)
    ensures fired == if Later(t.time, now) then [] else [t]
    ensures -0x1_0000_0000 < Millis(t.time, now) < 0x1_0000_0000 ==>
              ((fired == [t] <==> Millis(t.time, now) <= 0) <==> InRange(t.time, now))
  {
    hide Later, Millis, InRange, Good, Punctual, Comparable;
    var timers := new TimerList();
    assert timers.pending == {};
    var _ := timers.Add(t);
    assert timers.timeouts == [t];
    fired := timers.Process(now, []);
    ghost var left := timers.timeouts;
    assert fired + left == [t];
    assert fired == [] ==> left == [t];
    assert fired != [] ==> fired[0] == (fired + left)[0] == t && fired == [t];
    LaterRightIff(t.time, now);
  }

  /** Every timer from 2^31 to 2^32 milliseconds ahead fires at once. */
  method FiresEarly(t: Timer, now: Time) returns (fired: seq<Timer>)
    requires Clock(now) && 0x8000_0000 <= Millis(t.time, now) < 0x1_0000_0000
    ensures fired == [t]
  {
    hide Later, Millis;
    LaterRightIff(t.time, now);
    fired := FiresOne(t, now);
  }

  /** And it is put in front of a timer that is due that much earlier. */
  method Misplaces(early: Timer, late: Timer) returns (ts: seq<Timer>)
    requires early.id != late.id && 0x8000_0000 < Millis(late.time, early.time) < 0x1_0000_0000
    ensures ts == [late, early]
  {
    hide Later, Good, Millis;
    WrapMisorders(late.time, early.time);
    var timers := new TimerList();
    assert timers.pending == {};
    var _ := timers.Add(early);
    assert timers.timeouts == [early];
    assert late.id !in Ids([early]);
    var _ := timers.Add(late);
    ts := timers.timeouts;
    assert [early][..0] + [late] + [early][0..] == [late, early];
  }

  lemma HeadDue(span: iset<Time>, ts: seq<Timer>, now: Time)
    requires Comparable(span) && Good(span, ts) && now in span
    requires ts != [] && !Later(ts[0].time, now)
    ensures Micros(ts[0].time) - Micros(now) < 1000
  {
    hide Later, InRange;
    DueMeans(ts[0].time, now);
  }

  lemma NotAmong(ts: seq<Timer>, id: nat)
    requires id !in Ids(ts)
    ensures forall t :: t in ts ==> t.id != id
  {
    forall t | t in ts
      ensures t.id != id
    {
      var i :| 0 <= i < |ts| && ts[i] == t;
      assert ts[i].id in Ids(ts);
    }
  }

  lemma InsertMembers(ts: seq<Timer>, r: seq<Timer>, x: Timer)
    requires exists k :: 0 <= k <= |ts| && r == ts[..k] + [x] + ts[k..]
    ensures forall t :: t in r <==> t == x || t in ts
  {
    var k :| 0 <= k <= |ts| && r == ts[..k] + [x] + ts[k..];
    assert ts == ts[..k] + ts[k..];
  }

  lemma CutMembers(ts: seq<Timer>, k: nat)
    requires Distinct(ts) && k < |ts|
    ensures forall t :: t in ts[..k] + ts[k + 1..] <==> t in ts && t.id != ts[k].id
  {
    assert ts == ts[..k] + [ts[k]] + ts[k + 1..];
    assert forall t :: t in ts[..k] ==> t.id != ts[k].id;
    assert forall t :: t in ts[k + 1..] ==> t.id != ts[k].id;
  }

  lemma InsertDistinct(ts: seq<Timer>, t: Timer, k: nat)
    requires Distinct(ts) && t.id !in Ids(ts) && k <= |ts|
    ensures Distinct(ts[..k] + [t] + ts[k..]) && Ids(ts[..k] + [t] + ts[k..]) == Ids(ts) + {t.id}
  {
    var r := ts[..k] + [t] + ts[k..];
    forall i | 0 <= i < |r|
      ensures i != k ==> r[i] == ts[if i < k then i else i - 1] && r[i].id in Ids(ts)
    {
    }
    forall id | id in Ids(ts)
      ensures id in Ids(r)
    {
      var i :| 0 <= i < |ts| && ts[i].id == id;
      assert r[if i < k then i else i + 1].id == id;
    }
    assert r[k].id in Ids(r);
  }

  lemma CutDistinct(ts: seq<Timer>, k: nat)
    requires Distinct(ts) && k < |ts|
    ensures Distinct(ts[..k] + ts[k + 1..]) && Ids(ts[..k] + ts[k + 1..]) == Ids(ts) - {ts[k].id}
  {
    var r := ts[..k] + ts[k + 1..];
    forall i | 0 <= i < |r|
      ensures r[i] == ts[if i < k then i else i + 1]
    {
    }
    forall id | id in Ids(ts) && id != ts[k].id
      ensures id in Ids(r)
    {
      var i :| 0 <= i < |ts| && ts[i].id == id;
      assert r[if i < k then i else i - 1].id == id;
    }
  }
}
