/** The access-control lists of src/module/mqtt/security_default.c. */
module AccessControl {
  import opened Options
  import opened Modular
  import opened Topics
  import opened TopicMatcher

  const ACL_NONE: bv8 := 0
  const ACL_SUBSCRIBE: bv8 := 4
  const ACL_UNSUBSCRIBE: bv8 := 8

  datatype Acl = Acl(topic: CString, access: bv8, ucount: nat, ccount: nat)

  datatype AclUser = AclUser(username: Option<CString>, acls: seq<Acl>)

  datatype Client = Client(bridge: bool, id: Option<CString>, username: Option<CString>)

  datatype Decision = Allowed | Denied | Defer

  // ---------- expanding patterns ----------

  /** The pattern with "%c" replaced by the client id and, for a named client, "%u" by the user name. */
  function Expand(t: string, id: string, user: Option<string>): string
  {
    if t == "" then ""
    else if |t| > 1 && t[0] == '%' && t[1] == 'c' then id + Expand(t[2..], id, user)
    else if |t| > 1 && t[0] == '%' && t[1] == 'u' && user.Some? then user.value + Expand(t[2..], id, user)
    else [t[0]] + Expand(t[1..], id, user)
  }

  /** Occurrences of '%' followed by c, found one after the other. */
  function Placeholders(t: string, c: char): nat
  {
    if |t| < 2 then 0
    else if t[0] == '%' && t[1] == c then 1 + Placeholders(t[2..], c)
    else Placeholders(t[1..], c)
  }

  /** The expansion of a pattern has the computed length. */
  lemma {:induction false} ExpandLength(t: string, id: string, user: Option<string>)
    requires user.Some? || Placeholders(t, 'u') == 0
    ensures |Expand(t, id, user)| ==
            |t| + Placeholders(t, 'c') * (|id| - 2)
                + (if user.Some? then Placeholders(t, 'u') * (|user.value| - 2) else 0)
  {
    if |t| > 1 && t[0] == '%' && t[1] == 'c' {
      assert t[1..][1..] == t[2..];
      assert Placeholders(t, 'u') == Placeholders(t[2..], 'u');
      ExpandLength(t[2..], id, user);
      Distribute(Placeholders(t[2..], 'c'), |id| - 2);
    } else if |t| > 1 && t[0] == '%' && t[1] == 'u' {
      assert t[1..][1..] == t[2..];
      assert Placeholders(t, 'c') == Placeholders(t[2..], 'c');
      ExpandLength(t[2..], id, user);
      Distribute(Placeholders(t[2..], 'u'), |user.value| - 2);
    } else if t != "" {
      ExpandLength(t[1..], id, user);
    }
  }

  lemma Distribute(k: int, n: int)
    ensures (1 + k) * n == n + k * n
  {
  }

  const SIZE_T: nat := 0x1_0000_0000_0000_0000

  /** clen - 2 as an unsigned size. */
  function Minus2(n: nat): nat
  {
    if n >= 2 then n - 2 else n + SIZE_T - 2
  }

  /** The length the source computes, in unsigned arithmetic. */
  function ComputedLength(tlen: nat, ccount: nat, clen: nat, ucount: nat, ulen: Option<nat>): nat
  {
    (tlen + ccount * Minus2(clen) + (if ulen.Some? then ucount * Minus2(ulen.value) else 0)) % SIZE_T
  }

  lemma Wraps(k: nat, n: nat)
    ensures k * Minus2(n) == k * (n - 2) + (if n >= 2 then 0 else k) * SIZE_T
  {
    if n < 2 {
      assert k * (n + SIZE_T - 2) == k * (n - 2) + k * SIZE_T;
    }
  }

  /** Wrap-around of the unsigned terms cancels when the true value fits. */
  lemma ComputedValue(tlen: nat, cc: nat, clen: nat, uc: nat, ulen: Option<nat>, r: nat)
    requires r == tlen + cc * (clen - 2) + (if ulen.Some? then uc * (ulen.value - 2) else 0) && r < SIZE_T
    ensures ComputedLength(tlen, cc, clen, uc, ulen) == r
  {
    hide Minus2;
    Wraps(cc, clen);
    var kc := if clen >= 2 then 0 else cc;
    if ulen.Some? {
      Wraps(uc, ulen.value);
      var ku := if ulen.value >= 2 then 0 else uc;
      WrapsAway(tlen + cc * Minus2(clen) + uc * Minus2(ulen.value), kc, ku, r);
    } else {
      WrapsAway(tlen + cc * Minus2(clen), kc, 0, r);
    }
  }

  /** The computed length is the true length, for client ids and user names of any length, also
      of fewer than two characters. */
  lemma ComputedIsTrue(t: string, id: string, user: Option<string>)
    requires user.Some? || Placeholders(t, 'u') == 0
    requires |Expand(t, id, user)| < SIZE_T
    ensures ComputedLength(|t|, Placeholders(t, 'c'), |id|, Placeholders(t, 'u'),
                           if user.Some? then Some(|user.value|) else None) == |Expand(t, id, user)|
  {
    hide Expand, Placeholders, ComputedLength;
    ExpandLength(t, id, user);
    ComputedValue(|t|, Placeholders(t, 'c'), |id|, Placeholders(t, 'u'),
                  if user.Some? then Some(|user.value|) else None, |Expand(t, id, user)|);
  }

  lemma WrapsAway(sum: nat, k1: nat, k2: nat, r: nat)
    requires sum == r + k1 * SIZE_T + k2 * SIZE_T && r < SIZE_T
    ensures sum % SIZE_T == r
  {
    assert sum == (k1 + k2) * SIZE_T + r;
    ModUnique(sum, SIZE_T, k1 + k2, r);
  }

  /** Counts placeholders the way two strstr loops do. */
  method CountPlaceholders(topic: CString, c: char) returns (count: nat)
    ensures count == Placeholders(topic, c)
  {
    count := 0;
    var s := 0;
    assert topic[0..] == topic;
    while s + 1 < |topic|
      invariant 0 <= s <= |topic|
      invariant count + Placeholders(topic[s..], c) == Placeholders(topic, c)
    {
      assert topic[s..][1..] == topic[s + 1..];
      if topic[s] == '%' && topic[s + 1] == c {
        assert topic[s..][2..] == topic[s + 2..];
        count := count + 1;
        s := s + 2;
      } else {
        s := s + 1;
      }
    }
  }

  /** One round of the copy loop: what is written next, and where reading goes on. */
  method NextPiece(topic: CString, i: nat, id: CString, user: Option<CString>) returns (piece: string, next: nat)
    requires i < |topic|
    ensures i < next <= |topic|
    ensures Expand(topic[i..], id, user) == piece + Expand(topic[next..], id, user)
  {
    ghost var rest := topic[i..];
    assert rest[1..] == topic[i + 1..];
    if i < |topic| - 1 && topic[i] == '%' {
      assert rest[2..] == topic[i + 2..];
      if topic[i + 1] == 'c' {
        return id, i + 2;
      } else if user.Some? && topic[i + 1] == 'u' {
        return user.value, i + 2;
      }
    }
    return [topic[i]], i + 1;
  }

  lemma ExpandEmpty(id: string, user: Option<string>)
    ensures Expand("", id, user) == ""
  {
  }

  /** Fills the local buffer: every write is inside it and the expansion ends at its terminator. */
  method ExpandInto(topic: CString, id: CString, user: Option<CString>, len: nat) returns (buf: array<char>)
    requires len == |Expand(topic, id, user)|
    ensures fresh(buf) && buf[..] == Expand(topic, id, user) + "\0"
  {
    hide Expand;
    ghost var whole := Expand(topic, id, user);
    buf := new char[len + 1];
    var s, i := 0, 0;
    assert topic[0..] == topic;
    while i < |topic|
      invariant 0 <= i <= |topic| && 0 <= s <= len
      invariant buf[..s] == whole[..s] && whole[s..] == Expand(topic[i..], id, user)
    {
      var piece, next := NextPiece(topic, i, id, user);
      assert whole[s..][..|piece|] == piece && whole[s..][|piece|..] == whole[s + |piece|..];
      forall k | 0 <= k < |piece| { buf[s + k] := piece[k]; }
      assert buf[..s + |piece|] == buf[..s] + piece;
      assert whole[..s + |piece|] == whole[..s] + whole[s..][..|piece|];
      s, i := s + |piece|, next;
    }
    assert topic[i..] == "";
    ExpandEmpty(id, user);
    buf[len] := '\0';
    assert buf[..] == buf[..len] + ['\0'];
  }

  // ---------- expanded patterns are valid filters ----------

  /** Filter validity read from left to right; start tells whether a level starts here. */
  predicate ValidFrom(t: string, start: bool)
  {
    if t == "" then true
    else if t[0] == '+' then start && (|t| == 1 || t[1] == '/') && ValidFrom(t[1..], false)
    else if t[0] == '#' then start && |t| == 1
    else ValidFrom(t[1..], t[0] == '/')
  }

  lemma {:induction false} ValidFromSuffix(t: string, i: nat)
    requires i <= |t| && ValidFilter(t)
    ensures ValidFrom(t[i..], AtLevelStart(t, i))
    decreases |t| - i
  {
    if i < |t| {
      ValidFromSuffix(t, i + 1);
      assert t[i..][1..] == t[i + 1..];
    }
  }

  lemma {:induction false} ValidFromAll(t: string, i: nat)
    requires i <= |t| && ValidFrom(t[i..], AtLevelStart(t, i))
    ensures forall k :: i <= k < |t| && t[k] == '+' ==> AtLevelStart(t, k) && AtLevelEnd(t, k)
    ensures forall k :: i <= k < |t| && t[k] == '#' ==> AtLevelStart(t, k) && k + 1 == |t|
    decreases |t| - i
  {
    if i < |t| {
      assert t[i..][1..] == t[i + 1..];
      if t[i] == '#' {
      } else {
        ValidFromAll(t, i + 1);
      }
    }
  }

  lemma {:induction false} ValidFromWeaken(t: string)
    requires ValidFrom(t, false)
    ensures ValidFrom(t, true)
  {
  }

  /** A wildcard-free piece in front of a rest that is valid inside a level. */
  lemma {:induction false} CleanInFront(piece: string, rest: string, start: bool)
    requires ValidTopic(piece) && ValidFrom(rest, false)
    ensures ValidFrom(piece + rest, start)
  {
    if piece == "" {
      assert piece + rest == rest;
      ValidFromWeaken(rest);
    } else {
      assert (piece + rest)[1..] == piece[1..] + rest;
      CleanInFront(piece[1..], rest, piece[0] == '/');
    }
  }

  lemma {:induction false} ExpandValidFrom(t: string, id: string, user: Option<string>, start: bool)
    requires ValidFrom(t, start)
    requires ValidTopic(id) && (user.Some? ==> ValidTopic(user.value))
    ensures ValidFrom(Expand(t, id, user), start)
    ensures t != "" && t[0] == '/' ==> Expand(t, id, user) != "" && Expand(t, id, user)[0] == '/'
  {
    if t == "" {
    } else if |t| > 1 && t[0] == '%' && (t[1] == 'c' || (t[1] == 'u' && user.Some?)) {
      assert t[1..][1..] == t[2..];
      ExpandValidFrom(t[2..], id, user, false);
      CleanInFront(if t[1] == 'c' then id else user.value, Expand(t[2..], id, user), start);
    } else {
      var e := Expand(t, id, user);
      assert e == [t[0]] + Expand(t[1..], id, user) && e[1..] == Expand(t[1..], id, user);
      if t[0] == '+' {
        ExpandValidFrom(t[1..], id, user, false);
      } else if t[0] == '#' {
        assert t[1..] == "";
      } else {
        ExpandValidFrom(t[1..], id, user, t[0] == '/');
      }
    }
  }

  /** A valid pattern stays a valid filter when expanded with wildcard-free names. */
  lemma ExpandValid(t: string, id: string, user: Option<string>)
    requires ValidFilter(t)
    requires ValidTopic(id) && (user.Some? ==> ValidTopic(user.value))
    ensures ValidFilter(Expand(t, id, user))
  {
    ValidFromSuffix(t, 0);
    assert t[0..] == t;
    ExpandValidFrom(t, id, user, true);
    var e := Expand(t, id, user);
    assert e[0..] == e;
    ValidFromAll(e, 0);
  }

  lemma {:induction false} ExpandIsCString(t: CString, id: CString, user: Option<CString>)
    ensures '\0' !in Expand(t, id, user)
  {
    if t != "" {
      ExpandIsCString(t[1..], id, user);
      if |t| > 1 { ExpandIsCString(t[2..], id, user); }
    }
  }

  // ---------- the decision, without order ----------

  /** The asked access and the entry's access share a bit. */
  predicate Grants(access: bv8, entry: bv8)
  {
    access & entry != 0
  }

  /** A topic with a wildcard character matches nothing. */
  ghost predicate TopicMatch(filter: string, topic: string)
  {
    filter != "" && topic != "" && ValidTopic(topic) && Matches(Tokens(filter), Tokens(topic))
  }

  ghost predicate Denies(acls: seq<Acl>, topic: string)
  {
    exists a :: a in acls && a.access == ACL_NONE && TopicMatch(a.topic, topic)
  }

  ghost predicate Permits(acls: seq<Acl>, topic: string, access: bv8)
  {
    exists a :: a in acls && Grants(access, a.access) && TopicMatch(a.topic, topic)
  }

  /** A pattern applies to a client unless it needs a user name the client lacks. */
  ghost predicate PatternMatch(a: Acl, id: string, user: Option<string>, topic: string)
  {
    (a.ucount == 0 || user.Some?) && TopicMatch(Expand(a.topic, id, user), topic)
  }

  ghost predicate PatternDenies(acls: seq<Acl>, id: string, user: Option<string>, topic: string)
  {
    exists a :: a in acls && a.access == ACL_NONE && PatternMatch(a, id, user, topic)
  }

  ghost predicate PatternPermits(acls: seq<Acl>, id: string, user: Option<string>, topic: string, access: bv8)
  {
    exists a :: a in acls && Grants(access, a.access) && PatternMatch(a, id, user, topic)
  }

  predicate Dangerous(name: Option<string>)
  {
    name.Some? && ('+' in name.value || '#' in name.value)
  }

  /** User deny, else user allow, else pattern deny, else pattern allow, else denied; a name with
      a wildcard character is denied as soon as patterns come into play. */
  ghost function Decide(acls: Option<seq<Acl>>, patterns: seq<Acl>, configured: bool,
                        client: Client, topic: string, access: bv8): Decision
  {
    if client.bridge || access == ACL_SUBSCRIBE || access == ACL_UNSUBSCRIBE then Allowed
    else if !configured then Defer
    else if acls.None? && patterns == [] then Denied
    else if acls.Some? && Denies(acls.value, topic) then Denied
    else if acls.Some? && Permits(acls.value, topic, access) then Allowed
    else if client.id.None? then Denied
    else if patterns != [] && (Dangerous(client.username) || Dangerous(client.id)) then Denied
    else if PatternDenies(patterns, client.id.value, client.username, topic) then Denied
    else if PatternPermits(patterns, client.id.value, client.username, topic, access) then Allowed
    else Denied
  }

  /** The entry has the bit of the access: 1 for reading, 2 for writing. */
  predicate Opens(entry: bv8, access: bv8)
  {
    if access == 1 then entry & 1 == 1 else entry & 2 == 2
  }

  lemma OpensIs(access: bv8, entry: bv8)
    requires access == 1 || access == 2
    ensures Grants(access, entry) <==> Opens(entry, access)
  {
  }

  /** Access is open: no entry of the user's list and none of the patterns in play says no, and one of
      them has the bit. */
  ghost predicate Opened(acls: Option<seq<Acl>>, patterns: seq<Acl>, client: Client, topic: string, access: bv8)
  {
    && !(acls.Some? && exists a :: a in acls.value && a.access == 0 && TopicMatch(a.topic, topic))
    && (|| (acls.Some? && exists a :: a in acls.value && Opens(a.access, access) && TopicMatch(a.topic, topic))
        || (&& client.id.Some? && !Dangerous(client.id) && !Dangerous(client.username)
            && !(exists a :: a in patterns && a.access == 0 && PatternMatch(a, client.id.value, client.username, topic))
            && exists a :: a in patterns && Opens(a.access, access) && PatternMatch(a, client.id.value, client.username, topic)))
  }

  /** For a client that is no bridge under a configured list, reading is allowed exactly when it is
      open by the read bit, and writing exactly when it is open by the write bit. */
  lemma DecideByBits(acls: Option<seq<Acl>>, patterns: seq<Acl>, client: Client, topic: string, access: bv8)
    requires !client.bridge && (access == 1 || access == 2)
    ensures Decide(acls, patterns, true, client, topic, access) ==
            if Opened(acls, patterns, client, topic, access) then Allowed else Denied
  {
    forall entry: bv8
      ensures Grants(access, entry) <==> Opens(entry, access)
    {
      OpensIs(access, entry);
    }
    hide Grants, Opens, TopicMatch, PatternMatch, Dangerous;
  }

  /** An entry for reading does not open writing, nor the other way round; one for both opens either. */
  lemma ReadIsNotWrite()
    ensures !Opens(1, 2) && !Opens(2, 1) && Opens(3, 1) && Opens(3, 2) && !Opens(0, 1) && !Opens(0, 2)
  {
  }

  /** Deny entries stand before all others. */
  ghost predicate DenyFirst(acls: seq<Acl>)
  {
    forall i, j :: 0 <= i < j < |acls| && acls[j].access == ACL_NONE ==> acls[i].access == ACL_NONE
  }

  /** What the ACL file parser lets in: valid filters. */
  ghost predicate ValidAcls(acls: seq<Acl>)
  {
    DenyFirst(acls) && forall i :: 0 <= i < |acls| ==> ValidFilter(acls[i].topic)
  }

  ghost predicate Counted(acls: seq<Acl>)
  {
    forall i :: 0 <= i < |acls| ==>
      && acls[i].ccount == Placeholders(acls[i].topic, 'c')
      && acls[i].ucount == Placeholders(acls[i].topic, 'u')
  }

  /** Linking an entry: deny entries in front, others at the end. */
  function Linked(acls: seq<Acl>, a: Acl): seq<Acl>
  {
    if acls == [] then [a] else if a.access == ACL_NONE then [a] + acls else acls + [a]
  }

  lemma LinkedDenyFirst(acls: seq<Acl>, a: Acl)
    requires DenyFirst(acls)
    ensures DenyFirst(Linked(acls, a))
    ensures multiset(Linked(acls, a)) == multiset(acls) + multiset{a}
  {
  }

  lemma LinkedValid(acls: seq<Acl>, a: Acl)
    requires ValidAcls(acls) && ValidFilter(a.topic)
    ensures ValidAcls(Linked(acls, a))
  {
    hide ValidFilter;
    LinkedDenyFirst(acls, a);
  }

  /** The list after adding entries one by one. */
  function LinkedAll(entries: seq<Acl>): seq<Acl>
  {
    if entries == [] then [] else Linked(LinkedAll(entries[..|entries| - 1]), entries[|entries| - 1])
  }

  lemma {:induction false} LinkedAllIs(entries: seq<Acl>)
    ensures DenyFirst(LinkedAll(entries))
    ensures multiset(LinkedAll(entries)) == multiset(entries)
  {
    if entries != [] {
      var init, last := entries[..|entries| - 1], entries[|entries| - 1];
      LinkedAllIs(init);
      LinkedDenyFirst(LinkedAll(init), last);
      assert entries == init + [last];
    }
  }

  /** The decision does not depend on the order in which entries were added. */
  lemma OrderIrrelevant(e1: seq<Acl>, e2: seq<Acl>, p1: seq<Acl>, p2: seq<Acl>, configured: bool,
                        client: Client, topic: string, access: bv8)
    requires multiset(e1) == multiset(e2) && multiset(p1) == multiset(p2)
    ensures Decide(Some(LinkedAll(e1)), LinkedAll(p1), configured, client, topic, access) ==
            Decide(Some(LinkedAll(e2)), LinkedAll(p2), configured, client, topic, access)
  {
    hide TopicMatch, PatternMatch, Dangerous, Grants, LinkedAll;
    LinkedAllIs(e1);
    LinkedAllIs(e2);
    LinkedAllIs(p1);
    LinkedAllIs(p2);
    SameMembers(LinkedAll(e1), LinkedAll(e2));
    SameMembers(LinkedAll(p1), LinkedAll(p2));
    assert LinkedAll(p1) == [] <==> LinkedAll(p2) == [] by {
      assert |multiset(LinkedAll(p1))| == |multiset(LinkedAll(p2))|;
    }
  }

  lemma SameMembers(a: seq<Acl>, b: seq<Acl>)
    requires multiset(a) == multiset(b)
    ensures forall x :: x in a <==> x in b
  {
    forall x
      ensures x in a <==> x in b
    {
      assert x in a <==> x in multiset(a);
      assert x in b <==> x in multiset(b);
    }
  }

  // ---------- scanning the lists ----------

  lemma NoBits(access: bv8)
    ensures !Grants(access, ACL_NONE)
  {
  }

  /** The first-match scan over a user's list. */
  method ScanUser(acls: seq<Acl>, topic: CString, access: bv8) returns (r: Option<Decision>)
    requires ValidAcls(acls)
    ensures r == if Denies(acls, topic) then Some(Denied)
                 else if Permits(acls, topic, access) then Some(Allowed) else None
  {
    hide Matches, Tokens, ValidFilter, Grants;
    NoBits(access);
    var i := 0;
    while i < |acls|
      invariant 0 <= i <= |acls|
      invariant forall k :: 0 <= k < i ==>
                  !(TopicMatch(acls[k].topic, topic) && (acls[k].access == ACL_NONE || Grants(access, acls[k].access)))
    {
      var a := acls[i];
      assert a in acls;
      if CharAt(topic, 0) == '$' && CharAt(a.topic, 0) != '$' {
        SkipIsNoMatch(a.topic, topic);
        i := i + 1;
        continue;
      }
      var _, result := TopicMatchesSub(a.topic, topic);
      if result {
        if a.access == ACL_NONE {
          return Some(Denied);
        }
        if Grants(access, a.access) {
          assert !Denies(acls, topic);
          return Some(Allowed);
        }
      }
      i := i + 1;
    }
    return None;
  }

  lemma SkipIsNoMatch(filter: string, topic: string)
    requires topic != "" && topic[0] == '$' && (filter == "" || filter[0] != '$')
    ensures !TopicMatch(filter, topic)
  {
    if filter != "" { DollarApart(filter, topic); }
  }

  /** The first-match scan over the patterns, each expanded into its own buffer. */
  method ScanPatterns(acls: seq<Acl>, id: CString, user: Option<CString>, topic: CString, access: bv8)
    returns (r: Option<Decision>)
    requires ValidAcls(acls) && Counted(acls)
    requires ValidTopic(id) && (user.Some? ==> ValidTopic(user.value))
    requires forall i :: 0 <= i < |acls| ==> |Expand(acls[i].topic, id, user)| < SIZE_T
    ensures r == if PatternDenies(acls, id, user, topic) then Some(Denied)
                 else if PatternPermits(acls, id, user, topic, access) then Some(Allowed) else None
  {
    hide Matches, Tokens, ValidFilter, Expand, Placeholders, ValidTopic, TopicMatch, DenyFirst, Grants;
    var i := 0;
    while i < |acls|
      invariant 0 <= i <= |acls|
      invariant NothingFound(acls, i, id, user, topic, access)
    {
      var a := acls[i];
      assert a in acls;
      if a.ucount > 0 && user.None? {
        i := i + 1;
        continue;
      }
      var result := MatchPattern(a, id, user, topic);
      if result {
        if a.access == ACL_NONE {
          return Some(Denied);
        }
        if Grants(access, a.access) {
          NoDenyBehind(acls, i, id, user, topic, access);
          return Some(Allowed);
        }
      }
      i := i + 1;
    }
    return None;
  }

  /** None of the first n patterns decides. */
  ghost predicate NothingFound(acls: seq<Acl>, n: nat, id: string, user: Option<string>, topic: string, access: bv8)
    requires n <= |acls|
  {
    forall k :: 0 <= k < n ==>
      !(PatternMatch(acls[k], id, user, topic) && (acls[k].access == ACL_NONE || Grants(access, acls[k].access)))
  }

  /** Behind an entry that permits there is no deny entry. */
  lemma NoDenyBehind(acls: seq<Acl>, i: nat, id: string, user: Option<string>, topic: string, access: bv8)
    requires DenyFirst(acls) && i < |acls| && NothingFound(acls, i, id, user, topic, access)
    requires Grants(access, acls[i].access)
    ensures !PatternDenies(acls, id, user, topic)
  {
    NoBits(access);
    hide PatternMatch, Grants;
  }

  method MatchPattern(a: Acl, id: CString, user: Option<CString>, topic: CString) returns (result: bool)
    requires ValidFilter(a.topic)
    requires a.ccount == Placeholders(a.topic, 'c') && a.ucount == Placeholders(a.topic, 'u')
    requires a.ucount == 0 || user.Some?
    requires ValidTopic(id) && (user.Some? ==> ValidTopic(user.value))
    requires |Expand(a.topic, id, user)| < SIZE_T
    ensures result == TopicMatch(Expand(a.topic, id, user), topic)
  {
    hide Matches, Tokens, ValidFilter, Expand, Placeholders, ComputedLength;
    var ulen := if user.Some? then Some(|user.value|) else None;
    var len := ComputedLength(|a.topic|, a.ccount, |id|, a.ucount, ulen);
    ComputedIsTrue(a.topic, id, user);
    var buf := ExpandInto(a.topic, id, user, len);
    ExpandIsCString(a.topic, id, user);
    ExpandValid(a.topic, id, user);
    var localAcl := buf[..len];
    assert localAcl == Expand(a.topic, id, user);
    var _, matches := TopicMatchesSub(localAcl, topic);
    result := matches;
  }

  function AclsIn(users: seq<AclUser>, user: Option<CString>): Option<seq<Acl>>
  {
    if users == [] then None
    else if users[0].username == user then Some(users[0].acls)
    else AclsIn(users[1..], user)
  }

  lemma {:induction false} AclsAt(users: seq<AclUser>, user: Option<CString>, i: nat)
    requires i <= |users| && (i < |users| ==> users[i].username == user)
    requires forall k :: 0 <= k < i ==> users[k].username != user
    ensures AclsIn(users, user) == if i < |users| then Some(users[i].acls) else None
  {
    if i > 0 { AclsAt(users[1..], user, i - 1); }
  }

  lemma {:induction false} ReplaceAcls(users: seq<AclUser>, i: nat, acls: seq<Acl>, u: Option<CString>)
    requires i < |users|
    requires forall a, b :: 0 <= a < b < |users| ==> users[a].username != users[b].username
    ensures AclsIn(users[i := users[i].(acls := acls)], u) == if u == users[i].username then Some(acls) else AclsIn(users, u)
  {
    var users' := users[i := users[i].(acls := acls)];
    if i == 0 {
      assert users'[1..] == users[1..];
    } else {
      assert users'[1..] == users[1..][i - 1 := users[i].(acls := acls)];
      ReplaceAcls(users[1..], i - 1, acls, u);
    }
  }

  lemma {:induction false} AppendAcls(users: seq<AclUser>, x: AclUser, u: Option<CString>)
    requires AclsIn(users, x.username) == None
    ensures AclsIn(users + [x], u) == if u == x.username then Some(x.acls) else AclsIn(users, u)
  {
    if users != [] {
      assert (users + [x])[1..] == users[1..] + [x];
      AppendAcls(users[1..], x, u);
    }
  }

  class SecurityOptions {
    var aclFile: bool
    var aclList: seq<AclUser>
    var aclPatterns: seq<Acl>

    ghost predicate Valid()
      reads this
    {
      && (forall i :: 0 <= i < |aclList| ==> ValidAcls(aclList[i].acls) && aclList[i].acls != [])
      && (forall i, j :: 0 <= i < j < |aclList| ==> aclList[i].username != aclList[j].username)
      && ValidAcls(aclPatterns) && Counted(aclPatterns)
    }

    /** The list acl__find_acls associates with a user name. */
    ghost function AclsOf(user: Option<CString>): Option<seq<Acl>>
      reads this
    {
      AclsIn(aclList, user)
    }

    constructor (aclFile: bool)
      ensures Valid() && aclPatterns == [] && forall user :: AclsOf(user) == None
    {
      this.aclFile, aclList, aclPatterns := aclFile, [], [];
    }

    method FindAcls(user: Option<CString>) returns (r: Option<nat>)
      requires Valid()
      ensures r.Some? ==> r.value < |aclList| && aclList[r.value].username == user
      ensures r.None? ==> AclsOf(user) == None && forall i :: 0 <= i < |aclList| ==> aclList[i].username != user
      ensures r.Some? ==> AclsOf(user) == Some(aclList[r.value].acls)
    {
      var i := 0;
      while i < |aclList|
        invariant 0 <= i <= |aclList|
        invariant forall k :: 0 <= k < i ==> aclList[k].username != user
      {
        if aclList[i].username == user {
          AclsAt(aclList, user, i);
          return Some(i);
        }
        i := i + 1;
      }
      AclsAt(aclList, user, i);
      return None;
    }

    /** Adds an entry to a user's list, which keeps its deny entries in front. */
    method AddAcl(user: Option<CString>, topic: CString, access: bv8)
      requires Valid()
      requires ValidFilter(topic)
      modifies this
      ensures Valid() && aclPatterns == old(aclPatterns) && aclFile == old(aclFile)
      ensures forall u :: AclsOf(u) ==
                if u != user then AclsIn(old(aclList), u)
                else Some(Linked(if AclsIn(old(aclList), user).Some? then AclsIn(old(aclList), user).value else [], Acl(topic, access, 0, 0)))
    {
      hide ValidFilter;
      var acl := Acl(topic, access, 0, 0);
      var found := FindAcls(user);
      if found.Some? {
        var u := aclList[found.value];
        LinkedValid(u.acls, acl);
        aclList := aclList[found.value := u.(acls := Linked(u.acls, acl))];
      } else {
        aclList := aclList + [AclUser(user, [acl])];
      }
      forall u
        ensures AclsOf(u) ==
                if u != user then AclsIn(old(aclList), u)
                else Some(Linked(if AclsIn(old(aclList), user).Some? then AclsIn(old(aclList), user).value else [], acl))
      {
        if found.Some? {
          ReplaceAcls(old(aclList), found.value, Linked(old(aclList)[found.value].acls, acl), u);
        } else {
          AppendAcls(old(aclList), AclUser(user, [acl]), u);
        }
      }
    }

    /** Adds a pattern, counting its placeholders. */
    method AddAclPattern(topic: CString, access: bv8)
      requires Valid()
      requires ValidFilter(topic)
      modifies this
      ensures Valid() && aclList == old(aclList) && aclFile == old(aclFile)
      ensures aclPatterns ==
              Linked(old(aclPatterns), Acl(topic, access, Placeholders(topic, 'u'), Placeholders(topic, 'c')))
    {
      hide ValidFilter, Placeholders;
      var ccount := CountPlaceholders(topic, 'c');
      var ucount := CountPlaceholders(topic, 'u');
      var acl := Acl(topic, access, ucount, ccount);
      LinkedValid(aclPatterns, acl);
      aclPatterns := Linked(aclPatterns, acl);
    }

    /** The access check. */
    method Check(client: Client, topic: CString, access: bv8) returns (r: Decision)
      requires Valid()
      requires client.id.Some? ==>
                 forall i :: 0 <= i < |aclPatterns| ==>
                   |Expand(aclPatterns[i].topic, client.id.value, client.username)| < SIZE_T
      ensures r == Decide(AclsOf(client.username), aclPatterns, aclFile || aclList != [] || aclPatterns != [],
                          client, topic, access)
      ensures !client.bridge && (access == 1 || access == 2) && (aclFile || aclList != [] || aclPatterns != []) ==>
                r == if Opened(AclsOf(client.username), aclPatterns, client, topic, access) then Allowed else Denied
    {
      hide ValidFilter, Expand, Placeholders, Denies, Permits, PatternDenies, PatternPermits, Opened;
      if !client.bridge && (access == 1 || access == 2) {
        DecideByBits(AclsOf(client.username), aclPatterns, client, topic, access);
      }
      if client.bridge {
        return Allowed;
      }
      if access == ACL_SUBSCRIBE || access == ACL_UNSUBSCRIBE {
        return Allowed;
      }
      if !aclFile && aclList == [] && aclPatterns == [] {
        return Defer;
      }
      var found := FindAcls(client.username);
      if found.None? && aclPatterns == [] {
        return Denied;
      }
      if found.Some? {
        var d := ScanUser(aclList[found.value].acls, topic, access);
        if d.Some? {
          return d.value;
        }
      }
      if aclPatterns != [] {
        if client.username.Some? && Dangerous(client.username) {
          return Denied;
        }
        if client.id.Some? && Dangerous(client.id) {
          return Denied;
        }
      }
      if client.id.None? {
        return Denied;
      }
      if aclPatterns != [] {
        var d := ScanPatterns(aclPatterns, client.id.value, client.username, topic, access);
        if d.Some? {
          return d.value;
        }
      } else {
        NoPatterns(client.id.value, client.username, topic, access);
      }
      return Denied;
    }
  }

  lemma NoPatterns(id: string, user: Option<string>, topic: string, access: bv8)
    ensures !PatternDenies([], id, user, topic) && !PatternPermits([], id, user, topic, access)
  {
  }
}
