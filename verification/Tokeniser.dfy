/** The in-place tokeniser of src/module/mqtt/topic_tok.c, and the path rebuild of
    src/module/mqtt/persist_write.c that undoes it.

    A `char *` token is `Null`, the static empty string, or a position in the copied
    buffer, read up to the next terminator. */
module Tokeniser {
  import opened Topics
  import opened TopicMatcher

  datatype Ptr = Null | Empty | At(pos: nat)

  datatype TokRc = Ok | Invalid | Protocol

  /** The buffer holds the string t, terminated, at position o. */
  ghost predicate Reads(buf: seq<char>, o: nat, t: string)
  {
    && o + |t| < |buf|
    && buf[o..o + |t|] == t
    && buf[o + |t|] == '\0'
    && '\0' !in t
  }

  ghost predicate Denotes(buf: seq<char>, ptr: Ptr, t: string)
  {
    match ptr
    case Null => false
    case Empty => t == ""
    case At(o) => Reads(buf, o, t)
  }

  /** The first slots of the token array denote the given strings. */
  ghost predicate DenoteAll(buf: seq<char>, ptrs: seq<Ptr>, ts: seq<string>)
  {
    |ts| <= |ptrs| && forall i :: 0 <= i < |ts| ==> Denotes(buf, ptrs[i], ts[i])
  }

  /** strchr(s, '/') from a position of a terminated buffer. */
  method Strchr(buf: seq<char>, from: nat, ghost s: string) returns (at: Ptr)
    requires Reads(buf, from, s)
    ensures at == Null ==> '/' !in s
    ensures at != Null ==> at.At? && from <= at.pos < from + |s| && buf[at.pos] == '/' && '/' !in buf[from..at.pos]
  {
    var i := from;
    while buf[i] != '\0'
      invariant from <= i <= from + |s|
      invariant '/' !in buf[from..i]
      decreases from + |s| - i
    {
      assert buf[from..from + |s|][i - from] == buf[i];
      if buf[i] == '/' {
        return At(i);
      }
      assert buf[from..i + 1] == buf[from..i] + [buf[i]];
      i := i + 1;
    }
    assert buf[from..i] == s;
    return Null;
  }

  /** What one call of strtok_hier does to a buffer whose rest is s. */
  ghost predicate Cut(buf: seq<char>, pos: nat, s: string, buf': seq<char>, saveptr: Ptr)
  {
    match saveptr
    case Null => Split(s) == [s] && buf' == buf
    case Empty => false
    case At(next) =>
      && pos < next <= pos + |s| && next <= |buf|
      && buf' == buf[next - 1 := '\0']
      && Reads(buf', pos, s[..next - 1 - pos])
      && Reads(buf', next, s[next - pos..])
      && Split(s) == [s[..next - 1 - pos]] + Split(s[next - pos..])
  }

  lemma CutAt(buf: seq<char>, pos: nat, s: string, k: nat)
    requires Reads(buf, pos, s) && k < |s|
    requires buf[pos + k] == '/' && '/' !in buf[pos..pos + k]
    ensures Cut(buf, pos, s, buf[pos + k := '\0'], At(pos + k + 1))
  {
    var buf' := buf[pos + k := '\0'];
    assert s[..k] == buf[pos..pos + k] == buf'[pos..pos + k];
    assert s[k] == buf[pos..pos + |s|][k];
    assert s == s[..k] + "/" + s[k + 1..];
    SplitAt(s[..k], s[k + 1..]);
    hide Split;
    assert s[k + 1..] == buf[pos + k + 1..pos + |s|] == buf'[pos + k + 1..pos + |s|];
  }

  /** Cuts the next token off a buffer whose rest is the string s: terminates it in place
      at the '/' and moves the save pointer behind it. */
  method StrtokHier(buf: array<char>, pos: nat, ghost s: string) returns (saveptr: Ptr)
    requires Reads(buf[..], pos, s)
    modifies buf
    ensures Cut(old(buf[..]), pos, s, buf[..], saveptr)
  {
    var c := Strchr(buf[..], pos, s);
    if c == Null {
      SplitAt(s, "");
      return Null;
    }
    CutAt(buf[..], pos, s, c.pos - pos);
    buf[c.pos] := '\0';
    return At(c.pos + 1);
  }

  /** Tokens lying before the save pointer survive the next cut. */
  lemma KeepTokens(buf: seq<char>, cut: nat, ptrs: seq<Ptr>, ts: seq<string>)
    requires cut < |buf|
    requires DenoteAll(buf, ptrs, ts)
    requires forall i :: 0 <= i < |ts| && ptrs[i].At? ==> ptrs[i].pos + |ts[i]| < cut
    ensures DenoteAll(buf[cut := '\0'], ptrs, ts)
  {
    forall i | 0 <= i < |ts|
      ensures Denotes(buf[cut := '\0'], ptrs[i], ts[i])
    {
      if ptrs[i].At? {
        var o := ptrs[i].pos;
        assert buf[cut := '\0'][o..o + |ts[i]|] == buf[o..o + |ts[i]|];
      }
    }
  }

  lemma DenoteNext(buf: seq<char>, ptrs: seq<Ptr>, ts: seq<string>, pos: nat, piece: string)
    requires DenoteAll(buf, ptrs, ts) && |ts| < |ptrs|
    requires Reads(buf, pos, piece)
    ensures DenoteAll(buf, ptrs[|ts| := At(pos)], ts + [piece])
  {
  }

  /** The slots the counting pass reserves hold every level, the leading empty one and the end. */
  lemma {:induction false} SplitCount(s: string)
    ensures |Split(s)| == Slashes(s) + 1
  {
    if s != "" {
      var last := |s| - 1;
      SplitCount(s[..last]);
      SplitSnoc(s[..last], s[last]);
      assert s == s[..last] + [s[last]];
    }
  }

  lemma {:induction false} SplitSnoc(s: string, c: char)
    ensures |Split(s + [c])| == |Split(s)| + if c == '/' then 1 else 0
  {
    if s == "" {
      assert (s + [c]) == [c];
      assert [c][1..] == "";
    } else {
      SplitSnoc(s[1..], c);
      assert (s + [c])[1..] == s[1..] + [c];
    }
  }

  /** The counting pass: one more than the '/' characters after the first character. */
  method CountLevels(buf: seq<char>, ghost s: string) returns (count: nat)
    requires Reads(buf, 0, s) && s != ""
    ensures count == Slashes(s[1..]) + 1
  {
    count := 0;
    var saveptr := At(0);
    assert s[1..1] == "";
    while saveptr != Null
      invariant saveptr != Null ==> saveptr.At? && saveptr.pos < |s| && count == Slashes(s[1..saveptr.pos + 1])
      invariant saveptr == Null ==> count == Slashes(s[1..]) + 1
      decreases if saveptr == Null then 0 else |s| - saveptr.pos
    {
      var from := saveptr.pos + 1;
      assert Reads(buf, from, s[from..]) by {
        assert buf[0..|s|] == s;
        assert buf[from..|s|] == s[from..];
      }
      saveptr := Strchr(buf, from, s[from..]);
      if saveptr == Null {
        SlashesAdd(s[1..from], s[from..]);
        assert s[1..] == s[1..from] + s[from..];
        SlashesNone(s[from..]);
      } else {
        var at := saveptr.pos;
        assert buf[0..|s|] == s;
        assert s[at] == '/' && s[from..at] == buf[from..at];
        assert s[1..at] == s[1..from] + s[from..at];
        SlashesAdd(s[1..from], s[from..at]);
        SlashesNone(s[from..at]);
        assert s[1..at + 1][..at - 1] == s[1..at];
      }
      count := count + 1;
    }
  }

  lemma {:induction false} SlashesAdd(a: string, b: string)
    ensures Slashes(a + b) == Slashes(a) + Slashes(b)
  {
    if b == "" {
      assert a + b == a;
    } else {
      SlashesAdd(a, b[..|b| - 1]);
      assert (a + b)[..|a + b| - 1] == a + b[..|b| - 1];
    }
  }

  lemma {:induction false} SlashesNone(s: string)
    requires '/' !in s
    ensures Slashes(s) == 0
  {
    if s != "" { SlashesNone(s[..|s| - 1]); }
  }

  /** What the caller gets for a topic or filter: its path, with the share prefix cut off. */
  function TokenPath(s: string): (path: seq<string>)
    requires s != ""
    ensures |path| >= 1
  {
    var levels := Split(s);
    if levels[0] == "$share" && |levels| >= 2 then [""] + levels[2..] else Tokens(s)
  }

  /** strcmp(token, lit) == 0 */
  method SameString(buf: seq<char>, ptr: Ptr, lit: CString, ghost t: string) returns (same: bool)
    requires Denotes(buf, ptr, t)
    ensures same <==> t == lit
  {
    if ptr == Empty {
      return lit == "";
    }
    var o := ptr.pos;
    assert buf[o..o + |t|] == t;
    var i := 0;
    while i < |lit| && buf[o + i] == lit[i]
      invariant i <= |lit| && i <= |t|
      invariant t[..i] == lit[..i]
    {
      assert i < |t| ==> t[i] == buf[o + i];
      i := i + 1;
    }
    assert i < |t| ==> t[i] == buf[o + i] && t[i] in t;
    assert i < |lit| ==> lit[i] in lit;
    same := i == |lit| && buf[o + i] == '\0';
    assert same ==> t[..i] == t && lit[..i] == lit;
  }

  lemma TokenCount(s: string)
    requires s != ""
    ensures |Tokens(s)| <= Slashes(s[1..]) + 3
    ensures s[0] == '$' ==> |Tokens(s)| == Slashes(s[1..]) + 1
  {
    SplitCount(s);
    assert s == s[..1] + s[1..];
    SlashesAdd(s[..1], s[1..]);
    assert s[..1] == [s[0]] && s[..1][..0] == "";
    assert Slashes(s[..1]) == if s[0] == '/' then 1 else 0;
  }

  /** The state of the cutting loop: ts are the strings of the slots filled so far, and the
      buffer still holds the uncut rest behind the save pointer. */
  ghost predicate Cutting(s: string, buf: seq<char>, slots: seq<Ptr>, saveptr: Ptr, ts: seq<string>)
    requires s != ""
  {
    && |ts| <= |slots| && |buf| == |s| + 1
    && DenoteAll(buf, slots, ts)
    && (forall i :: |ts| <= i < |slots| ==> slots[i] == Null)
    && match saveptr
       case Null => Tokens(s) == ts
       case Empty => false
       case At(pos) =>
         && pos <= |s|
         && Reads(buf, pos, s[pos..])
         && Tokens(s) == ts + Split(s[pos..])
         && forall i :: 0 <= i < |ts| && slots[i].At? ==> slots[i].pos + |ts[i]| < pos
  }

  lemma CutStep(s: string, buf: seq<char>, slots: seq<Ptr>, pos: nat, ts: seq<string>, buf': seq<char>, saveptr: Ptr)
    returns (ts': seq<string>)
    requires s != "" && |slots| > |Tokens(s)|
    requires Cutting(s, buf, slots, At(pos), ts)
    requires Cut(buf, pos, s[pos..], buf', saveptr)
    ensures |ts| < |slots| && |ts'| == |ts| + 1
    ensures Cutting(s, buf', slots[|ts| := At(pos)], saveptr, ts')
  {
    hide Reads, Denotes, Split, Tokens;
    var rest := s[pos..];
    if saveptr == Null {
      DenoteNext(buf, slots, ts, pos, rest);
      ts' := ts + [rest];
    } else {
      var next := saveptr.pos;
      KeepTokens(buf, next - 1, slots, ts);
      var piece := rest[..next - 1 - pos];
      DenoteNext(buf', slots, ts, pos, piece);
      assert rest[next - pos..] == s[next..];
      ts' := ts + [piece];
      assert ts + ([piece] + Split(s[next..])) == ts' + Split(s[next..]);
    }
  }

  lemma CuttingStart(s: CString, slots: seq<Ptr>, lead: seq<string>)
    requires s != "" && |slots| > |Tokens(s)|
    requires lead == if s[0] != '$' then [""] else []
    requires forall i :: 0 <= i < |slots| ==> slots[i] == if i < |lead| then Empty else Null
    ensures Cutting(s, s + "\0", slots, At(0), lead)
  {
    var buf := s + "\0";
    assert buf[0..|s|] == s && s[0..] == s;
    assert Tokens(s) == lead + Split(s);
  }

  /** Fills the token array from the copied string. */
  method CutTokens(s: CString, buf: array<char>, topics: array<Ptr>, lead: seq<string>)
    requires s != "" && buf[..] == s + "\0"
    requires lead == if s[0] != '$' then [""] else []
    requires topics.Length > |Tokens(s)|
    requires forall i :: 0 <= i < topics.Length ==> topics[i] == if i < |lead| then Empty else Null
    modifies buf, topics
    ensures DenoteAll(buf[..], topics[..], Tokens(s))
    ensures forall i :: |Tokens(s)| <= i < topics.Length ==> topics[i] == Null
  {
    hide Reads, Denotes, DenoteAll, Split, Tokens;
    var saveptr := At(0);
    var topicIndex := |lead|;
    ghost var ts := lead;
    CuttingStart(s, topics[..], lead);
    while saveptr != Null
      invariant Cutting(s, buf[..], topics[..], saveptr, ts)
      invariant |ts| == topicIndex
      decreases if saveptr == Null then 0 else |s| + 1 - saveptr.pos
    {
      var pos := saveptr.pos;
      ghost var before, slots := buf[..], topics[..];
      saveptr := StrtokHier(buf, pos, s[pos..]);
      ts := CutStep(s, before, slots, pos, ts, buf[..], saveptr);
      topics[topicIndex] := At(pos);
      assert topics[..] == slots[topicIndex := At(pos)];
      topicIndex := topicIndex + 1;
    }
  }

  /** Drops "$share" and the share name from the front of the token array. */
  method DropShare(topics: array<Ptr>, count: nat, ghost ts: seq<string>, ghost buf: seq<char>)
    requires 2 <= count == |ts| < topics.Length
    requires DenoteAll(buf, topics[..], ts)
    requires forall i :: count <= i < topics.Length ==> topics[i] == Null
    modifies topics
    ensures DenoteAll(buf, topics[..], [""] + ts[2..])
    ensures forall i :: count - 1 <= i < topics.Length ==> topics[i] == Null
  {
    ghost var before := topics[..];
    var i := 1;
    while i < count - 1
      invariant 1 <= i <= count - 1
      invariant forall k :: 0 <= k < topics.Length ==> topics[k] == before[if 1 <= k < i then k + 1 else k]
    {
      topics[i] := topics[i + 1];
      i := i + 1;
    }
    topics[0] := Empty;
    topics[count - 1] := Null;
  }

  /** Tokenises within the reserved slots, and yields exactly the path of the string. */
  method TopicTokenise(subtopic: CString)
    returns (rc: TokRc, buf: array<char>, topics: array<Ptr>, sharename: Ptr)
    ensures rc == Invalid <==> subtopic == ""
    ensures rc == Protocol <==> subtopic == "$share"
    ensures rc == Ok ==>
              && |TokenPath(subtopic)| < topics.Length == Slashes(subtopic[1..]) + 4
              && DenoteAll(buf[..], topics[..], TokenPath(subtopic))
              && (forall i :: |TokenPath(subtopic)| <= i < topics.Length ==> topics[i] == Null)
    ensures rc == Ok ==>
              if |Split(subtopic)| >= 2 && Split(subtopic)[0] == "$share"
              then Denotes(buf[..], sharename, Split(subtopic)[1]) else sharename == Null
  {
    buf, topics, sharename := new char[0], new Ptr[0], Null;
    if |subtopic| == 0 {
      rc := Invalid;
      return;
    }
    ghost var s := subtopic;
    buf := new char[|subtopic| + 1](i requires 0 <= i => CharAt(subtopic, i));
    assert buf[..] == s + "\0";
    assert buf[0..|s|] == s;
    var count := CountLevels(buf[..], s);
    var lead := if subtopic[0] != '$' then [""] else [];
    topics := new Ptr[count + 3](i => if i < |lead| then Empty else Null);
    TokenCount(s);
    CutTokens(subtopic, buf, topics, lead);
    var shared := SameString(buf[..], topics[0], "$share", Tokens(s)[0]);
    ShareFirst(s);
    hide Denotes, Split, Tokens;
    if shared {
      if count < 2 {
        rc := Protocol;
        return;
      }
      sharename := topics[1];
      DropShare(topics, count, Split(s), buf[..]);
    }
    rc := Ok;
  }

  /** The first token tells whether the string is a shared subscription. */
  lemma ShareFirst(s: string)
    requires s != ""
    ensures Tokens(s)[0] == "$share" <==> Split(s)[0] == "$share"
    ensures Tokens(s)[0] == "$share" ==> Tokens(s) == Split(s)
    ensures Split(s) == ["$share"] <==> s == "$share"
  {
    JoinSplit(s);
    SplitAt("$share", "");
    assert s[0] != '/' ==> Split(s)[0][0] == s[0];
  }

  // ---------- rebuilding a topic along a tree path ----------

  /** The topic of a node below a node with the given topic, continued along a path. */
  function RebuildFrom(topic: string, level: nat, path: seq<string>): string
    decreases |path|
  {
    if path == [] then topic else
    RebuildFrom(if level > 1 || |topic| > 0 then topic + "/" + path[0] else path[0], level + 1, path[1..])
  }

  lemma {:induction false} RebuildBelow(topic: string, level: nat, path: seq<string>)
    requires level > 1 || topic != ""
    ensures RebuildFrom(topic, level, path) == if path == [] then topic else topic + "/" + Join(path)
    decreases |path|
  {
    if path != [] {
      RebuildBelow(topic + "/" + path[0], level + 1, path[1..]);
    }
  }

  /** Rebuilding along the tokenised path gives the topic back. */
  lemma RebuildTokens(s: string)
    requires s != ""
    ensures RebuildFrom("", 0, Tokens(s)) == s
  {
    var levels := Split(s);
    JoinSplit(s);
    if s[0] == '$' {
      RebuildBelow(levels[0], 1, levels[1..]);
    } else {
      assert Tokens(s)[1..] == levels;
      assert RebuildFrom("", 0, Tokens(s)) == RebuildFrom("", 1, levels);
      RebuildBelow(levels[0], 2, levels[1..]);
    }
  }
}
