/** The character-level filter check and topic matcher of src/module/mqtt/lib/util_topic.c. */
module TopicMatcher {
  import opened Topics

  /** A C string: no embedded terminator. */
  type CString = s: string | '\0' !in s

  datatype Rc = Success | Inval

  const MAX_LENGTH: nat := 65535
  const TOPIC_HIERARCHY_LIMIT: nat := 200

  /** Reading s[i], where the terminator stands at the end. */
  function CharAt(s: CString, i: nat): (c: char)
    ensures c == '\0' <==> i >= |s|
  {
    if i < |s| then s[i] else '\0'
  }

  function Slashes(s: string): nat
  {
    if s == "" then 0 else (if s[|s| - 1] == '/' then 1 else 0) + Slashes(s[..|s| - 1])
  }

  /** Accepts exactly the valid filters within the size limits. */
  method SubTopicCheck(str: CString) returns (rc: Rc)
    ensures rc == Success <==>
            ValidFilter(str) && |str| <= MAX_LENGTH && Slashes(str) <= TOPIC_HIERARCHY_LIMIT
  {
    var c := '\0';
    var i, hierCount := 0, 0;
    while i < |str|
      invariant 0 <= i <= |str|
      invariant c == if i == 0 then '\0' else str[i - 1]
      invariant hierCount == Slashes(str[..i])
      invariant forall k :: 0 <= k < i && str[k] == '+' ==> AtLevelStart(str, k) && AtLevelEnd(str, k)
      invariant forall k :: 0 <= k < i && str[k] == '#' ==> AtLevelStart(str, k) && k + 1 == |str|
    {
      if str[i] == '+' {
        if (c != '\0' && c != '/') || (CharAt(str, i + 1) != '\0' && CharAt(str, i + 1) != '/') {
          return Inval;
        }
      } else if str[i] == '#' {
        if (c != '\0' && c != '/') || CharAt(str, i + 1) != '\0' {
          return Inval;
        }
      } else if str[i] == '/' {
        hierCount := hierCount + 1;
      }
      assert str[..i + 1][..i] == str[..i];
      c := str[i];
      i := i + 1;
    }
    assert str[..i] == str;
    if |str| > MAX_LENGTH { return Inval; }
    if hierCount > TOPIC_HIERARCHY_LIMIT { return Inval; }
    return Success;
  }

  // ---------- matching from a position ----------

  /** Do the rests of filter and topic match?  Inside a level the rest of the level is literal. */
  ghost predicate MatchAt(sub: string, topic: string, si: nat, ti: nat)
    requires si <= |sub| && ti <= |topic|
  {
    var f, t := Split(sub[si..]), Split(topic[ti..]);
    if AtLevelStart(sub, si) then Matches(f, t) else f[0] == t[0] && Matches(f[1..], t[1..])
  }

  lemma SplitStep(s: string, i: nat)
    requires i < |s|
    ensures s[i] == '/' ==> Split(s[i..]) == [""] + Split(s[i + 1..])
    ensures s[i] != '/' ==> Split(s[i..]) == [[s[i]] + Split(s[i + 1..])[0]] + Split(s[i + 1..])[1..]
  {
    assert s[i..][1..] == s[i + 1..];
  }

  lemma StepStart(sub: string, topic: string)
    requires sub != "" && topic != ""
    requires (sub[0] == '$') == (topic[0] == '$')
    ensures Matches(Tokens(sub), Tokens(topic)) == MatchAt(sub, topic, 0, 0)
  {
    MatchesBelowEmpty(Split(sub), Split(topic));
    assert sub[0..] == sub && topic[0..] == topic;
  }

  lemma StepSlash(sub: string, topic: string, si: nat, ti: nat)
    requires si < |sub| && ti < |topic| && sub[si] == '/' == topic[ti]
    ensures MatchAt(sub, topic, si, ti) == MatchAt(sub, topic, si + 1, ti + 1)
  {
    SplitStep(sub, si);
    SplitStep(topic, ti);
    var f, t := Split(sub[si..]), Split(topic[ti..]);
    assert f[1..] == Split(sub[si + 1..]) && t[1..] == Split(topic[ti + 1..]);
    assert f[0] == "";
  }

  lemma StepChar(sub: string, topic: string, si: nat, ti: nat)
    requires si < |sub| && ti < |topic| && sub[si] == topic[ti]
    requires sub[si] != '/' && sub[si] != '+' && sub[si] != '#'
    ensures MatchAt(sub, topic, si, ti) == MatchAt(sub, topic, si + 1, ti + 1)
  {
    SplitStep(sub, si);
    SplitStep(topic, ti);
    var f, t := Split(sub[si..]), Split(topic[ti..]);
    var f', t' := Split(sub[si + 1..]), Split(topic[ti + 1..]);
    assert f[1..] == f'[1..] && t[1..] == t'[1..];
    assert f[0][0] == sub[si] && f[0][1..] == f'[0] && t[0][1..] == t'[0];
    assert f[0] == t[0] <==> f'[0] == t'[0];
  }

  /** A '+' swallows the topic's level. */
  lemma StepPlus(sub: string, topic: string, si: nat, ti: nat, te: nat)
    requires si < |sub| && sub[si] == '+' && AtLevelStart(sub, si) && AtLevelEnd(sub, si)
    requires ti <= te <= |topic|
    requires '/' !in topic[ti..te]
    requires te == |topic| || topic[te] == '/'
    ensures MatchAt(sub, topic, si, ti) == MatchAt(sub, topic, si + 1, te)
  {
    SplitStep(sub, si);
    var f, f' := Split(sub[si..]), Split(sub[si + 1..]);
    if si + 1 < |sub| { SplitStep(sub, si + 1); }
    assert f'[0] == "" && f[0] == "+" && f[1..] == f'[1..];
    var t, t' := Split(topic[ti..]), Split(topic[te..]);
    var piece := topic[ti..te];
    if te == |topic| {
      assert topic[ti..] == piece;
      SplitAt(piece, "");
    } else {
      assert topic[ti..] == piece + "/" + topic[te + 1..];
      SplitAt(piece, topic[te + 1..]);
      SplitStep(topic, te);
    }
    assert t'[0] == "" && t[1..] == t'[1..];
  }

  /** A '#' matches every rest. */
  lemma StepHash(sub: string, topic: string, si: nat, ti: nat)
    requires si < |sub| && ti <= |topic| && sub[si] == '#' && AtLevelStart(sub, si) && si + 1 == |sub|
    ensures MatchAt(sub, topic, si, ti)
  {
    assert sub[si..] == "#";
    SplitAt("#", "");
  }

  /** The topic has ended, or differs in a literal character: only "/#" can still match. */
  lemma StepDiffer(sub: string, topic: string, si: nat, ti: nat)
    requires si < |sub| && ti <= |topic|
    requires ti < |topic| ==> sub[si] != topic[ti]
    requires sub[si] != '+' && sub[si] != '#'
    ensures MatchAt(sub, topic, si, ti) == (ti == |topic| && sub[si..] == "/#")
  {
    SplitStep(sub, si);
    var f, t := Split(sub[si..]), Split(topic[ti..]);
    if ti < |topic| { SplitStep(topic, ti); }
    if sub[si] == '/' {
      assert f[0] == "" && f[1..] == Split(sub[si + 1..]);
      if ti == |topic| {
        assert t == [""] && t[1..] == [];
        if f[1..] == ["#"] {
          JoinSplit(sub[si + 1..]);
          assert sub[si + 1..] == "#";
          assert sub[si..] == [sub[si]] + sub[si + 1..] == "/#";
          assert Matches(f[1..], t[1..]);
        } else {
          assert sub[si..][1..] == sub[si + 1..];
          SplitAt("#", "");
          assert !Matches(f[1..], t[1..]);
        }
      }
    } else {
      assert f[0][0] == sub[si];
    }
  }

  /** The last topic character agrees and "/#" follows in the filter. */
  lemma StepParent(sub: string, topic: string, si: nat, ti: nat)
    requires si < |sub| && ti + 1 == |topic| && sub[si] == topic[ti]
    requires sub[si] != '+' && sub[si] != '#'
    requires sub[si + 1..] == "/#"
    ensures MatchAt(sub, topic, si, ti)
  {
    if sub[si] == '/' {
      StepSlash(sub, topic, si, ti);
    } else {
      StepChar(sub, topic, si, ti);
    }
    StepDiffer(sub, topic, si + 1, ti + 1);
  }

  /** The filter has ended. */
  lemma StepEnd(sub: string, topic: string, ti: nat)
    requires ti <= |topic|
    ensures MatchAt(sub, topic, |sub|, ti) == (ti == |topic|)
  {
    var t := Split(topic[ti..]);
    JoinSplit(topic[ti..]);
    assert sub[|sub|..] == "";
    assert t == [""] <==> ti == |topic|;
    var f := Split(sub[|sub|..]);
    assert f == [""] && f[1..] == [];
    assert t == [t[0]] + t[1..];
    assert Matches(f[1..], t[1..]) <==> t[1..] == [];
  }

  lemma StepLonePlus(sub: string, topic: string, si: nat)
    requires si < |sub| && sub[si..] == "+" && AtLevelStart(sub, si)
    ensures MatchAt(sub, topic, si, |topic|)
  {
    assert sub[si] == sub[si..][0];
    StepPlus(sub, topic, si, |topic|, |topic|);
    StepEnd(sub, topic, |topic|);
  }

  // ---------- the matcher ----------

  /** Moves to the end of the topic's level; bad when a wildcard is met. */
  method SkipLevel(topic: CString, ti: nat) returns (bad: bool, te: nat)
    requires ti <= |topic| && ValidTopic(topic[..ti])
    ensures ti <= te <= |topic|
    ensures bad ==> !ValidTopic(topic)
    ensures !bad ==> '/' !in topic[ti..te] && (te == |topic| || topic[te] == '/') && ValidTopic(topic[..te])
  {
    bad, te := false, ti;
    while CharAt(topic, te) != '\0' && CharAt(topic, te) != '/'
      invariant ti <= te <= |topic|
      invariant '/' !in topic[ti..te]
      invariant ValidTopic(topic[..te])
      decreases |topic| - te
    {
      if topic[te] == '+' || topic[te] == '#' {
        return true, te;
      }
      assert topic[..te + 1] == topic[..te] + [topic[te]];
      te := te + 1;
    }
  }

  method SkipRest(topic: CString, ti: nat) returns (bad: bool)
    requires ti <= |topic| && ValidTopic(topic[..ti])
    ensures bad == !ValidTopic(topic)
  {
    var te := ti;
    while te < |topic|
      invariant ti <= te <= |topic|
      invariant ValidTopic(topic[..te])
    {
      if topic[te] == '+' || topic[te] == '#' {
        return true;
      }
      assert topic[..te + 1] == topic[..te] + [topic[te]];
      te := te + 1;
    }
    assert topic[..te] == topic;
    return false;
  }

  /** Is there a '#' before the filter's last character? */
  method HashInside(sub: CString, si: nat) returns (misplaced: bool)
    requires si <= |sub|
    ensures misplaced == exists i :: si <= i < |sub| - 1 && sub[i] == '#'
  {
    var i := si;
    while i < |sub|
      invariant si <= i <= |sub|
      invariant forall k :: si <= k < i && k < |sub| - 1 ==> sub[k] != '#'
    {
      if sub[i] == '#' && CharAt(sub, i + 1) != '\0' {
        return true;
      }
      i := i + 1;
    }
    return false;
  }

  /** Where the wildcards of a valid filter stand. */
  lemma WildcardAt(sub: CString, si: nat)
    requires si < |sub| && ValidFilter(sub)
    ensures sub[si] == '+' ==> AtLevelStart(sub, si) && AtLevelEnd(sub, si)
    ensures sub[si] == '#' ==> AtLevelStart(sub, si) && si + 1 == |sub|
    ensures CharAt(sub, si + 1) == '#' ==> si + 2 == |sub|
  {
  }

  // ---------- one round of the pass ----------

  datatype Outcome = Go | Stop(rc: Rc, result: bool)

  /** What the matcher promises of its answer. */
  ghost predicate Answers(sub: string, topic: string, rc: Rc, result: bool)
    requires sub != "" && topic != ""
  {
    && (rc == Inval ==> !result)
    && (result ==> ValidTopic(topic))
    && (ValidFilter(sub) && ValidTopic(topic) ==>
          rc == Success && result == Matches(Tokens(sub), Tokens(topic)))
  }

  /** The scan has reached si and ti, and the rests decide the match. */
  ghost predicate Scanning(sub: string, topic: string, si: nat, ti: nat)
    requires sub != "" && topic != ""
  {
    && si <= |sub| && ti <= |topic|
    && ValidTopic(topic[..ti])
    && (ValidFilter(sub) && ValidTopic(topic) ==>
          Matches(Tokens(sub), Tokens(topic)) == MatchAt(sub, topic, si, ti))
    && (ti == |topic| ==> 0 < si < |sub| && (sub[si - 1] != '+' ==> sub[si..] != "/#"))
  }

  lemma ExtendTopic(topic: string, ti: nat)
    requires ti < |topic| && ValidTopic(topic[..ti]) && topic[ti] != '+' && topic[ti] != '#'
    ensures ValidTopic(topic[..ti + 1])
    ensures ti + 1 == |topic| ==> ValidTopic(topic)
  {
    assert topic[..ti + 1] == topic[..ti] + [topic[ti]];
    assert ti + 1 == |topic| ==> topic[..ti + 1] == topic;
  }

  /** The filter has a '+' where the topic differs. */
  method AtPlus(sub: CString, topic: CString, si: nat, ti: nat) returns (out: Outcome, si': nat, ti': nat)
    requires sub != "" && topic != "" && Scanning(sub, topic, si, ti)
    requires si < |sub| && sub[si] == '+'
    ensures out == Go ==> Scanning(sub, topic, si', ti') && si < si'
    ensures out.Stop? ==> Answers(sub, topic, out.rc, out.result)
  {
    hide MatchAt, Matches, Tokens, ValidFilter;
    si', ti' := si, ti;
    if ValidFilter(sub) { WildcardAt(sub, si); }
    if si > 0 && sub[si - 1] != '/' {
      return Stop(Inval, false), si, ti;
    }
    if CharAt(sub, si + 1) != '\0' && CharAt(sub, si + 1) != '/' {
      return Stop(Inval, false), si, ti;
    }
    var bad, te := SkipLevel(topic, ti);
    if bad {
      return Stop(Inval, false), si, ti;
    }
    StepPlus(sub, topic, si, ti, te);
    si', ti' := si + 1, te;
    out := Go;
    if ti' == |topic| && si' == |sub| {
      StepEnd(sub, topic, ti');
      assert topic[..ti'] == topic;
      out := Stop(Success, true);
    }
  }

  /** The filter has a '#' where the topic differs. */
  method AtHash(sub: CString, topic: CString, si: nat, ti: nat) returns (rc: Rc, result: bool)
    requires sub != "" && topic != "" && Scanning(sub, topic, si, ti)
    requires si < |sub| && sub[si] == '#'
    ensures Answers(sub, topic, rc, result)
  {
    hide MatchAt, Matches, Tokens, ValidFilter;
    if ValidFilter(sub) { WildcardAt(sub, si); }
    if si > 0 && sub[si - 1] != '/' {
      return Inval, false;
    }
    if CharAt(sub, si + 1) != '\0' {
      return Inval, false;
    }
    StepHash(sub, topic, si, ti);
    var bad := SkipRest(topic, ti);
    return if bad then Inval else Success, !bad;
  }

  /** Filter and topic differ in a literal character, or the topic has ended. */
  method AtOther(sub: CString, topic: CString, si: nat, ti: nat) returns (rc: Rc, result: bool)
    requires sub != "" && topic != "" && Scanning(sub, topic, si, ti)
    requires si < |sub| && sub[si] != '+' && sub[si] != '#' && sub[si] != CharAt(topic, ti)
    ensures Answers(sub, topic, rc, result)
  {
    StepDiffer(sub, topic, si, ti);
    if ValidFilter(sub) { WildcardAt(sub, si); }
    ghost var clean := ValidFilter(sub) ==> forall i :: si <= i < |sub| - 1 ==> sub[i] != '#';
    assert clean;
    hide MatchAt, Matches, Tokens, ValidFilter;
    if CharAt(topic, ti) == '\0' && si > 0 && sub[si - 1] == '+' && sub[si] == '/' && CharAt(sub, si + 1) == '#' {
      assert ValidFilter(sub) ==> sub[si..] == "/#";
      assert topic[..ti] == topic;
      return Success, true;
    }
    assert sub[si..] == "/#" ==> sub[si] == '/' && CharAt(sub, si + 1) == '#';
    var misplaced := HashInside(sub, si);
    return if misplaced then Inval else Success, false;
  }

  /** Filter and topic agree in a character. */
  method AtSame(sub: CString, topic: CString, si: nat, ti: nat) returns (out: Outcome, si': nat, ti': nat)
    requires sub != "" && topic != "" && Scanning(sub, topic, si, ti)
    requires si < |sub| && ti < |topic| && sub[si] == topic[ti] && topic[ti] != '+' && topic[ti] != '#'
    ensures out == Go ==> Scanning(sub, topic, si', ti') && si < si'
    ensures out.Stop? ==> Answers(sub, topic, out.rc, out.result)
  {
    hide MatchAt, Matches, Tokens, ValidFilter;
    si', ti' := si + 1, ti + 1;
    ExtendTopic(topic, ti);
    if CharAt(topic, ti + 1) == '\0' {
      if CharAt(sub, si + 1) == '/' && CharAt(sub, si + 2) == '#' && CharAt(sub, si + 3) == '\0' {
        assert sub[si + 1..] == "/#";
        StepParent(sub, topic, si, ti);
        return Stop(Success, true), si', ti';
      }
    }
    if sub[si] == '/' {
      StepSlash(sub, topic, si, ti);
    } else {
      StepChar(sub, topic, si, ti);
    }
    out := Go;
    if si' == |sub| && ti' == |topic| {
      StepEnd(sub, topic, ti');
      return Stop(Success, true), si', ti';
    } else if ti' == |topic| && CharAt(sub, si') == '+' && CharAt(sub, si' + 1) == '\0' {
      if ValidFilter(sub) { WildcardAt(sub, si'); }
      if si' > 0 && sub[si' - 1] != '/' {
        return Stop(Inval, false), si', ti';
      }
      assert sub[si'..] == "+";
      StepLonePlus(sub, topic, si');
      return Stop(Success, true), si', ti';
    }
  }

  /** On valid input the single pass over the characters decides level-wise matching. */
  method TopicMatchesSub(sub: CString, topic: CString) returns (rc: Rc, result: bool)
    ensures sub == "" || topic == "" ==> rc == Inval && !result
    ensures sub != "" && topic != "" ==> Answers(sub, topic, rc, result)
  {
    if sub == "" || topic == "" {
      return Inval, false;
    }
    if (sub[0] == '$' && topic[0] != '$') || (topic[0] == '$' && sub[0] != '$') {
      DollarApart(sub, topic);
      return Success, false;
    }
    StepStart(sub, topic);
    hide MatchAt, Matches, Tokens, ValidFilter, Answers;
    var si: nat, ti: nat := 0, 0;
    while si < |sub|
      invariant Scanning(sub, topic, si, ti)
      decreases |sub| - si
    {
      if CharAt(topic, ti) == '+' || CharAt(topic, ti) == '#' {
        assert topic[ti] in topic;
        BadTopic(sub, topic);
        return Inval, false;
      }
      var out := Go;
      if sub[si] != CharAt(topic, ti) {
        if sub[si] == '+' {
          out, si, ti := AtPlus(sub, topic, si, ti);
        } else if sub[si] == '#' {
          rc, result := AtHash(sub, topic, si, ti);
          return;
        } else {
          rc, result := AtOther(sub, topic, si, ti);
          return;
        }
      } else {
        out, si, ti := AtSame(sub, topic, si, ti);
      }
      if out.Stop? {
        return out.rc, out.result;
      }
    }
    StepEnd(sub, topic, ti);
    var bad := SkipRest(topic, ti);
    if bad {
      BadTopic(sub, topic);
      return Inval, false;
    }
    NoMatch(sub, topic);
    return Success, false;
  }

  lemma BadTopic(sub: string, topic: string)
    requires sub != "" && topic != "" && !ValidTopic(topic)
    ensures Answers(sub, topic, Inval, false)
  {
  }

  lemma NoMatch(sub: string, topic: string)
    requires sub != "" && topic != ""
    requires ValidFilter(sub) && ValidTopic(topic) ==> !Matches(Tokens(sub), Tokens(topic))
    ensures Answers(sub, topic, Success, false)
  {
  }
}
