/** Topic strings and their levels: the reference definitions that the tokeniser,
    the character matcher and the two topic trees are proved against. */
module Topics {

  // ---------- splitting into levels ----------

  /** The levels of a string: the pieces between its '/' characters. */
  function Split(s: string): (levels: seq<string>)
    ensures |levels| >= 1
  {
    if s == "" then [""]
    else if s[0] == '/' then [""] + Split(s[1..])
    else var rest := Split(s[1..]); [[s[0]] + rest[0]] + rest[1..]
  }

  function Join(levels: seq<string>): string
    requires |levels| >= 1
  {
    if |levels| == 1 then levels[0] else levels[0] + "/" + Join(levels[1..])
  }

  lemma {:induction false} JoinSplit(s: string)
    ensures Join(Split(s)) == s
  {
    if s != "" {
      JoinSplit(s[1..]);
      var rest := Split(s[1..]);
      if s[0] == '/' {
        assert Split(s)[1..] == rest;
      } else {
        assert Split(s)[1..] == rest[1..];
        assert s == [s[0]] + s[1..];
      }
    }
  }

  lemma {:induction false} SplitNoSlash(s: string, i: nat)
    requires i < |Split(s)|
    ensures '/' !in Split(s)[i]
  {
    if s != "" {
      if s[0] == '/' {
        if i > 0 { SplitNoSlash(s[1..], i - 1); }
      } else {
        SplitNoSlash(s[1..], i);
      }
    }
  }

  /** A piece without '/' in front of a '/' is the first level. */
  lemma {:induction false} SplitAt(piece: string, rest: string)
    requires '/' !in piece
    ensures Split(piece + "/" + rest) == [piece] + Split(rest)
    ensures Split(piece) == [piece]
  {
    if piece == "" {
      assert piece + "/" + rest == "/" + rest;
      assert ("/" + rest)[1..] == rest;
    } else {
      SplitAt(piece[1..], rest);
      var whole := piece + "/" + rest;
      assert whole[1..] == piece[1..] + "/" + rest;
      assert piece == [piece[0]] + piece[1..];
      assert Split(whole)[0] == piece && Split(whole)[1..] == Split(rest);
    }
  }

  /** The tree path of a topic or filter: its levels, under an empty level unless it starts with '$'. */
  function Tokens(s: string): (path: seq<string>)
    requires s != ""
    ensures |path| >= 1
  {
    if s[0] == '$' then Split(s) else [""] + Split(s)
  }

  // ---------- validity ----------

  predicate AtLevelStart(s: string, i: nat)
    requires i <= |s|
  {
    i == 0 || s[i - 1] == '/'
  }

  predicate AtLevelEnd(s: string, i: nat)
    requires i < |s|
  {
    i + 1 == |s| || s[i + 1] == '/'
  }

  /** '+' alone in its level; '#' alone in the last level. */
  predicate ValidFilter(s: string)
  {
    && (forall i :: 0 <= i < |s| && s[i] == '+' ==> AtLevelStart(s, i) && AtLevelEnd(s, i))
    && (forall i :: 0 <= i < |s| && s[i] == '#' ==> AtLevelStart(s, i) && i + 1 == |s|)
  }

  predicate ValidTopic(s: string)
  {
    '+' !in s && '#' !in s
  }

  /** "#" occurs only as the last level. */
  predicate HashLast(path: seq<string>)
  {
    forall i :: 0 <= i < |path| - 1 ==> path[i] != "#"
  }

  predicate NoWildcards(path: seq<string>)
  {
    forall i :: 0 <= i < |path| ==> path[i] != "+" && path[i] != "#"
  }

  // ---------- matching ----------

  /** Does a topic path match a filter path?  "+" stands for one level, a final "#" for
      any number of levels, none included (sections 4.7.1.2 and 4.7.1.3 of MQTT Version 5.0). */
  predicate Matches(filter: seq<string>, path: seq<string>)
  {
    if filter == ["#"] then true
    else if filter == [] || path == [] then filter == path
    else (filter[0] == "+" || filter[0] == path[0]) && Matches(filter[1..], path[1..])
  }

  /** Section 4.7.2 of MQTT Version 5.0: '$' topics are only matched by '$' filters. */
  lemma DollarApart(filter: string, topic: string)
    requires filter != "" && topic != ""
    requires (filter[0] == '$') != (topic[0] == '$')
    ensures !Matches(Tokens(filter), Tokens(topic))
  {
    var f, t := Tokens(filter), Tokens(topic);
    assert filter[0] == '$' ==> f[0][0] == '$';
    assert topic[0] == '$' ==> t[0][0] == '$';
    assert filter[0] == '$' ==> f[0] != t[0];
    assert topic[0] == '$' ==> f[0] != t[0];
    assert f != ["#"];
  }

  lemma MatchesBelowEmpty(filter: seq<string>, path: seq<string>)
    ensures Matches([""] + filter, [""] + path) == Matches(filter, path)
  {
    assert ([""] + filter)[1..] == filter && ([""] + path)[1..] == path;
    assert ([""] + filter)[0] == "";
  }

  /** Levels of valid topics carry no wildcard, and of valid filters only whole-level ones. */
  lemma {:induction false} SplitLevelChars(s: string, i: nat, c: char)
    requires i < |Split(s)| && c in Split(s)[i]
    ensures c in s
  {
    if s != "" {
      if s[0] == '/' {
        if i > 0 { SplitLevelChars(s[1..], i - 1, c); }
      } else if c != s[0] || i > 0 {
        SplitLevelChars(s[1..], i, c);
      }
    }
  }

  lemma TopicHasNoWildcards(s: string)
    requires s != "" && ValidTopic(s)
    ensures NoWildcards(Tokens(s))
  {
    forall i | 0 <= i < |Split(s)|
      ensures Split(s)[i] != "+" && Split(s)[i] != "#"
    {
      if Split(s)[i] == "+" { SplitLevelChars(s, i, '+'); }
      if Split(s)[i] == "#" { SplitLevelChars(s, i, '#'); }
    }
  }

  /** A level that is not the last is followed by '/' in the string. */
  lemma {:induction false} LevelBeforeSlash(s: string, i: nat) returns (k: nat)
    requires i < |Split(s)| - 1 && Split(s)[i] != ""
    ensures k + 1 < |s| && s[k] == Split(s)[i][|Split(s)[i]| - 1] && s[k + 1] == '/'
  {
    var rest := s[1..];
    if s[0] == '/' {
      k := LevelBeforeSlash(rest, i - 1);
      k := k + 1;
    } else if i > 0 || Split(rest)[0] != "" {
      k := LevelBeforeSlash(rest, i);
      k := k + 1;
    } else {
      k := 0;
      if rest == "" {
        assert false;
      }
    }
  }

  lemma FilterHashLast(s: string)
    requires s != "" && ValidFilter(s)
    ensures HashLast(Split(s)) && HashLast(Tokens(s))
  {
    forall i | 0 <= i < |Split(s)| - 1
      ensures Split(s)[i] != "#"
    {
      if Split(s)[i] == "#" {
        var k := LevelBeforeSlash(s, i);
      }
    }
  }
}
