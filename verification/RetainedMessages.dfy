/** The retained-message index of src/module/mqtt/retain.c. */
module RetainedMessages {
  import opened Options
  import opened Topics
  import opened TopicMatcher
  import opened TopicTree
  import opened Tokeniser

  /** The part of a stored message the index looks at. */
  datatype Message = Message(id: nat, payloadlen: nat, expiryTime: int)

  predicate Expired(m: Message, now: int)
  {
    m.expiryTime > 0 && now >= m.expiryTime
  }

  /** Paths start with the empty level or with a '$' level, never with a wildcard. */
  lemma PathRoot(s: string)
    requires s != ""
    ensures TokenPath(s)[0] != "+" && TokenPath(s)[0] != "#"
  {
    assert s[0] == '$' ==> Split(s)[0][0] == '$';
  }

  /** Only '$' strings are shared subscriptions. */
  lemma ShareDollar(s: string)
    requires s != "" && s[0] != '$'
    ensures TokenPath(s) == Tokens(s)
  {
    ShareFirst(s);
  }

  /** Valid filters keep "#" at the end of their path. */
  lemma PathHashLast(s: string)
    requires s != "" && ValidFilter(s)
    ensures HashLast(TokenPath(s))
  {
    FilterHashLast(s);
    var levels := Split(s);
    if levels[0] == "$share" && |levels| >= 2 {
      forall i | 0 <= i < |TokenPath(s)| - 1
        ensures TokenPath(s)[i] != "#"
      {
        if i > 0 { assert TokenPath(s)[i] == levels[i + 1]; }
      }
    }
  }

  /** Different topics outside "$share" have different paths. */
  lemma TokensInjective(s: string, t: string)
    requires s != "" && t != ""
    requires Tokens(s) == Tokens(t)
    ensures s == t
  {
    RebuildTokens(s);
    RebuildTokens(t);
  }

  /** The missed case needs a '$' filter: an ordinary topic has at least two levels in the tree. */
  lemma OnlyDollarMissed(cs: seq<Node<Message>>, sub: string, topic: string)
    requires sub != "" && topic != "" && sub[0] != '$'
    ensures Matches(Tokens(sub), Tokens(topic)) ==> !Missed(cs, Tokens(sub), 0, Tokens(topic))
  {
    if topic[0] == '$' {
      DollarApart(sub, topic);
    } else {
      assert |Tokens(topic)| >= 2;
    }
  }

  /** The missed case is real: a message retained on "$x" alone is not found by "$x/#",
      although the filter matches it, until something is stored below "$x". */
  lemma DollarParentMissed(m: Message)
    ensures var alone := Put([], ["$x"], Some(m));
            Matches(["$x", "#"], ["$x"]) && Visit(alone, ["$x", "#"], 0) == []
    ensures var below := Put(Put([], ["$x"], Some(m)), ["$x", "y"], None);
            Visit(below, ["$x", "#"], 0) == [["$x"]]
  {
    var alone := Put([], ["$x"], Some(m));
    assert ["$x", "#"][1..] == ["#"] && ["$x", "y"][1..] == ["y"];
    assert alone == [Node("$x", Some(m), [])];
    assert IndexOf(alone, "$x") == 0;
    var y: Node<Message> := Node("y", None, []);
    assert Put<Message>([], ["y"], None) == [y];
    var below := Put(alone, ["$x", "y"], None);
    assert below == [Node("$x", Some(m), [y])];
    assert VisitAll(below[0].children) == [] by { assert [y][1..] == []; }
  }

  /** roots is roots0 without the expired entries of the processed paths. */
  ghost predicate Dropped(roots0: seq<Node<Message>>, roots: seq<Node<Message>>, done: seq<Path>, now: int)
  {
    forall path: Path :: path != [] ==>
      ValueAt(roots, Key(path)) ==
      if path in done && ValueAt(roots0, Key(path)).Some? && Expired(ValueAt(roots0, Key(path)).value, now)
      then None else ValueAt(roots0, Key(path))
  }

  /** The delivered entries are the unexpired, allowed ones among the processed paths, each once. */
  ghost predicate Handed(roots0: seq<Node<Message>>, delivered: seq<(Path, Message)>, done: seq<Path>, now: int,
                         allowed: Path -> bool)
  {
    && (forall path: Path, m: Message :: (path, m) in delivered <==>
          && path in done && path != [] && ValueAt(roots0, Key(path)) == Some(m)
          && !Expired(m, now) && allowed(path))
    && (forall i, j :: 0 <= i < j < |delivered| ==> delivered[i].0 != delivered[j].0)
  }

  lemma NotYetDropped(roots0: seq<Node<Message>>, roots: seq<Node<Message>>, done: seq<Path>, now: int, path: Path)
    requires path != [] && path !in done && Dropped(roots0, roots, done, now)
    ensures ValueAt(roots, Key(path)) == ValueAt(roots0, Key(path))
  {
    hide ValueAt, Key;
  }

  lemma DropNext(roots0: seq<Node<Message>>, before: seq<Node<Message>>, after: seq<Node<Message>>,
                 done: seq<Path>, now: int, path: Path)
    requires path != [] && Dropped(roots0, before, done, now) && ValueAt(roots0, Key(path)).Some?
    requires if Expired(ValueAt(roots0, Key(path)).value, now)
             then forall q: Path :: q != [] ==>
                    ValueAt(after, Key(q)) == if q == path then None else ValueAt(before, Key(q))
             else after == before
    ensures Dropped(roots0, after, done + [path], now)
  {
    hide ValueAt, Key;
  }

  lemma HandNext(roots0: seq<Node<Message>>, delivered: seq<(Path, Message)>, done: seq<Path>, now: int,
                 allowed: Path -> bool, path: Path)
    requires path != [] && path !in done && ValueAt(roots0, Key(path)).Some?
    requires Handed(roots0, delivered, done, now, allowed)
    ensures var m := ValueAt(roots0, Key(path)).value;
            if !Expired(m, now) && allowed(path)
            then Handed(roots0, delivered + [(path, m)], done + [path], now, allowed)
            else Handed(roots0, delivered, done + [path], now, allowed)
  {
    hide ValueAt, Key;
    forall a | 0 <= a < |delivered|
      ensures delivered[a].0 != path
    {
      assert delivered[a] == (delivered[a].0, delivered[a].1);
      assert delivered[a] in delivered;
    }
  }

  class RetainTree {
    var roots: seq<Node<Message>>

    ghost predicate Valid()
      reads this
    {
      WellFormed(roots)
    }

    /** What is retained at a path; the tree repeats the first level at its root. */
    ghost function RetainedAt(path: Path): Option<Message>
      requires path != []
      reads this
    {
      ValueAt(roots, Key(path))
    }

    constructor ()
      ensures Valid()
      ensures forall path: Path :: path != [] ==> RetainedAt(path) == None
    {
      roots := [Node("", None, []), Node("$SYS", None, [])];
      new;
      forall path: Path | path != []
        ensures RetainedAt(path) == None
      {
        assert ValueAt<Message>([], path) == None;
      }
    }

    /** The index is a map from paths to the last message stored there; a message without
        payload clears its entry. */
    method Store(topic: CString, stored: Message)
      requires Valid()
      requires topic != ""
      modifies this
      ensures Valid()
      ensures forall path: Path :: path != [] ==>
                RetainedAt(path) == if path != TokenPath(topic) then old(RetainedAt(path))
                                    else if stored.payloadlen > 0 then Some(stored) else None
    {
      var path := TokenPath(topic);
      PathRoot(topic);
      var v := if stored.payloadlen > 0 then Some(stored) else None;
      PutWellFormed(roots, Key(path), v);
      forall q: Path | q != []
        ensures ValueAt(Put(roots, Key(path), v), Key(q)) == if q == path then v else ValueAt(roots, Key(q))
      {
        PutAtKey(roots, path, v, q);
      }
      roots := Put(roots, Key(path), v);
    }

    ghost function RootChildren(level: string): seq<Node<Message>>
      reads this
    {
      var i := IndexOf(roots, level);
      if i < |roots| then roots[i].children else []
    }

    /** The retained entries a filter selects. */
    ghost predicate Selected(sub: string, path: Path)
      reads this
    {
      && sub != "" && path != []
      && RetainedAt(path).Some?
      && Matches(TokenPath(sub), path)
      && !Missed(RootChildren(path[0]), TokenPath(sub), 0, path)
    }

    /** The nodes retain__search processes for a filter: the selected ones, each once. */
    method Search(sub: CString) returns (visits: seq<Path>)
      requires Valid()
      ensures ValidFilter(sub) ==>
                Unique(visits) && forall path: Path :: path in visits <==> Selected(sub, path)
      ensures ValidFilter(sub) && sub != "" && sub[0] != '$' ==>
                forall topic: string :: topic != "" ==>
                  (Tokens(topic) in visits <==>
                   RetainedAt(Tokens(topic)).Some? && Matches(Tokens(sub), Tokens(topic)))
    {
      if sub == "" {
        return [];
      }
      hide Visit, Split, Unique, Selected, RetainedAt, Matches, Tokens, TokenPath;
      PathRoot(sub);
      var f := TokenPath(sub);
      var i := IndexOf(roots, f[0]);
      visits := if i < |roots| then Visit(roots[i].children, f, 0) else [];
      if ValidFilter(sub) {
        forall path: Path
          ensures Unique(visits) && (path in visits <==> Selected(sub, path))
        {
          VisitsAre(sub, path);
        }
        assert Unique(visits) by { VisitsAre(sub, []); }
        if sub[0] != '$' {
          forall topic: string | topic != ""
            ensures Selected(sub, Tokens(topic)) <==>
                      RetainedAt(Tokens(topic)).Some? && Matches(Tokens(sub), Tokens(topic))
          {
            SelectedMeans(sub, topic);
          }
        }
      }
    }

    /** What the search from the root of a filter visits. */
    lemma VisitsAre(sub: string, path: Path)
      requires Valid() && sub != "" && ValidFilter(sub)
      ensures var f := TokenPath(sub);
              var i := IndexOf(roots, f[0]);
              var visits := if i < |roots| then Visit(roots[i].children, f, 0) else [];
              Unique(visits) && (path in visits <==> Selected(sub, path))
    {
      PathRoot(sub);
      PathHashLast(sub);
      hide Visit, Split, TokenPath;
      var f := TokenPath(sub);
      var i := IndexOf(roots, f[0]);
      if i < |roots| {
        VisitExact(roots[i].children, f, 0, path);
      }
    }

    /** For a filter without '$' the selected topics are the matching ones. */
    lemma SelectedMeans(sub: string, topic: string)
      requires Valid() && sub != "" && sub[0] != '$' && topic != ""
      ensures Selected(sub, Tokens(topic)) <==> RetainedAt(Tokens(topic)).Some? && Matches(Tokens(sub), Tokens(topic))
    {
      ShareDollar(sub);
      OnlyDollarMissed(RootChildren(Tokens(topic)[0]), sub, topic);
    }

    /** Hands every matching message that is not expired and that the reader may see to the
        subscriber, once, and drops the matching messages that are expired. */
    method Queue(sub: CString, now: int, allowed: Path -> bool) returns (delivered: seq<(Path, Message)>)
      requires Valid()
      requires ValidFilter(sub)
      modifies this
      ensures Valid()
      ensures forall i, j :: 0 <= i < j < |delivered| ==> delivered[i].0 != delivered[j].0
      ensures forall path: Path, m: Message :: (path, m) in delivered <==>
                && old(Selected(sub, path)) && old(RetainedAt(path)) == Some(m)
                && (m.expiryTime <= 0 || now < m.expiryTime) && allowed(path)
      ensures forall path: Path :: path != [] ==>
                RetainedAt(path) ==
                if old(Selected(sub, path)) && 0 < old(RetainedAt(path)).value.expiryTime <= now then None
                else old(RetainedAt(path))
    {
      var visits := Search(sub);
      hide Matches, Missed, ValueAt, WellFormed, Key;
      delivered := Process(visits, now, allowed);
    }

    /** retain__process on each visited node. */
    method Process(visits: seq<Path>, now: int, allowed: Path -> bool) returns (delivered: seq<(Path, Message)>)
      requires Valid()
      requires Unique(visits) && forall path: Path :: path in visits ==> path != [] && RetainedAt(path).Some?
      modifies this
      ensures Valid()
      ensures Dropped(old(roots), roots, visits, now)
      ensures Handed(old(roots), delivered, visits, now, allowed)
    {
      ghost var roots0 := roots;
      delivered := [];
      assert Dropped(roots0, roots, visits[..0], now) && Handed(roots0, delivered, visits[..0], now, allowed);
      hide Dropped, Handed, ValueAt, WellFormed, Key;
      for i := 0 to |visits|
        invariant Valid()
        invariant Dropped(roots0, roots, visits[..i], now)
        invariant Handed(roots0, delivered, visits[..i], now, allowed)
      {
        var path := visits[i];
        assert path in visits && path !in visits[..i];
        assert visits[..i + 1] == visits[..i] + [path];
        NotYetDropped(roots0, roots, visits[..i], now, path);
        HandNext(roots0, delivered, visits[..i], now, allowed, path);
        ghost var before := roots;
        var m := ValueAt(roots, Key(path)).value;
        if Expired(m, now) {
          Drop(path);
        } else if allowed(path) {
          delivered := delivered + [(path, m)];
        }
        DropNext(roots0, before, roots, visits[..i], now, path);
      }
      assert visits[..|visits|] == visits;
    }

    /** Clears an expired entry. */
    method Drop(path: Path)
      requires Valid()
      requires path != []
      modifies this
      ensures Valid()
      ensures forall q: Path :: q != [] ==>
                ValueAt(roots, Key(q)) == if q == path then None else ValueAt(old(roots), Key(q))
    {
      PutWellFormed(roots, Key(path), None);
      forall q: Path | q != []
        ensures ValueAt(Put(roots, Key(path), None), Key(q)) == if q == path then None else ValueAt(roots, Key(q))
      {
        PutAtKey(roots, path, None, q);
      }
      roots := Put(roots, Key(path), None);
    }
  }
}
