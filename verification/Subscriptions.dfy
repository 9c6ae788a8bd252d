/** The subscription tree of src/module/mqtt/subs.c.  A node holds the subscribers of its filter:
    a list of plain ones, and a list for each share name. */
module Subscriptions {
  import opened Options
  import opened Topics
  import opened TopicMatcher
  import opened TopicTree
  import opened Tokeniser
  import opened RetainedMessages

  lemma PathNoWildcards(s: string)
    requires s != "" && ValidTopic(s)
    ensures NoWildcards(TokenPath(s))
  {
    TopicHasNoWildcards(s);
    ShareFirst(s);
    var levels := Split(s);
    if levels[0] == "$share" && |levels| >= 2 {
      forall i | 0 <= i < |TokenPath(s)|
        ensures TokenPath(s)[i] != "+" && TokenPath(s)[i] != "#"
      {
        if i > 0 { assert TokenPath(s)[i] == levels[i + 1]; }
      }
    }
  }

  // ---------- the subscribers of a filter ----------

  const SUB_EXISTS: int := -2

  datatype Leaf = Leaf(client: string, qos: nat, identifier: nat, noLocal: bool, retainAsPublished: bool)

  /** The subscriber lists of a node; the plain one has no share name. */
  type Groups = map<Option<string>, seq<Leaf>>

  function IndexOfClient(ls: seq<Leaf>, client: string): (i: nat)
    ensures i <= |ls| && (i < |ls| ==> ls[i].client == client)
    ensures forall k :: 0 <= k < i ==> ls[k].client != client
  {
    if ls == [] || ls[0].client == client then 0 else 1 + IndexOfClient(ls[1..], client)
  }

  /** sub__add_leaf: a second subscription only changes quality of service and identifier. */
  function WithLeaf(ls: seq<Leaf>, leaf: Leaf): seq<Leaf>
  {
    var i := IndexOfClient(ls, leaf.client);
    if i < |ls| then ls[i := ls[i].(qos := leaf.qos, identifier := leaf.identifier)] else ls + [leaf]
  }

  function WithoutClient(ls: seq<Leaf>, client: string): seq<Leaf>
  {
    var i := IndexOfClient(ls, client);
    if i < |ls| then ls[..i] + ls[i + 1..] else ls
  }

  /** No client is listed twice. */
  predicate OncePerClient(ls: seq<Leaf>)
  {
    forall i, j :: 0 <= i < j < |ls| ==> ls[i].client != ls[j].client
  }

  /** Subscribing lists the client once, with what it asked for, and leaves the others alone. */
  lemma WithLeafOnce(ls: seq<Leaf>, leaf: Leaf)
    requires OncePerClient(ls)
    ensures var r := WithLeaf(ls, leaf);
            && r != [] && OncePerClient(r)
            && (exists l :: l in r && l.client == leaf.client && l.qos == leaf.qos && l.identifier == leaf.identifier)
            && (forall l: Leaf :: l.client != leaf.client ==> (l in r <==> l in ls))
  {
    var i := IndexOfClient(ls, leaf.client);
    var r := WithLeaf(ls, leaf);
    assert r[i].client == leaf.client && r[i] in r;
    if i < |ls| {
      assert forall k :: 0 <= k < |r| && k != i ==> r[k] == ls[k];
    }
  }

  /** Unsubscribing takes exactly the client off the list. */
  lemma WithoutClientGone(ls: seq<Leaf>, client: string)
    requires OncePerClient(ls)
    ensures var r := WithoutClient(ls, client);
            && OncePerClient(r)
            && forall l: Leaf :: l in r <==> l in ls && l.client != client
  {
    var i := IndexOfClient(ls, client);
    if i < |ls| {
      var r := ls[..i] + ls[i + 1..];
      assert ls == ls[..i] + [ls[i]] + ls[i + 1..];
      assert forall k :: 0 <= k < |r| ==> r[k] == ls[if k < i then k else k + 1];
    }
  }

  function LeavesIn(g: Option<Groups>, share: Option<string>): seq<Leaf>
  {
    if g.Some? && share in g.value then g.value[share] else []
  }

  /** A node's lists with one of them replaced; empty lists and nodes without lists go. */
  function WithLeaves(g: Option<Groups>, share: Option<string>, ls: seq<Leaf>): Option<Groups>
  {
    var was := if g.Some? then g.value else map[];
    var now := if ls == [] then was - {share} else was[share := ls];
    if now == map[] then None else Some(now)
  }

  predicate GroupsOk(g: Option<Groups>)
  {
    g.Some? ==> g.value != map[] && forall share :: share in g.value ==> g.value[share] != [] && OncePerClient(g.value[share])
  }

  lemma WithLeavesAt(g: Option<Groups>, share: Option<string>, ls: seq<Leaf>, other: Option<string>)
    requires GroupsOk(g) && OncePerClient(ls)
    ensures GroupsOk(WithLeaves(g, share, ls))
    ensures LeavesIn(WithLeaves(g, share, ls), other) == if other == share then ls else LeavesIn(g, other)
  {
    var was := if g.Some? then g.value else map[];
    var now := if ls == [] then was - {share} else was[share := ls];
    assert other != share ==> (other in now <==> other in was);
    assert ls != [] ==> share in now;
  }

  /** A node has a value exactly when somebody subscribed there. */
  lemma SomebodyThere(g: Option<Groups>)
    requires GroupsOk(g)
    ensures g.Some? <==> exists share :: LeavesIn(g, share) != []
  {
    if g.Some? {
      var share :| share in g.value;
      assert LeavesIn(g, share) != [];
    }
  }

  /** The share name of a filter. */
  function ShareOf(sub: string): Option<string>
  {
    var levels := Split(sub);
    if |levels| >= 2 && levels[0] == "$share" then Some(levels[1]) else None
  }

  /** The share name stands between "$share/" and the next slash: every name makes a group of its own. */
  lemma ShareNamed(name: string, filter: string)
    requires '/' !in name
    ensures ShareOf("$share/" + name + "/" + filter) == Some(name)
    ensures ShareOf("$share/" + name) == Some(name)
  {
    SplitAt("$share", name + "/" + filter);
    SplitAt(name, filter);
    assert "$share" + "/" + (name + "/" + filter) == "$share/" + name + "/" + filter;
    SplitAt("$share", name);
    assert "$share" + "/" + name == "$share/" + name;
  }

  /** Only a filter that begins so has one. */
  lemma ShareMeans(sub: string)
    requires ShareOf(sub).Some?
    ensures var name := ShareOf(sub).value;
            '/' !in name && "$share/" + name <= sub && (sub != "$share/" + name ==> "$share/" + name + "/" <= sub)
  {
    var levels := Split(sub);
    JoinSplit(sub);
    SplitNoSlash(sub, 1);
    assert sub == levels[0] + "/" + Join(levels[1..]);
    assert levels[1..][0] == levels[1];
  }

  // ---------- the tree ----------

  class SubscriptionTree {
    var roots: seq<Node<Groups>>

    ghost predicate Valid()
      reads this
    {
      && Forest(roots)
      && forall path: Path :: path != [] ==> GroupsOk(ValueAt(roots, Key(path)))
    }

    ghost function SubscribedAt(path: Path): Option<Groups>
      requires path != []
      reads this
    {
      ValueAt(roots, Key(path))
    }

    /** The subscribers of a filter under a share name. */
    ghost function LeavesAt(path: Path, share: Option<string>): seq<Leaf>
      requires path != []
      reads this
    {
      LeavesIn(SubscribedAt(path), share)
    }

    constructor ()
      ensures Valid()
      ensures forall path: Path :: path != [] ==> SubscribedAt(path) == None
    {
      roots := [Node("", None, []), Node("$SYS", None, [])];
      new;
      forall path: Path | path != []
        ensures SubscribedAt(path) == None
      {
        assert ValueAt<Groups>([], path) == None;
      }
    }

    /** sub__add: a client subscribes to a filter; MQTT 3.1.1 clients are not told that they already had. */
    method Add(sub: CString, leaf: Leaf, mqtt311: bool) returns (rc: int)
      requires Valid()
      requires sub != "" && ValidFilter(sub)
      modifies this
      ensures Valid()
      ensures rc == if !mqtt311 && exists l :: l in old(LeavesAt(TokenPath(sub), ShareOf(sub))) && l.client == leaf.client
                    then SUB_EXISTS else SUCCESS
      ensures forall path: Path, share :: path != [] ==>
                LeavesAt(path, share) ==
                if path == TokenPath(sub) && share == ShareOf(sub) then WithLeaf(old(LeavesAt(TokenPath(sub), ShareOf(sub))), leaf)
                else LeavesIn(ValueAt(old(roots), Key(path)), share)
    {
      hide Forest, ValueAt, Put, TokenPath, ShareOf, HashLast;
      PathHashLast(sub);
      var path, share := TokenPath(sub), ShareOf(sub);
      var g := ValueAt(roots, Key(path));
      var ls := LeavesIn(g, share);
      rc := if !mqtt311 && IndexOfClient(ls, leaf.client) < |ls| then SUB_EXISTS else SUCCESS;
      OnceAt(g, share);
      WithLeafOnce(ls, leaf);
      var g' := WithLeaves(g, share, WithLeaf(ls, leaf));
      forall s
        ensures GroupsOk(g') && LeavesIn(g', s) == if s == share then WithLeaf(ls, leaf) else LeavesIn(g, s)
      {
        WithLeavesAt(g, share, WithLeaf(ls, leaf), s);
      }
      WithLeavesAt(g, share, WithLeaf(ls, leaf), None);
      PutForest(roots, path, g');
      forall q: Path | q != []
        ensures ValueAt(Put(roots, Key(path), g'), Key(q)) == if q == path then g' else ValueAt(roots, Key(q))
      {
        PutAtKey(roots, path, g', q);
      }
      roots := Put(roots, Key(path), g');
    }

    /** sub__remove: a client's subscription ends, freeing the nodes nothing else needs.  The
        result says whether there was one. */
    method Remove(sub: CString, client: string) returns (existed: bool)
      requires Valid()
      requires sub != ""
      modifies this
      ensures Valid()
      ensures existed <==> exists l :: l in old(LeavesAt(TokenPath(sub), ShareOf(sub))) && l.client == client
      ensures forall path: Path, share :: path != [] ==>
                LeavesAt(path, share) ==
                if path == TokenPath(sub) && share == ShareOf(sub)
                then WithoutClient(old(LeavesAt(TokenPath(sub), ShareOf(sub))), client)
                else LeavesIn(ValueAt(old(roots), Key(path)), share)
    {
      hide Forest, ValueAt, RemoveAtKey, TokenPath, ShareOf;
      var path, share := TokenPath(sub), ShareOf(sub);
      var g := ValueAt(roots, Key(path));
      var ls := LeavesIn(g, share);
      existed := IndexOfClient(ls, client) < |ls|;
      OnceAt(g, share);
      WithoutClientGone(ls, client);
      var g' := WithLeaves(g, share, WithoutClient(ls, client));
      forall s
        ensures GroupsOk(g') && LeavesIn(g', s) == if s == share then WithoutClient(ls, client) else LeavesIn(g, s)
      {
        WithLeavesAt(g, share, WithoutClient(ls, client), s);
      }
      WithLeavesAt(g, share, WithoutClient(ls, client), None);
      RemoveForest(roots, path, g');
      ForestWellFormed(roots);
      forall q: Path | q != []
        ensures ValueAt(RemoveAtKey(roots, path, g'), Key(q)) == if q == path then g' else ValueAt(roots, Key(q))
      {
        RemoveAtKeyRefines(roots, path, g', q);
      }
      roots := RemoveAtKey(roots, path, g');
    }

    /** The tree has a root for the first level. */
    predicate HasRoot(level: string)
      reads this
    {
      IndexOf(roots, level) < |roots|
    }

    /** A published topic is delivered to the subscribed filters that match it, each once, in the
        order of the search; a failed delivery, and nothing else, keeps it from any of them.  A topic
        whose root is not in the tree is a success, although nobody has it. */
    method Search(topic: CString, deliver: Path -> int) returns (visits: seq<Path>, rc: int)
      requires Valid()
      requires topic != "" && ValidTopic(topic)
      ensures Unique(visits)
      ensures forall sub: string :: sub != "" && TokenPath(sub) in visits ==>
                SubscribedAt(TokenPath(sub)).Some? && Matches(TokenPath(sub), TokenPath(topic))
      ensures !Fails(rc) ==> forall sub: string :: sub != "" ==>
                (TokenPath(sub) in visits <==>
                 SubscribedAt(TokenPath(sub)).Some? && Matches(TokenPath(sub), TokenPath(topic)))
      ensures forall i :: 0 <= i < |visits| - 1 ==> !Fails(deliver(visits[i]))
      ensures Fails(rc) ==> visits != [] && rc == deliver(visits[|visits| - 1])
      ensures TokenPath(topic) != [] && (!HasRoot(TokenPath(topic)[0]) ==> visits == [] && rc == SUCCESS)
      ensures (forall path :: deliver(path) == 0 || deliver(path) == -3) ==>
                && (rc == 0 || rc == -3)
                && forall sub: string :: sub != "" ==>
                     (TokenPath(sub) in visits <==>
                      SubscribedAt(TokenPath(sub)).Some? && Matches(TokenPath(sub), TokenPath(topic)))
      ensures HasRoot(TokenPath(topic)[0]) && !Fails(rc) ==>
                (rc == SUCCESS <==> exists i :: 0 <= i < |visits| && deliver(visits[i]) == SUCCESS)
    {
      hide Forest, ValueAt, TokenPath, Matches, NoWildcards, SubDeliver, SubVisit;
      var t := TokenPath(topic);
      PathRoot(topic);
      PathNoWildcards(topic);
      var i := IndexOf(roots, t[0]);
      visits, rc := [], SUCCESS;
      if i < |roots| {
        var run := SubDeliver(roots[i].children, t, deliver);
        visits, rc := run.visits, run.rc;
      }
      ghost var all := SubSearch(roots, t);
      if i < |roots| {
        SubDeliverIs(roots[i].children, t, deliver);
      } else {
        NoTurn(deliver);
      }
      hide SubSearch;
      InTurnMeans(all, deliver);
      SubSearchExact(roots, t, []);
      UniquePrefix(visits, all);
      forall sub: string | sub != ""
        ensures TokenPath(sub) in all <==>
                  SubscribedAt(TokenPath(sub)).Some? && Matches(TokenPath(sub), t)
      {
        PathRoot(sub);
        SubSearchExact(roots, t, TokenPath(sub));
      }
    }
  }

  lemma OnceAt(g: Option<Groups>, share: Option<string>)
    requires GroupsOk(g)
    ensures OncePerClient(LeavesIn(g, share))
  {
  }

  lemma ForestWellFormed(roots: seq<Node<Groups>>)
    requires Forest(roots)
    ensures WellFormed(roots)
  {
  }

  lemma UniquePrefix(a: seq<Path>, b: seq<Path>)
    requires a <= b && Unique(b)
    ensures Unique(a) && forall p :: p in a ==> p in b
  {
  }
}
