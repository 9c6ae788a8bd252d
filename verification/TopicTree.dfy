/** The two level trees of the broker: the retained-message tree of
    src/module/mqtt/retain.c, where topics are stored and filters are looked up, and the
    subscription tree of src/module/mqtt/subs.c, where filters are stored and topics are
    looked up.  A node's children are kept in the order they were added. */
module TopicTree {
  import opened Options
  import opened Topics

  type Path = seq<string>

  datatype Node<M> = Node(level: string, value: Option<M>, children: seq<Node<M>>)

  // ---------- trees as maps from paths ----------

  /** Siblings carry different levels, at every depth. */
  predicate WellFormed<M>(cs: seq<Node<M>>)
  {
    && (forall i, j :: 0 <= i < j < |cs| ==> cs[i].level != cs[j].level)
    && (forall i :: 0 <= i < |cs| ==> WellFormed(cs[i].children))
  }

  /** The position of the child with a level; the end when there is none. */
  function IndexOf<M>(cs: seq<Node<M>>, level: string): (i: nat)
    ensures i <= |cs|
    ensures i < |cs| ==> cs[i].level == level
    ensures forall k :: 0 <= k < i ==> cs[k].level != level
  {
    if cs == [] then 0
    else if cs[0].level == level then 0
    else 1 + IndexOf(cs[1..], level)
  }

  lemma IndexIs<M>(cs: seq<Node<M>>, level: string, i: nat)
    requires i <= |cs| && (i < |cs| ==> cs[i].level == level)
    requires forall k :: 0 <= k < i ==> cs[k].level != level
    ensures IndexOf(cs, level) == i
  {
    var j := IndexOf(cs, level);
    assert !(j < i) && !(i < j);
  }

  function ValueAt<M>(cs: seq<Node<M>>, path: Path): Option<M>
    requires path != []
    decreases |path|
  {
    var i := IndexOf(cs, path[0]);
    if i == |cs| then None
    else if |path| == 1 then cs[i].value
    else ValueAt(cs[i].children, path[1..])
  }

  /** Walks down a path, adding the nodes it lacks, and sets the value of the last node. */
  function Put<M>(cs: seq<Node<M>>, path: Path, v: Option<M>): seq<Node<M>>
    requires path != []
    decreases |path|
  {
    var i := IndexOf(cs, path[0]);
    var n := if i < |cs| then cs[i] else Node(path[0], None, []);
    var n' := if |path| == 1 then n.(value := v) else n.(children := Put(n.children, path[1..], v));
    if i < |cs| then cs[i := n'] else cs + [n']
  }

  /** Stores change the map at their own path only. */
  lemma {:induction false} PutRefinesMap<M>(cs: seq<Node<M>>, path: Path, v: Option<M>, q: Path)
    requires path != [] && q != []
    ensures ValueAt(Put(cs, path, v), q) == if q == path then v else ValueAt(cs, q)
    decreases |path|
  {
    var i, cs' := IndexOf(cs, path[0]), Put(cs, path, v);
    IndexIs(cs', path[0], i);
    if q[0] != path[0] {
      var j := IndexOf(cs, q[0]);
      IndexIs(cs', q[0], if j == |cs| then |cs'| else j);
    } else {
      assert q == [q[0]] + q[1..] && path == [path[0]] + path[1..];
      if |path| > 1 && |q| > 1 {
        PutRefinesMap(if i < |cs| then cs[i].children else [], path[1..], v, q[1..]);
      } else if |path| > 1 && i == |cs| {
        assert cs'[i].value == None;
      } else if |q| > 1 && i == |cs| {
        assert cs'[i].children == [];
      }
    }
  }

  lemma {:induction false} PutWellFormed<M>(cs: seq<Node<M>>, path: Path, v: Option<M>)
    requires path != [] && WellFormed(cs)
    ensures WellFormed(Put(cs, path, v))
    decreases |path|
  {
    if |path| > 1 {
      var i := IndexOf(cs, path[0]);
      PutWellFormed(if i < |cs| then cs[i].children else [], path[1..], v);
    }
  }

  // ---------- lists of visited paths ----------

  predicate Unique(ps: seq<Path>)
  {
    forall i, j :: 0 <= i < j < |ps| ==> ps[i] != ps[j]
  }

  function Prepend(level: string, ps: seq<Path>): (r: seq<Path>)
    ensures |r| == |ps|
    ensures forall i :: 0 <= i < |ps| ==> r[i] == [level] + ps[i]
  {
    seq(|ps|, i requires 0 <= i < |ps| => [level] + ps[i])
  }

  lemma InPrepend(level: string, ps: seq<Path>, p: Path)
    ensures p in Prepend(level, ps) <==> p != [] && p[0] == level && p[1..] in ps
  {
    var r := Prepend(level, ps);
    if p in r {
      var i :| 0 <= i < |r| && r[i] == p;
      assert p[1..] == ps[i];
    }
    if p != [] && p[0] == level && p[1..] in ps {
      var i :| 0 <= i < |ps| && ps[i] == p[1..];
      assert r[i] == p;
    }
  }

  lemma UniquePrepend(level: string, ps: seq<Path>)
    requires Unique(ps)
    ensures Unique(Prepend(level, ps))
  {
    var r := Prepend(level, ps);
    forall i, j | 0 <= i < j < |r|
      ensures r[i] != r[j]
    {
      assert r[i][1..] == ps[i] && r[j][1..] == ps[j];
    }
  }

  lemma UniqueAppend(a: seq<Path>, b: seq<Path>)
    requires Unique(a) && Unique(b)
    requires forall p :: p in a ==> p !in b
    ensures Unique(a + b)
  {
    forall i, j | 0 <= i < j < |a + b|
      ensures (a + b)[i] != (a + b)[j]
    {
      if i < |a| <= j {
        assert a[i] in a && b[j - |a|] in b;
      }
    }
  }

  // ---------- looking filters up among topics ----------

  /** The '#' walk: every node with a value below the given siblings. */
  function VisitAll<M>(cs: seq<Node<M>>): seq<Path>
    decreases cs
  {
    if cs == [] then [] else
    (if cs[0].value.Some? then [[cs[0].level]] else [])
    + Prepend(cs[0].level, VisitAll(cs[0].children))
    + VisitAll(cs[1..])
  }

  /** retain__search below a node with children cs: the paths of the nodes it processes. */
  function Visit<M>(cs: seq<Node<M>>, f: Path, level: nat): seq<Path>
    requires f != []
    decreases |f|, 2, 0
  {
    if f == ["#"] then VisitAll(cs)
    else if f[0] == "+" then VisitEach(cs, f, level)
    else var i := IndexOf(cs, f[0]); if i < |cs| then VisitBranch(cs[i], f, level) else []
  }

  function VisitEach<M>(cs: seq<Node<M>>, f: Path, level: nat): seq<Path>
    requires f != []
    decreases |f|, 1, |cs|
  {
    if cs == [] then [] else VisitBranch(cs[0], f, level) + VisitEach(cs[1..], f, level)
  }

  /** A branch whose level the filter's first level matches.  The branch itself is processed
      at the end of the filter, or before a final "#" when the search below reports children
      (flag -1) or is not at the top. */
  function VisitBranch<M>(b: Node<M>, f: Path, level: nat): seq<Path>
    requires f != []
    decreases |f|, 0, 0
  {
    if |f| == 1 then
      if b.value.Some? then [[b.level]] else []
    else
      Prepend(b.level, Visit(b.children, f[1..], level + 1))
      + (if (Flag(b.children, f[1..]) == -1 || (f[1] == "#" && level > 0)) && b.value.Some?
         then [[b.level]] else [])
  }

  /** The return value of retain__search. */
  function Flag<M>(cs: seq<Node<M>>, f: Path): int
  {
    if f == ["#"] && cs != [] then -1 else 0
  }

  /** The one case the search misses: a top-level "x/#" against a childless node "x". */
  predicate Missed<M>(cs: seq<Node<M>>, f: Path, level: nat, p: Path)
  {
    && level == 0 && |f| == 2 && f[1] == "#" && |p| == 1
    && var i := IndexOf(cs, p[0]); i < |cs| ==> cs[i].children == []
  }

  lemma {:induction false} InVisitAll<M>(cs: seq<Node<M>>, p: Path)
    requires WellFormed(cs)
    ensures p in VisitAll(cs) <==> p != [] && ValueAt(cs, p).Some?
    decreases cs
  {
    if cs != [] {
      var b := cs[0];
      InPrepend(b.level, VisitAll(b.children), p);
      if p != [] {
        TailValue(cs, p);
        InVisitAll(b.children, p[1..]);
        assert p == [p[0]] + p[1..];
      }
      InVisitAll(cs[1..], p);
      var own := if b.value.Some? then [[b.level]] else [];
      assert VisitAll(cs) == own + Prepend(b.level, VisitAll(b.children)) + VisitAll(cs[1..]);
      assert p in own <==> p == [b.level] && b.value.Some?;
    }
  }

  lemma {:induction false} UniqueVisitAll<M>(cs: seq<Node<M>>)
    requires WellFormed(cs)
    ensures Unique(VisitAll(cs))
    decreases cs
  {
    if cs != [] {
      var b, rest := cs[0], cs[1..];
      var own := if b.value.Some? then [[b.level]] else [];
      var below := Prepend(b.level, VisitAll(b.children));
      assert WellFormed(rest);
      forall q | q in VisitAll(rest)
        ensures q !in own + below
      {
        InVisitAll(rest, q);
        TailValue(cs, q);
      }
      InVisitAll(b.children, []);
      InPrepend(b.level, VisitAll(b.children), [b.level]);
      UniqueVisitAll(b.children);
      UniquePrepend(b.level, VisitAll(b.children));
      UniqueAppend(own, below);
      UniqueVisitAll(rest);
      UniqueAppend(own + below, VisitAll(rest));
    }
  }

  /** Values below the first sibling and below the others. */
  lemma TailValue<M>(cs: seq<Node<M>>, q: Path)
    requires WellFormed(cs) && cs != [] && q != []
    ensures WellFormed(cs[1..])
    ensures q[0] != cs[0].level ==> ValueAt(cs, q) == ValueAt(cs[1..], q)
    ensures q[0] == cs[0].level ==> ValueAt(cs[1..], q) == None
    ensures q[0] == cs[0].level ==>
              ValueAt(cs, q) == if |q| == 1 then cs[0].value else ValueAt(cs[0].children, q[1..])
  {
  }

  lemma {:induction false} VisitExact<M>(cs: seq<Node<M>>, f: Path, level: nat, p: Path)
    requires WellFormed(cs)
    requires f != [] && HashLast(f)
    ensures p in Visit(cs, f, level) <==>
              p != [] && ValueAt(cs, p).Some? && Matches(f, p) && !Missed(cs, f, level, p)
    ensures Unique(Visit(cs, f, level))
    decreases |f|, 2, 0
  {
    if f == ["#"] {
      InVisitAll(cs, p);
      UniqueVisitAll(cs);
    } else if f[0] == "+" {
      VisitEachExact(cs, f, level, p);
    } else {
      var i := IndexOf(cs, f[0]);
      if i < |cs| {
        VisitBranchExact(cs, i, f, level, p);
      }
    }
  }

  lemma {:induction false} VisitEachExact<M>(cs: seq<Node<M>>, f: Path, level: nat, p: Path)
    requires WellFormed(cs)
    requires f != [] && HashLast(f) && f[0] == "+"
    ensures p in VisitEach(cs, f, level) <==>
              p != [] && ValueAt(cs, p).Some? && Matches(f, p) && !Missed(cs, f, level, p)
    ensures Unique(VisitEach(cs, f, level))
    decreases |f|, 1, |cs|
  {
    if cs != [] {
      var head, tail := VisitBranch(cs[0], f, level), VisitEach(cs[1..], f, level);
      forall q
        ensures q in head ==> q != [] && q[0] == cs[0].level
        ensures q in tail ==> q != [] && q[0] != cs[0].level
        ensures q == p ==> (q in head || q in tail <==>
                  q != [] && ValueAt(cs, q).Some? && Matches(f, q) && !Missed(cs, f, level, q))
      {
        IndexIs(cs, cs[0].level, 0);
        VisitBranchExact(cs, 0, f, level, q);
        if q != [] {
          TailValue(cs, q);
          var j := IndexOf(cs[1..], q[0]);
          if q[0] != cs[0].level { IndexIs(cs, q[0], j + 1); }
        } else {
          assert WellFormed(cs[1..]);
        }
        VisitEachExact(cs[1..], f, level, q);
      }
      IndexIs(cs, cs[0].level, 0);
      VisitBranchExact(cs, 0, f, level, p);
      assert WellFormed(cs[1..]);
      VisitEachExact(cs[1..], f, level, p);
      UniqueAppend(head, tail);
    }
  }

  lemma {:induction false} VisitBranchExact<M>(cs: seq<Node<M>>, i: nat, f: Path, level: nat, p: Path)
    requires WellFormed(cs) && i < |cs| && IndexOf(cs, cs[i].level) == i
    requires f != [] && HashLast(f) && f != ["#"]
    requires f[0] == "+" || f[0] == cs[i].level
    ensures p in VisitBranch(cs[i], f, level) <==>
              p != [] && p[0] == cs[i].level && ValueAt(cs, p).Some? && Matches(f, p) && !Missed(cs, f, level, p)
    ensures Unique(VisitBranch(cs[i], f, level))
    decreases |f|, 0, 0
  {
    hide Visit, Prepend, Flag;
    var b := cs[i];
    if |f| == 1 {
      assert f[1..] == [];
      assert p != [] && p[0] == b.level ==> (Matches(f, p) <==> p == [b.level]);
    } else {
      var visits := Visit(b.children, f[1..], level + 1);
      VisitExact(b.children, f[1..], level + 1, []);
      VisitExact(b.children, f[1..], level + 1, if p == [] then [] else p[1..]);
      BelowAndSelf(b, f, level, visits, p);
      MatchBranch(f, b.level, p);
    }
  }

  /** The branch's visits are those below it, and itself under the stated condition. */
  lemma BelowAndSelf<M>(b: Node<M>, f: Path, level: nat, visits: seq<Path>, p: Path)
    requires |f| > 1 && HashLast(f) && visits == Visit(b.children, f[1..], level + 1)
    requires Unique(visits) && [] !in visits
    ensures Unique(VisitBranch(b, f, level))
    ensures p in VisitBranch(b, f, level) <==>
              && p != [] && p[0] == b.level
              && if |p| == 1 then b.value.Some? && f[1..] == ["#"] && (b.children != [] || level > 0)
                 else p[1..] in visits
  {
    hide Visit, Prepend;
    InPrepend(b.level, visits, p);
    InPrepend(b.level, visits, [b.level]);
    UniquePrepend(b.level, visits);
    UniqueAppend(Prepend(b.level, visits), [[b.level]]);
    assert Prepend(b.level, visits) + [] == Prepend(b.level, visits);
    assert f[1..] == ["#"] <==> f[1] == "#";
    var own := if b.value.Some? && f[1..] == ["#"] && (b.children != [] || level > 0) then [[b.level]] else [];
    assert VisitBranch(b, f, level) == Prepend(b.level, visits) + own;
    assert p in own <==> own != [] && p == [b.level];
    if p != [] {
      assert p == [p[0]] + p[1..];
      assert |p| == 1 ==> p[1..] == [];
    }
  }

  lemma MatchBranch(f: Path, level: string, p: Path)
    requires |f| > 1 && (f[0] == "+" || f[0] == level)
    ensures p != [] && p[0] == level ==>
              (Matches(f, p) <==> if |p| == 1 then f[1..] == ["#"] else Matches(f[1..], p[1..]))
  {
  }

  // ---------- looking topics up among filters ----------

  /** Nodes under "#" have no children: "#" ends every stored filter. */
  predicate HashLeaf<M>(cs: seq<Node<M>>)
  {
    forall i :: 0 <= i < |cs| ==> (cs[i].level == "#" ==> cs[i].children == []) && HashLeaf(cs[i].children)
  }

  lemma {:induction false} PutHashLeaf<M>(cs: seq<Node<M>>, path: Path, v: Option<M>)
    requires path != [] && HashLast(path) && HashLeaf(cs)
    ensures HashLeaf(Put(cs, path, v))
    decreases |path|
  {
    if |path| > 1 {
      var i := IndexOf(cs, path[0]);
      assert path[0] != "#";
      PutHashLeaf(if i < |cs| then cs[i].children else [], path[1..], v);
    }
  }

  /** sub__search below a node with children cs: the paths of the nodes it processes. */
  function SubVisit<M>(cs: seq<Node<M>>, t: Path): seq<Path>
    decreases |t|, 1
  {
    (if t != [] then SubBranch(cs, t[0], t[1..]) + SubBranch(cs, "+", t[1..]) else [])
    + SubHash(cs)
  }

  function SubBranch<M>(cs: seq<Node<M>>, level: string, rest: Path): seq<Path>
    decreases |rest|, 2
  {
    var i := IndexOf(cs, level);
    if i == |cs| then [] else
    Prepend(level, SubVisit(cs[i].children, rest))
    + (if rest == [] && cs[i].value.Some? then [[level]] else [])
  }

  function SubHash<M>(cs: seq<Node<M>>): seq<Path>
  {
    var i := IndexOf(cs, "#");
    if i < |cs| && cs[i].children == [] && cs[i].value.Some? then [["#"]] else []
  }

  /** A topic reaches exactly the stored filters that match it, each once. */
  lemma {:induction false} SubVisitExact<M>(cs: seq<Node<M>>, t: Path, p: Path)
    requires HashLeaf(cs) && NoWildcards(t)
    ensures p in SubVisit(cs, t) <==> p != [] && ValueAt(cs, p).Some? && Matches(p, t)
    ensures Unique(SubVisit(cs, t))
    decreases |t|, 1
  {
    SubHashExact(cs, p);
    if t != [] {
      SubBranchExact(cs, t[0], t[1..], p);
      SubBranchExact(cs, "+", t[1..], p);
      forall q
        ensures q in SubBranch(cs, t[0], t[1..]) ==> q != [] && q[0] == t[0]
        ensures q in SubBranch(cs, "+", t[1..]) ==> q != [] && q[0] == "+"
      {
        SubBranchExact(cs, t[0], t[1..], q);
        SubBranchExact(cs, "+", t[1..], q);
      }
      SubVisitUnique(cs, t);
      hide SubBranch, SubHash, HashLeaf, Unique;
      if p != [] {
        MatchesFirst(p, t);
        if p[0] == "#" && |p| > 1 { NoneBelowHash(cs, p); }
      }
    } else {
      assert SubVisit(cs, t) == SubHash(cs);
      assert p != [] && Matches(p, t) <==> p == ["#"];
    }
  }

  lemma SubVisitUnique<M>(cs: seq<Node<M>>, t: Path)
    requires HashLeaf(cs) && NoWildcards(t) && t != []
    requires Unique(SubBranch(cs, t[0], t[1..])) && Unique(SubBranch(cs, "+", t[1..]))
    requires forall q :: q in SubBranch(cs, t[0], t[1..]) ==> q != [] && q[0] == t[0]
    requires forall q :: q in SubBranch(cs, "+", t[1..]) ==> q != [] && q[0] == "+"
    ensures Unique(SubVisit(cs, t))
  {
    SubHashExact(cs, []);
    assert forall q :: q in SubHash(cs) ==> q == ["#"];
    hide SubBranch, SubHash, HashLeaf, Unique;
    var lit, plus := SubBranch(cs, t[0], t[1..]), SubBranch(cs, "+", t[1..]);
    UniqueAppend(lit, plus);
    UniqueAppend(lit + plus, SubHash(cs));
  }

  /** The first level of a filter decides how it goes on. */
  lemma MatchesFirst(p: Path, t: Path)
    requires p != [] && t != [] && NoWildcards(t)
    ensures Matches(p, t) <==>
              p == ["#"] || (p[0] != "#" && (p[0] == t[0] || p[0] == "+") && Matches(p[1..], t[1..]))
  {
    assert p == [p[0]] + p[1..];
  }

  lemma SubHashExact<M>(cs: seq<Node<M>>, p: Path)
    requires HashLeaf(cs)
    ensures p in SubHash(cs) <==> p == ["#"] && ValueAt(cs, p).Some?
    ensures Unique(SubHash(cs))
  {
  }

  lemma NoneBelowHash<M>(cs: seq<Node<M>>, p: Path)
    requires HashLeaf(cs) && |p| > 1 && p[0] == "#"
    ensures ValueAt(cs, p) == None
  {
    var i := IndexOf(cs, "#");
    assert i < |cs| ==> cs[i].children == [];
  }

  lemma {:induction false} SubBranchExact<M>(cs: seq<Node<M>>, level: string, rest: Path, p: Path)
    requires HashLeaf(cs) && NoWildcards(rest) && level != "#"
    ensures p in SubBranch(cs, level, rest) <==>
              p != [] && p[0] == level && ValueAt(cs, p).Some? && Matches(p[1..], rest)
    ensures Unique(SubBranch(cs, level, rest))
    decreases |rest|, 2
  {
    hide SubVisit, Prepend;
    var i := IndexOf(cs, level);
    if i < |cs| {
      var visits := SubVisit(cs[i].children, rest);
      SubVisitExact(cs[i].children, rest, if p == [] then [] else p[1..]);
      InPrepend(level, visits, p);
      UniquePrepend(level, visits);
      SubVisitExact(cs[i].children, rest, []);
      InPrepend(level, visits, [level]);
      UniqueAppend(Prepend(level, visits), [[level]]);
      assert Prepend(level, visits) + [] == Prepend(level, visits);
      if p != [] && p[0] == level {
        assert p == [p[0]] + p[1..];
        if |p| == 1 {
          assert p == [level] && p[1..] == [];
          assert p in SubBranch(cs, level, rest) <==> rest == [] && cs[i].value.Some?;
        } else {
          assert p in SubBranch(cs, level, rest) <==> p[1..] in visits;
        }
      }
    }
  }

  // ---------- the search with its deliveries ----------

  const SUCCESS: int := 0
  const NO_SUBSCRIBERS: int := -3

  /** The nodes a search has processed and what it returns. */
  datatype SubRun = SubRun(visits: seq<Path>, rc: int)

  const NOTHING_FOUND: SubRun := SubRun([], NO_SUBSCRIBERS)

  /** The result ends the search. */
  predicate Fails(rc: int)
  {
    rc != SUCCESS && rc != NO_SUBSCRIBERS
  }

  /** One part of a search after another: a failed delivery ends it at once. */
  function Then(a: SubRun, b: SubRun): SubRun
  {
    if Fails(a.rc) then a
    else SubRun(a.visits + b.visits,
                if Fails(b.rc) then b.rc
                else if a.rc == SUCCESS || b.rc == SUCCESS then SUCCESS else NO_SUBSCRIBERS)
  }

  function Below(level: string, r: SubRun): SubRun
  {
    r.(visits := Prepend(level, r.visits))
  }

  /** sub__search below a node with children cs, where processing a node gives `deliver`. */
  function SubDeliver<M>(cs: seq<Node<M>>, t: Path, deliver: Path -> int): SubRun
    decreases |t|, 1
  {
    Then(if t != [] then Then(DeliverBranch(cs, t[0], t[1..], deliver), DeliverBranch(cs, "+", t[1..], deliver))
         else NOTHING_FOUND,
         DeliverHash(cs, deliver))
  }

  function DeliverBranch<M>(cs: seq<Node<M>>, level: string, rest: Path, deliver: Path -> int): SubRun
    decreases |rest|, 2
  {
    var i := IndexOf(cs, level);
    if i == |cs| then NOTHING_FOUND else
    Then(Below(level, SubDeliver(cs[i].children, rest, p => deliver([level] + p))),
         if rest == [] && cs[i].value.Some? then SubRun([[level]], deliver([level])) else NOTHING_FOUND)
  }

  function DeliverHash<M>(cs: seq<Node<M>>, deliver: Path -> int): SubRun
  {
    var i := IndexOf(cs, "#");
    if i < |cs| && cs[i].children == [] && cs[i].value.Some? then SubRun([["#"]], deliver(["#"])) else NOTHING_FOUND
  }

  /** Processing paths one after the other. */
  function InTurn(ps: seq<Path>, deliver: Path -> int): SubRun
  {
    if ps == [] then NOTHING_FOUND
    else Then(SubRun([ps[0]], deliver(ps[0])), InTurn(ps[1..], deliver))
  }

  lemma {:induction false} InTurnAppend(a: seq<Path>, b: seq<Path>, deliver: Path -> int)
    ensures InTurn(a + b, deliver) == Then(InTurn(a, deliver), InTurn(b, deliver))
  {
    if a == [] {
      assert a + b == b;
      InTurnRc(b, deliver);
      assert [] + InTurn(b, deliver).visits == InTurn(b, deliver).visits;
    } else {
      assert (a + b)[0] == a[0] && (a + b)[1..] == a[1..] + b;
      InTurnAppend(a[1..], b, deliver);
      ThenThen(SubRun([a[0]], deliver(a[0])), InTurn(a[1..], deliver), InTurn(b, deliver));
    }
  }

  lemma ThenThen(a: SubRun, b: SubRun, c: SubRun)
    ensures Then(a, Then(b, c)) == Then(Then(a, b), c)
  {
    assert a.visits + (b.visits + c.visits) == a.visits + b.visits + c.visits;
  }

  lemma {:induction false} InTurnRc(ps: seq<Path>, deliver: Path -> int)
    ensures Then(NOTHING_FOUND, InTurn(ps, deliver)) == InTurn(ps, deliver) == Then(InTurn(ps, deliver), NOTHING_FOUND)
  {
    var r := InTurn(ps, deliver);
    assert [] + r.visits == r.visits == r.visits + [];
    assert Fails(r.rc) || r.rc == SUCCESS || r.rc == NO_SUBSCRIBERS;
  }

  lemma {:induction false} InTurnBelow(level: string, ps: seq<Path>, deliver: Path -> int)
    ensures InTurn(Prepend(level, ps), deliver) == Below(level, InTurn(ps, p => deliver([level] + p)))
  {
    var below := p => deliver([level] + p);
    if ps != [] {
      var qs := Prepend(level, ps);
      assert qs[1..] == Prepend(level, ps[1..]);
      InTurnBelow(level, ps[1..], deliver);
      var rest := InTurn(ps[1..], below);
      assert Prepend(level, [ps[0]] + rest.visits) == [[level] + ps[0]] + Prepend(level, rest.visits);
      assert Prepend(level, [ps[0]]) == [[level] + ps[0]];
    } else {
      assert Prepend(level, []) == [];
    }
  }

  /** The search processes the matching filters in its order, until a delivery fails. */
  lemma {:induction false} SubDeliverIs<M>(cs: seq<Node<M>>, t: Path, deliver: Path -> int)
    ensures SubDeliver(cs, t, deliver) == InTurn(SubVisit(cs, t), deliver)
    decreases |t|, 1
  {
    hide InTurn, Then;
    HashIs(cs, deliver);
    if t != [] {
      var lit, plus := SubBranch(cs, t[0], t[1..]), SubBranch(cs, "+", t[1..]);
      DeliverBranchIs(cs, t[0], t[1..], deliver);
      DeliverBranchIs(cs, "+", t[1..], deliver);
      InTurnAppend(lit, plus, deliver);
      InTurnAppend(lit + plus, SubHash(cs), deliver);
    } else {
      assert SubVisit(cs, t) == SubHash(cs);
      InTurnRc(SubHash(cs), deliver);
    }
  }

  lemma HashIs<M>(cs: seq<Node<M>>, deliver: Path -> int)
    ensures DeliverHash(cs, deliver) == InTurn(SubHash(cs), deliver)
  {
    OneTurn(["#"], deliver);
    assert InTurn([], deliver) == NOTHING_FOUND;
  }

  lemma OneTurn(p: Path, deliver: Path -> int)
    ensures InTurn([p], deliver) == SubRun([p], deliver(p))
  {
    assert [p][1..] == [] && [p] + [] == [p];
  }

  lemma {:induction false} DeliverBranchIs<M>(cs: seq<Node<M>>, level: string, rest: Path, deliver: Path -> int)
    ensures DeliverBranch(cs, level, rest, deliver) == InTurn(SubBranch(cs, level, rest), deliver)
    decreases |rest|, 2
  {
    NoTurn(deliver);
    hide InTurn, Then, Below, Prepend;
    var i := IndexOf(cs, level);
    if i < |cs| {
      var visits := SubVisit(cs[i].children, rest);
      var own: seq<Path> := if rest == [] && cs[i].value.Some? then [[level]] else [];
      SubDeliverIs(cs[i].children, rest, p => deliver([level] + p));
      InTurnBelow(level, visits, deliver);
      InTurnAppend(Prepend(level, visits), own, deliver);
      OneTurn([level], deliver);
    }
  }

  lemma NoTurn(deliver: Path -> int)
    ensures InTurn([], deliver) == NOTHING_FOUND
  {
  }

  /** What processing paths in turn means: all of them, or up to the first that fails. */
  lemma {:induction false} InTurnMeans(ps: seq<Path>, deliver: Path -> int)
    ensures var r := InTurn(ps, deliver);
            && r.visits <= ps
            && (forall i :: 0 <= i < |r.visits| - 1 ==> !Fails(deliver(r.visits[i])))
            && if Fails(r.rc) then r.visits != [] && r.rc == deliver(r.visits[|r.visits| - 1])
               else && r.visits == ps && (forall i :: 0 <= i < |ps| ==> !Fails(deliver(ps[i])))
                    && (r.rc == SUCCESS <==> exists i :: 0 <= i < |ps| && deliver(ps[i]) == SUCCESS)
  {
    if ps != [] {
      InTurnMeans(ps[1..], deliver);
      var rest := InTurn(ps[1..], deliver);
      var r := InTurn(ps, deliver);
      if !Fails(deliver(ps[0])) {
        assert r.visits == [ps[0]] + rest.visits;
        assert forall i :: 0 < i < |r.visits| ==> r.visits[i] == rest.visits[i - 1];
        assert forall i :: 0 < i < |ps| ==> ps[i] == ps[1..][i - 1];
        if !Fails(rest.rc) && rest.rc == SUCCESS {
          var i :| 0 <= i < |ps[1..]| && deliver(ps[1..][i]) == SUCCESS;
          assert deliver(ps[i + 1]) == SUCCESS;
        }
      }
    }
  }

  // ---------- removing a path ----------

  /** sub__remove_recurse: changes the value at a path, if its node exists, and frees the nodes
      left without value and children on the way back. */
  function Remove<M>(cs: seq<Node<M>>, path: Path, v: Option<M>): seq<Node<M>>
    requires path != []
    decreases |path|
  {
    var i := IndexOf(cs, path[0]);
    if i == |cs| then cs else
    var n := if |path| == 1 then cs[i].(value := v)
             else cs[i].(children := Remove(cs[i].children, path[1..], v));
    if n.children == [] && n.value.None? then cs[..i] + cs[i + 1..] else cs[i := n]
  }

  lemma {:induction false} RemoveRefinesMap<M>(cs: seq<Node<M>>, path: Path, v: Option<M>, q: Path)
    requires WellFormed(cs)
    requires path != [] && q != []
    requires v.Some? ==> ValueAt(cs, path).Some?
    ensures ValueAt(Remove(cs, path, v), q) == if q == path then v else ValueAt(cs, q)
    decreases |path|
  {
    var i := IndexOf(cs, path[0]);
    if i < |cs| {
      if q[0] != path[0] {
        RemoveElsewhere(cs, path, v, q);
      } else {
        assert q == [q[0]] + q[1..] && path == [path[0]] + path[1..];
        if |path| > 1 && |q| > 1 {
          RemoveRefinesMap(cs[i].children, path[1..], v, q[1..]);
        }
        RemoveHere(cs, path, v, q);
      }
    }
  }

  /** Siblings of the first level stay. */
  lemma RemoveElsewhere<M>(cs: seq<Node<M>>, path: Path, v: Option<M>, q: Path)
    requires path != [] && q != [] && q[0] != path[0]
    ensures ValueAt(Remove(cs, path, v), q) == ValueAt(cs, q)
  {
    var i, j := IndexOf(cs, path[0]), IndexOf(cs, q[0]);
    if i < |cs| {
      var cs' := Remove(cs, path, v);
      IndexIs(cs', q[0], if |cs'| == |cs| || j < i then j else j - 1);
    }
  }

  /** At the first level the changed child decides. */
  lemma RemoveHere<M>(cs: seq<Node<M>>, path: Path, v: Option<M>, q: Path)
    requires WellFormed(cs) && path != [] && q != [] && q[0] == path[0] && IndexOf(cs, path[0]) < |cs|
    ensures var n := cs[IndexOf(cs, path[0])];
            ValueAt(Remove(cs, path, v), q) ==
            if |q| == 1 then (if |path| == 1 then v else n.value)
            else ValueAt(if |path| == 1 then n.children else Remove(n.children, path[1..], v), q[1..])
  {
    var i := IndexOf(cs, path[0]);
    var cs' := Remove(cs, path, v);
    IndexIs(cs', q[0], if |cs'| == |cs| then i else |cs'|);
    if |cs'| < |cs| && |q| > 1 {
      assert ValueAt<M>([], q[1..]) == None;
    }
  }

  lemma {:induction false} RemoveKeeps<M>(cs: seq<Node<M>>, path: Path, v: Option<M>)
    requires path != []
    ensures WellFormed(cs) ==> WellFormed(Remove(cs, path, v))
    ensures HashLeaf(cs) ==> HashLeaf(Remove(cs, path, v))
    decreases |path|
  {
    var i := IndexOf(cs, path[0]);
    if i < |cs| && |path| > 1 {
      RemoveKeeps(cs[i].children, path[1..], v);
    }
  }

  // ---------- the forest of root nodes ----------

  /** Both trees repeat the first level of a path at the root. */
  function Key(path: Path): (key: Path)
    requires path != []
    ensures |key| == |path| + 1 && key[0] == path[0] && key[1..] == path
  {
    [path[0]] + path
  }

  lemma PutAtKey<M>(roots: seq<Node<M>>, path: Path, v: Option<M>, q: Path)
    requires path != [] && q != []
    ensures ValueAt(Put(roots, Key(path), v), Key(q)) == if q == path then v else ValueAt(roots, Key(q))
  {
    PutRefinesMap(roots, Key(path), v, Key(q));
    assert Key(q) == Key(path) ==> Key(q)[1..] == Key(path)[1..];
  }

  /** Removal below an existing root. */
  function RemoveAtKey<M>(roots: seq<Node<M>>, path: Path, v: Option<M>): seq<Node<M>>
    requires path != []
  {
    var i := IndexOf(roots, path[0]);
    if i == |roots| then roots else roots[i := roots[i].(children := Remove(roots[i].children, path, v))]
  }

  lemma RemoveAtKeyRefines<M>(roots: seq<Node<M>>, path: Path, v: Option<M>, q: Path)
    requires path != [] && q != [] && WellFormed(roots)
    requires v.Some? ==> ValueAt(roots, Key(path)).Some?
    ensures ValueAt(RemoveAtKey(roots, path, v), Key(q)) == if q == path then v else ValueAt(roots, Key(q))
  {
    var roots' := RemoveAtKey(roots, path, v);
    IndexIs(roots', q[0], IndexOf(roots, q[0]));
    if q[0] == path[0] && IndexOf(roots, q[0]) < |roots| {
      RemoveRefinesMap(roots[IndexOf(roots, q[0])].children, path, v, q);
    }
  }

  /** A subscription forest: every root only leads to its own level, and "#" ends paths. */
  ghost predicate Forest<M>(roots: seq<Node<M>>)
  {
    && WellFormed(roots)
    && forall i :: 0 <= i < |roots| ==> HashLeaf(roots[i].children) && OnlyLevel(roots[i].children, roots[i].level)
  }

  ghost predicate OnlyLevel<M>(cs: seq<Node<M>>, level: string)
  {
    forall j :: 0 <= j < |cs| ==> cs[j].level == level
  }

  lemma PutForest<M>(roots: seq<Node<M>>, path: Path, v: Option<M>)
    requires Forest(roots) && path != [] && HashLast(path)
    ensures Forest(Put(roots, Key(path), v))
  {
    PutWellFormed(roots, Key(path), v);
    var i := IndexOf(roots, path[0]);
    var cs := if i < |roots| then roots[i].children else [];
    PutHashLeaf(cs, path, v);
    assert OnlyLevel(Put(cs, path, v), path[0]);
  }

  lemma RemoveForest<M>(roots: seq<Node<M>>, path: Path, v: Option<M>)
    requires Forest(roots) && path != []
    ensures Forest(RemoveAtKey(roots, path, v))
  {
    var i := IndexOf(roots, path[0]);
    if i < |roots| {
      RemoveKeeps(roots[i].children, path, v);
      assert OnlyLevel(Remove(roots[i].children, path, v), path[0]);
    }
  }

  /** The subscriptions a topic reaches in the forest. */
  function SubSearch<M>(roots: seq<Node<M>>, t: Path): seq<Path>
    requires t != []
  {
    var i := IndexOf(roots, t[0]);
    if i < |roots| then SubVisit(roots[i].children, t) else []
  }

  lemma SubSearchExact<M>(roots: seq<Node<M>>, t: Path, p: Path)
    requires Forest(roots) && t != [] && NoWildcards(t)
    requires p != [] ==> p[0] != "+" && p[0] != "#"
    ensures p in SubSearch(roots, t) <==> p != [] && ValueAt(roots, Key(p)).Some? && Matches(p, t)
    ensures Unique(SubSearch(roots, t))
  {
    var i := IndexOf(roots, t[0]);
    if i < |roots| {
      SubVisitExact(roots[i].children, t, p);
    }
  }
}
