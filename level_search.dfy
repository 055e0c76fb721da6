/**
 * `getValue` of `src/utils/utils.ts`: a breadth-first search over a forest
 * with a work queue (`shift` from the front, `push` of the children at the
 * back), returning the first node satisfying every field of the condition.
 */
module LevelSearch {
  import opened Js
  import opened TreeUtils

  /** The children of all nodes of a level, in order: the next level. */
  function AllKids(level: seq<Node>): seq<Node> {
    if level == [] then [] else level[0].children + AllKids(level[1..])
  }

  lemma {:induction false} AllKidsSize(level: seq<Node>)
    ensures ForestSize(level) == |level| + ForestSize(AllKids(level))
  {
    if level != [] {
      AllKidsSize(level[1..]);
      ForestSizeAppend(level[0].children, AllKids(level[1..]));
    }
  }

  lemma {:induction false} AllKidsAppend(a: seq<Node>, b: seq<Node>)
    ensures AllKids(a + b) == AllKids(a) + AllKids(b)
  {
    if a == [] {
      assert a + b == b;
    } else {
      assert (a + b)[1..] == a[1..] + b;
      AllKidsAppend(a[1..], b);
    }
  }

  /** Level order: the forest itself, then the level order of the next level. */
  function Levels(level: seq<Node>): (r: seq<Node>)
    ensures |r| == ForestSize(level)
    decreases ForestSize(level)
  {
    AllKidsSize(level);
    if level == [] then [] else level + Levels(AllKids(level))
  }

  /** The order in which the queue of `getValue` hands out nodes, starting from queue `q`. */
  function Bfs(q: seq<Node>): (r: seq<Node>)
    ensures |r| == ForestSize(q)
    decreases ForestSize(q)
  {
    if q == [] then []
    else
      assert ForestSize(q) == Size(q[0]) + ForestSize(q[1..]);
      ForestSizeAppend(q[1..], q[0].children);
      [q[0]] + Bfs(q[1..] + q[0].children)
  }

  /** Draining a queue `q + r` hands out `q`, then drains `r` followed by the children of `q`. */
  lemma {:induction false} BfsSplit(q: seq<Node>, r: seq<Node>)
    ensures Bfs(q + r) == q + Bfs(r + AllKids(q))
    decreases |q|
  {
    if q == [] {
      assert q + r == r;
      assert r + AllKids(q) == r;
    } else {
      var x := q[0];
      assert (q + r)[0] == x;
      assert (q + r)[1..] + x.children == q[1..] + (r + x.children);
      BfsSplit(q[1..], r + x.children);
      assert AllKids(q) == x.children + AllKids(q[1..]);
      assert (r + x.children) + AllKids(q[1..]) == r + AllKids(q);
    }
  }

  /** The queue discipline of `getValue` visits the forest level by level. */
  lemma {:induction false} BfsIsLevels(level: seq<Node>)
    ensures Bfs(level) == Levels(level)
    decreases ForestSize(level)
  {
    if level != [] {
      BfsSplit(level, []);
      assert level + [] == level;
      assert [] + AllKids(level) == AllKids(level);
      AllKidsSize(level);
      BfsIsLevels(AllKids(level));
    }
  }

  lemma {:induction false} PreOrderByLevel(level: seq<Node>)
    ensures multiset(PreOrder(level)) == multiset(level) + multiset(PreOrder(AllKids(level)))
  {
    if level != [] {
      var x := level[0];
      assert level == [x] + level[1..];
      PreOrderByLevel(level[1..]);
      RecursionAppend(x.children, AllKids(level[1..]));
      if |x.children| == 0 {
        assert x.children == [];
      }
    }
  }

  /** Level order and pre-order list the same nodes, each as often. */
  lemma {:induction false} LevelsSameNodesAsPreOrder(level: seq<Node>)
    ensures multiset(Levels(level)) == multiset(PreOrder(level))
    decreases ForestSize(level)
  {
    if level != [] {
      AllKidsSize(level);
      LevelsSameNodesAsPreOrder(AllKids(level));
      PreOrderByLevel(level);
    }
  }

  /** Whether some node of the sequence satisfies every field. */
  lemma FirstAllMatchFound(nodes: seq<Node>, pred: Pred)
    ensures FirstAllMatch(nodes, pred) < |nodes| <==> exists j :: 0 <= j < |nodes| && AllMatch(nodes[j], pred)
  {
  }

  /**
   * The breadth-first search finds a node exactly when the depth-first
   * `carryChained` does (it may find a different one).
   */
  lemma LevelSearchAgreesWithCarryChained(sources: seq<Node>, pred: Pred)
    ensures FirstAllMatch(Levels(sources), pred) < |Levels(sources)| <==> CarryChained(sources, pred).0
  {
    var lv, po := Levels(sources), PreOrder(sources);
    LevelsSameNodesAsPreOrder(sources);
    CarryChainedFindsFirst(sources, pred);
    FirstAllMatchFound(lv, pred);
    FirstAllMatchFound(po, pred);
    if FirstAllMatch(lv, pred) < |lv| {
      var x := lv[FirstAllMatch(lv, pred)];
      assert x in multiset(po);
      var j :| 0 <= j < |po| && po[j] == x;
    }
    if FirstAllMatch(po, pred) < |po| {
      var x := po[FirstAllMatch(po, pred)];
      assert x in multiset(lv);
      var j :| 0 <= j < |lv| && lv[j] == x;
    }
  }

  /** One turn of the queue: the head is handed out and its children join the back. */
  lemma QueueStep(x: Node, a: seq<Node>)
    ensures Bfs([x] + a) == [x] + Bfs(a + x.children)
    ensures ForestSize(a + x.children) < ForestSize([x] + a)
  {
    assert ([x] + a)[1..] == a;
    ForestSizeAppend(a, x.children);
  }

  /** A matching head of the queue is the first match of everything handed out. */
  lemma {:induction false} MatchAtHead(seen: seq<Node>, x: Node, a: seq<Node>, pred: Pred)
    requires FirstAllMatch(seen, pred) == |seen| && AllMatch(x, pred)
    ensures var all := seen + Bfs([x] + a);
            FirstAllMatch(all, pred) == |seen| && all[|seen|] == x
  {
    QueueStep(x, a);
    FirstAllMatchAppend(seen, Bfs([x] + a), pred);
  }

  /** A non-matching head moves from the queue to the nodes already handed out. */
  lemma {:induction false} SkipHead(seen: seq<Node>, x: Node, a: seq<Node>, pred: Pred)
    requires FirstAllMatch(seen, pred) == |seen| && !AllMatch(x, pred)
    ensures FirstAllMatch(seen + [x], pred) == |seen + [x]|
    ensures seen + Bfs([x] + a) == (seen + [x]) + Bfs(a + x.children)
    ensures ForestSize(a + x.children) < ForestSize([x] + a)
  {
    QueueStep(x, a);
    FirstAllMatchAppend(seen, [x], pred);
  }

  /**
   * `getValue(sources, value)`: `None` stands for the `null` returned for a
   * missing or empty source and for a search that finds nothing.
   */
  method GetValue(sources: Option<seq<Node>>, pred: Pred) returns (r: Option<Node>)
    ensures sources.None? || sources.value == [] ==> r == None
    ensures sources.Some? ==>
      var lv := Levels(sources.value);
      var k := FirstAllMatch(lv, pred);
      (r.Some? <==> k < |lv|) && (r.Some? ==> r.value == lv[k])
  {
    if sources.None? || |sources.value| == 0 {
      return None;
    }
    var s := sources.value;
    BfsIsLevels(s);
    var a := s[1..];
    var v := Some(s[0]);
    ghost var q := s;
    ghost var seen: seq<Node> := [];
    assert s == [s[0]] + a;
    while v.Some?
      invariant v.Some? ==> q == [v.value] + a
      invariant v.None? ==> q == []
      invariant Bfs(s) == seen + Bfs(q)
      invariant FirstAllMatch(seen, pred) == |seen|
      decreases ForestSize(q)
    {
      var x := v.value;
      if AllMatch(x, pred) {
        MatchAtHead(seen, x, a, pred);
        assert Levels(s) == seen + Bfs([x] + a);
        return v;
      }
      SkipHead(seen, x, a, pred);
      if |x.children| > 0 {
        a := a + x.children;
      } else {
        assert a + x.children == a;
      }
      seen := seen + [x];
      q := a;
      if |a| > 0 {
        v, a := Some(a[0]), a[1..];
        assert q == [v.value] + a;
      } else {
        v := None;
      }
    }
    assert Levels(s) == seen;
    return None;
  }

  /** An empty condition is met by the first source. */
  lemma GetValueEmptyCondition(sources: seq<Node>)
    requires sources != []
    ensures var lv := Levels(sources);
            FirstAllMatch(lv, []) == 0 && lv[0] == sources[0]
  {
    var lv := Levels(sources);
    assert lv[0] == sources[0];
  }
}
