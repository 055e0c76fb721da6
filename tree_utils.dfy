/**
 * Tree utilities of `src/utils/index.ts` (the copies in `src/utils/utils.ts`
 * are the same code): walks, searches, the ancestor chain and the depth of a
 * match over a forest of records. Callbacks are modelled by the trace of the
 * values they receive, in call order.
 */
module TreeUtils {
  import opened Js

  /** A search condition: `Object.entries(value)` of the partial record. */
  type Pred = seq<Entry>

  /** `conditions.every(([k, val]) => val === v[k])` */
  predicate AllMatch(v: Node, pred: Pred) {
    forall i :: 0 <= i < |pred| ==> Get(v.fields, pred[i].key) == pred[i].val
  }

  /** Some field of the condition is equal: what `getMatch` accepts. */
  predicate AnyMatch(v: Node, pred: Pred) {
    exists i :: 0 <= i < |pred| && Get(v.fields, pred[i].key) == pred[i].val
  }

  // ---------------------------------------------------------------------------
  // recursion / deepRecursion
  // ---------------------------------------------------------------------------

  /**
   * `recursion(data, callback)`: the value returned by `data.every(...)` and
   * the nodes handed to the callback, in call order (each node before its
   * children).
   */
  function Recursion(data: seq<Node>): (r: (bool, seq<Node>))
    ensures r.0
    ensures |r.1| == ForestSize(data)
    ensures data != [] ==> |r.1| > 0 && r.1[0] == data[0]
  {
    if data == [] then (true, [])
    else
      var v := data[0];
      var below := if |v.children| > 0 then Recursion(v.children).1 else [];
      var rest := Recursion(data[1..]);
      assert ForestSize(data) == 1 + ForestSize(v.children) + ForestSize(data[1..]);
      (rest.0, [v] + below + rest.1)
  }

  /** Pre-order: the nodes `recursion` visits. */
  function PreOrder(data: seq<Node>): seq<Node> {
    Recursion(data).1
  }

  /**
   * `deepRecursion(data, callback)`: the same walk with the callback run
   * after the children.
   */
  function DeepRecursion(data: seq<Node>): (r: (bool, seq<Node>))
    ensures r.0
    ensures |r.1| == ForestSize(data)
    ensures data != [] ==> |r.1| > 0 && r.1[|r.1| - 1] == data[|data| - 1]
  {
    if data == [] then (true, [])
    else
      var v := data[0];
      var below := if |v.children| > 0 then DeepRecursion(v.children).1 else [];
      var rest := DeepRecursion(data[1..]);
      assert ForestSize(data) == 1 + ForestSize(v.children) + ForestSize(data[1..]);
      var walk := below + [v] + rest.1;
      assert walk[|walk| - 1] == data[|data| - 1] by {
        if |data| == 1 {
          assert rest.1 == [];
        } else {
          assert data[1..][|data| - 2] == data[|data| - 1];
          assert walk[|walk| - 1] == rest.1[|rest.1| - 1];
        }
      }
      (rest.0, walk)
  }

  /** Siblings are walked left to right: the walk of `a + b` is the walk of `a`, then of `b`. */
  lemma {:induction false} RecursionAppend(a: seq<Node>, b: seq<Node>)
    ensures Recursion(a + b).1 == Recursion(a).1 + Recursion(b).1
  {
    if a == [] {
      assert a + b == b;
    } else {
      assert (a + b)[0] == a[0];
      assert (a + b)[1..] == a[1..] + b;
      RecursionAppend(a[1..], b);
    }
  }

  lemma {:induction false} DeepRecursionAppend(a: seq<Node>, b: seq<Node>)
    ensures DeepRecursion(a + b).1 == DeepRecursion(a).1 + DeepRecursion(b).1
  {
    if a == [] {
      assert a + b == b;
    } else {
      assert (a + b)[0] == a[0];
      assert (a + b)[1..] == a[1..] + b;
      DeepRecursionAppend(a[1..], b);
    }
  }

  /** A node is visited before everything below it by `recursion`, after it by `deepRecursion`. */
  lemma {:induction false} ParentOrder(v: Node)
    ensures Recursion([v]).1 == [v] + Recursion(v.children).1
    ensures DeepRecursion([v]).1 == DeepRecursion(v.children).1 + [v]
  {
    assert [v][1..] == [];
  }

  /** Both walks hand every node of the forest to the callback, the same number of times. */
  lemma {:induction false} WalksVisitSameNodes(data: seq<Node>)
    ensures multiset(Recursion(data).1) == multiset(DeepRecursion(data).1)
  {
    if data != [] {
      WalksVisitSameNodes(data[0].children);
      WalksVisitSameNodes(data[1..]);
    }
  }

  // ---------------------------------------------------------------------------
  // getMatch
  // ---------------------------------------------------------------------------

  /** No node of the list satisfies any field of the condition. */
  predicate NoneAnyMatch(nodes: seq<Node>, pred: Pred) {
    forall i :: 0 <= i < |nodes| ==> !AnyMatch(nodes[i], pred)
  }

  /**
   * `getMatch(sources, value)`: depth first, the first node equal to the
   * condition on ANY one field; `None` stands for `undefined`.
   */
  function GetMatch(sources: seq<Node>, pred: Pred): (r: Option<Node>)
    ensures r.Some? ==> AnyMatch(r.value, pred) && r.value in PreOrder(sources)
    ensures r.None? <==> NoneAnyMatch(PreOrder(sources), pred)
    decreases sources, 1
  {
    if sources == [] then None
    else
      match MatchNode(sources[0], pred, 0)
      case Some(n) => Some(n)
      case None => GetMatch(sources[1..], pred)
  }

  /**
   * The inner loop of `getMatch` over the condition's entries from index `i`
   * for one node `v`: the entry is compared, then the children are searched.
   */
  function MatchNode(v: Node, pred: Pred, i: nat): (r: Option<Node>)
    requires i <= |pred|
    ensures r.Some? ==> AnyMatch(r.value, pred) && r.value in PreOrder([v])
    ensures r.None? <==>
      (forall j :: i <= j < |pred| ==> Get(v.fields, pred[j].key) != pred[j].val) &&
      (i < |pred| ==> NoneAnyMatch(PreOrder(v.children), pred))
    decreases v, 0, |pred| - i
  {
    assert PreOrder([v]) == [v] + PreOrder(v.children) by { ParentOrder(v); }
    if i == |pred| then None
    else if Get(v.fields, pred[i].key) == pred[i].val then Some(v)
    else if |v.children| > 0 then
      match GetMatch(v.children, pred)
      case Some(n) => Some(n)
      case None => MatchNode(v, pred, i + 1)
    else MatchNode(v, pred, i + 1)
  }

  /** An empty condition or an empty source finds nothing. */
  lemma GetMatchEmpty(sources: seq<Node>, pred: Pred)
    requires sources == [] || pred == []
    ensures GetMatch(sources, pred) == None
  {
  }

  /**
   * The match is not the first node in depth-first order that satisfies a
   * field: a child equal on the first field wins over its parent equal on the
   * second one.
   */
  lemma GetMatchPrefersChildOnEarlierField()
    ensures var child := Node(map["id" := Num(2), "name" := Str("x")], []);
            var parent := Node(map["id" := Num(1), "name" := Str("a")], [child]);
            GetMatch([parent], [Entry("id", Num(2)), Entry("name", Str("a"))]) == Some(child)
  {
  }

  // ---------------------------------------------------------------------------
  // carryChained / getChained
  // ---------------------------------------------------------------------------

  /** One callback invocation: the node and whether `isDeep` was passed as `true`. */
  datatype Call = Call(node: Node, isDeep: bool)

  /** Index of the first node of `nodes` satisfying every field, or `|nodes|`. */
  function FirstAllMatch(nodes: seq<Node>, pred: Pred): (k: nat)
    ensures k <= |nodes|
    ensures k < |nodes| ==> AllMatch(nodes[k], pred)
    ensures forall j :: 0 <= j < k ==> !AllMatch(nodes[j], pred)
  {
    if nodes == [] then 0
    else if AllMatch(nodes[0], pred) then 0
    else 1 + FirstAllMatch(nodes[1..], pred)
  }

  /**
   * `carryChained(sources, value, callback)`: whether a node satisfying every
   * field was found (`false` stands for `undefined`) and the callback trace.
   */
  function CarryChained(sources: seq<Node>, pred: Pred): (r: (bool, seq<Call>))
    ensures !r.0 ==> r.1 == []
    ensures r.0 ==> |r.1| >= 1 && r.1[0].isDeep && AllMatch(r.1[0].node, pred)
    ensures forall i :: 1 <= i < |r.1| ==> !r.1[i].isDeep
  {
    if sources == [] then (false, [])
    else
      var v := sources[0];
      if AllMatch(v, pred) then (true, [Call(v, true)])
      else
        var sub := if |v.children| > 0 then CarryChained(v.children, pred) else (false, []);
        if sub.0 then (true, sub.1 + [Call(v, false)])
        else
          var rest := CarryChained(sources[1..], pred);
          (rest.0, sub.1 + rest.1)
  }

  /** The nodes the callback received, reversed: what `getChained`'s `unshift` builds. */
  function RootFirst(calls: seq<Call>): (path: seq<Node>)
    ensures |path| == |calls|
    ensures forall i :: 0 <= i < |calls| ==> path[i] == calls[|calls| - 1 - i].node
  {
    if calls == [] then [] else RootFirst(calls[1..]) + [calls[0].node]
  }

  /** `path` starts at a top-level node and descends one child at a time. */
  predicate IsChain(forest: seq<Node>, path: seq<Node>) {
    && |path| >= 1
    && path[0] in forest
    && forall i :: 0 <= i < |path| - 1 ==> path[i + 1] in path[i].children
  }

  /**
   * `carryChained` finds a node iff some node of the forest satisfies every
   * field, and the node it hands to the callback first is the first such node
   * in depth-first order.
   */
  lemma {:induction false} CarryChainedFindsFirst(sources: seq<Node>, pred: Pred)
    ensures var r := CarryChained(sources, pred);
            var k := FirstAllMatch(PreOrder(sources), pred);
            && (r.0 <==> k < |PreOrder(sources)|)
            && (r.0 ==> k < |PreOrder(sources)| && r.1[0].node == PreOrder(sources)[k])
  {
    if sources != [] {
      var v := sources[0];
      var below := PreOrder(v.children);
      var rest := PreOrder(sources[1..]);
      assert PreOrder(sources) == [v] + below + rest;
      if !AllMatch(v, pred) {
        CarryChainedFindsFirst(v.children, pred);
        CarryChainedFindsFirst(sources[1..], pred);
        FirstAllMatchAppend([v], below, pred);
        FirstAllMatchAppend([v] + below, rest, pred);
        assert FirstAllMatch([v], pred) == 1;
      }
    }
  }

  /**
   * After the matched node the callback runs once per ancestor, innermost
   * first, so the reversed trace is a chain from a top-level node down to the
   * match.
   */
  lemma {:induction false} CarryChainedTraceIsChain(sources: seq<Node>, pred: Pred)
    requires CarryChained(sources, pred).0
    ensures IsChain(sources, RootFirst(CarryChained(sources, pred).1))
  {
    var v := sources[0];
    if !AllMatch(v, pred) {
      var sub := CarryChained(v.children, pred);
      if sub.0 {
        CarryChainedTraceIsChain(v.children, pred);
        var tail := RootFirst(sub.1);
        var path := RootFirst(sub.1 + [Call(v, false)]);
        assert CarryChained(sources, pred).1 == sub.1 + [Call(v, false)];
        assert path == [v] + tail;
        forall i | 0 <= i < |path| - 1
          ensures path[i + 1] in path[i].children
        {
          if i > 0 {
            assert path[i] == tail[i - 1] && path[i + 1] == tail[i];
          } else {
            assert path[0] == v && path[1] == tail[0];
          }
        }
      } else {
        assert CarryChained(sources, pred).1 == CarryChained(sources[1..], pred).1;
        CarryChainedTraceIsChain(sources[1..], pred);
        var path := RootFirst(CarryChained(sources[1..], pred).1);
        assert path[0] in sources[1..];
      }
    }
  }

  lemma {:induction false} FirstAllMatchAppend(a: seq<Node>, b: seq<Node>, pred: Pred)
    ensures FirstAllMatch(a + b, pred) ==
            if FirstAllMatch(a, pred) < |a| then FirstAllMatch(a, pred) else |a| + FirstAllMatch(b, pred)
  {
    if a != [] {
      assert (a + b)[0] == a[0];
      assert (a + b)[1..] == a[1..] + b;
      FirstAllMatchAppend(a[1..], b, pred);
    } else {
      assert a + b == b;
    }
  }

  /** An empty condition is satisfied by the first top-level node. */
  lemma CarryChainedEmptyCondition(sources: seq<Node>)
    requires sources != []
    ensures CarryChained(sources, []) == (true, [Call(sources[0], true)])
  {
  }

  /**
   * `getChained(sources, value)`: runs `carryChained` with a callback that
   * `unshift`s each node it receives; the result runs from a top-level node
   * down to the first node satisfying every field, or is empty.
   */
  method GetChained(sources: seq<Node>, pred: Pred) returns (result: seq<Node>)
    ensures result == RootFirst(CarryChained(sources, pred).1)
    ensures result == [] <==> !CarryChained(sources, pred).0
    ensures result != [] ==> IsChain(sources, result) && AllMatch(result[|result| - 1], pred)
    ensures result != [] ==>
      && FirstAllMatch(PreOrder(sources), pred) < |PreOrder(sources)|
      && result[|result| - 1] == PreOrder(sources)[FirstAllMatch(PreOrder(sources), pred)]
  {
    var calls := CarryChained(sources, pred).1;
    result := [];
    var i := 0;
    while i < |calls|
      invariant 0 <= i <= |calls|
      invariant result == RootFirst(calls[..i])
    {
      assert calls[..i + 1][1..] == calls[1..i + 1];
      RootFirstSnoc(calls[..i], calls[i]);
      assert calls[..i + 1] == calls[..i] + [calls[i]];
      result := [calls[i].node] + result;
      i := i + 1;
    }
    assert calls[..|calls|] == calls;
    CarryChainedFindsFirst(sources, pred);
    if calls != [] {
      CarryChainedTraceIsChain(sources, pred);
    }
  }

  lemma {:induction false} RootFirstSnoc(calls: seq<Call>, c: Call)
    ensures RootFirst(calls + [c]) == [c.node] + RootFirst(calls)
  {
    if calls == [] {
      assert calls + [c] == [c];
    } else {
      assert (calls + [c])[1..] == calls[1..] + [c];
      RootFirstSnoc(calls[1..], c);
    }
  }

  // ---------------------------------------------------------------------------
  // getDepth
  // ---------------------------------------------------------------------------

  /** `item[key] === value` */
  predicate KeyIs(item: Node, key: string, value: Val) {
    Get(item.fields, key) == value
  }

  /**
   * `getDepth(data, key, value)` as written; `None` is a non-array `data`.
   * The recursive result is compared with `undefined`, which it never is, so
   * the first non-matching item with children decides the result.
   */
  function GetDepth(data: Option<seq<Node>>, key: string, value: Val): (r: int)
    ensures r >= -1
    ensures r == -1 <==>
      data.None? || forall i :: 0 <= i < |data.value| ==> !KeyIs(data.value[i], key, value) && data.value[i].children == []
    ensures data.Some? && data.value != [] && KeyIs(data.value[0], key, value) ==> r == 0
  {
    if data.None? then -1 else DepthLoop(data.value, key, value)
  }

  function DepthLoop(items: seq<Node>, key: string, value: Val): (r: int)
    ensures r >= -1
    ensures r == -1 <==> forall i :: 0 <= i < |items| ==> !KeyIs(items[i], key, value) && items[i].children == []
  {
    if items == [] then -1
    else if KeyIs(items[0], key, value) then 0
    // the recursive `getDepth(item.children, ...)` receives an array
    else if |items[0].children| > 0 then DepthLoop(items[0].children, key, value) + 1
    else DepthLoop(items[1..], key, value)
  }

  /**
   * A top-level item holding the value gives depth 0 when every item before
   * it neither holds the value nor has children.
   */
  lemma {:induction false} GetDepthTopLevel(items: seq<Node>, key: string, value: Val, j: nat)
    requires j < |items| && KeyIs(items[j], key, value)
    requires forall i :: 0 <= i < j ==> !KeyIs(items[i], key, value) && items[i].children == []
    ensures GetDepth(Some(items), key, value) == 0
  {
    if j > 0 {
      assert items[1..][j - 1] == items[j];
      GetDepthTopLevel(items[1..], key, value, j - 1);
    }
  }

  /** The depth reported for a value no node holds: 0, not -1. */
  lemma GetDepthMissingValue()
    ensures var forest := [Node(map["id" := Num(1)], [Node(map["id" := Num(2)], [])])];
            && !CarryChained(forest, [Entry("id", Num(99))]).0
            && GetDepth(Some(forest), "id", Num(99)) == 0
  {
    var leaf := Node(map["id" := Num(2)], []);
    var root := Node(map["id" := Num(1)], [leaf]);
    var pred := [Entry("id", Num(99))];
    assert Get(leaf.fields, "id") == Num(2);
    assert Get(root.fields, "id") == Num(1);
    assert !AllMatch(leaf, pred) && !AllMatch(root, pred) by {
      assert pred[0] == Entry("id", Num(99));
    }
    assert [root][1..] == [] && [leaf][1..] == [];
  }

  /**
   * `getDepth` with the recursive result compared with -1, the "not found"
   * value it returns: the search goes on to the next item when a subtree holds
   * no match.
   */
  function GetDepthCorrected(data: Option<seq<Node>>, key: string, value: Val): (r: int)
    ensures r >= -1
  {
    if data.None? then -1 else DepthLoopCorrected(data.value, key, value)
  }

  function DepthLoopCorrected(items: seq<Node>, key: string, value: Val): (r: int)
    ensures r >= -1
  {
    if items == [] then -1
    else if KeyIs(items[0], key, value) then 0
    else
      var r := if |items[0].children| > 0 then DepthLoopCorrected(items[0].children, key, value) else -1;
      if r != -1 then r + 1 else DepthLoopCorrected(items[1..], key, value)
  }

  /**
   * The corrected depth is the length of `getChained`'s chain to the first
   * node holding the value, minus one: -1 exactly when no node holds it, 0 for
   * a top-level node, one more per level below.
   */
  lemma {:induction false} GetDepthCorrectedIsChainLength(items: seq<Node>, key: string, value: Val)
    ensures GetDepthCorrected(Some(items), key, value) == |CarryChained(items, [Entry(key, value)]).1| - 1
  {
    var pred := [Entry(key, value)];
    if items != [] {
      var v := items[0];
      assert pred[0] == Entry(key, value);
      assert AllMatch(v, pred) <==> KeyIs(v, key, value);
      if !KeyIs(v, key, value) {
        if |v.children| > 0 {
          GetDepthCorrectedIsChainLength(v.children, key, value);
        }
        GetDepthCorrectedIsChainLength(items[1..], key, value);
      }
    }
  }
}
