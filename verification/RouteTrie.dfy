/** The route trie of the server runtime: nodes hold a segment, children and the handler
    registered on them. A node's address is its index in the arena. */
module RouteTries {
  import opened Wrappers
  import opened Routes

  datatype RouteNode = RouteNode(segment: string, isParam: bool, paramIsInt: bool, children: seq<nat>,
    isLeaf: bool, verb: string, handler: nat, isWs: bool)

  type Keyed = map<seq<Key>, nat>

  const EMPTY_NODE := RouteNode("", false, false, [], false, "", 0, false)

  // ----- shape of the trie -----

  /** Nodes and the keys that lead to them are in bijection. */
  ghost predicate KeyAt(keyOf: seq<seq<Key>>, at: Keyed, n: nat)
    requires n < |keyOf|
  {
    keyOf[n] in at && at[keyOf[n]] == n
  }

  ghost predicate NodeAt(keyOf: seq<seq<Key>>, at: Keyed, k: seq<Key>)
    requires k in at
  {
    at[k] < |keyOf| && keyOf[at[k]] == k
  }

  /** A child extends its parent's key by the label of its segment, and is listed once. */
  ghost predicate ChildrenOf(nodes: seq<RouteNode>, keyOf: seq<seq<Key>>, n: nat)
    requires |keyOf| == |nodes| && n < |nodes|
  {
    var cs := nodes[n].children;
    && (forall j :: 0 <= j < |cs| ==> 0 < cs[j] < |nodes| && keyOf[cs[j]] == keyOf[n] + [KeyOf(nodes[cs[j]].segment)])
    && (forall i, j :: 0 <= i < j < |cs| ==> cs[i] != cs[j])
  }

  /** Every node but the root is a child of the node on the key one shorter. */
  ghost predicate Linked(nodes: seq<RouteNode>, at: Keyed, k: seq<Key>)
    requires k in at && k != []
  {
    var up := k[..|k| - 1];
    up in at && at[up] < |nodes| && at[k] in nodes[at[up]].children
  }

  ghost predicate Labelled(nodes: seq<RouteNode>, keyOf: seq<seq<Key>>, n: nat)
    requires |keyOf| == |nodes| && n < |nodes|
  {
    && nodes[n].isParam == KindOf(nodes[n].segment).Placeholder?
    && (n != 0 ==> keyOf[n] != [])
  }

  ghost predicate Tree(nodes: seq<RouteNode>, keyOf: seq<seq<Key>>, at: Keyed) {
    && |keyOf| == |nodes| > 0 && keyOf[0] == []
    && (forall n {:trigger KeyAt(keyOf, at, n)} :: 0 <= n < |nodes| ==> KeyAt(keyOf, at, n))
    && (forall k {:trigger NodeAt(keyOf, at, k)} :: k in at ==> NodeAt(keyOf, at, k))
    && (forall n {:trigger ChildrenOf(nodes, keyOf, n)} :: 0 <= n < |nodes| ==> ChildrenOf(nodes, keyOf, n))
    && (forall k {:trigger Linked(nodes, at, k)} :: k in at && k != [] ==> Linked(nodes, at, k))
    && (forall n {:trigger Labelled(nodes, keyOf, n)} :: 0 <= n < |nodes| ==> Labelled(nodes, keyOf, n))
  }

  // ----- what the nodes hold -----

  /** The registration a node carries is the last one on its key. */
  ghost predicate Holds(node: RouteNode, last: Option<Route>) {
    match last
    case None => !node.isLeaf
    case Some(r) => node.isLeaf && node.verb == Stored(r.verb) && node.handler == r.handler && node.isWs == r.isWs
  }

  ghost predicate HoldsAt(nodes: seq<RouteNode>, keyOf: seq<seq<Key>>, routes: seq<Route>, n: nat)
    requires |keyOf| == |nodes| && n < |nodes|
  {
    Holds(nodes[n], LastRoute(routes, keyOf[n]))
  }

  ghost predicate Data(nodes: seq<RouteNode>, keyOf: seq<seq<Key>>, routes: seq<Route>)
    requires |keyOf| == |nodes|
  {
    forall n {:trigger HoldsAt(nodes, keyOf, routes, n)} :: 0 <= n < |nodes| ==> HoldsAt(nodes, keyOf, routes, n)
  }

  /** While the first i segments of a new pattern are being entered: which keys have nodes, and
      what their int tests are. */
  ghost predicate Known(at: Keyed, routes: seq<Route>, segs: seq<string>, i: nat, k: seq<Key>)
    requires i <= |segs|
  {
    k in at <==> Present(routes, k) || k <= Keys(segs)[..i]
  }

  ghost function TestOf(routes: seq<Route>, segs: seq<string>, k: seq<Key>): bool
    requires k != []
  {
    if Present(routes, k) then FirstInt(routes, k) else |k| <= |segs| && IsInt(segs[|k| - 1])
  }

  ghost predicate Tested(nodes: seq<RouteNode>, keyOf: seq<seq<Key>>, routes: seq<Route>, segs: seq<string>, n: nat)
    requires |keyOf| == |nodes| && n < |nodes|
  {
    keyOf[n] != [] ==> nodes[n].paramIsInt == TestOf(routes, segs, keyOf[n])
  }

  ghost predicate Entered(nodes: seq<RouteNode>, keyOf: seq<seq<Key>>, at: Keyed, routes: seq<Route>, segs: seq<string>, i: nat)
    requires |keyOf| == |nodes| && i <= |segs|
  {
    && (forall k {:trigger Known(at, routes, segs, i, k)} :: Known(at, routes, segs, i, k))
    && (forall n {:trigger Tested(nodes, keyOf, routes, segs, n)} :: 0 <= n < |nodes| ==> Tested(nodes, keyOf, routes, segs, n))
  }

  // ----- growing the trie -----

  function WithChild(nodes: seq<RouteNode>, cur: nat, node: RouteNode): (r: seq<RouteNode>)
    requires cur < |nodes|
    ensures |r| == |nodes| + 1 && r[|nodes|] == node && forall n :: 0 <= n < |nodes| && n != cur ==> r[n] == nodes[n]
    ensures r[cur] == nodes[cur].(children := nodes[cur].children + [|nodes|])
  {
    nodes[cur := nodes[cur].(children := nodes[cur].children + [|nodes|])] + [node]
  }

  /** The new node is the only node on its key, below its parent. */
  lemma Grow(nodes: seq<RouteNode>, keyOf: seq<seq<Key>>, at: Keyed, cur: nat, node: RouteNode)
    requires Tree(nodes, keyOf, at) && cur < |nodes| && node.children == []
    requires node.isParam == KindOf(node.segment).Placeholder? && keyOf[cur] + [KeyOf(node.segment)] !in at
    ensures var k := keyOf[cur] + [KeyOf(node.segment)];
      Tree(WithChild(nodes, cur, node), keyOf + [k], at[k := |nodes|])
  {
    var k := keyOf[cur] + [KeyOf(node.segment)];
    var nodes', keyOf', at' := WithChild(nodes, cur, node), keyOf + [k], at[k := |nodes|];
    forall n | 0 <= n < |nodes'| ensures KeyAt(keyOf', at', n) && Labelled(nodes', keyOf', n) {
      if n < |nodes| { assert KeyAt(keyOf, at, n) && Labelled(nodes, keyOf, n); }
    }
    forall l | l in at' ensures NodeAt(keyOf', at', l) {
      if l != k { assert NodeAt(keyOf, at, l); }
    }
    forall n | 0 <= n < |nodes'| ensures ChildrenOf(nodes', keyOf', n) {
      if n < |nodes| { GrowChildren(nodes, keyOf, at, cur, node, n); }
    }
    forall l | l in at' && l != [] ensures Linked(nodes', at', l) {
      GrowLinked(nodes, keyOf, at, cur, node, l);
    }
  }

  lemma GrowChildren(nodes: seq<RouteNode>, keyOf: seq<seq<Key>>, at: Keyed, cur: nat, node: RouteNode, n: nat)
    requires Tree(nodes, keyOf, at) && cur < |nodes| && n < |nodes|
    ensures ChildrenOf(WithChild(nodes, cur, node), keyOf + [keyOf[cur] + [KeyOf(node.segment)]], n)
  {
    assert ChildrenOf(nodes, keyOf, n);
    var nodes' := WithChild(nodes, cur, node);
    forall j | 0 <= j < |nodes[n].children| ensures nodes'[nodes[n].children[j]].segment == nodes[nodes[n].children[j]].segment {}
  }

  lemma GrowLinked(nodes: seq<RouteNode>, keyOf: seq<seq<Key>>, at: Keyed, cur: nat, node: RouteNode, l: seq<Key>)
    requires Tree(nodes, keyOf, at) && cur < |nodes| && keyOf[cur] + [KeyOf(node.segment)] !in at
    requires l in at || l == keyOf[cur] + [KeyOf(node.segment)]
    requires l != []
    ensures Linked(WithChild(nodes, cur, node), at[keyOf[cur] + [KeyOf(node.segment)] := |nodes|], l)
  {
    var k := keyOf[cur] + [KeyOf(node.segment)];
    var nodes' := WithChild(nodes, cur, node);
    if l == k {
      assert KeyAt(keyOf, at, cur) && k[..|k| - 1] == keyOf[cur];
      assert nodes'[cur].children[|nodes[cur].children|] == |nodes|;
    } else {
      assert Linked(nodes, at, l);
      var a := at[l[..|l| - 1]];
      var j :| 0 <= j < |nodes[a].children| && nodes[a].children[j] == at[l];
      assert nodes'[a].children[j] == at[l];
    }
  }

  /** Only children carry a key one longer than their parent's. */
  lemma ChildKey(nodes: seq<RouteNode>, keyOf: seq<seq<Key>>, at: Keyed, cur: nat, x: Key)
    requires Tree(nodes, keyOf, at) && cur < |nodes|
    ensures var k := keyOf[cur] + [x];
      && (k in at ==> at[k] in nodes[cur].children)
      && forall c :: c in nodes[cur].children ==> c < |nodes| && (KeyOf(nodes[c].segment) == x <==> k in at && c == at[k])
  {
    var k := keyOf[cur] + [x];
    assert ChildrenOf(nodes, keyOf, cur);
    if k in at {
      assert Linked(nodes, at, k) && k[..|k| - 1] == keyOf[cur] && KeyAt(keyOf, at, cur) && NodeAt(keyOf, at, k);
    }
    forall c | c in nodes[cur].children
      ensures c < |nodes| && (KeyOf(nodes[c].segment) == x <==> k in at && c == at[k])
    {
      assert KeyAt(keyOf, at, c);
      assert (keyOf[cur] + [KeyOf(nodes[c].segment)])[|keyOf[cur]|] == KeyOf(nodes[c].segment);
    }
  }

  /** Siblings have distinct labels, and at most one of them is a placeholder. */
  lemma SiblingsDistinct(nodes: seq<RouteNode>, keyOf: seq<seq<Key>>, at: Keyed, n: nat, i: nat, j: nat)
    requires Tree(nodes, keyOf, at) && n < |nodes| && i < j < |nodes[n].children|
    ensures nodes[n].children[i] < |nodes| && nodes[n].children[j] < |nodes|
    ensures var a, b := nodes[nodes[n].children[i]], nodes[nodes[n].children[j]];
      a.segment != b.segment && !(a.isParam && b.isParam)
  {
    assert ChildrenOf(nodes, keyOf, n);
    var c, d := nodes[n].children[i], nodes[n].children[j];
    assert Labelled(nodes, keyOf, c) && Labelled(nodes, keyOf, d);
    ChildKey(nodes, keyOf, at, n, KeyOf(nodes[c].segment));
  }

  lemma Extends(p: seq<Key>, i: nat, k: seq<Key>)
    requires i < |p|
    ensures k <= p[..i + 1] <==> k <= p[..i] || k == p[..i] + [p[i]]
  {
    assert p[..i + 1] == p[..i] + [p[i]];
    if k <= p[..i + 1] && |k| <= i { assert k == p[..i + 1][..|k|] == p[..i][..|k|]; }
    if k <= p[..i] { assert k == p[..i][..|k|] == p[..i + 1][..|k|]; }
  }

  /** One more segment was followed to a node that was there. */
  lemma EnterOld(nodes: seq<RouteNode>, keyOf: seq<seq<Key>>, at: Keyed, routes: seq<Route>, segs: seq<string>, i: nat)
    requires |keyOf| == |nodes| && i < |segs| && Entered(nodes, keyOf, at, routes, segs, i)
    requires Keys(segs)[..i + 1] in at
    ensures Entered(nodes, keyOf, at, routes, segs, i + 1)
  {
    var p := Keys(segs);
    assert p[..i + 1] == p[..i] + [p[i]];
    var next := i + 1;
    forall k ensures Known(at, routes, segs, next, k) {
      assert Known(at, routes, segs, i, k);
      Extends(p, i, k);
    }
  }

  /** One more segment was followed to a new node. */
  lemma EnterNew(nodes: seq<RouteNode>, keyOf: seq<seq<Key>>, at: Keyed, routes: seq<Route>, segs: seq<string>, i: nat,
      cur: nat, node: RouteNode)
    requires |keyOf| == |nodes| && i < |segs| && Entered(nodes, keyOf, at, routes, segs, i) && cur < |nodes|
    requires Keys(segs)[..i + 1] !in at && node.paramIsInt == IsInt(segs[i])
    ensures var k := Keys(segs)[..i + 1];
      Entered(WithChild(nodes, cur, node), keyOf + [k], at[k := |nodes|], routes, segs, i + 1)
  {
    var p := Keys(segs);
    var l := p[..i + 1];
    var nodes', keyOf', at' := WithChild(nodes, cur, node), keyOf + [l], at[l := |nodes|];
    assert l == p[..i] + [p[i]];
    var next := i + 1;
    forall k ensures Known(at', routes, segs, next, k) {
      assert Known(at, routes, segs, i, k);
      Extends(p, i, k);
    }
    assert Known(at, routes, segs, i, l);
    forall n | 0 <= n < |nodes'| ensures Tested(nodes', keyOf', routes, segs, n) {
      if n < |nodes| { assert Tested(nodes, keyOf, routes, segs, n); }
    }
  }

  lemma NewData(nodes: seq<RouteNode>, keyOf: seq<seq<Key>>, routes: seq<Route>, cur: nat, node: RouteNode, k: seq<Key>)
    requires |keyOf| == |nodes| && Data(nodes, keyOf, routes) && cur < |nodes| && !node.isLeaf && !Present(routes, k)
    ensures Data(WithChild(nodes, cur, node), keyOf + [k], routes)
  {
    var nodes', keyOf' := WithChild(nodes, cur, node), keyOf + [k];
    NoRoute(routes, k);
    forall n | 0 <= n < |nodes'| ensures HoldsAt(nodes', keyOf', routes, n) {
      if n < |nodes| { assert HoldsAt(nodes, keyOf, routes, n); }
    }
  }

  lemma NoRoute(routes: seq<Route>, k: seq<Key>)
    requires !Present(routes, k)
    ensures LastRoute(routes, k) == None
  {
  }

  /** Writing the handler on the last node adds the registration to the list. */
  lemma Registered(nodes: seq<RouteNode>, keyOf: seq<seq<Key>>, at: Keyed, routes: seq<Route>, r: Route, cur: nat, node: RouteNode)
    requires Tree(nodes, keyOf, at) && Data(nodes, keyOf, routes) && Entered(nodes, keyOf, at, routes, r.segs, |r.segs|)
    requires cur < |nodes| && keyOf[cur] == r.Pattern()
    requires node == nodes[cur].(isLeaf := true, handler := r.handler, isWs := r.isWs, verb := Stored(r.verb))
    ensures var nodes', routes' := nodes[cur := node], routes + [r];
      Tree(nodes', keyOf, at) && Data(nodes', keyOf, routes') && Entered(nodes', keyOf, at, routes', [], 0)
  {
    var nodes', routes' := nodes[cur := node], routes + [r];
    SameShape(nodes, keyOf, at, cur, node);
    assert routes'[..|routes|] == routes && r.Pattern()[..|r.segs|] == r.Pattern() && Keys([])[..0] == [];
    forall n | 0 <= n < |nodes| ensures HoldsAt(nodes', keyOf, routes', n) && Tested(nodes', keyOf, routes', [], n) {
      assert HoldsAt(nodes, keyOf, routes, n) && Tested(nodes, keyOf, routes, r.segs, n) && KeyAt(keyOf, at, n) && KeyAt(keyOf, at, cur);
      assert Known(at, routes, r.segs, |r.segs|, keyOf[n]);
      PresentAfter(routes, r, keyOf[n]);
    }
    forall k ensures Known(at, routes', [], 0, k) {
      assert Known(at, routes, r.segs, |r.segs|, k);
      PresentAfter(routes, r, k);
    }
  }

  lemma PresentAfter(routes: seq<Route>, r: Route, k: seq<Key>)
    ensures Present(routes + [r], k) <==> Present(routes, k) || k <= r.Pattern()
  {
    var all := routes + [r];
    if k != [] {
      if Present(routes, k) {
        var i :| 0 <= i < |routes| && k <= routes[i].Pattern();
        assert k <= all[i].Pattern();
      }
      if k <= r.Pattern() { assert k <= all[|routes|].Pattern(); }
    }
  }

  lemma SameShape(nodes: seq<RouteNode>, keyOf: seq<seq<Key>>, at: Keyed, cur: nat, node: RouteNode)
    requires Tree(nodes, keyOf, at) && cur < |nodes|
    requires node.children == nodes[cur].children && node.segment == nodes[cur].segment && node.isParam == nodes[cur].isParam
    ensures Tree(nodes[cur := node], keyOf, at)
  {
    var nodes' := nodes[cur := node];
    forall n | 0 <= n < |nodes| ensures ChildrenOf(nodes', keyOf, n) && Labelled(nodes', keyOf, n) {
      assert ChildrenOf(nodes, keyOf, n) && Labelled(nodes, keyOf, n);
    }
    forall k | k in at && k != [] ensures Linked(nodes', at, k) { assert Linked(nodes, at, k); }
  }

  // ----- the trie -----

  class RouteTrie {
    var nodes: seq<RouteNode>
    ghost var routes: seq<Route>
    ghost var keyOf: seq<seq<Key>>
    ghost var at: Keyed

    ghost predicate Valid()
      reads this
    {
      Tree(nodes, keyOf, at) && Data(nodes, keyOf, routes) && Entered(nodes, keyOf, at, routes, [], 0)
    }

    constructor ()
      ensures Valid() && routes == []
    {
      nodes, routes, keyOf, at := [EMPTY_NODE], [], [[]], map[[] := 0];
    }

    static method Scan(path: string, start: nat) returns (pos: nat)
      requires start <= |path|
      ensures pos == Slash(path, start)
    {
      pos := start;
      while pos < |path| && path[pos] != '/'
        invariant start <= pos <= |path| && Slash(path, pos) == Slash(path, start)
      {
        pos := pos + 1;
      }
    }

    static method SplitPath(path: string) returns (segs: seq<string>)
      ensures segs == Segments(path)
    {
      segs := [];
      if path == "" { return; }
      var pos := if path[0] == '/' then 1 else 0;
      SplitBegins(path, pos);
      while pos < |path| && |segs| < MAX_SEGMENTS
        invariant pos <= |path| && |segs| <= MAX_SEGMENTS && Split(path, pos, segs)
        decreases MAX_SEGMENTS - |segs|
      {
        var start := pos;
        pos := Scan(path, start);
        SplitStep(path, start, pos, segs);
        segs := segs + [path[start..pos]];
        if pos < |path| { pos := pos + 1; }
      }
      SplitEnds(path, pos, segs);
    }

    static function Ask(path: string, pos: nat, segs: seq<string>, u: bool): bool { true }

    /** The segments of the path are those found and those from a position on. */
    static ghost predicate Split(path: string, pos: nat, segs: seq<string>)
      requires pos <= |path|
    {
      forall u {:trigger Ask(path, pos, segs, u)} :: Ask(path, pos, segs, u) ==> Segments(path) == segs + SegmentsFrom(path, pos, |segs|)
    }

    static lemma SplitBegins(path: string, pos: nat)
      requires path != "" && pos == if path[0] == '/' then 1 else 0
      ensures Split(path, pos, [])
    {
      assert [] + SegmentsFrom(path, pos, 0) == SegmentsFrom(path, pos, 0);
    }

    static lemma SplitEnds(path: string, pos: nat, segs: seq<string>)
      requires pos <= |path| && Split(path, pos, segs) && (pos == |path| || |segs| >= MAX_SEGMENTS)
      ensures Segments(path) == segs
    {
      assert Ask(path, pos, segs, true);
      assert segs + [] == segs;
    }

    static lemma SplitStep(path: string, start: nat, j: nat, segs: seq<string>)
      requires start < |path| && |segs| < MAX_SEGMENTS && Split(path, start, segs) && j == Slash(path, start)
      ensures Split(path, if j < |path| then j + 1 else j, segs + [path[start..j]])
    {
      assert Ask(path, start, segs, true);
      var next := if j < |path| then j + 1 else j;
      FirstFrom(path, start, |segs|);
      Longer(segs, path[start..j], SegmentsFrom(path, start, |segs|), SegmentsFrom(path, next, |segs| + 1), Segments(path));
      SplitAt(path, next, segs + [path[start..j]], |segs| + 1);
    }

    static lemma Longer(segs: seq<string>, seg: string, left: seq<string>, rest: seq<string>, whole: seq<string>)
      requires whole == segs + left && left == [seg] + rest
      ensures whole == segs + [seg] + rest
    {}

    static lemma FirstFrom(path: string, start: nat, taken: nat)
      requires start < |path| && taken < MAX_SEGMENTS
      ensures var j := Slash(path, start);
        SegmentsFrom(path, start, taken) == [path[start..j]] + SegmentsFrom(path, if j < |path| then j + 1 else j, taken + 1)
    {}

    static lemma SplitAt(path: string, pos: nat, segs: seq<string>, taken: nat)
      requires pos <= |path| && taken == |segs| && Segments(path) == segs + SegmentsFrom(path, pos, taken)
      ensures Split(path, pos, segs)
    {}

    /** The int test over a segment. */
    static method AllDigits(seg: string) returns (ok: bool)
      ensures ok == IntLike(seg)
    {
      var k := 0;
      while k < |seg|
        invariant k <= |seg| && forall l :: 0 <= l < k ==> DigitAt(seg, l)
      {
        if k == 0 && seg[k] == '-' { k := k + 1; continue; }
        if seg[k] < '0' || seg[k] > '9' {
          assert !DigitAt(seg, k);
          return false;
        }
        k := k + 1;
      }
      return true;
    }

    static lemma OneMore(cs: seq<nat>, j: nat)
      requires j < |cs|
      ensures cs[j] in cs && cs[..j + 1] == cs[..j] + [cs[j]]
    {}

    /** The child that an insertion follows: one with the same text, else any placeholder when
        the segment is one. */
    method FindChild(cur: nat, seg: string) returns (found: Option<nat>)
      requires Tree(nodes, keyOf, at) && cur < |nodes|
      ensures var k := keyOf[cur] + [KeyOf(seg)];
        found == if k in at then Some(at[k]) else None
    {
      var cs := nodes[cur].children;
      ghost var k := keyOf[cur] + [KeyOf(seg)];
      ChildKey(nodes, keyOf, at, cur, KeyOf(seg));
      if k in at { assert Labelled(nodes, keyOf, at[k]); }
      assert cs[..|cs|] == cs;
      for j := 0 to |cs|
        invariant forall c :: c in cs[..j] ==> c < |nodes| && nodes[c].segment != seg
      {
        OneMore(cs, j);
        if nodes[cs[j]].segment == seg { return Some(cs[j]); }
      }
      if KindOf(seg).Placeholder? {
        for j := 0 to |cs|
          invariant forall c :: c in cs[..j] ==> c < |nodes| && !nodes[c].isParam
        {
          OneMore(cs, j);
          assert Labelled(nodes, keyOf, cs[j]);
          if nodes[cs[j]].isParam { return Some(cs[j]); }
        }
      }
      return None;
    }

    /** Registers a handler: afterwards the trie stands for one more registration. */
    method Insert(pattern: string, verb: string, handler: nat, isWs: bool)
      requires Valid()
      modifies this
      ensures Valid() && routes == old(routes) + [Route(Segments(pattern), verb, handler, isWs)]
    {
      var segs := SplitPath(pattern);
      var cur: nat := 0;
      Start(segs);
      for i := 0 to |segs|
        invariant Tree(nodes, keyOf, at) && Data(nodes, keyOf, routes) && routes == old(routes) && cur < |nodes|
        invariant Entered(nodes, keyOf, at, routes, segs, i) && keyOf[cur] == Keys(segs)[..i]
      {
        cur := Step(cur, segs, i);
      }
      assert Keys(segs)[..|segs|] == Keys(segs);
      var r := Route(segs, verb, handler, isWs);
      Registered(nodes, keyOf, at, routes, r, cur, nodes[cur].(isLeaf := true, handler := handler, isWs := isWs, verb := Stored(verb)));
      nodes := nodes[cur := nodes[cur].(isLeaf := true, handler := handler, isWs := isWs, verb := Stored(verb))];
      routes := routes + [r];
    }

    /** Nothing of the pattern has been entered yet. */
    lemma Start(segs: seq<string>)
      requires Valid()
      ensures Entered(nodes, keyOf, at, routes, segs, 0) && keyOf[0] == Keys(segs)[..0]
    {
      assert Keys(segs)[..0] == [] == Keys([])[..0];
      forall k ensures Known(at, routes, segs, 0, k) { assert Known(at, routes, [], 0, k); }
      forall n | 0 <= n < |nodes| ensures Tested(nodes, keyOf, routes, segs, n) {
        assert Tested(nodes, keyOf, routes, [], n) && KeyAt(keyOf, at, n) && Known(at, routes, [], 0, keyOf[n]);
      }
    }

    /** Follows segment i of the pattern, adding a node when there is none. */
    method Step(cur: nat, segs: seq<string>, i: nat) returns (next: nat)
      requires Tree(nodes, keyOf, at) && Data(nodes, keyOf, routes) && cur < |nodes| && i < |segs|
      requires Entered(nodes, keyOf, at, routes, segs, i) && keyOf[cur] == Keys(segs)[..i]
      modifies this
      ensures Tree(nodes, keyOf, at) && Data(nodes, keyOf, routes) && routes == old(routes) && next < |nodes|
      ensures Entered(nodes, keyOf, at, routes, segs, i + 1) && keyOf[next] == Keys(segs)[..i + 1]
    {
      var kind := KindOf(segs[i]);
      var found := FindChild(cur, segs[i]);
      ghost var k := Keys(segs)[..i + 1];
      assert k == keyOf[cur] + [KeyOf(segs[i])];
      if found.None? {
        var node := EMPTY_NODE.(segment := segs[i], isParam := kind.Placeholder?,
          paramIsInt := kind.Placeholder? && kind.isInt);
        Grow(nodes, keyOf, at, cur, node);
        EnterNew(nodes, keyOf, at, routes, segs, i, cur, node);
        assert Known(at, routes, segs, i, k);
        NewData(nodes, keyOf, routes, cur, node, k);
        next := |nodes|;
        keyOf, at := keyOf + [k], at[k := |nodes|];
        nodes := WithChild(nodes, cur, node);
      } else {
        EnterOld(nodes, keyOf, at, routes, segs, i);
        assert NodeAt(keyOf, at, k);
        next := found.value;
      }
    }

    /** The answer to a request is the greedy walk over the plain list of registrations. */
    method MatchNode(path: string, verb: string) returns (found: Option<nat>)
      requires Valid()
      ensures match Answer(routes, Segments(path), verb)
        case None => found == None
        case Some(r) => found.Some? && found.value < |nodes| && Holds(nodes[found.value], Some(r))
    {
      var segs := SplitPath(path);
      var cur: nat := 0;
      assert segs[0..] == segs;
      for i := 0 to |segs|
        invariant cur < |nodes| && Walk(routes, [], segs) == Walk(routes, keyOf[cur], segs[i..])
      {
        var next := Follow(cur, segs[i]);
        assert segs[i..] == [segs[i]] + segs[i + 1..];
        if next.None? { return None; }
        cur := next.value;
      }
      assert HoldsAt(nodes, keyOf, routes, cur);
      if nodes[cur].isLeaf {
        if nodes[cur].verb == verb || nodes[cur].verb == "*" { return Some(cur); }
        if nodes[cur].isWs && verb == "GET" { return Some(cur); }
      }
      return None;
    }

    /** Whatever follows, the walk goes on at the next node, or ends. */
    ghost predicate Walks(cur: nat, seg: string, next: Option<nat>)
      requires |keyOf| == |nodes| && cur < |nodes| && (next.Some? ==> next.value < |nodes|)
      reads this
    {
      forall rest ::
        Walk(routes, keyOf[cur], [seg] + rest) == (if next.Some? then Walk(routes, keyOf[next.value], rest) else None)
    }

    /** One step of the walk: the literal child if there is one, else the placeholder child if
        its test lets the segment pass. */
    method Follow(cur: nat, seg: string) returns (next: Option<nat>)
      requires Valid() && cur < |nodes|
      ensures next.Some? ==> next.value < |nodes|
      ensures Walks(cur, seg, next)
    {
      var cs := nodes[cur].children;
      ghost var lit, par := keyOf[cur] + [Lit(seg)], keyOf[cur] + [Param];
      ChildKey(nodes, keyOf, at, cur, Lit(seg));
      ChildKey(nodes, keyOf, at, cur, Param);
      var exact: Option<nat>, param: Option<nat> := None, None;
      ghost var open := par in at && at[par] < |nodes| && (nodes[at[par]].paramIsInt ==> IntLike(seg));
      for j := 0 to |cs|
        invariant exact == if lit in at && at[lit] in cs[..j] then Some(at[lit]) else None
        invariant param == if open && at[par] in cs[..j] then Some(at[par]) else None
      {
        assert cs[j] in cs && cs[j] < |nodes|;
        var child := nodes[cs[j]];
        assert cs[..j + 1] == cs[..j] + [cs[j]] && Labelled(nodes, keyOf, cs[j]);
        if child.isParam {
          if child.paramIsInt {
            var digits := AllDigits(seg);
            if !digits { continue; }
          }
          param := Some(cs[j]);
        } else if child.segment == seg {
          exact := Some(cs[j]);
        }
      }
      assert cs[..|cs|] == cs;
      next := if exact.Some? then exact else param;
      Walked(cur, seg, next);
    }

    lemma Walked(cur: nat, seg: string, next: Option<nat>)
      requires Valid() && cur < |nodes|
      requires var lit, par := keyOf[cur] + [Lit(seg)], keyOf[cur] + [Param];
        next == if lit in at then Some(at[lit])
                else if par in at && at[par] < |nodes| && (nodes[at[par]].paramIsInt ==> IntLike(seg)) then Some(at[par])
                else None
      ensures next.Some? ==> next.value < |nodes|
      ensures Walks(cur, seg, next)
    {
      var lit, par := keyOf[cur] + [Lit(seg)], keyOf[cur] + [Param];
      assert Known(at, routes, [], 0, lit) && Known(at, routes, [], 0, par) && Keys([])[..0] == [];
      if lit in at { assert NodeAt(keyOf, at, lit); }
      if par in at { assert NodeAt(keyOf, at, par) && Tested(nodes, keyOf, routes, [], at[par]); }
      forall rest ensures Walk(routes, keyOf[cur], [seg] + rest)
        == if next.Some? then Walk(routes, keyOf[next.value], rest) else None
      {
        assert ([seg] + rest)[1..] == rest;
      }
    }
  }
}
