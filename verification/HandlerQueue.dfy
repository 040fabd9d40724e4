/** The lock-free stack that hands requests to worker threads, as a state machine whose steps
    are single reads, writes and compare-and-swaps of any number of threads. */
module HandlerQueue {
  import opened Wrappers

  type Node = nat
  type Item = nat
  type Tid = nat

  datatype Link = Null | To(node: Node)

  /** Where a thread is in `yk_hw_enqueue` or `yk_hw_dequeue`. `k` is the position in the
      history of the pop that is being completed; the program does not know it. */
  datatype Pc =
    | Idle
    | PushRead(node: Node)
    | PushLink(node: Node, seen: Link)
    | PushCas(node: Node, seen: Link)
    | PopRead
    | PopNext(node: Node)
    | PopCas(node: Node, next: Link)
    | PopTake(node: Node, k: nat)
    | Waiting

  datatype Event = Pushed(item: Item) | Popped(item: Item)

  /** Shared memory, the program counters, the free nodes that each thread keeps for itself,
      the history of successful compare-and-swaps and the items given to callers. */
  datatype State = State(
    head: Link, next: map<Node, Link>, item: map<Node, Item>,
    pcs: map<Tid, Pc>, caches: map<Tid, seq<Node>>,
    history: seq<Event>, delivered: map<nat, Item>)

  const Initial := State(Null, map[], map[], map[], map[], [], map[])

  function PcOf(s: State, t: Tid): Pc { if t in s.pcs then s.pcs[t] else Idle }

  function Cache(s: State, t: Tid): seq<Node> { if t in s.caches then s.caches[t] else [] }

  // ----- steps -----

  datatype Action =
    | StartPushCached(item: Item)
    | StartPushMalloc(item: Item, newNode: Node)
    | MallocFails
    | ReadHeadToPush
    | LinkNode
    | CasPush
    | StartPop
    | ReadHeadToPop
    | ReadNext
    | CasPop
    | TakeItem
    | WakeUp
    | TimeOut

  function Goto(s: State, t: Tid, pc: Pc): State { s.(pcs := s.pcs[t := pc]) }

  /** The node that a new push works on, with its item and a cleared link. */
  function Prepared(s: State, t: Tid, n: Node, item: Item): State {
    Goto(s, t, PushRead(n)).(next := s.next[n := Null], item := s.item[n := item])
  }

  /** One step of one thread, where the action is possible. */
  function Step(s: State, t: Tid, a: Action): Option<State> {
    match (PcOf(s, t), a)
    case (Idle, StartPushCached(item)) =>
      var c := Cache(s, t);
      if c == [] then None
      else Some(Prepared(s.(caches := s.caches[t := c[1..]]), t, c[0], item))
    case (Idle, StartPushMalloc(item, n)) =>
      if Cache(s, t) == [] && n !in s.next then Some(Prepared(s, t, n, item)) else None
    case (Idle, MallocFails) => Some(s)
    case (PushRead(n), ReadHeadToPush) => Some(Goto(s, t, PushLink(n, s.head)))
    case (PushLink(n, seen), LinkNode) => Some(Goto(s, t, PushCas(n, seen)).(next := s.next[n := seen]))
    case (PushCas(n, seen), CasPush) =>
      if s.head == seen && n in s.item then
        Some(Goto(s, t, Idle).(head := To(n), history := s.history + [Pushed(s.item[n])]))
      else Some(Goto(s, t, PushRead(n)))
    case (Idle, StartPop) => Some(Goto(s, t, PopRead))
    case (PopRead, ReadHeadToPop) =>
      (match s.head case Null => Some(Goto(s, t, Waiting)) case To(n) => Some(Goto(s, t, PopNext(n))))
    case (PopNext(n), ReadNext) =>
      if n in s.next then Some(Goto(s, t, PopCas(n, s.next[n]))) else None
    case (PopCas(n, nx), CasPop) =>
      if s.head == To(n) && n in s.item then
        Some(Goto(s, t, PopTake(n, |s.history|)).(head := nx, history := s.history + [Popped(s.item[n])]))
      else Some(Goto(s, t, PopRead))
    case (PopTake(n, k), TakeItem) =>
      if n in s.item then
        var c := Cache(s, t);
        Some(Goto(s, t, Idle).(delivered := s.delivered[k := s.item[n]],
                               next := s.next[n := if c == [] then Null else To(c[0])],
                               caches := s.caches[t := [n] + c]))
      else None
    case (Waiting, WakeUp) => Some(Goto(s, t, PopRead))
    case (Waiting, TimeOut) => Some(Goto(s, t, Idle))
    case _ => None
  }

  /** A popper that has read `n` as the head and not yet tried its compare-and-swap. */
  predicate Watches(pc: Pc, n: Node) {
    (pc.PopNext? || pc.PopCas?) && pc.node == n
  }

  /** The assumption: the link that a successful pop read is still the link of its node. */
  predicate Current(s: State, t: Tid, a: Action) {
    a.CasPop? && PcOf(s, t).PopCas? && s.head == To(PcOf(s, t).node) ==>
      PcOf(s, t).node in s.next && s.next[PcOf(s, t).node] == PcOf(s, t).next
  }

  /** That is so when no push puts back a node that some popper watches. */
  ghost predicate NoReuse(s: State, t: Tid, a: Action) {
    a.CasPush? && PcOf(s, t).PushCas? && s.head == PcOf(s, t).seen ==>
      forall u :: !Watches(PcOf(s, u), PcOf(s, t).node)
  }

  // ----- the stack in memory and the abstract stack -----

  /** The links from a pointer spell out the list, which visits no node twice. */
  predicate IsList(next: map<Node, Link>, from: Link, l: seq<Node>)
    decreases l
  {
    if l == [] then from == Null
    else from == To(l[0]) && l[0] in next && l[0] !in l[1..] && IsList(next, next[l[0]], l[1..])
  }

  function Items(item: map<Node, Item>, l: seq<Node>): seq<Item>
    requires forall n :: n in l ==> n in item
  {
    if l == [] then [] else [item[l[0]]] + Items(item, l[1..])
  }

  /** What a sequential stack holds after the history; None if some pop was not of its top. */
  function Replay(h: seq<Event>): Option<seq<Item>> {
    if h == [] then Some([])
    else
      match Replay(h[..|h| - 1])
      case None => None
      case Some(s) =>
        match h[|h| - 1]
        case Pushed(x) => Some([x] + s)
        case Popped(x) => if s != [] && s[0] == x then Some(s[1..]) else None
  }

  /** The node that a thread has for itself. */
  function Owned(pc: Pc): Link {
    match pc
    case PushRead(n) => To(n)
    case PushLink(n, _) => To(n)
    case PushCas(n, _) => To(n)
    case PopTake(n, _) => To(n)
    case _ => Null
  }

  /** Every node that was ever allocated is in one place. */
  datatype Place = OnStack | With(t: Tid) | Free(t: Tid)

  ghost predicate StackOk(s: State, l: seq<Node>) {
    IsList(s.next, s.head, l) && s.next.Keys == s.item.Keys && (forall n :: n in l ==> n in s.item)
    && Replay(s.history) == Some(Items(s.item, l))
  }

  predicate Distinct(c: seq<Node>) { forall i, j :: 0 <= i < j < |c| ==> c[i] != c[j] }

  predicate OwnerOk(s: State, place: map<Node, Place>, t: Tid) {
    Owned(PcOf(s, t)).To? ==> Owned(PcOf(s, t)).node in place && place[Owned(PcOf(s, t)).node] == With(t)
  }

  predicate CacheOk(s: State, place: map<Node, Place>, t: Tid) {
    Distinct(Cache(s, t)) && forall n :: n in Cache(s, t) ==> n in place && place[n] == Free(t)
  }

  ghost predicate PlaceOk(s: State, l: seq<Node>, place: map<Node, Place>) {
    && place.Keys == s.item.Keys
    && (forall n :: n in l ==> n in place && place[n] == OnStack)
    && (forall t {:trigger OwnerOk(s, place, t)} :: OwnerOk(s, place, t))
    && (forall t {:trigger CacheOk(s, place, t)} :: CacheOk(s, place, t))
  }

  /** What a thread's local variables say about memory. */
  predicate Knows(s: State, t: Tid) {
    match PcOf(s, t)
    case PushCas(n, seen) => n in s.next && s.next[n] == seen
    case PopNext(n) => n in s.next
    case PopCas(n, nx) => n in s.next
    case PopTake(n, k) => k < |s.history| && n in s.item && s.history[k] == Popped(s.item[n]) && k !in s.delivered
    case _ => true
  }

  predicate Takes(s: State, t: Tid, k: nat) { PcOf(s, t).PopTake? && PcOf(s, t).k == k }

  /** The pop at position k of the history was handed out, or one thread is about to do so. */
  ghost predicate Served(s: State, k: nat) {
    k < |s.history| && s.history[k].Popped? ==> k in s.delivered || exists t :: Takes(s, t, k)
  }

  predicate TrueItem(s: State, k: nat) {
    k in s.delivered ==> k < |s.history| && s.history[k] == Popped(s.delivered[k])
  }

  predicate OneTaker(s: State, t: Tid, u: Tid) {
    t != u && PcOf(s, t).PopTake? && PcOf(s, u).PopTake? ==> PcOf(s, t).k != PcOf(s, u).k
  }

  ghost predicate AllKnow(s: State) { forall t {:trigger Knows(s, t)} :: Knows(s, t) }

  ghost predicate HandedOut(s: State) {
    && (forall k: nat {:trigger Served(s, k)} :: Served(s, k))
    && (forall k: nat {:trigger TrueItem(s, k)} :: TrueItem(s, k))
    && (forall t, u {:trigger OneTaker(s, t, u)} :: OneTaker(s, t, u))
  }

  ghost predicate Inv(s: State, l: seq<Node>, place: map<Node, Place>) {
    StackOk(s, l) && PlaceOk(s, l, place) && AllKnow(s) && HandedOut(s)
  }

  // ----- the list under writes -----

  lemma {:induction false} ListElsewhere(next: map<Node, Link>, from: Link, l: seq<Node>, n: Node, v: Link)
    requires IsList(next, from, l) && n !in l
    ensures IsList(next[n := v], from, l)
    decreases l
  {
    if l != [] { ListElsewhere(next, next[l[0]], l[1..], n, v); }
  }

  lemma {:induction false} ItemsElsewhere(item: map<Node, Item>, l: seq<Node>, n: Node, x: Item)
    requires n !in l && forall m :: m in l ==> m in item
    ensures Items(item[n := x], l) == Items(item, l)
  {
    if l != [] { ItemsElsewhere(item, l[1..], n, x); }
  }

  /** The list that memory spells out is unique, so "the stack" is well defined. */
  lemma {:induction false} ListUnique(next: map<Node, Link>, from: Link, l: seq<Node>, m: seq<Node>)
    requires IsList(next, from, l) && IsList(next, from, m)
    ensures l == m
    decreases l
  {
    if l != [] && m != [] {
      ListUnique(next, next[l[0]], l[1..], m[1..]);
      assert l == [l[0]] + l[1..] && m == [m[0]] + m[1..];
    }
  }

  lemma ReplayAppend(h: seq<Event>, e: Event)
    ensures Replay(h + [e]) ==
      match Replay(h)
      case None => None
      case Some(s) =>
        match e
        case Pushed(x) => Some([x] + s)
        case Popped(x) => if s != [] && s[0] == x then Some(s[1..]) else None
  {
    assert (h + [e])[..|h|] == h;
  }

  // ----- parts of the invariant under a step -----

  /** What is not thread t's stays where it is: no other thread has t's node. */
  ghost predicate OnlyMoves(s: State, s1: State, t: Tid, n: Node, place: map<Node, Place>, place1: map<Node, Place>) {
    && (forall u :: u != t ==> PcOf(s1, u) == PcOf(s, u) && Cache(s1, u) == Cache(s, u))
    && (forall m :: m in place && m != n ==> m in place1 && place1[m] == place[m])
    && (n in place ==> place[n] in {OnStack, With(t), Free(t)})
  }

  lemma PlaceMoves(s: State, s1: State, t: Tid, n: Node, l: seq<Node>, l1: seq<Node>, place: map<Node, Place>, place1: map<Node, Place>)
    requires PlaceOk(s, l, place) && OnlyMoves(s, s1, t, n, place, place1) && place1.Keys == s1.item.Keys
    requires (forall m :: m in l1 ==> m in place1 && place1[m] == OnStack) && OwnerOk(s1, place1, t) && CacheOk(s1, place1, t)
    ensures PlaceOk(s1, l1, place1)
  {
    forall u ensures OwnerOk(s1, place1, u) { assert OwnerOk(s, place, u); }
    forall u ensures CacheOk(s1, place1, u) { assert CacheOk(s, place, u); }
  }

  /** The history and the items given out do not change, and no thread starts or ends
      handing one out. */
  lemma HandedOutKept(s: State, s1: State)
    requires HandedOut(s) && s1.history == s.history && s1.delivered == s.delivered
    requires forall t :: PcOf(s1, t).PopTake? || PcOf(s, t).PopTake? ==> PcOf(s1, t) == PcOf(s, t)
    ensures HandedOut(s1)
  {
    forall k: nat ensures Served(s1, k) {
      assert Served(s, k);
      if k < |s.history| && s.history[k].Popped? && k !in s.delivered {
        var t :| Takes(s, t, k);
        assert Takes(s1, t, k);
      }
    }
    forall k: nat ensures TrueItem(s1, k) { assert TrueItem(s, k); }
    forall t, u ensures OneTaker(s1, t, u) { assert OneTaker(s, t, u); }
  }

  /** The history gets a push. */
  lemma HandedOutPushed(s: State, s1: State, x: Item)
    requires HandedOut(s) && s1.history == s.history + [Pushed(x)] && s1.delivered == s.delivered
    requires forall t :: PcOf(s1, t).PopTake? || PcOf(s, t).PopTake? ==> PcOf(s1, t) == PcOf(s, t)
    ensures HandedOut(s1)
  {
    forall k: nat ensures Served(s1, k) {
      assert Served(s, k);
      if k < |s.history| && s.history[k].Popped? && k !in s.delivered {
        var t :| Takes(s, t, k);
        assert Takes(s1, t, k);
      }
    }
    forall k: nat ensures TrueItem(s1, k) { assert TrueItem(s, k); }
    forall t, u ensures OneTaker(s1, t, u) { assert OneTaker(s, t, u); }
  }

  /** The history gets a pop, which thread t is to hand out. */
  lemma HandedOutPopped(s: State, s1: State, t: Tid, n: Node, x: Item)
    requires HandedOut(s) && AllKnow(s) && s1.history == s.history + [Popped(x)] && s1.delivered == s.delivered
    requires !PcOf(s, t).PopTake? && PcOf(s1, t) == PopTake(n, |s.history|) && forall u :: u != t ==> PcOf(s1, u) == PcOf(s, u)
    ensures HandedOut(s1)
  {
    forall k: nat ensures Served(s1, k) {
      assert Served(s, k);
      if k == |s.history| {
        assert Takes(s1, t, k);
      } else if k < |s.history| && s.history[k].Popped? && k !in s.delivered {
        var u :| Takes(s, u, k);
        assert Takes(s1, u, k);
      }
    }
    forall k: nat ensures TrueItem(s1, k) { assert TrueItem(s, k); }
    forall u, v ensures OneTaker(s1, u, v) { assert OneTaker(s, u, v) && Knows(s, u) && Knows(s, v); }
  }

  /** Thread t hands out the k-th. */
  lemma HandedOutTaken(s: State, s1: State, t: Tid, k: nat)
    requires HandedOut(s) && s1.history == s.history && Takes(s, t, k) && !PcOf(s1, t).PopTake?
    requires k < |s.history| && s.history[k].Popped? && s1.delivered == s.delivered[k := s.history[k].item]
    requires forall u :: u != t ==> PcOf(s1, u) == PcOf(s, u)
    ensures HandedOut(s1)
  {
    forall j: nat ensures Served(s1, j) {
      assert Served(s, j);
      if j != k && j < |s.history| && s.history[j].Popped? && j !in s.delivered {
        var u :| Takes(s, u, j);
        assert Takes(s1, u, j);
      }
    }
    forall j: nat ensures TrueItem(s1, j) { assert TrueItem(s, j); }
    forall u, v ensures OneTaker(s1, u, v) { assert OneTaker(s, u, v); }
  }

  /** The stack is not written. */
  lemma StackElsewhere(s: State, s1: State, l: seq<Node>, n: Node, v: Link, item: map<Node, Item>, x: Item)
    requires StackOk(s, l) && n !in l && item in {s.item, s.item[n := x]}
    requires s1.next == s.next[n := v] && s1.item == item && s1.item.Keys == s1.next.Keys && s1.head == s.head && s1.history == s.history
    ensures StackOk(s1, l)
  {
    ListElsewhere(s.next, s.head, l, n, v);
    ItemsElsewhere(s.item, l, n, x);
  }

  /** A step that only moves one thread's program counter, between places where it owns the
      same node or none. */
  lemma PcOnly(s: State, t: Tid, pc: Pc, l: seq<Node>, place: map<Node, Place>)
    requires Inv(s, l, place) && !PcOf(s, t).PopTake? && !pc.PopTake? && !pc.PushCas?
    requires Owned(pc).To? ==> Owned(pc) == Owned(PcOf(s, t))
    requires Knows(Goto(s, t, pc), t)
    ensures Inv(Goto(s, t, pc), l, place)
  {
    var s1 := Goto(s, t, pc);
    HandedOutKept(s, s1);
    forall u ensures OwnerOk(s1, place, u) { assert OwnerOk(s, place, u); }
    forall u ensures CacheOk(s1, place, u) { assert CacheOk(s, place, u); }
    forall u ensures Knows(s1, u) { assert Knows(s, u); }
  }

  // ----- every step keeps the invariant -----

  /** A thread takes a free node, new or from its cache, for the item that it pushes. */
  lemma StartPush(s: State, t: Tid, item: Item, n: Node, rest: seq<Node>, l: seq<Node>, place: map<Node, Place>)
    returns (place1: map<Node, Place>)
    requires Inv(s, l, place) && PcOf(s, t) == Idle
    requires (Cache(s, t) == [n] + rest) || (Cache(s, t) == rest == [] && n !in s.next)
    ensures Inv(Prepared(s.(caches := s.caches[t := rest]), t, n, item), l, place1)
  {
    var s1 := Prepared(s.(caches := s.caches[t := rest]), t, n, item);
    place1 := place[n := With(t)];
    StartPushPlace(s, s1, t, item, n, rest, l, place, place1);
    StackElsewhere(s, s1, l, n, Null, s1.item, item);
    HandedOutKept(s, s1);
    forall u ensures Knows(s1, u) { StartPushKnows(s, s1, t, item, n, rest, l, place, u); }
  }

  lemma StartPushPlace(s: State, s1: State, t: Tid, item: Item, n: Node, rest: seq<Node>, l: seq<Node>, place: map<Node, Place>, place1: map<Node, Place>)
    requires Inv(s, l, place) && PcOf(s, t) == Idle && place1 == place[n := With(t)]
    requires (Cache(s, t) == [n] + rest) || (Cache(s, t) == rest == [] && n !in s.next)
    requires s1 == Prepared(s.(caches := s.caches[t := rest]), t, n, item)
    ensures n !in l && PlaceOk(s1, l, place1)
  {
    StartPushCache(s, t, n, rest, l, place);
    PlaceMoves(s, s1, t, n, l, l, place, place1);
  }

  /** The node was free, and the rest of the cache is still. */
  lemma StartPushCache(s: State, t: Tid, n: Node, rest: seq<Node>, l: seq<Node>, place: map<Node, Place>)
    requires StackOk(s, l) && PlaceOk(s, l, place)
    requires (Cache(s, t) == [n] + rest) || (Cache(s, t) == rest == [] && n !in s.next)
    ensures n !in l && (n in place ==> place[n] == Free(t)) && Distinct(rest)
    ensures forall m :: m in rest ==> m != n && m in place && place[m] == Free(t)
  {
    var c := Cache(s, t);
    assert CacheOk(s, place, t);
    if c != [] {
      assert c[0] == n && c[1..] == rest;
      assert forall j :: 0 <= j < |rest| ==> rest[j] == c[j + 1];
    }
  }

  lemma StartPushKnows(s: State, s1: State, t: Tid, item: Item, n: Node, rest: seq<Node>, l: seq<Node>, place: map<Node, Place>, u: Tid)
    requires Inv(s, l, place) && PcOf(s, t) == Idle
    requires (Cache(s, t) == [n] + rest) || (Cache(s, t) == rest == [] && n !in s.next)
    requires s1 == Prepared(s.(caches := s.caches[t := rest]), t, n, item)
    ensures Knows(s1, u)
  {
    assert CacheOk(s, place, t) && Knows(s, u) && OwnerOk(s, place, u);
    assert Cache(s, t) != [] ==> Cache(s, t)[0] == n;
  }

  lemma Link1(s: State, t: Tid, l: seq<Node>, place: map<Node, Place>)
    requires Inv(s, l, place) && PcOf(s, t).PushLink?
    ensures Inv(Step(s, t, LinkNode).value, l, place)
  {
    var n, seen := PcOf(s, t).node, PcOf(s, t).seen;
    var s1 := Step(s, t, LinkNode).value;
    assert OwnerOk(s, place, t);
    StackElsewhere(s, s1, l, n, seen, s.item, 0);
    HandedOutKept(s, s1);
    assert CacheOk(s, place, t);
    PlaceMoves(s, s1, t, n, l, l, place, place);
    forall u ensures Knows(s1, u) { assert Knows(s, u) && OwnerOk(s, place, u); }
  }

  /** A successful push puts one node on top. */
  lemma Push1(s: State, t: Tid, l: seq<Node>, place: map<Node, Place>) returns (place1: map<Node, Place>)
    requires Inv(s, l, place) && PcOf(s, t).PushCas? && s.head == PcOf(s, t).seen
    ensures Step(s, t, CasPush).Some? && Inv(Step(s, t, CasPush).value, [PcOf(s, t).node] + l, place1)
  {
    var n := PcOf(s, t).node;
    assert OwnerOk(s, place, t) && Knows(s, t);
    var s1 := Step(s, t, CasPush).value;
    place1 := place[n := OnStack];
    PushStack(s, s1, t, l, place);
    PushPlace(s, s1, t, n, l, place, place1);
    HandedOutPushed(s, s1, s.item[n]);
    forall u ensures Knows(s1, u) { PushKnows(s, s1, t, u); }
  }

  lemma PushPlace(s: State, s1: State, t: Tid, n: Node, l: seq<Node>, place: map<Node, Place>, place1: map<Node, Place>)
    requires PlaceOk(s, l, place) && n in place && place[n] == With(t) && place1 == place[n := OnStack]
    requires s1.item == s.item && s1.caches == s.caches && s1.pcs == s.pcs[t := Idle]
    ensures PlaceOk(s1, [n] + l, place1)
  {
    assert CacheOk(s, place, t);
    PlaceMoves(s, s1, t, n, l, [n] + l, place, place1);
  }

  lemma PushKnows(s: State, s1: State, t: Tid, u: Tid)
    requires Knows(s, u) && s1.next == s.next && s1.item == s.item && s1.pcs == s.pcs[t := Idle]
    requires s1.delivered == s.delivered && s.history <= s1.history
    ensures Knows(s1, u)
  {}

  lemma PushStack(s: State, s1: State, t: Tid, l: seq<Node>, place: map<Node, Place>)
    requires Inv(s, l, place) && PcOf(s, t).PushCas? && s.head == PcOf(s, t).seen && Step(s, t, CasPush) == Some(s1)
    ensures PcOf(s, t).node in s.item && StackOk(s1, [PcOf(s, t).node] + l)
  {
    var n := PcOf(s, t).node;
    assert OwnerOk(s, place, t) && Knows(s, t);
    assert ([n] + l)[1..] == l;
    ReplayAppend(s.history, Pushed(s.item[n]));
  }

  /** A successful pop removes the top node, if its link is still what was read. */
  lemma Pop1(s: State, t: Tid, l: seq<Node>, place: map<Node, Place>) returns (place1: map<Node, Place>)
    requires Inv(s, l, place) && PcOf(s, t).PopCas? && s.head == To(PcOf(s, t).node) && Current(s, t, CasPop)
    ensures l != [] && l[0] == PcOf(s, t).node && Step(s, t, CasPop).Some? && Inv(Step(s, t, CasPop).value, l[1..], place1)
  {
    var n := PcOf(s, t).node;
    assert l[0] == n;
    var s1 := Step(s, t, CasPop).value;
    place1 := place[n := With(t)];
    PopStack(s, s1, t, l);
    PopPlace(s, s1, t, n, l, place, place1);
    HandedOutPopped(s, s1, t, n, s.item[n]);
    assert TrueItem(s, |s.history|);
    forall u ensures Knows(s1, u) { PopKnows(s, s1, t, n, u); }
  }

  lemma PopPlace(s: State, s1: State, t: Tid, n: Node, l: seq<Node>, place: map<Node, Place>, place1: map<Node, Place>)
    requires PlaceOk(s, l, place) && l != [] && l[0] == n && n !in l[1..] && place1 == place[n := With(t)]
    requires s1.item == s.item && s1.caches == s.caches && s1.pcs == s.pcs[t := PopTake(n, |s.history|)]
    ensures PlaceOk(s1, l[1..], place1)
  {
    assert CacheOk(s, place, t);
    PlaceMoves(s, s1, t, n, l, l[1..], place, place1);
  }

  lemma PopKnows(s: State, s1: State, t: Tid, n: Node, u: Tid)
    requires Knows(s, u) && s1.next == s.next && s1.item == s.item && s1.pcs == s.pcs[t := PopTake(n, |s.history|)]
    requires n in s.item && s1.delivered == s.delivered && s1.history == s.history + [Popped(s.item[n])] && |s.history| !in s.delivered
    ensures Knows(s1, u)
  {}

  lemma PopStack(s: State, s1: State, t: Tid, l: seq<Node>)
    requires StackOk(s, l) && PcOf(s, t).PopCas? && s.head == To(PcOf(s, t).node) && Current(s, t, CasPop) && Step(s, t, CasPop) == Some(s1)
    ensures l != [] && PcOf(s, t).node in s.item && StackOk(s1, l[1..])
  {
    assert l[0] == PcOf(s, t).node;
    ReplayAppend(s.history, Popped(s.item[l[0]]));
    assert Items(s.item, l)[1..] == Items(s.item, l[1..]);
  }

  /** The popper hands out the item and keeps the node for later. */
  lemma Take1(s: State, t: Tid, l: seq<Node>, place: map<Node, Place>) returns (place1: map<Node, Place>)
    requires Inv(s, l, place) && PcOf(s, t).PopTake?
    ensures Step(s, t, TakeItem).Some? && Inv(Step(s, t, TakeItem).value, l, place1)
  {
    var n, k := PcOf(s, t).node, PcOf(s, t).k;
    assert Knows(s, t) && OwnerOk(s, place, t);
    var s1 := Step(s, t, TakeItem).value;
    place1 := place[n := Free(t)];
    StackElsewhere(s, s1, l, n, s1.next[n], s.item, 0);
    TakePlace(s, s1, t, l, place, place1);
    HandedOutTaken(s, s1, t, k);
    forall u ensures Knows(s1, u) { Take1Knows(s, s1, t, l, place, u); }
  }

  lemma TakePlace(s: State, s1: State, t: Tid, l: seq<Node>, place: map<Node, Place>, place1: map<Node, Place>)
    requires Inv(s, l, place) && PcOf(s, t).PopTake? && Step(s, t, TakeItem) == Some(s1) && place1 == place[PcOf(s, t).node := Free(t)]
    ensures PlaceOk(s1, l, place1)
  {
    var n := PcOf(s, t).node;
    assert Knows(s, t) && OwnerOk(s, place, t) && CacheOk(s, place, t);
    PlaceMoves(s, s1, t, n, l, l, place, place1);
  }

  lemma Take1Knows(s: State, s1: State, t: Tid, l: seq<Node>, place: map<Node, Place>, u: Tid)
    requires Inv(s, l, place) && PcOf(s, t).PopTake? && Step(s, t, TakeItem) == Some(s1)
    ensures Knows(s1, u)
  {
    assert Knows(s, t) && OwnerOk(s, place, t) && Knows(s, u) && OwnerOk(s, place, u) && OneTaker(s, t, u);
  }

  /** Each step keeps the invariant, and the abstract stack changes at most by one push or
      one pop at the top. */
  lemma StepKeeps(s: State, t: Tid, a: Action, l: seq<Node>, place: map<Node, Place>)
    returns (l1: seq<Node>, place1: map<Node, Place>)
    requires Inv(s, l, place) && Step(s, t, a).Some? && Current(s, t, a)
    ensures Inv(Step(s, t, a).value, l1, place1)
    ensures || l1 == l || (a.CasPush? && l1 == [PcOf(s, t).node] + l && s.head == PcOf(s, t).seen)
            || (a.CasPop? && l == [PcOf(s, t).node] + l1)
  {
    l1, place1 := l, place;
    if a.StartPushCached? || a.StartPushMalloc? {
      place1 := Start1(s, t, a, l, place);
    } else if a.CasPush? || a.CasPop? {
      l1, place1 := Cas1(s, t, a, l, place);
    } else if a.TakeItem? {
      place1 := Take1(s, t, l, place);
    } else if a.LinkNode? {
      Link1(s, t, l, place);
    } else if !a.MallocFails? {
      Local1(s, t, a, l, place);
    }
  }

  lemma Start1(s: State, t: Tid, a: Action, l: seq<Node>, place: map<Node, Place>) returns (place1: map<Node, Place>)
    requires Inv(s, l, place) && Step(s, t, a).Some? && (a.StartPushCached? || a.StartPushMalloc?)
    ensures Inv(Step(s, t, a).value, l, place1)
  {
    if a.StartPushCached? {
      place1 := StartPush(s, t, a.item, Cache(s, t)[0], Cache(s, t)[1..], l, place);
    } else {
      place1 := StartPush(s, t, a.item, a.newNode, [], l, place);
      SameCaches(s, t, a.item, a.newNode, l, place1);
    }
  }

  /** A swap succeeds, or sends its thread back to the read. */
  lemma Cas1(s: State, t: Tid, a: Action, l: seq<Node>, place: map<Node, Place>)
    returns (l1: seq<Node>, place1: map<Node, Place>)
    requires Inv(s, l, place) && Step(s, t, a).Some? && (a.CasPush? || a.CasPop?) && Current(s, t, a)
    ensures Inv(Step(s, t, a).value, l1, place1)
    ensures || l1 == l || (a.CasPush? && l1 == [PcOf(s, t).node] + l && s.head == PcOf(s, t).seen)
            || (a.CasPop? && l == [PcOf(s, t).node] + l1)
  {
    l1, place1 := l, place;
    assert Knows(s, t) && OwnerOk(s, place, t);
    var n := PcOf(s, t).node;
    if a.CasPush? {
      if s.head == PcOf(s, t).seen {
        place1 := Push1(s, t, l, place);
        l1 := [n] + l;
      } else {
        PcOnly(s, t, PushRead(n), l, place);
      }
    } else if s.head == To(n) {
      place1 := Pop1(s, t, l, place);
      l1 := l[1..];
    } else {
      PcOnly(s, t, PopRead, l, place);
    }
  }

  /** The other steps only move a program counter. */
  lemma Local1(s: State, t: Tid, a: Action, l: seq<Node>, place: map<Node, Place>)
    requires Inv(s, l, place) && Step(s, t, a).Some?
    requires a.ReadHeadToPush? || a.StartPop? || a.ReadHeadToPop? || a.ReadNext? || a.WakeUp? || a.TimeOut?
    ensures Inv(Step(s, t, a).value, l, place)
  {
    assert Knows(s, t);
    PcOnly(s, t, PcOf(Step(s, t, a).value, t), l, place);
  }

  /** An absent cache is an empty one. */
  lemma SameCaches(s: State, t: Tid, item: Item, n: Node, l: seq<Node>, place: map<Node, Place>)
    requires Cache(s, t) == [] && Inv(Prepared(s.(caches := s.caches[t := []]), t, n, item), l, place)
    ensures Inv(Prepared(s, t, n, item), l, place)
  {
    var s1, s2 := Prepared(s.(caches := s.caches[t := []]), t, n, item), Prepared(s, t, n, item);
    forall u ensures OwnerOk(s2, place, u) { assert OwnerOk(s1, place, u); }
    forall u ensures CacheOk(s2, place, u) { assert CacheOk(s1, place, u); }
    forall u ensures Knows(s2, u) { assert Knows(s1, u); }
    HandedOutKept(s1, s2);
  }

  // ----- runs -----

  datatype Move = Move(t: Tid, a: Action)

  function RunFrom(s: State, run: seq<Move>): Option<State>
    decreases run
  {
    if run == [] then Some(s)
    else
      match Step(s, run[0].t, run[0].a)
      case None => None
      case Some(s1) => RunFrom(s1, run[1..])
  }

  predicate AlwaysCurrent(s: State, run: seq<Move>)
    decreases run
  {
    run == [] ||
    (Current(s, run[0].t, run[0].a)
     && match Step(s, run[0].t, run[0].a) case None => true case Some(s1) => AlwaysCurrent(s1, run[1..]))
  }

  ghost predicate NeverReuses(s: State, run: seq<Move>)
    decreases run
  {
    run == [] ||
    (NoReuse(s, run[0].t, run[0].a)
     && match Step(s, run[0].t, run[0].a) case None => true case Some(s1) => NeverReuses(s1, run[1..]))
  }

  lemma {:induction false} RunKeeps(s: State, run: seq<Move>, l: seq<Node>, place: map<Node, Place>)
    returns (l1: seq<Node>, place1: map<Node, Place>)
    requires Inv(s, l, place) && RunFrom(s, run).Some? && AlwaysCurrent(s, run)
    ensures Inv(RunFrom(s, run).value, l1, place1)
    decreases run
  {
    if run == [] {
      l1, place1 := l, place;
    } else {
      var l2, place2 := StepKeeps(s, run[0].t, run[0].a, l, place);
      l1, place1 := RunKeeps(Step(s, run[0].t, run[0].a).value, run[1..], l2, place2);
    }
  }

  lemma InitialInv()
    ensures Inv(Initial, [], map[])
  {
    forall t ensures OwnerOk(Initial, map[], t) && CacheOk(Initial, map[], t) && Knows(Initial, t) {}
    forall k: nat ensures Served(Initial, k) && TrueItem(Initial, k) {}
    forall t, u ensures OneTaker(Initial, t, u) {}
  }

  function PushedItems(h: seq<Event>): multiset<Item> {
    if h == [] then multiset{}
    else PushedItems(h[..|h| - 1]) + (if h[|h| - 1].Pushed? then multiset{h[|h| - 1].item} else multiset{})
  }

  function PoppedItems(h: seq<Event>): multiset<Item> {
    if h == [] then multiset{}
    else PoppedItems(h[..|h| - 1]) + (if h[|h| - 1].Popped? then multiset{h[|h| - 1].item} else multiset{})
  }

  lemma ItemsAppend(h: seq<Event>, e: Event)
    ensures PushedItems(h + [e]) == PushedItems(h) + (if e.Pushed? then multiset{e.item} else multiset{})
    ensures PoppedItems(h + [e]) == PoppedItems(h) + (if e.Popped? then multiset{e.item} else multiset{})
  {
    assert (h + [e])[..|h|] == h;
  }

  lemma PushConserves(a: multiset<Item>, b: multiset<Item>, s: seq<Item>, x: Item)
    requires a == b + multiset(s)
    ensures a + multiset{x} == b + multiset{} + multiset([x] + s)
  {
    assert multiset([x] + s) == multiset{x} + multiset(s);
  }

  lemma PopConserves(a: multiset<Item>, b: multiset<Item>, s: seq<Item>, x: Item)
    requires s != [] && s[0] == x && a == b + multiset(s)
    ensures a + multiset{} == b + multiset{x} + multiset(s[1..])
  {
    assert s == [x] + s[1..];
    assert multiset([x] + s[1..]) == multiset{x} + multiset(s[1..]);
  }

  lemma EventConserves(h: seq<Event>, e: Event)
    requires Replay(h).Some? && Replay(h + [e]).Some? && PushedItems(h) == PoppedItems(h) + multiset(Replay(h).value)
    ensures PushedItems(h + [e]) == PoppedItems(h + [e]) + multiset(Replay(h + [e]).value)
  {
    var s := Replay(h).value;
    ReplayAppend(h, e);
    ItemsAppend(h, e);
    if e.Pushed? {
      PushConserves(PushedItems(h), PoppedItems(h), s, e.item);
    } else {
      PopConserves(PushedItems(h), PoppedItems(h), s, e.item);
    }
  }

  /** A history that replays as a stack conserves its items. */
  lemma {:induction false} ReplayConserves(h: seq<Event>)
    requires Replay(h).Some?
    ensures PushedItems(h) == PoppedItems(h) + multiset(Replay(h).value)
  {
    if h != [] {
      var h0, e := h[..|h| - 1], h[|h| - 1];
      assert h0 + [e] == h;
      ReplayConserves(h0);
      EventConserves(h0, e);
    }
  }

  /** In every interleaving in which each successful pop read a link that is still its node's, the
      links from the head are an acyclic list; the compare-and-swaps so far are the pushes and pops of a sequential
      stack that now holds exactly that list; nothing is lost or duplicated; and each caller
      got the item of its own pop, with none still to come once no thread is in between. */
  lemma Linearizable(run: seq<Move>)
    requires RunFrom(Initial, run).Some? && AlwaysCurrent(Initial, run)
    ensures var s := RunFrom(Initial, run).value;
      exists l :: IsList(s.next, s.head, l) && (forall n :: n in l ==> n in s.item)
        && Replay(s.history) == Some(Items(s.item, l))
        && PushedItems(s.history) == PoppedItems(s.history) + multiset(Items(s.item, l))
    ensures var s := RunFrom(Initial, run).value;
      forall k :: k in s.delivered ==> k < |s.history| && s.history[k] == Popped(s.delivered[k])
    ensures var s := RunFrom(Initial, run).value;
      forall t :: PcOf(s, t).PopTake? ==>
        && PcOf(s, t).k < |s.history| && PcOf(s, t).node in s.item && PcOf(s, t).k !in s.delivered
        && s.history[PcOf(s, t).k] == Popped(s.item[PcOf(s, t).node])
    ensures var s := RunFrom(Initial, run).value;
      forall t, u :: t != u && PcOf(s, t).PopTake? && PcOf(s, u).PopTake? ==> PcOf(s, t).k != PcOf(s, u).k
    ensures var s := RunFrom(Initial, run).value;
      forall k :: 0 <= k < |s.history| && s.history[k].Popped? ==> k in s.delivered || exists t :: Takes(s, t, k)
    ensures var s := RunFrom(Initial, run).value;
      (forall t :: !PcOf(s, t).PopTake?) ==> forall k :: 0 <= k < |s.history| && s.history[k].Popped? ==> k in s.delivered
  {
    InitialInv();
    var l, place := RunKeeps(Initial, run, [], map[]);
    var s := RunFrom(Initial, run).value;
    ReplayConserves(s.history);
    forall k | k in s.delivered ensures k < |s.history| && s.history[k] == Popped(s.delivered[k]) {
      assert TrueItem(s, k);
    }
    forall t | PcOf(s, t).PopTake?
      ensures PcOf(s, t).k < |s.history| && PcOf(s, t).node in s.item && PcOf(s, t).k !in s.delivered
        && s.history[PcOf(s, t).k] == Popped(s.item[PcOf(s, t).node])
    {
      assert Knows(s, t);
    }
    forall t, u | t != u && PcOf(s, t).PopTake? && PcOf(s, u).PopTake? ensures PcOf(s, t).k != PcOf(s, u).k {
      assert OneTaker(s, t, u);
    }
    forall k | 0 <= k < |s.history| && s.history[k].Popped? ensures k in s.delivered || exists t :: Takes(s, t, k) {
      assert Served(s, k);
    }
    assert forall k, t :: Takes(s, t, k) ==> PcOf(s, t).PopTake?;
  }

  // ----- when the assumption holds -----

  /** A popper has read the link of a node that is on the stack. */
  predicate LinkKnown(s: State, l: seq<Node>, u: Tid) {
    PcOf(s, u).PopCas? && PcOf(s, u).node in l ==> PcOf(s, u).node in s.next && s.next[PcOf(s, u).node] == PcOf(s, u).next
  }

  ghost predicate Linked(s: State, l: seq<Node>) { forall u {:trigger LinkKnown(s, l, u)} :: LinkKnown(s, l, u) }

  /** Off the stack go no links, and only a push brings a node on it. */
  lemma LinkedKept(s: State, t: Tid, a: Action, l: seq<Node>, place: map<Node, Place>, l1: seq<Node>)
    requires Inv(s, l, place) && Linked(s, l) && Step(s, t, a).Some? && NoReuse(s, t, a)
    requires l1 == l || (a.CasPush? && l1 == [PcOf(s, t).node] + l && s.head == PcOf(s, t).seen) || (a.CasPop? && l == [PcOf(s, t).node] + l1)
    ensures Linked(Step(s, t, a).value, l1)
  {
    var s1 := Step(s, t, a).value;
    forall u ensures LinkKnown(s1, l1, u) {
      assert LinkKnown(s, l, u) && OwnerOk(s, place, t) && CacheOk(s, place, t);
      if PcOf(s1, u).PopCas? && PcOf(s1, u).node in l1 { LinkStays(s, t, a, l, place, l1, u); }
    }
  }

  /** What a step writes is the link of a node that its thread has for itself, or of a new one. */
  lemma StepWrites(s: State, t: Tid, a: Action) returns (n: Node)
    requires Step(s, t, a).Some?
    ensures forall m :: m in s.next && m != n ==> m in Step(s, t, a).value.next && Step(s, t, a).value.next[m] == s.next[m]
    ensures Step(s, t, a).value.next == s.next || n !in s.next || n in Cache(s, t) || Owned(PcOf(s, t)) == To(n)
  {
    match a
    case StartPushCached(_) => n := Cache(s, t)[0];
    case StartPushMalloc(_, m) => n := m;
    case LinkNode => n := PcOf(s, t).node;
    case TakeItem => n := PcOf(s, t).node;
    case _ => n := 0;
  }

  /** So the links of nodes on the stack stay. */
  lemma StackLinksStay(s: State, t: Tid, a: Action, l: seq<Node>, place: map<Node, Place>, m: Node)
    requires StackOk(s, l) && PlaceOk(s, l, place) && Step(s, t, a).Some? && m in l
    ensures m in s.next && m in Step(s, t, a).value.next && Step(s, t, a).value.next[m] == s.next[m]
  {
    assert OwnerOk(s, place, t) && CacheOk(s, place, t);
    assert place[m] == OnStack && m in s.next;
    var n := StepWrites(s, t, a);
  }

  lemma LinkStays(s: State, t: Tid, a: Action, l: seq<Node>, place: map<Node, Place>, l1: seq<Node>, u: Tid)
    requires Inv(s, l, place) && LinkKnown(s, l, u) && Step(s, t, a).Some? && NoReuse(s, t, a)
    requires l1 == l || (a.CasPush? && l1 == [PcOf(s, t).node] + l && s.head == PcOf(s, t).seen) || (a.CasPop? && l == [PcOf(s, t).node] + l1)
    requires PcOf(Step(s, t, a).value, u).PopCas? && PcOf(Step(s, t, a).value, u).node in l1
    ensures LinkKnown(Step(s, t, a).value, l1, u)
  {
    var s1 := Step(s, t, a).value;
    var m := PcOf(s1, u).node;
    if u == t {
      OwnRead(s, t, a);
    } else {
      StepMovesOne(s, t, a, u);
      assert Watches(PcOf(s, u), m) && m in l;
      StackLinksStay(s, t, a, l, place, m);
    }
  }

  lemma StepMovesOne(s: State, t: Tid, a: Action, u: Tid)
    requires Step(s, t, a).Some? && u != t
    ensures PcOf(Step(s, t, a).value, u) == PcOf(s, u)
  {}

  /** A thread gets there by reading the link. */
  lemma OwnRead(s: State, t: Tid, a: Action)
    requires Step(s, t, a).Some? && PcOf(Step(s, t, a).value, t).PopCas?
    ensures var s1 := Step(s, t, a).value; PcOf(s1, t).node in s1.next && s1.next[PcOf(s1, t).node] == PcOf(s1, t).next
  {}

  /** The link of the top node. */
  lemma LinkedIsCurrent(s: State, t: Tid, a: Action, l: seq<Node>, place: map<Node, Place>)
    requires Inv(s, l, place) && Linked(s, l)
    ensures Current(s, t, a)
  {
    assert LinkKnown(s, l, t);
  }

  /** A run that never puts a watched node back meets the assumption. */
  lemma {:induction false} NeverReusesIsCurrent(s: State, run: seq<Move>, l: seq<Node>, place: map<Node, Place>)
    requires Inv(s, l, place) && Linked(s, l) && RunFrom(s, run).Some? && NeverReuses(s, run)
    ensures AlwaysCurrent(s, run)
    decreases run
  {
    if run != [] {
      var t, a := run[0].t, run[0].a;
      LinkedIsCurrent(s, t, a, l, place);
      var l1, place1 := StepKeeps(s, t, a, l, place);
      LinkedKept(s, t, a, l, place, l1);
      NeverReusesIsCurrent(Step(s, t, a).value, run[1..], l1, place1);
    }
  }

  /** So such runs are linearizable. */
  lemma WithoutReuse(run: seq<Move>)
    requires RunFrom(Initial, run).Some? && NeverReuses(Initial, run)
    ensures AlwaysCurrent(Initial, run)
  {
    InitialInv();
    forall u ensures LinkKnown(Initial, [], u) {}
    NeverReusesIsCurrent(Initial, run, [], map[]);
  }

  // ----- why the assumption is needed -----

  /** A compare-and-swap that succeeds takes exactly the top node off exactly when the link
      that the popper read is still the link of that node. */
  lemma PopExact(s: State, t: Tid, l: seq<Node>)
    requires IsList(s.next, s.head, l) && PcOf(s, t).PopCas? && s.head == To(PcOf(s, t).node) && PcOf(s, t).node in s.item
    ensures var s1 := Step(s, t, CasPop).value;
      IsList(s1.next, s1.head, l[1..]) <==> s.next[PcOf(s, t).node] == PcOf(s, t).next
  {
    var nx := PcOf(s, t).next;
    assert Step(s, t, CasPop).value.head == nx;
    assert IsList(s.next, s.next[l[0]], l[1..]);
  }

  ghost predicate Reachable(s: State) { exists run :: RunFrom(Initial, run) == Some(s) }

  lemma {:induction false} RunAppend(s: State, run: seq<Move>, s1: State, m: Move, s2: State)
    requires RunFrom(s, run) == Some(s1) && Step(s1, m.t, m.a) == Some(s2)
    ensures RunFrom(s, run + [m]) == Some(s2)
    decreases run
  {
    if run == [] {
      assert [m][1..] == [];
      assert RunFrom(s2, []) == Some(s2);
      assert run + [m] == [m];
    } else {
      RunAppend(Step(s, run[0].t, run[0].a).value, run[1..], s1, m, s2);
      assert (run + [m])[1..] == run[1..] + [m];
    }
  }

  lemma Extend(s: State, t: Tid, a: Action, s1: State)
    requires Reachable(s) && Step(s, t, a) == Some(s1)
    ensures Reachable(s1)
  {
    var run :| RunFrom(Initial, run) == Some(s);
    RunAppend(Initial, run, s, Move(t, a), s1);
  }

  /** A push by one thread that nobody disturbs, once it has its node. */
  lemma FinishPush(s: State, t: Tid, n: Node) returns (s1: State)
    requires Reachable(s) && PcOf(s, t) == PushRead(n) && n in s.item
    ensures Reachable(s1)
    ensures s1 == s.(head := To(n), next := s.next[n := s.head], pcs := s.pcs[t := Idle], history := s.history + [Pushed(s.item[n])])
  {
    var a := Goto(s, t, PushLink(n, s.head));
    Extend(s, t, ReadHeadToPush, a);
    var b := s.(pcs := s.pcs[t := PushCas(n, s.head)], next := s.next[n := s.head]);
    assert a.pcs[t := PushCas(n, s.head)] == b.pcs;
    Extend(a, t, LinkNode, b);
    s1 := s.(head := To(n), next := s.next[n := s.head], pcs := s.pcs[t := Idle], history := s.history + [Pushed(s.item[n])]);
    assert b.pcs[t := Idle] == s1.pcs;
    Extend(b, t, CasPush, s1);
  }

  /** A pop by one thread that nobody disturbs. */
  lemma FinishPop(s: State, t: Tid, n: Node) returns (s1: State)
    requires Reachable(s) && PcOf(s, t) == Idle && s.head == To(n) && n in s.item && n in s.next && Cache(s, t) == []
    ensures Reachable(s1)
    ensures s1 == s.(head := s.next[n], next := s.next[n := Null], pcs := s.pcs[t := Idle], caches := s.caches[t := [n]],
                     history := s.history + [Popped(s.item[n])], delivered := s.delivered[|s.history| := s.item[n]])
  {
    var a := StartToPop(s, t, n);
    var b := SwapsPop(s, a, t, n);
    s1 := Handed(b, t, n, |s.history|);
    assert b.pcs[t := Idle] == s.pcs[t := Idle];
  }

  /** The swap of a pop. */
  lemma SwapsPop(s: State, a: State, t: Tid, n: Node) returns (b: State)
    requires n in s.next && n in s.item && s.head == To(n) && a == Goto(s, t, PopCas(n, s.next[n])) && Reachable(a)
    ensures b == s.(head := s.next[n], pcs := s.pcs[t := PopTake(n, |s.history|)], history := s.history + [Popped(s.item[n])])
    ensures Reachable(b)
  {
    b := s.(head := s.next[n], pcs := s.pcs[t := PopTake(n, |s.history|)], history := s.history + [Popped(s.item[n])]);
    assert a.pcs[t := PopTake(n, |s.history|)] == b.pcs;
    Extend(a, t, CasPop, b);
  }

  /** The last step of a pop, by a thread that keeps no free node. */
  lemma Handed(b: State, t: Tid, n: Node, k: nat) returns (s1: State)
    requires Reachable(b) && PcOf(b, t) == PopTake(n, k) && n in b.item && Cache(b, t) == []
    ensures Reachable(s1)
    ensures s1 == b.(pcs := b.pcs[t := Idle], next := b.next[n := Null], caches := b.caches[t := [n]], delivered := b.delivered[k := b.item[n]])
  {
    s1 := b.(pcs := b.pcs[t := Idle], next := b.next[n := Null], caches := b.caches[t := [n]], delivered := b.delivered[k := b.item[n]]);
    var none: seq<Node> := [];
    assert [n] + none == [n];
    Extend(b, t, TakeItem, s1);
  }

  /** The reads of a pop. */
  lemma StartToPop(s: State, t: Tid, n: Node) returns (s1: State)
    requires Reachable(s) && PcOf(s, t) == Idle && s.head == To(n) && n in s.next
    ensures Reachable(s1) && s1 == Goto(s, t, PopCas(n, s.next[n]))
  {
    StartsPop(s, t, n);
    var b := Goto(s, t, PopNext(n));
    GoTwice(s, t, PopNext(n), PopCas(n, s.next[n]));
    s1 := Goto(s, t, PopCas(n, s.next[n]));
    Extend(b, t, ReadNext, s1);
  }

  lemma GoTwice(s: State, t: Tid, p: Pc, q: Pc)
    ensures Goto(Goto(s, t, p), t, q) == Goto(s, t, q)
  {
    assert s.pcs[t := p][t := q] == s.pcs[t := q];
  }

  lemma StartsPop(s: State, t: Tid, n: Node)
    requires Reachable(s) && PcOf(s, t) == Idle && s.head == To(n)
    ensures Reachable(Goto(s, t, PopNext(n)))
  {
    Extend(s, t, StartPop, Goto(s, t, PopRead));
    GoTwice(s, t, PopRead, PopNext(n));
    Extend(Goto(s, t, PopRead), t, ReadHeadToPop, Goto(s, t, PopNext(n)));
  }

  /** Without the assumption the stack breaks. Thread 1 reads the top node 2 and its link to
      node 1; threads 2 and 3 pop both; thread 2 pushes a new item in node 2; thread 1's
      compare-and-swap succeeds and puts node 1, long since popped, back on the stack: the
      sequential stack is empty but memory holds item 10 a second time. */
  lemma RecycledNodeBreaksStack() returns (s: State)
    ensures Reachable(s) && Replay(s.history) == Some([])
    ensures IsList(s.next, s.head, [1]) && 1 in s.item && s.item[1] == 10
    ensures s.history == [Pushed(10), Pushed(20), Popped(20), Popped(10), Pushed(30), Popped(30)]
  {
    var g := BothPopped();
    s := RecycledPush(g);
    HistoryReplays(s.history);
  }

  /** Thread 1 has read node 2 and its link; since then both nodes were popped. */
  lemma BothPopped() returns (g: State)
    ensures Reachable(g) && PcOf(g, 2) == Idle && PcOf(g, 1) == PopCas(2, To(1)) && Cache(g, 2) == [2] && g.head == Null
    ensures g.history == [Pushed(10), Pushed(20), Popped(20), Popped(10)]
    ensures g.next == map[1 := Null, 2 := Null] && g.item == map[1 := 10, 2 := 20]
  {
    var f := OnePopped();
    g := FinishPop(f, 3, 1);
  }

  lemma OnePopped() returns (f: State)
    ensures Reachable(f) && f.head == To(1) && f.next == map[1 := Null, 2 := Null] && f.item == map[1 := 10, 2 := 20]
    ensures PcOf(f, 1) == PopCas(2, To(1)) && PcOf(f, 2) == PcOf(f, 3) == Idle && Cache(f, 2) == [2] && Cache(f, 3) == []
    ensures f.history == [Pushed(10), Pushed(20), Popped(20)]
  {
    var d := TwoPushes();
    var e := StartToPop(d, 1, 2);
    f := FinishPop(e, 2, 2);
  }

  lemma FirstPush() returns (s: State)
    ensures Reachable(s) && s == State(To(1), map[1 := Null], map[1 := 10], map[0 := Idle], map[], [Pushed(10)], map[])
  {
    assert RunFrom(Initial, []) == Some(Initial);
    var a := Prepared(Initial, 0, 1, 10);
    Extend(Initial, 0, StartPushMalloc(10, 1), a);
    s := FinishPush(a, 0, 1);
  }

  lemma TwoPushes() returns (s: State)
    ensures Reachable(s)
    ensures s == State(To(2), map[1 := Null, 2 := To(1)], map[1 := 10, 2 := 20], map[0 := Idle], map[], [Pushed(10), Pushed(20)], map[])
  {
    var b := FirstPush();
    var c := Prepared(b, 0, 2, 20);
    Extend(b, 0, StartPushMalloc(20, 2), c);
    s := FinishPush(c, 0, 2);
  }

  lemma RecycledPush(g: State) returns (s: State)
    requires Reachable(g) && PcOf(g, 2) == Idle && PcOf(g, 1) == PopCas(2, To(1)) && Cache(g, 2) == [2] && g.head == Null
    requires g.history == [Pushed(10), Pushed(20), Popped(20), Popped(10)]
    requires g.next == map[1 := Null, 2 := Null] && g.item == map[1 := 10, 2 := 20]
    ensures Reachable(s) && s.history == [Pushed(10), Pushed(20), Popped(20), Popped(10), Pushed(30), Popped(30)]
    ensures IsList(s.next, s.head, [1]) && 1 in s.item && s.item[1] == 10
  {
    var h := Prepared(g.(caches := g.caches[2 := []]), 2, 2, 30);
    assert [2][1..] == [];
    Extend(g, 2, StartPushCached(30), h);
    var i := FinishPush(h, 2, 2);
    s := StalePop(i);
  }

  /** The pop that comes too late. */
  lemma StalePop(i: State) returns (s: State)
    requires Reachable(i) && PcOf(i, 1) == PopCas(2, To(1)) && i.head == To(2) && 2 in i.item && i.item[2] == 30
    requires 1 in i.next && i.next[1] == Null
    ensures Reachable(s) && s.history == i.history + [Popped(30)] && s.item == i.item && IsList(s.next, s.head, [1])
  {
    s := Goto(i, 1, PopTake(2, |i.history|)).(head := To(1), history := i.history + [Popped(30)]);
    Extend(i, 1, CasPop, s);
    assert s.next[1] == Null && [1][1..] == [];
    assert IsList(s.next, Null, []);
  }

  lemma HistoryReplays(h: seq<Event>)
    requires h == [Pushed(10), Pushed(20), Popped(20), Popped(10), Pushed(30), Popped(30)]
    ensures Replay(h) == Some([])
  {
    var h1 := ReplayPush([], [], 10);
    assert [10] + [] == [10] && [20] + [10] == [20, 10] && [30] + [] == [30];
    var h2 := ReplayPush(h1, [10], 20);
    var h3 := ReplayPop(h2, 20, [10]);
    var h4 := ReplayPop(h3, 10, []);
    var h5 := ReplayPush(h4, [], 30);
    var h6 := ReplayPop(h5, 30, []);
    assert h6 == h;
  }

  lemma ReplayPush(h: seq<Event>, items: seq<Item>, x: Item) returns (after: seq<Event>)
    requires Replay(h) == Some(items)
    ensures after == h + [Pushed(x)] && Replay(after) == Some([x] + items)
  {
    after := h + [Pushed(x)];
    ReplayAppend(h, Pushed(x));
  }

  lemma ReplayPop(h: seq<Event>, x: Item, items: seq<Item>) returns (after: seq<Event>)
    requires Replay(h) == Some([x] + items)
    ensures after == h + [Popped(x)] && Replay(after) == Some(items)
  {
    after := h + [Popped(x)];
    ReplayAppend(h, Popped(x));
    assert ([x] + items)[1..] == items;
  }
}
