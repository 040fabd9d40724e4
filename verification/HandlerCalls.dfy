/** What becomes of each call of `yk_hw_enqueue` and `yk_hw_dequeue`, over whole runs: the items and
    nodes that calls bring in and where they are. */
module HandlerCalls {
  import opened Wrappers
  import opened HandlerQueue

  // ----- what a step does for its call -----

  /** The item with which a move starts an enqueue. */
  function StartedBy(a: Action): seq<Item> {
    match a case StartPushCached(x) => [x] case StartPushMalloc(x, _) => [x] case _ => []
  }

  /** The item that enters the stack between two states. */
  function EnteredBy(s: State, s1: State): seq<Item> {
    if |s1.history| > |s.history| && s1.history[|s1.history| - 1].Pushed? then [s1.history[|s1.history| - 1].item] else []
  }

  /** The item of an enqueue that is under way. */
  function Holding(s: State, t: Tid): seq<Item> {
    var pc := PcOf(s, t);
    if (pc.PushRead? || pc.PushLink? || pc.PushCas?) && pc.node in s.item then [s.item[pc.node]] else []
  }

  /** An enqueue holds its item until the item is on the stack. */
  lemma StepHolds(s: State, t: Tid, a: Action, s1: State, l: seq<Node>, place: map<Node, Place>)
    requires Inv(s, l, place) && Step(s, t, a) == Some(s1)
    ensures Holding(s, t) + StartedBy(a) == EnteredBy(s, s1) + Holding(s1, t)
  {
    assert OwnerOk(s, place, t);
    if a.StartPushCached? || a.StartPushMalloc? {
      HoldsStarted(s, t, a, s1);
    } else if a.CasPush? {
      HoldsSwapped(s, t, s1);
    } else {
      HoldsOn(s, t, a, s1);
      assert Holding(s, t) + [] == [] + Holding(s1, t);
    }
  }

  lemma HoldsStarted(s: State, t: Tid, a: Action, s1: State)
    requires Step(s, t, a) == Some(s1) && (a.StartPushCached? || a.StartPushMalloc?)
    ensures Holding(s, t) + StartedBy(a) == EnteredBy(s, s1) + Holding(s1, t)
  {
    assert Holding(s, t) == [] && EnteredBy(s, s1) == [];
  }

  lemma HoldsSwapped(s: State, t: Tid, s1: State)
    requires Step(s, t, CasPush) == Some(s1) && PcOf(s, t).PushCas? && PcOf(s, t).node in s.item
    ensures Holding(s, t) + StartedBy(CasPush) == EnteredBy(s, s1) + Holding(s1, t)
  {}

  lemma HoldsOn(s: State, t: Tid, a: Action, s1: State)
    requires Step(s, t, a) == Some(s1) && !a.StartPushCached? && !a.StartPushMalloc? && !a.CasPush?
    ensures Holding(s, t) == Holding(s1, t) && EnteredBy(s, s1) == [] == StartedBy(a)
  {
    NothingEnters(s, t, a, s1);
    if a.LinkNode? || a.ReadHeadToPush? { HoldsSame(s, t, a, s1); } else { HoldsNothing(s, t, a, s1); }
  }

  lemma NothingEnters(s: State, t: Tid, a: Action, s1: State)
    requires Step(s, t, a) == Some(s1) && !a.CasPush?
    ensures EnteredBy(s, s1) == []
  {}

  lemma HoldsSame(s: State, t: Tid, a: Action, s1: State)
    requires Step(s, t, a) == Some(s1) && (a.LinkNode? || a.ReadHeadToPush?)
    ensures Holding(s1, t) == Holding(s, t)
  {}

  lemma HoldsNothing(s: State, t: Tid, a: Action, s1: State)
    requires Step(s, t, a) == Some(s1) && !a.StartPushCached? && !a.StartPushMalloc? && !a.CasPush? && !a.LinkNode? && !a.ReadHeadToPush?
    ensures Holding(s, t) == [] == Holding(s1, t)
  {}

  lemma OthersHold(s: State, t: Tid, a: Action, s1: State, l: seq<Node>, place: map<Node, Place>, u: Tid)
    requires Inv(s, l, place) && Step(s, t, a) == Some(s1) && u != t
    ensures Holding(s1, u) == Holding(s, u)
  {
    assert OwnerOk(s, place, u) && CacheOk(s, place, t);
    StepMovesOne(s, t, a, u);
    if Holding(s, u) != [] {
      var n := PcOf(s, u).node;
      assert place[n] == With(u) && n !in Cache(s, t);
      ItemStays(s, t, a, s1, n);
    }
  }

  lemma ItemStays(s: State, t: Tid, a: Action, s1: State, n: Node)
    requires Step(s, t, a) == Some(s1) && n in s.item && n !in Cache(s, t) && (n in s.item <==> n in s.next)
    ensures n in s1.item && s1.item[n] == s.item[n]
  {}

  lemma StepHistory(s: State, t: Tid, a: Action, s1: State)
    requires Step(s, t, a) == Some(s1)
    ensures s1.history == s.history || exists e :: s1.history == s.history + [e]
  {}

  // ----- enqueues over a run -----

  /** The items of the enqueues that a thread starts. */
  function Started(run: seq<Move>, t: Tid): seq<Item> {
    if run == [] then [] else (if run[0].t == t then StartedBy(run[0].a) else []) + Started(run[1..], t)
  }

  /** The items that its steps put on the stack. */
  function Entered(s: State, run: seq<Move>, t: Tid): seq<Item>
    requires RunFrom(s, run).Some?
    decreases run
  {
    if run == [] then []
    else
      var s1 := Step(s, run[0].t, run[0].a).value;
      (if run[0].t == t then EnteredBy(s, s1) else []) + Entered(s1, run[1..], t)
  }

  lemma Shift(a: seq<Item>, b: seq<Item>, c: seq<Item>, d: seq<Item>, x: seq<Item>, y: seq<Item>, z: seq<Item>)
    requires a + b == c + d && d + x == y + z
    ensures a + (b + x) == c + y + z
  {
    assert a + (b + x) == a + b + x && c + d + x == c + (d + x) && c + (y + z) == c + y + z;
  }

  lemma {:induction false} EntersFrom(s: State, run: seq<Move>, t: Tid, l: seq<Node>, place: map<Node, Place>)
    requires Inv(s, l, place) && RunFrom(s, run).Some? && AlwaysCurrent(s, run)
    ensures Holding(s, t) + Started(run, t) == Entered(s, run, t) + Holding(RunFrom(s, run).value, t)
    decreases run
  {
    if run != [] {
      var u, a := run[0].t, run[0].a;
      var s1 := Step(s, u, a).value;
      var l1, place1 := StepKeeps(s, u, a, l, place);
      EntersFrom(s1, run[1..], t, l1, place1);
      if u == t { StepHolds(s, t, a, s1, l, place); } else { OthersHold(s, u, a, s1, l, place, t); }
      Shift(Holding(s, t), if u == t then StartedBy(a) else [], if u == t then EnteredBy(s, s1) else [], Holding(s1, t),
        Started(run[1..], t), Entered(s1, run[1..], t), Holding(RunFrom(s, run).value, t));
    }
  }

  /** Every enqueue of a thread puts its item on the stack, in the order of the calls, but for the one
      that is under way. */
  lemma EnqueuesEnter(run: seq<Move>, t: Tid)
    requires RunFrom(Initial, run).Some? && AlwaysCurrent(Initial, run)
    ensures Started(run, t) == Entered(Initial, run, t) + Holding(RunFrom(Initial, run).value, t)
  {
    InitialInv();
    EntersFrom(Initial, run, t, [], map[]);
    assert Holding(Initial, t) + Started(run, t) == Started(run, t);
  }

  // ----- all threads together -----

  function AllStarted(run: seq<Move>): multiset<Item> {
    if run == [] then multiset{} else multiset(StartedBy(run[0].a)) + AllStarted(run[1..])
  }

  /** The items of the enqueues that these threads have under way. */
  function AllHeld(s: State, ts: seq<Tid>): multiset<Item> {
    if ts == [] then multiset{} else multiset(Holding(s, ts[0])) + AllHeld(s, ts[1..])
  }

  ghost predicate Moves(run: seq<Move>, ts: seq<Tid>) { forall i :: 0 <= i < |run| ==> run[i].t in ts }

  predicate Once(ts: seq<Tid>) { forall i, j :: 0 <= i < j < |ts| ==> ts[i] != ts[j] }

  lemma {:induction false} NoneHeld(ts: seq<Tid>)
    ensures AllHeld(Initial, ts) == multiset{}
    decreases ts
  {
    if ts != [] { NoneHeld(ts[1..]); }
  }

  lemma {:induction false} SameHeld(s: State, s1: State, ts: seq<Tid>)
    requires forall u :: u in ts ==> Holding(s1, u) == Holding(s, u)
    ensures AllHeld(s1, ts) == AllHeld(s, ts)
    decreases ts
  {
    if ts != [] { SameHeld(s, s1, ts[1..]); }
  }

  lemma {:induction false} OneHeld(s: State, s1: State, t: Tid, ts: seq<Tid>, x: seq<Item>, y: seq<Item>)
    requires t in ts && Once(ts) && Holding(s, t) + x == y + Holding(s1, t)
    requires forall u :: u in ts && u != t ==> Holding(s1, u) == Holding(s, u)
    ensures AllHeld(s, ts) + multiset(x) == multiset(y) + AllHeld(s1, ts)
    decreases ts
  {
    if ts[0] == t {
      SameHeld(s, s1, ts[1..]);
      BagOfBoth(Holding(s, t), x, y, Holding(s1, t));
      WithMore(multiset(Holding(s, t)), multiset(x), multiset(y), multiset(Holding(s1, t)), AllHeld(s, ts[1..]));
    } else {
      OneHeld(s, s1, t, ts[1..], x, y);
      WithMore(AllHeld(s, ts[1..]), multiset(x), multiset(y), AllHeld(s1, ts[1..]), multiset(Holding(s, ts[0])));
    }
  }

  lemma WithMore(a: multiset<Item>, x: multiset<Item>, y: multiset<Item>, b: multiset<Item>, more: multiset<Item>)
    requires a + x == y + b
    ensures a + more + x == y + (b + more) && more + a + x == y + (more + b)
  {
    forall i ensures (a + more + x)[i] == (y + (b + more))[i] == (more + a + x)[i] == (y + (more + b))[i] {
      assert (a + x)[i] == (y + b)[i];
    }
  }

  lemma BagOfBoth(a: seq<Item>, b: seq<Item>, c: seq<Item>, d: seq<Item>)
    requires a + b == c + d
    ensures multiset(a) + multiset(b) == multiset(c) + multiset(d)
  {
    assert multiset(a + b) == multiset(a) + multiset(b) && multiset(c + d) == multiset(c) + multiset(d);
  }

  lemma PushedBetween(s: State, t: Tid, a: Action, s1: State)
    requires Step(s, t, a) == Some(s1)
    ensures PushedItems(s1.history) == PushedItems(s.history) + multiset(EnteredBy(s, s1))
  {
    StepHistory(s, t, a, s1);
    if s1.history != s.history {
      var e :| s1.history == s.history + [e];
      ItemsAppend(s.history, e);
    }
  }

  lemma {:induction false} ItemsFrom(s: State, run: seq<Move>, ts: seq<Tid>, l: seq<Node>, place: map<Node, Place>)
    requires Inv(s, l, place) && RunFrom(s, run).Some? && AlwaysCurrent(s, run) && Once(ts) && Moves(run, ts)
    ensures var s1 := RunFrom(s, run).value;
      PushedItems(s.history) + AllHeld(s, ts) + AllStarted(run) == PushedItems(s1.history) + AllHeld(s1, ts)
    decreases run
  {
    if run != [] {
      var t, a := run[0].t, run[0].a;
      var s1 := Step(s, t, a).value;
      FirstMove(s, run, ts, s1);
      var l1, place1 := StepKeeps(s, t, a, l, place);
      HeldBetween(s, t, a, s1, l, place, ts);
      ItemsFrom(s1, run[1..], ts, l1, place1);
      AddUp(PushedItems(s.history), AllHeld(s, ts), multiset(StartedBy(a)), AllStarted(run[1..]),
        PushedItems(s1.history), AllHeld(s1, ts));
    }
  }

  lemma FirstMove(s: State, run: seq<Move>, ts: seq<Tid>, s1: State)
    requires run != [] && RunFrom(s, run).Some? && AlwaysCurrent(s, run) && Moves(run, ts) && Step(s, run[0].t, run[0].a) == Some(s1)
    ensures RunFrom(s1, run[1..]) == RunFrom(s, run) && AlwaysCurrent(s1, run[1..]) && Moves(run[1..], ts) && run[0].t in ts
    ensures AllStarted(run) == multiset(StartedBy(run[0].a)) + AllStarted(run[1..])
  {}

  lemma AddUp(a: multiset<Item>, b: multiset<Item>, x: multiset<Item>, y: multiset<Item>, c: multiset<Item>, d: multiset<Item>)
    requires a + b + x == c + d
    ensures a + b + (x + y) == c + d + y
  {}

  lemma HeldBetween(s: State, t: Tid, a: Action, s1: State, l: seq<Node>, place: map<Node, Place>, ts: seq<Tid>)
    requires Inv(s, l, place) && Step(s, t, a) == Some(s1) && Once(ts) && t in ts
    ensures PushedItems(s.history) + AllHeld(s, ts) + multiset(StartedBy(a)) == PushedItems(s1.history) + AllHeld(s1, ts)
  {
    AllOthersHold(s, t, a, s1, l, place);
    StepHolds(s, t, a, s1, l, place);
    PushedBetween(s, t, a, s1);
    HeldSum(s, s1, t, ts, StartedBy(a), EnteredBy(s, s1));
  }

  lemma AllOthersHold(s: State, t: Tid, a: Action, s1: State, l: seq<Node>, place: map<Node, Place>)
    requires Inv(s, l, place) && Step(s, t, a) == Some(s1)
    ensures forall u {:trigger Holding(s, u)} :: u != t ==> Holding(s1, u) == Holding(s, u)
  {
    forall u | u != t ensures Holding(s1, u) == Holding(s, u) { OthersHold(s, t, a, s1, l, place, u); }
  }

  lemma HeldSum(s: State, s1: State, t: Tid, ts: seq<Tid>, x: seq<Item>, y: seq<Item>)
    requires Once(ts) && t in ts && Holding(s, t) + x == y + Holding(s1, t)
    requires forall u {:trigger Holding(s, u)} :: u != t ==> Holding(s1, u) == Holding(s, u)
    requires PushedItems(s1.history) == PushedItems(s.history) + multiset(y)
    ensures PushedItems(s.history) + AllHeld(s, ts) + multiset(x) == PushedItems(s1.history) + AllHeld(s1, ts)
  {
    OneHeld(s, s1, t, ts, x, y);
    Over(PushedItems(s.history), AllHeld(s, ts), multiset(x), multiset(y), AllHeld(s1, ts));
  }

  lemma Over(p: multiset<Item>, h: multiset<Item>, x: multiset<Item>, y: multiset<Item>, h1: multiset<Item>)
    requires h + x == y + h1
    ensures p + h + x == p + y + h1
  {
    forall i ensures (p + h + x)[i] == (p + y + h1)[i] { assert (h + x)[i] == (y + h1)[i]; }
  }

  /** No item is lost or made up: the items of all enqueues that were started are those that were
      pushed and those that enqueues under way hold. */
  lemma NoItemLost(run: seq<Move>, ts: seq<Tid>)
    requires RunFrom(Initial, run).Some? && AlwaysCurrent(Initial, run) && Once(ts) && Moves(run, ts)
    ensures var s := RunFrom(Initial, run).value; AllStarted(run) == PushedItems(s.history) + AllHeld(s, ts)
  {
    InitialInv();
    NoneHeld(ts);
    ItemsFrom(Initial, run, ts, [], map[]);
  }

  // ----- dequeues over a run -----

  function One(b: bool): nat { if b then 1 else 0 }

  predicate Dequeues(pc: Pc) { pc.PopRead? || pc.PopNext? || pc.PopCas? || pc.PopTake? || pc.Waiting? }

  function Asked(run: seq<Move>, t: Tid): nat {
    if run == [] then 0 else One(run[0] == Move(t, StartPop)) + Asked(run[1..], t)
  }

  function TimedOut(run: seq<Move>, t: Tid): nat {
    if run == [] then 0 else One(run[0] == Move(t, TimeOut)) + TimedOut(run[1..], t)
  }

  /** How many items its steps hand out. */
  function Served(s: State, run: seq<Move>, t: Tid): nat
    requires RunFrom(s, run).Some?
    decreases run
  {
    if run == [] then 0
    else
      var s1 := Step(s, run[0].t, run[0].a).value;
      One(run[0].t == t && |s1.delivered| > |s.delivered|) + Served(s1, run[1..], t)
  }

  lemma StepServes(s: State, t: Tid, a: Action, s1: State, l: seq<Node>, place: map<Node, Place>)
    requires Inv(s, l, place) && Step(s, t, a) == Some(s1)
    ensures One(Dequeues(PcOf(s, t))) + One(a == StartPop)
      == One(|s1.delivered| > |s.delivered|) + One(a == TimeOut) + One(Dequeues(PcOf(s1, t)))
  {
    if a.TakeItem? {
      assert Knows(s, t);
      Handing(s, t, s1);
    } else {
      NotHanding(s, t, a, s1);
    }
  }

  lemma Handing(s: State, t: Tid, s1: State)
    requires Step(s, t, TakeItem) == Some(s1) && PcOf(s, t).PopTake? && PcOf(s, t).k !in s.delivered
    ensures |s1.delivered| > |s.delivered| && PcOf(s1, t) == Idle
  {}

  lemma NotHanding(s: State, t: Tid, a: Action, s1: State)
    requires Step(s, t, a) == Some(s1) && !a.TakeItem?
    ensures s1.delivered == s.delivered
    ensures One(Dequeues(PcOf(s, t))) + One(a == StartPop) == One(a == TimeOut) + One(Dequeues(PcOf(s1, t)))
  {
    NothingHanded(s, t, a, s1);
    if a.StartPop? || a.TimeOut? { BeginsOrEnds(s, t, a, s1); } else { GoesOn(s, t, a, s1); }
  }

  lemma NothingHanded(s: State, t: Tid, a: Action, s1: State)
    requires Step(s, t, a) == Some(s1) && !a.TakeItem?
    ensures s1.delivered == s.delivered
  {}

  lemma BeginsOrEnds(s: State, t: Tid, a: Action, s1: State)
    requires Step(s, t, a) == Some(s1) && (a.StartPop? || a.TimeOut?)
    ensures Dequeues(PcOf(s1, t)) == a.StartPop? && Dequeues(PcOf(s, t)) == a.TimeOut?
  {}

  lemma GoesOn(s: State, t: Tid, a: Action, s1: State)
    requires Step(s, t, a) == Some(s1) && !a.StartPop? && !a.TimeOut? && !a.TakeItem?
    ensures Dequeues(PcOf(s1, t)) == Dequeues(PcOf(s, t))
  {
    if a.ReadHeadToPop? || a.ReadNext? || a.CasPop? || a.WakeUp? { PopGoesOn(s, t, a, s1); } else { NoPop(s, t, a, s1); }
  }

  lemma PopGoesOn(s: State, t: Tid, a: Action, s1: State)
    requires Step(s, t, a) == Some(s1) && (a.ReadHeadToPop? || a.ReadNext? || a.CasPop? || a.WakeUp?)
    ensures Dequeues(PcOf(s1, t)) && Dequeues(PcOf(s, t))
  {}

  lemma NoPop(s: State, t: Tid, a: Action, s1: State)
    requires Step(s, t, a) == Some(s1)
    requires a.StartPushCached? || a.StartPushMalloc? || a.MallocFails? || a.ReadHeadToPush? || a.LinkNode? || a.CasPush?
    ensures !Dequeues(PcOf(s1, t)) && !Dequeues(PcOf(s, t))
  {}

  lemma {:induction false} ServesFrom(s: State, run: seq<Move>, t: Tid, l: seq<Node>, place: map<Node, Place>)
    requires Inv(s, l, place) && RunFrom(s, run).Some? && AlwaysCurrent(s, run)
    ensures One(Dequeues(PcOf(s, t))) + Asked(run, t)
      == Served(s, run, t) + TimedOut(run, t) + One(Dequeues(PcOf(RunFrom(s, run).value, t)))
    decreases run
  {
    if run != [] {
      var u, a := run[0].t, run[0].a;
      var s1 := Step(s, u, a).value;
      var l1, place1 := StepKeeps(s, u, a, l, place);
      if u == t { StepServes(s, t, a, s1, l, place); } else { StepMovesOne(s, u, a, t); }
      ServesFrom(s1, run[1..], t, l1, place1);
    }
  }

  /** Every dequeue of a thread got an item or timed out, but for the one that is under way. */
  lemma DequeuesServed(run: seq<Move>, t: Tid)
    requires RunFrom(Initial, run).Some? && AlwaysCurrent(Initial, run)
    ensures Asked(run, t) == Served(Initial, run, t) + TimedOut(run, t) + One(Dequeues(PcOf(RunFrom(Initial, run).value, t)))
  {
    InitialInv();
    ServesFrom(Initial, run, t, [], map[]);
  }

  /** A dequeue waits only when it has found the stack empty, and times out only from waiting. */
  lemma WaitsOnEmpty(s: State, t: Tid, a: Action, s1: State)
    requires Step(s, t, a) == Some(s1)
    ensures PcOf(s1, t).Waiting? && !PcOf(s, t).Waiting? ==> s.head == Null
    ensures a.TimeOut? ==> PcOf(s, t).Waiting?
  {}

  // ----- calls that nobody disturbs -----

  /** An enqueue that nobody disturbs puts its item on the stack in four steps. */
  lemma UndisturbedEnqueue(s: State, t: Tid, x: Item, n: Node) returns (s1: State)
    requires PcOf(s, t) == Idle && Cache(s, t) == [] && n !in s.next
    ensures RunFrom(s, [Move(t, StartPushMalloc(x, n)), Move(t, ReadHeadToPush), Move(t, LinkNode), Move(t, CasPush)]) == Some(s1)
    ensures PcOf(s1, t) == Idle && s1.head == To(n) && s1.next == s.next[n := s.head] && s1.item == s.item[n := x]
    ensures s1.history == s.history + [Pushed(x)] && s1.delivered == s.delivered
  {
    var a := Prepared(s, t, n, x);
    var b := Goto(a, t, PushLink(n, s.head));
    var c := Goto(b, t, PushCas(n, s.head)).(next := b.next[n := s.head]);
    s1 := Goto(c, t, Idle).(head := To(n), history := s.history + [Pushed(x)]);
    Run4(s, Move(t, StartPushMalloc(x, n)), a, Move(t, ReadHeadToPush), b, Move(t, LinkNode), c, Move(t, CasPush), s1);
  }

  lemma Run4(s: State, m: Move, a: State, m1: Move, b: State, m2: Move, c: State, m3: Move, d: State)
    requires Step(s, m.t, m.a) == Some(a) && Step(a, m1.t, m1.a) == Some(b) && Step(b, m2.t, m2.a) == Some(c)
    requires Step(c, m3.t, m3.a) == Some(d)
    ensures RunFrom(s, [m, m1, m2, m3]) == Some(d)
  {
    assert [m, m1, m2, m3][1..] == [m1, m2, m3] && [m1, m2, m3][1..] == [m2, m3] && [m2, m3][1..] == [m3] && [m3][1..] == [];
    assert RunFrom(c, [m3]) == Some(d) && RunFrom(b, [m2, m3]) == Some(d) && RunFrom(a, [m1, m2, m3]) == Some(d);
  }

  /** A dequeue that nobody disturbs takes the top item and hands it out. */
  lemma UndisturbedDequeue(s: State, t: Tid, l: seq<Node>) returns (s1: State)
    requires PcOf(s, t) == Idle && StackOk(s, l) && l != []
    ensures RunFrom(s, [Move(t, StartPop), Move(t, ReadHeadToPop), Move(t, ReadNext), Move(t, CasPop), Move(t, TakeItem)]) == Some(s1)
    ensures PcOf(s1, t) == Idle && s1.head == s.next[l[0]] && s1.history == s.history + [Popped(s.item[l[0]])]
    ensures s1.delivered == s.delivered[|s.history| := s.item[l[0]]] && Cache(s1, t) == [l[0]] + Cache(s, t)
  {
    var n := l[0];
    var a, d := PopReaches(s, t, n);
    s1 := Step(d, t, TakeItem).value;
    var c := Goto(s, t, PopCas(n, s.next[n]));
    var rest := [Move(t, ReadHeadToPop), Move(t, ReadNext), Move(t, CasPop), Move(t, TakeItem)];
    Run4(a, rest[0], Goto(s, t, PopNext(n)), rest[1], c, rest[2], d, rest[3], s1);
    RunOneMore(s, Move(t, StartPop), a, rest, s1);
    assert [Move(t, StartPop)] + rest == [Move(t, StartPop), Move(t, ReadHeadToPop), Move(t, ReadNext), Move(t, CasPop), Move(t, TakeItem)];
  }

  /** Its steps up to the swap. */
  lemma PopReaches(s: State, t: Tid, n: Node) returns (a: State, d: State)
    requires PcOf(s, t) == Idle && s.head == To(n) && n in s.next && n in s.item
    ensures Step(s, t, StartPop) == Some(a) && Step(a, t, ReadHeadToPop) == Some(Goto(s, t, PopNext(n)))
    ensures Step(Goto(s, t, PopNext(n)), t, ReadNext) == Some(Goto(s, t, PopCas(n, s.next[n])))
    ensures Step(Goto(s, t, PopCas(n, s.next[n])), t, CasPop) == Some(d)
    ensures d == Goto(s, t, PopTake(n, |s.history|)).(head := s.next[n], history := s.history + [Popped(s.item[n])])
  {
    a := Goto(s, t, PopRead);
    GoTwice(s, t, PopRead, PopNext(n));
    GoTwice(s, t, PopNext(n), PopCas(n, s.next[n]));
    GoTwice(s, t, PopCas(n, s.next[n]), PopTake(n, |s.history|));
    d := Goto(s, t, PopTake(n, |s.history|)).(head := s.next[n], history := s.history + [Popped(s.item[n])]);
  }

  lemma RunOneMore(s: State, m: Move, a: State, rest: seq<Move>, d: State)
    requires Step(s, m.t, m.a) == Some(a) && RunFrom(a, rest) == Some(d)
    ensures RunFrom(s, [m] + rest) == Some(d)
  {
    assert ([m] + rest)[1..] == rest;
  }

  /** On an empty stack it waits. */
  lemma DequeueWaits(s: State, t: Tid) returns (s1: State)
    requires PcOf(s, t) == Idle && s.head == Null
    ensures RunFrom(s, [Move(t, StartPop), Move(t, ReadHeadToPop)]) == Some(s1) && PcOf(s1, t) == Waiting && s1.history == s.history
  {
    var a := Goto(s, t, PopRead);
    s1 := Goto(a, t, Waiting);
    RunOneMore(a, Move(t, ReadHeadToPop), s1, [], s1);
    RunOneMore(s, Move(t, StartPop), a, [Move(t, ReadHeadToPop)], s1);
    assert [Move(t, ReadHeadToPop)] + [] == [Move(t, ReadHeadToPop)];
    assert [Move(t, StartPop)] + [Move(t, ReadHeadToPop)] == [Move(t, StartPop), Move(t, ReadHeadToPop)];
  }

  // ----- nodes -----

  /** A node is on the stack, held by a call, or kept by a thread for later. */
  ghost predicate Housed(s: State, l: seq<Node>, n: Node) {
    n in l || exists t :: HasNode(s, t, n)
  }

  predicate HasNode(s: State, t: Tid, n: Node) { Owned(PcOf(s, t)) == To(n) || n in Cache(s, t) }

  ghost predicate NoneLeaks(s: State, l: seq<Node>) { forall n {:trigger Housed(s, l, n)} :: n in s.item ==> Housed(s, l, n) }

  lemma {:induction false} SameLength(item: map<Node, Item>, l: seq<Node>)
    requires forall n :: n in l ==> n in item
    ensures |Items(item, l)| == |l|
    decreases l
  {
    if l != [] { SameLength(item, l[1..]); }
  }

  /** The stack's list changes exactly when the history does. */
  lemma ListFollows(s: State, t: Tid, a: Action, s1: State, l: seq<Node>, l1: seq<Node>)
    requires StackOk(s, l) && StackOk(s1, l1) && Step(s, t, a) == Some(s1)
    requires l1 == l || (a.CasPush? && l1 == [PcOf(s, t).node] + l) || (a.CasPop? && l == [PcOf(s, t).node] + l1)
    ensures s1.history == s.history ==> l1 == l
    ensures s1.history != s.history ==> a.CasPush? || a.CasPop?
    ensures s1.history != s.history && a.CasPush? ==> l1 == [PcOf(s, t).node] + l
    ensures s1.history != s.history && a.CasPop? ==> l == [PcOf(s, t).node] + l1
  {
    SameLength(s.item, l);
    SameLength(s1.item, l1);
    StepHistory(s, t, a, s1);
    if s1.history != s.history {
      var e :| s1.history == s.history + [e];
      ReplayAppend(s.history, e);
    }
  }

  /** A node that leaves the stack goes to the popper. */
  lemma LeavesToPopper(s: State, t: Tid, s1: State, l: seq<Node>, l1: seq<Node>, n: Node)
    requires Step(s, t, CasPop) == Some(s1) && s1.history != s.history && PcOf(s, t).PopCas? && l == [PcOf(s, t).node] + l1
    requires n in l && n !in l1
    ensures HasNode(s1, t, n)
  {}

  /** A node that a thread has stays with it until it is on the stack. */
  lemma StaysWith(s: State, t: Tid, a: Action, s1: State, n: Node)
    requires Step(s, t, a) == Some(s1) && HasNode(s, t, n) && (a.CasPush? && s1.history != s.history ==> Owned(PcOf(s, t)) != To(n))
    ensures HasNode(s1, t, n)
  {
    if a.StartPushCached? { assert Cache(s, t) == [Cache(s, t)[0]] + Cache(s, t)[1..]; }
  }

  lemma NewNode(s: State, t: Tid, a: Action, s1: State, n: Node)
    requires Step(s, t, a) == Some(s1) && n !in s.item && n in s1.item
    ensures HasNode(s1, t, n) || (a.StartPushCached? && n == Cache(s, t)[0])
  {}

  lemma StepHouses(s: State, t: Tid, a: Action, s1: State, l: seq<Node>, l1: seq<Node>, place: map<Node, Place>, n: Node)
    requires Inv(s, l, place) && StackOk(s1, l1) && Step(s, t, a) == Some(s1) && (n in s.item ==> Housed(s, l, n)) && n in s1.item
    requires l1 == l || (a.CasPush? && l1 == [PcOf(s, t).node] + l) || (a.CasPop? && l == [PcOf(s, t).node] + l1)
    ensures Housed(s1, l1, n)
  {
    ListFollows(s, t, a, s1, l, l1);
    assert OwnerOk(s, place, t) && CacheOk(s, place, t);
    if n !in l1 {
      if n in l {
        LeavesToPopper(s, t, s1, l, l1, n);
      } else if n !in s.item {
        NewNode(s, t, a, s1, n);
      } else {
        var u :| HasNode(s, u, n);
        if u == t { StaysWith(s, t, a, s1, n); } else { OthersStay(s, t, a, s1, u); }
        assert HasNode(s1, u, n);
      }
    }
  }

  lemma OthersStay(s: State, t: Tid, a: Action, s1: State, u: Tid)
    requires Step(s, t, a) == Some(s1) && u != t
    ensures PcOf(s1, u) == PcOf(s, u) && Cache(s1, u) == Cache(s, u)
  {
    StepMovesOne(s, t, a, u);
    CacheStays(s, t, a, s1, u);
  }

  lemma CacheStays(s: State, t: Tid, a: Action, s1: State, u: Tid)
    requires Step(s, t, a) == Some(s1) && u != t
    ensures Cache(s1, u) == Cache(s, u)
  {}

  lemma {:induction false} HousesFrom(s: State, run: seq<Move>, l: seq<Node>, place: map<Node, Place>) returns (l1: seq<Node>)
    requires Inv(s, l, place) && RunFrom(s, run).Some? && AlwaysCurrent(s, run) && NoneLeaks(s, l)
    ensures var s1 := RunFrom(s, run).value; StackOk(s1, l1) && NoneLeaks(s1, l1)
    decreases run
  {
    if run == [] {
      l1 := l;
    } else {
      var t, a := run[0].t, run[0].a;
      var s1 := Step(s, t, a).value;
      var l2, place2 := StepKeeps(s, t, a, l, place);
      forall n | n in s1.item ensures Housed(s1, l2, n) {
        assert n in s.item ==> Housed(s, l, n);
        StepHouses(s, t, a, s1, l, l2, place, n);
      }
      l1 := HousesFrom(s1, run[1..], l2, place2);
    }
  }

  /** No node is lost: each that was ever allocated is on the stack, held by a call or kept for later. */
  lemma NoNodeLost(run: seq<Move>)
    requires RunFrom(Initial, run).Some? && AlwaysCurrent(Initial, run)
    ensures var s := RunFrom(Initial, run).value;
      exists l :: IsList(s.next, s.head, l) && forall n :: n in s.item ==> n in l || exists t :: HasNode(s, t, n)
  {
    InitialInv();
    var l := HousesFrom(Initial, run, [], map[]);
    var s := RunFrom(Initial, run).value;
    assert forall n :: n in s.item ==> Housed(s, l, n);
  }
}
