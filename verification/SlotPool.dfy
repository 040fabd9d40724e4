/** The pool of equal memory slots that connections are taken from. */
module SlotPools {
  import opened Wrappers

  // ----- slots of a run of committed blocks -----

  /** Every block of c bytes holds as many slots of s bytes as fit, from its start on. */
  ghost predicate IsSlot(x: nat, blocks: nat, c: nat, s: nat)
    requires s > 0
  {
    exists b: nat, i: nat :: At(x, b, i, blocks, c, s)
  }

  ghost predicate At(x: nat, b: nat, i: nat, blocks: nat, c: nat, s: nat)
    requires s > 0
  {
    b < blocks && i < c / s && x == b * c + i * s
  }

  lemma MulLess(a: nat, b: nat, k: nat)
    requires a < b
    ensures a * k + k <= b * k
  {
    var d := b - a - 1;
    Distributes(a + 1, d, k);
    Distributes(a, 1, k);
    assert d * k >= 0;
  }

  lemma Distributes(a: nat, b: nat, k: nat)
    ensures (a + b) * k == a * k + b * k
  {}

  lemma InBlock(i: nat, c: nat, s: nat)
    requires s > 0 && i < c / s
    ensures i * s + s <= c
  {
    MulLess(i, c / s, s);
    assert c / s * s <= c;
  }

  /** A slot lies inside the committed range. */
  lemma SlotInside(x: nat, blocks: nat, c: nat, s: nat)
    requires s > 0 && IsSlot(x, blocks, c, s)
    ensures x + s <= blocks * c
  {
    var b: nat, i: nat :| At(x, b, i, blocks, c, s);
    InBlock(i, c, s);
    MulLess(b, blocks, c);
  }

  /** No two slots overlap. */
  lemma SlotsApart(x: nat, y: nat, blocks: nat, c: nat, s: nat)
    requires s > 0 && IsSlot(x, blocks, c, s) && IsSlot(y, blocks, c, s) && x != y
    ensures x + s <= y || y + s <= x
  {
    var b: nat, i: nat :| At(x, b, i, blocks, c, s);
    var d: nat, j: nat :| At(y, d, j, blocks, c, s);
    if b < d {
      BlockBefore(x, b, i, y, d, j, blocks, c, s);
    } else if d < b {
      BlockBefore(y, d, j, x, b, i, blocks, c, s);
    } else if i < j {
      MulLess(i, j, s);
    } else if j < i {
      MulLess(j, i, s);
    }
  }

  lemma BlockBefore(x: nat, b: nat, i: nat, y: nat, d: nat, j: nat, blocks: nat, c: nat, s: nat)
    requires s > 0 && At(x, b, i, blocks, c, s) && At(y, d, j, blocks, c, s) && b < d
    ensures x + s <= y
  {
    InBlock(i, c, s);
    MulLess(b, d, c);
  }

  /** One of the slots 1 to n - 1 of the block that starts at a page. */
  ghost predicate Extra(x: nat, page: nat, s: nat, n: nat) { exists k: nat :: Place(x, page, s, n, k) }

  ghost predicate Place(x: nat, page: nat, s: nat, n: nat, k: nat) { 1 <= k < n && x == page + k * s }

  lemma ExtraNew(page: nat, s: nat, i: nat)
    requires s > 0 && i > 0
    ensures !Extra(page + i * s, page, s, i)
    ensures forall x :: Extra(x, page, s, i + 1) <==> Extra(x, page, s, i) || x == page + i * s
  {
    forall k: nat | 1 <= k < i ensures page + k * s != page + i * s { MulLess(k, i, s); }
    forall x: nat | Extra(x, page, s, i) ensures Extra(x, page, s, i + 1) {
      var k: nat :| Place(x, page, s, i, k);
      assert Place(x, page, s, i + 1, k);
    }
    assert Place(page + i * s, page, s, i + 1, i);
    forall x: nat | Extra(x, page, s, i + 1) && x != page + i * s ensures Extra(x, page, s, i) {
      var k: nat :| Place(x, page, s, i + 1, k);
      assert Place(x, page, s, i, k);
    }
  }

  lemma SlotHere(c: nat, s: nat)
    requires c >= s > 0
    ensures c / s >= 1
  {
    assert c == c / s * s + c % s;
  }

  /** The slots after one more block: those before, the page itself, and the further ones in it. */
  lemma NewBlock(blocks: nat, c: nat, s: nat, page: nat)
    requires c >= s > 0 && page == blocks * c && c / s >= 1
    ensures forall x :: IsSlot(x, blocks + 1, c, s) <==> IsSlot(x, blocks, c, s) || x == page || Extra(x, page, s, c / s)
    ensures !IsSlot(page, blocks, c, s)
    ensures forall x :: Extra(x, page, s, c / s) ==> !IsSlot(x, blocks, c, s) && x != page
  {
    forall x: nat ensures IsSlot(x, blocks + 1, c, s) <==> IsSlot(x, blocks, c, s) || x == page || Extra(x, page, s, c / s) {
      if IsSlot(x, blocks, c, s) { OldSlot(x, blocks, c, s); }
      if Extra(x, page, s, c / s) { ExtraSlot(x, blocks, c, s, page); }
      if IsSlot(x, blocks + 1, c, s) { SlotOfBlocks(x, blocks, c, s, page); }
      if x == page { assert At(x, blocks, 0, blocks + 1, c, s); }
    }
    forall x: nat | IsSlot(x, blocks, c, s) ensures x < page { OldSlot(x, blocks, c, s); }
    forall x: nat | Extra(x, page, s, c / s) ensures x > page { ExtraSlot(x, blocks, c, s, page); }
  }

  lemma OldSlot(x: nat, blocks: nat, c: nat, s: nat)
    requires s > 0 && IsSlot(x, blocks, c, s)
    ensures x < blocks * c && IsSlot(x, blocks + 1, c, s)
  {
    SlotInside(x, blocks, c, s);
    var b: nat, i: nat :| At(x, b, i, blocks, c, s);
    assert At(x, b, i, blocks + 1, c, s);
  }

  lemma ExtraSlot(x: nat, blocks: nat, c: nat, s: nat, page: nat)
    requires s > 0 && page == blocks * c && Extra(x, page, s, c / s)
    ensures x > page && IsSlot(x, blocks + 1, c, s)
  {
    var k: nat :| Place(x, page, s, c / s, k);
    MulLess(0, k, s);
    assert At(x, blocks, k, blocks + 1, c, s);
  }

  lemma SlotOfBlocks(x: nat, blocks: nat, c: nat, s: nat, page: nat)
    requires s > 0 && page == blocks * c && IsSlot(x, blocks + 1, c, s)
    ensures IsSlot(x, blocks, c, s) || x == page || Extra(x, page, s, c / s)
  {
    var b: nat, i: nat :| At(x, b, i, blocks + 1, c, s);
    if b < blocks {
      assert At(x, b, i, blocks, c, s);
    } else if i > 0 {
      assert Place(x, page, s, c / s, i);
    }
  }

  // ----- the free list -----

  type Links = map<nat, Option<nat>>

  /** The slots on the free list, following the links that are stored in the slots themselves. */
  ghost predicate List(head: Option<nat>, links: Links, free: seq<nat>)
    decreases |free|
  {
    if free == [] then head == None
    else head == Some(free[0]) && free[0] in links && List(links[free[0]], links, free[1..])
  }

  /** Writing a slot that is not on the list leaves the list alone. */
  lemma {:induction false} ListFrame(head: Option<nat>, links: Links, free: seq<nat>, x: nat, v: Option<nat>)
    requires List(head, links, free) && x !in free
    ensures List(head, links[x := v], free)
    decreases |free|
  {
    if free != [] {
      assert forall y :: y in free[1..] ==> y in free;
      ListFrame(links[free[0]], links, free[1..], x, v);
    }
  }

  lemma ListPush(head: Option<nat>, links: Links, free: seq<nat>, x: nat)
    requires List(head, links, free) && x !in free
    ensures List(Some(x), links[x := head], [x] + free)
  {
    ListFrame(head, links, free, x, head);
    assert ([x] + free)[1..] == free;
  }

  ghost predicate Distinct(free: seq<nat>) { forall i, j :: 0 <= i < j < |free| ==> free[i] != free[j] }

  class SlotPool {
    const totalSize: nat
    const slotSize: nat
    const pageSize: nat
    var commitEnd: nat
    var freeHead: Option<nat>
    var links: Links
    ghost var free: seq<nat>
    ghost var taken: set<nat>
    ghost var blocks: nat

    /** A slot has room for the link of the free list. */
    constructor (totalSize: nat, slotSize: nat, pageSize: nat)
      requires slotSize >= 8 && pageSize > 0
      ensures Valid() && this.totalSize == totalSize && this.slotSize == slotSize && this.pageSize == pageSize
      ensures free == [] && taken == {} && blocks == 0
    {
      this.totalSize, this.slotSize, this.pageSize := totalSize, slotSize, pageSize;
      commitEnd, freeHead, links := 0, None, map[];
      free, taken, blocks := [], {}, 0;
    }

    /** Pages are committed until a slot fits. */
    function CommitSize(): (c: nat)
      requires pageSize > 0
      ensures c >= slotSize
    {
      assert (slotSize + pageSize - 1) / pageSize * pageSize >= slotSize;
      (slotSize + pageSize - 1) / pageSize * pageSize
    }

    /** Every slot carved so far is either taken or on the free list, once. */
    ghost predicate Valid()
      reads this
    {
      && slotSize >= 8 && pageSize > 0 && commitEnd == blocks * CommitSize() <= totalSize
      && List(freeHead, links, free) && Distinct(free)
      && (forall x :: x in taken ==> x !in free)
      && (forall x :: x in taken || x in free <==> IsSlot(x, blocks, CommitSize(), slotSize))
    }

    /** A slot that nobody holds, inside the committed range and apart from every slot held; none
        only when the free list is empty and the range is used up. */
    method Alloc() returns (r: Option<nat>)
      requires Valid()
      modifies this
      ensures Valid()
      ensures r == None <==> old(free) == [] && old(commitEnd) + CommitSize() > totalSize
      ensures match r
        case None => taken == old(taken) && free == old(free) && blocks == old(blocks)
        case Some(x) =>
          && x !in old(taken) && taken == old(taken) + {x} && x + slotSize <= commitEnd <= totalSize
          && forall y :: y in old(taken) ==> x + slotSize <= y || y + slotSize <= x
      ensures old(free) != [] ==> r == Some(old(free)[0]) && free == old(free)[1..] && blocks == old(blocks)
    {
      if freeHead.Some? {
        r := TakeFree();
        return;
      }
      if commitEnd + CommitSize() > totalSize { return None; }
      var x := Carve();
      return Some(x);
    }

    /** The next pages are committed; their first slot is handed out and the others become free. */
    method Carve() returns (page: nat)
      requires Valid() && freeHead == None && commitEnd + CommitSize() <= totalSize
      modifies this
      ensures Valid() && old(free) == [] && blocks == old(blocks) + 1 && page == old(commitEnd)
      ensures page !in old(taken) && taken == old(taken) + {page} && page + slotSize <= commitEnd
      ensures forall y :: y in old(taken) ==> page + slotSize <= y || y + slotSize <= page
    {
      var size := CommitSize();
      page := commitEnd;
      commitEnd := commitEnd + size;
      SlotHere(size, slotSize);
      NewBlock(blocks, size, slotSize, page);
      if slotSize > 0 && size / slotSize > 1 { PushExtras(page, size / slotSize); }
      blocks := blocks + 1;
      taken := taken + {page};
      Apart(page, old(taken));
    }

    method TakeFree() returns (r: Option<nat>)
      requires Valid() && freeHead.Some?
      modifies `freeHead, `taken, `free
      ensures Valid() && old(free) != [] && r == Some(old(free)[0]) && free == old(free)[1..]
      ensures var x := old(free)[0];
        x !in old(taken) && taken == old(taken) + {x} && x + slotSize <= commitEnd
        && forall y :: y in old(taken) ==> x + slotSize <= y || y + slotSize <= x
    {
      var x: nat := freeHead.value;
      freeHead := links[x];
      taken := taken + {x};
      free := free[1..];
      assert old(free) == [x] + free;
      Apart(x, old(taken));
      return Some(x);
    }

    lemma Apart(x: nat, others: set<nat>)
      requires Valid() && x in taken && x !in others && others <= taken
      ensures x + slotSize <= commitEnd && forall y :: y in others ==> x + slotSize <= y || y + slotSize <= x
    {
      SlotInside(x, blocks, CommitSize(), slotSize);
      forall y | y in others ensures x + slotSize <= y || y + slotSize <= x { SlotsApart(x, y, blocks, CommitSize(), slotSize); }
    }

    /** The further slots of a block go onto the empty free list. */
    method PushExtras(page: nat, slots: nat)
      requires freeHead == None && free == [] && slots > 1 && slotSize > 0
      modifies `freeHead, `links, `free
      ensures List(freeHead, links, free) && Distinct(free)
      ensures forall x :: x in free <==> Extra(x, page, slotSize, slots)
    {
      for i := 1 to slots
        invariant List(freeHead, links, free) && Distinct(free)
        invariant forall x :: x in free <==> Extra(x, page, slotSize, i)
      {
        var s := page + i * slotSize;
        ExtraNew(page, slotSize, i);
        ListPush(freeHead, links, free, s);
        links := links[s := freeHead];
        freeHead := Some(s);
        free := [s] + free;
      }
    }

    /** A slot that is handed back is the next one to be handed out. */
    method Free(ptr: Option<nat>)
      requires Valid() && (ptr.Some? ==> ptr.value in taken)
      modifies this
      ensures Valid() && blocks == old(blocks) && commitEnd == old(commitEnd)
      ensures match ptr
        case None => taken == old(taken) && free == old(free)
        case Some(x) => taken == old(taken) - {x} && free == [x] + old(free)
    {
      if ptr.None? { return; }
      var x: nat := ptr.value;
      ListPush(freeHead, links, free, x);
      links := links[x := freeHead];
      freeHead := Some(x);
      taken := taken - {x};
      free := [x] + free;
    }
  }
}
