/**
 * The user-level storage allocator.  Free blocks form one circular list through a static header
 * called the base; a block is named by the byte address of its header and measured in headers.
 */
module Umalloc {
  import opened Common

  const HEADER := 8
  const MORECORE := 4096

  datatype Header = Header(ptr: nat, size: nat)
  datatype Block = Block(addr: nat, size: nat)

  /** What the operating system does with a request for more memory: where the process ends, and whether it may grow. */
  datatype Os = Os(brk: nat, grants: bool)

  datatype Outcome = Memory(ptr: nat) | Null | Broken

  function End(b: Block): nat {
    b.addr + HEADER * b.size
  }

  // ------------------------------------------------------------------ the free list as a value

  /** Block i ends before block j starts; they may touch only if lo <= i < hi. */
  ghost predicate Before(list: seq<Block>, i: nat, j: nat, lo: nat, hi: nat)
    requires i < j < |list|
  {
    && list[i].addr < list[j].addr && End(list[i]) <= list[j].addr
    && (End(list[i]) == list[j].addr ==> lo <= i < hi)
  }

  /** In address order from the base, which is empty, while every other block is not. */
  ghost predicate Ordered(list: seq<Block>, lo: nat, hi: nat) {
    && |list| > 0 && list[0].size == 0
    && (forall i | 0 < i < |list| :: list[i].size > 0)
    && (forall i, j | 0 <= i < j < |list| :: Before(list, i, j, lo, hi))
  }

  /** No two blocks of the list touch. */
  ghost predicate Apart(list: seq<Block>) {
    Ordered(list, 0, 0)
  }

  ghost predicate Inside(b: Block, x: int) {
    b.addr <= x < End(b)
  }

  /** The byte x belongs to a free block. */
  ghost predicate Covers(list: seq<Block>, x: int) {
    exists i | 0 <= i < |list| :: Inside(list[i], x)
  }

  /** Exactly the bytes of block b have become free. */
  ghost predicate Gained(list: seq<Block>, list': seq<Block>, b: Block) {
    forall x: int :: Covers(list', x) <==> Covers(list, x) || Inside(b, x)
  }

  /** Exactly the bytes of block b, all of them free before, are no longer free. */
  ghost predicate Lost(list: seq<Block>, list': seq<Block>, b: Block) {
    forall x: int :: (Covers(list', x) <==> Covers(list, x) && !Inside(b, x)) && (Inside(b, x) ==> Covers(list, x))
  }

  ghost function InsertAt(list: seq<Block>, k: nat, b: Block): seq<Block>
    requires k < |list|
  {
    list[..k + 1] + [b] + list[k + 1..]
  }

  /** Blocks k and k+1 made one when they touch. */
  ghost function Merge(list: seq<Block>, k: nat): (r: seq<Block>)
    requires k < |list|
  {
    if k + 1 < |list| && End(list[k]) == list[k + 1].addr then
      list[..k] + [Block(list[k].addr, list[k].size + list[k + 1].size)] + list[k + 2..]
    else list
  }

  /** The list after block b is freed behind position k. */
  ghost function Freed(list: seq<Block>, k: nat, b: Block): seq<Block>
    requires k < |list|
  {
    Merge(Merge(InsertAt(list, k, b), k + 1), k)
  }

  /** The list after the last size headers of block k are taken. */
  ghost function Taken(list: seq<Block>, k: nat, size: nat): seq<Block>
    requires k < |list| && size <= list[k].size
  {
    if list[k].size == size then list[..k] + list[k + 1..]
    else list[k := Block(list[k].addr, list[k].size - size)]
  }

  ghost function TakenBlock(list: seq<Block>, k: nat, size: nat): Block
    requires k < |list| && size <= list[k].size
  {
    Block(list[k].addr + HEADER * (list[k].size - size), size)
  }

  /** Block b lies between blocks k and k+1 of the list. */
  ghost predicate Fits(list: seq<Block>, k: nat, b: Block) {
    && k < |list| && b.size > 0
    && list[k].addr < b.addr && End(list[k]) <= b.addr
    && (k + 1 < |list| ==> End(b) <= list[k + 1].addr)
  }

  lemma MergeOrdered(list: seq<Block>, k: nat, lo: nat)
    requires k < |list| && Ordered(list, lo, k + 1)
    requires k == 0 ==> |list| < 2 || End(list[0]) != list[1].addr
    ensures Ordered(Merge(list, k), lo, k) && |Merge(list, k)| > k
    ensures Merge(list, k)[0] == list[0]
  {
    var r := Merge(list, k);
    if k + 1 < |list| && End(list[k]) == list[k + 1].addr {
      forall i, j | 0 <= i < j < |r|
        ensures Before(r, i, j, lo, k)
      {
        assert Before(list, if i < k then i else i + 1, if j <= k then j else j + 1, lo, k + 1);
        assert i == k ==> Before(list, k, j + 1, lo, k + 1);
      }
    } else {
      forall i, j | 0 <= i < j < |r|
        ensures Before(r, i, j, lo, k)
      {
        assert Before(list, i, j, lo, k + 1);
        assert i == k && j > k + 1 ==> Before(list, k, k + 1, lo, k + 1) && Before(list, k + 1, j, lo, k + 1);
      }
    }
  }

  lemma MergeCovers(list: seq<Block>, k: nat, x: int)
    requires k < |list|
    ensures Covers(Merge(list, k), x) <==> Covers(list, x)
  {
    if k + 1 < |list| && End(list[k]) == list[k + 1].addr {
      var r := Merge(list, k);
      if Covers(list, x) {
        var i :| 0 <= i < |list| && Inside(list[i], x);
        assert Inside(r[if i <= k then i else i - 1], x);
      }
      if Covers(r, x) {
        var i :| 0 <= i < |r| && Inside(r[i], x);
        assert Inside(list[if i < k || (i == k && x < End(list[k])) then i else i + 1], x);
      }
    }
  }

  lemma InsertOrdered(list: seq<Block>, k: nat, b: Block)
    requires Apart(list) && Fits(list, k, b)
    ensures Ordered(InsertAt(list, k, b), k, k + 2)
  {
    var r := InsertAt(list, k, b);
    var hi := k + 2;
    forall i, j | 0 <= i < j < |r|
      ensures Before(r, i, j, k, hi)
    {
      if i == k + 1 {
        assert j > k + 2 ==> Before(list, k + 1, j - 1, 0, 0);
      } else if j == k + 1 {
        assert i < k ==> Before(list, i, k, 0, 0);
      } else {
        assert Before(list, if i <= k then i else i - 1, if j <= k then j else j - 1, 0, 0);
      }
    }
  }

  lemma InsertCovers(list: seq<Block>, k: nat, b: Block, x: int)
    requires k < |list|
    ensures Covers(InsertAt(list, k, b), x) <==> Covers(list, x) || Inside(b, x)
  {
    var r := InsertAt(list, k, b);
    if Covers(list, x) {
      var i :| 0 <= i < |list| && Inside(list[i], x);
      assert Inside(r[if i <= k then i else i + 1], x);
    }
    if Inside(b, x) {
      assert Inside(r[k + 1], x);
    }
    if Covers(r, x) {
      var i :| 0 <= i < |r| && Inside(r[i], x);
      assert i != k + 1 ==> Inside(list[if i <= k then i else i - 1], x);
    }
  }

  /** Freeing a block keeps the list ordered with no two free blocks touching, and frees exactly the block's bytes. */
  lemma FreedList(list: seq<Block>, k: nat, b: Block)
    requires Apart(list) && Fits(list, k, b) && (k == 0 ==> End(list[0]) != b.addr)
    ensures Apart(Freed(list, k, b)) && Freed(list, k, b)[0] == list[0]
    ensures Gained(list, Freed(list, k, b), b)
  {
    var l0 := InsertAt(list, k, b);
    var l1 := Merge(l0, k + 1);
    InsertOrdered(list, k, b);
    MergeOrdered(l0, k + 1, k);
    MergeOrdered(l1, k, k);
    EmptyRange(Merge(l1, k), k);
    hide Merge, InsertAt, Covers, Inside;
    forall x: int
      ensures Covers(Freed(list, k, b), x) <==> Covers(list, x) || Inside(b, x)
    {
      InsertCovers(list, k, b, x);
      MergeCovers(l0, k + 1, x);
      MergeCovers(l1, k, x);
    }
  }

  lemma EmptyRange(list: seq<Block>, k: nat)
    requires Ordered(list, k, k)
    ensures Apart(list)
  {
    forall i, j | 0 <= i < j < |list|
      ensures Before(list, i, j, 0, 0)
    {
      assert Before(list, i, j, k, k);
    }
  }

  /** Taking from a block keeps the list ordered, and takes exactly the bytes of the new block. */
  lemma TakenList(list: seq<Block>, k: nat, size: nat)
    requires Apart(list) && k < |list| && 0 < size <= list[k].size
    ensures k > 0 && Apart(Taken(list, k, size)) && Taken(list, k, size)[0] == list[0]
    ensures Lost(list, Taken(list, k, size), TakenBlock(list, k, size))
  {
    TakenOrdered(list, k, size);
    forall x: int
      ensures Covers(Taken(list, k, size), x) <==> Covers(list, x) && !Inside(TakenBlock(list, k, size), x)
      ensures Inside(TakenBlock(list, k, size), x) ==> Covers(list, x)
    {
      TakenCovers(list, k, size, x);
      assert Inside(TakenBlock(list, k, size), x) ==> Inside(list[k], x);
    }
  }

  lemma TakenOrdered(list: seq<Block>, k: nat, size: nat)
    requires Apart(list) && 0 < k < |list| && 0 < size <= list[k].size
    ensures Apart(Taken(list, k, size))
  {
    var r := Taken(list, k, size);
    var gone := list[k].size == size;
    forall i, j | 0 <= i < j < |r|
      ensures Before(r, i, j, 0, 0)
    {
      assert Before(list, if gone && i >= k then i + 1 else i, if gone && j >= k then j + 1 else j, 0, 0);
    }
  }

  lemma TakenCovers(list: seq<Block>, k: nat, size: nat, x: int)
    requires Apart(list) && 0 < k < |list| && 0 < size <= list[k].size
    ensures Covers(Taken(list, k, size), x) <==> Covers(list, x) && !Inside(TakenBlock(list, k, size), x)
  {
    var r := Taken(list, k, size);
    var b := TakenBlock(list, k, size);
    var gone := list[k].size == size;
    if Covers(r, x) {
      var i :| 0 <= i < |r| && Inside(r[i], x);
      var i' := if gone && i >= k then i + 1 else i;
      assert Inside(list[i'], x);
      assert i' < k ==> Before(list, i', k, 0, 0);
      assert i' > k ==> Before(list, k, i', 0, 0);
    }
    if Covers(list, x) && !Inside(b, x) {
      var i :| 0 <= i < |list| && Inside(list[i], x);
      assert Inside(r[if gone && i > k then i - 1 else i], x);
    }
  }

  /** An ordered list is determined by its base and the bytes it covers. */
  lemma {:induction false} Canonical(l1: seq<Block>, l2: seq<Block>, n: nat)
    requires Apart(l1) && Apart(l2) && l1[0] == l2[0]
    requires forall x: int :: Covers(l1, x) <==> Covers(l2, x)
    requires 0 < n <= |l1| && n <= |l2| && l1[..n] == l2[..n]
    ensures l1 == l2
    decreases |l1| - n
  {
    if n < |l1| {
      NextBlock(l1, l2, n);
      NextBlock(l2, l1, n);
      NextEnd(l1, l2, n);
      NextEnd(l2, l1, n);
      assert l1[n] == l2[n];
      Canonical(l1, l2, n + 1);
    } else if n < |l2| {
      NextBlock(l2, l1, n);
    }
  }

  /** The first byte of the next block of one list is in no earlier block of the other. */
  lemma NextBlock(l1: seq<Block>, l2: seq<Block>, n: nat)
    requires Apart(l1) && Apart(l2)
    requires forall x: int :: Covers(l1, x) <==> Covers(l2, x)
    requires 0 < n < |l1| && n <= |l2| && l1[..n] == l2[..n]
    ensures n < |l2| && l2[n].addr <= l1[n].addr
  {
    var x := l1[n].addr;
    assert Inside(l1[n], x);
    assert Covers(l1, x);
    var i :| 0 <= i < |l2| && Inside(l2[i], x);
    assert i >= n by {
      forall m: nat | m < n
        ensures !Inside(l2[m], x)
      {
        assert l2[..n][m] == l1[..n][m];
        assert Before(l1, m, n, 0, 0);
      }
    }
    assert i > n ==> Before(l2, n, i, 0, 0);
  }

  lemma NextEnd(l1: seq<Block>, l2: seq<Block>, n: nat)
    requires Apart(l1) && Apart(l2)
    requires forall x: int :: Covers(l1, x) <==> Covers(l2, x)
    requires 0 < n < |l1| && n < |l2| && l1[n].addr == l2[n].addr
    ensures End(l2[n]) <= End(l1[n])
  {
    var x := End(l1[n]);
    forall i | 0 <= i < |l1|
      ensures !Inside(l1[i], x)
    {
      assert i < n ==> Before(l1, i, n, 0, 0);
      assert i > n ==> Before(l1, n, i, 0, 0);
    }
    assert !Covers(l2, x);
    assert !Inside(l2[n], x);
  }

  /** What malloc takes, free puts back: the list is the one before. */
  lemma TakeThenFree(list: seq<Block>, k: nat, size: nat, p: nat)
    requires Apart(list) && k < |list| && 0 < size <= list[k].size
    requires Fits(Taken(list, k, size), p, TakenBlock(list, k, size))
    requires list[0].addr + HEADER <= TakenBlock(list, k, size).addr
    ensures Freed(Taken(list, k, size), p, TakenBlock(list, k, size)) == list
  {
    var t := Taken(list, k, size);
    var b := TakenBlock(list, k, size);
    TakenList(list, k, size);
    FreedList(t, p, b);
    var r := Freed(t, p, b);
    forall x: int
      ensures Covers(r, x) <==> Covers(list, x)
    {
      assert Inside(b, x) ==> Inside(list[k], x);
    }
    Canonical(r, list, 1);
  }

  // ------------------------------------------------------------------ the list in memory

  ghost function Succ(list: seq<Block>, k: nat): (r: nat)
    requires k < |list|
    ensures r < |list|
  {
    if k + 1 < |list| then k + 1 else 0
  }

  /** The header of block k holds its size and the address of the block after it, around the circle. */
  ghost predicate Linked(mem: map<nat, Header>, list: seq<Block>, k: nat)
    requires k < |list|
  {
    list[k].addr in mem && mem[list[k].addr] == Header(list[Succ(list, k)].addr, list[k].size)
  }

  ghost predicate AllLinked(mem: map<nat, Header>, list: seq<Block>) {
    forall k: nat | k < |list| :: Linked(mem, list, k)
  }

  ghost predicate Disjoint(a: Block, b: Block) {
    End(a) <= b.addr || End(b) <= a.addr
  }

  /** Every block handed out has its size in its header and lies apart from the other blocks, free or not. */
  ghost predicate LiveApart(mem: map<nat, Header>, live: map<nat, nat>, list: seq<Block>) {
    && (forall a | a in live :: a in mem && mem[a].size == live[a] > 0)
    && (forall a, b | a in live && b in live && a != b :: Disjoint(Block(a, live[a]), Block(b, live[b])))
    && (forall a, x: int | a in live && Inside(Block(a, live[a]), x) :: !Covers(list, x))
  }

  ghost predicate Within(base: nat, top: nat, b: Block) {
    base + HEADER <= b.addr && End(b) <= top
  }

  ghost predicate AllWithin(base: nat, top: nat, live: map<nat, nat>, list: seq<Block>) {
    && 0 < base && base + HEADER <= top < KERNBASE
    && (forall a | a in live :: Within(base, top, Block(a, live[a])))
    && (forall x: int | Covers(list, x) :: base + HEADER <= x < top)
  }

  /** The state of the allocator: the free list, the blocks handed out, and where the heap ends. */
  ghost predicate Consistent(base: nat, mem: map<nat, Header>, list: seq<Block>, live: map<nat, nat>, top: nat) {
    && AllWithin(base, top, live, list)
    && Apart(list) && list[0] == Block(base, 0)
    && AllLinked(mem, list)
    && LiveApart(mem, live, list)
  }

  lemma ListBlock(base: nat, mem: map<nat, Header>, list: seq<Block>, live: map<nat, nat>, top: nat, i: nat)
    requires Consistent(base, mem, list, live, top) && i < |list|
    ensures i > 0 ==> Within(base, top, list[i])
    ensures list[i].addr !in live
    ensures forall a | a in live :: Disjoint(Block(a, live[a]), list[i])
  {
    if i > 0 {
      assert Inside(list[i], list[i].addr) && Inside(list[i], End(list[i]) - 1);
      assert Covers(list, list[i].addr) && Covers(list, End(list[i]) - 1);
    }
    forall a | a in live
      ensures Disjoint(Block(a, live[a]), list[i]) && list[i].addr != a
    {
      var b := Block(a, live[a]);
      assert Within(base, top, b);
      if i > 0 {
        var x := if list[i].addr < a then a else list[i].addr;
        assert Inside(list[i], x) ==> Covers(list, x);
        assert Inside(b, a);
      }
    }
  }

  /** Exactly one place in the list suits a block handed out. */
  lemma Place(base: nat, mem: map<nat, Header>, list: seq<Block>, live: map<nat, nat>, top: nat, bp: nat) returns (k: nat)
    requires Consistent(base, mem, list, live, top) && bp in live
    ensures k < |list| && (forall i | 0 <= i < |list| :: list[i].addr != bp && (list[i].addr < bp <==> i <= k))
    ensures Fits(list, k, Block(bp, live[bp])) && (k == 0 ==> End(list[0]) != bp)
    ensures Insertable(mem, list, k, Block(bp, live[bp]))
  {
    assert Within(base, top, Block(bp, live[bp]));
    k := 0;
    while k + 1 < |list| && list[k + 1].addr < bp
      invariant k < |list| && list[k].addr < bp
    {
      k := k + 1;
    }
    ListBlock(base, mem, list, live, top, k);
    if k + 1 < |list| {
      ListBlock(base, mem, list, live, top, k + 1);
    }
    forall i | 0 <= i < |list|
      ensures list[i].addr < bp <==> i <= k
      ensures list[i].addr != bp
    {
      assert i < k ==> Before(list, i, k, 0, 0);
      assert i > k + 1 ==> Before(list, k + 1, i, 0, 0);
    }
  }

  ghost function Steps(n: nat, k: nat, goal: nat): nat
    requires k < n && goal < n
  {
    if k <= goal then goal - k else n - k + goal
  }

  /** The memory after the new block has taken over the block behind it, if the two touch. */
  function JoinNext(mem: map<nat, Header>, p: nat, bp: nat): (r: map<nat, Header>)
    requires p in mem && bp in mem && mem[p].ptr in mem
    ensures p in r && bp in r
  {
    var n := mem[p].ptr;
    if bp + HEADER * mem[bp].size == n then mem[bp := Header(mem[n].ptr, U32(mem[bp].size + mem[n].size))]
    else mem[bp := Header(n, mem[bp].size)]
  }

  /** The memory after the block in front has taken over the new block, if the two touch. */
  function JoinPrev(mem: map<nat, Header>, p: nat, bp: nat): map<nat, Header>
    requires p in mem && bp in mem
  {
    if p + HEADER * mem[p].size == bp then mem[p := Header(mem[bp].ptr, U32(mem[p].size + mem[bp].size))]
    else mem[p := Header(bp, mem[p].size)]
  }

  /** What the memory says about a block about to be put behind position k. */
  ghost predicate Insertable(mem: map<nat, Header>, list: seq<Block>, k: nat, b: Block) {
    && k < |list| && AllLinked(mem, list)
    && b.addr in mem && mem[b.addr].size == b.size
    && (forall i | 0 <= i < |list| :: list[i].addr != b.addr)
    && list[0].addr <= b.addr && 0 < b.size && End(b) < KERNBASE
    && (k + 1 < |list| ==> End(list[k + 1]) < KERNBASE && b.addr <= list[k + 1].addr)
    && End(list[k]) <= b.addr
  }

  /** Every header is as the list says, but the link of block k has still to be set. */
  ghost predicate LinkedBut(mem: map<nat, Header>, list: seq<Block>, k: nat) {
    && k + 1 < |list| && list[k].addr in mem && mem[list[k].addr].size == list[k].size
    && (forall i: nat | i < |list| && i != k :: Linked(mem, list, i))
  }

  lemma JoinNextLinked(mem: map<nat, Header>, list: seq<Block>, k: nat, b: Block)
    requires Insertable(mem, list, k, b)
    ensures list[k].addr in mem && mem[list[k].addr].ptr in mem
    ensures var l1 := Merge(InsertAt(list, k, b), k + 1);
            && LinkedBut(JoinNext(mem, list[k].addr, b.addr), l1, k)
            && l1[k] == list[k] && l1[k + 1].addr == b.addr && End(l1[k + 1]) < KERNBASE
  {
    var l0 := InsertAt(list, k, b);
    var l1 := Merge(l0, k + 1);
    assert Linked(mem, list, k) && Linked(mem, list, Succ(list, k));
    var m := JoinNext(mem, list[k].addr, b.addr);
    if k + 1 < |list| && End(b) == list[k + 1].addr {
      assert m == mem[b.addr := Header(list[Succ(list, k + 1)].addr, b.size + list[k + 1].size)];
      forall i: nat | i < |l1| && i != k
        ensures Linked(m, l1, i)
      {
        assert Linked(mem, list, i);
      }
    } else {
      assert m == mem[b.addr := Header(list[Succ(list, k)].addr, b.size)];
      forall i: nat | i < |l1| && i != k
        ensures Linked(m, l1, i)
      {
        assert i != k + 1 ==> Linked(mem, list, if i <= k then i else i - 1);
      }
    }
  }

  lemma JoinPrevLinked(mem: map<nat, Header>, list: seq<Block>, k: nat)
    requires LinkedBut(mem, list, k)
    requires forall i, j | 0 <= i < j < |list| :: list[i].addr != list[j].addr
    requires End(list[k + 1]) < KERNBASE && list[k].addr <= list[k + 1].addr
    ensures list[k + 1].addr in mem
    ensures AllLinked(JoinPrev(mem, list[k].addr, list[k + 1].addr), Merge(list, k))
    ensures |Merge(list, k)| > k && Merge(list, k)[k].addr == list[k].addr
  {
    assert Linked(mem, list, k + 1);
    var l := Merge(list, k);
    var m := JoinPrev(mem, list[k].addr, list[k + 1].addr);
    forall i: nat | i < |l|
      ensures Linked(m, l, i)
    {
      var i' := if i <= k || |l| == |list| then i else i + 1;
      assert i != k ==> Linked(mem, list, i');
    }
  }

  ghost function FreeMem(mem: map<nat, Header>, p: nat, bp: nat): map<nat, Header>
    requires p in mem && bp in mem && mem[p].ptr in mem
  {
    JoinPrev(JoinNext(mem, p, bp), p, bp)
  }

  lemma FreeLinked(mem: map<nat, Header>, list: seq<Block>, k: nat, b: Block)
    requires Insertable(mem, list, k, b) && Apart(list) && Fits(list, k, b)
    ensures list[k].addr in mem && mem[list[k].addr].ptr in mem
    ensures AllLinked(FreeMem(mem, list[k].addr, b.addr), Freed(list, k, b))
    ensures |Freed(list, k, b)| > k && Freed(list, k, b)[k].addr == list[k].addr
  {
    var l0 := InsertAt(list, k, b);
    var l1 := Merge(l0, k + 1);
    JoinNextLinked(mem, list, k, b);
    InsertOrdered(list, k, b);
    MergeOrdered(l0, k + 1, k);
    hide Merge, InsertAt, Insertable, LinkedBut, Linked;
    forall i, j | 0 <= i < j < |l1|
      ensures l1[i].addr != l1[j].addr
    {
      assert Before(l1, i, j, k, k + 1);
    }
    JoinPrevLinked(JoinNext(mem, list[k].addr, b.addr), l1, k);
  }

  /** Freeing keeps the whole state consistent: the circle, its order, and everything handed out. */
  lemma FreeConsistent(base: nat, mem: map<nat, Header>, list: seq<Block>, live: map<nat, nat>, top: nat, k: nat, bp: nat)
    requires Consistent(base, mem, list, live, top) && bp in live && k < |list|
    requires Fits(list, k, Block(bp, live[bp])) && (k == 0 ==> End(list[0]) != bp)
    requires Insertable(mem, list, k, Block(bp, live[bp]))
    ensures list[k].addr in mem && mem[list[k].addr].ptr in mem && bp in mem && Apart(list)
    ensures Consistent(base, FreeMem(mem, list[k].addr, bp), Freed(list, k, Block(bp, live[bp])), live - {bp}, top)
    ensures |Freed(list, k, Block(bp, live[bp]))| > k && Freed(list, k, Block(bp, live[bp]))[k].addr == list[k].addr
  {
    var b := Block(bp, live[bp]);
    FreeLinked(mem, list, k, b);
    FreedList(list, k, b);
    ListBlock(base, mem, list, live, top, k);
    hide Apart, Linked, Merge, InsertAt, Insertable, Freed, Covers;
    assert Within(base, top, b);
    var m := FreeMem(mem, list[k].addr, bp);
    var l := Freed(list, k, b);
    forall a, x: int | a in live - {bp} && Inside(Block(a, live[a]), x)
      ensures !Covers(l, x)
    {
      assert Disjoint(Block(a, live[a]), b);
    }
  }

  // ------------------------------------------------------------------ taking a block

  /** The memory after n headers are taken from block p, and the address of the block taken. */
  function TakeMem(mem: map<nat, Header>, prevp: nat, p: nat, n: nat): (map<nat, Header>, nat)
    requires p in mem && prevp in mem && n <= mem[p].size
  {
    if mem[p].size == n then (mem[prevp := Header(mem[p].ptr, mem[prevp].size)], p)
    else
      var q := p + HEADER * (mem[p].size - n);
      var left := mem[p := Header(mem[p].ptr, mem[p].size - n)];
      (left[q := Header(if q in mem then mem[q].ptr else 0, n)], q)
  }

  lemma TakeLinked(mem: map<nat, Header>, list: seq<Block>, k: nat, n: nat)
    requires Apart(list) && AllLinked(mem, list) && 0 < k < |list| && 0 < n <= list[k].size
    ensures list[k].addr in mem && list[k - 1].addr in mem && mem[list[k].addr].size == list[k].size
    ensures var (m, q) := TakeMem(mem, list[k - 1].addr, list[k].addr, n);
            AllLinked(m, Taken(list, k, n)) && q == TakenBlock(list, k, n).addr
  {
    assert Linked(mem, list, k) && Linked(mem, list, k - 1);
    var (m, q) := TakeMem(mem, list[k - 1].addr, list[k].addr, n);
    var l := Taken(list, k, n);
    var gone := list[k].size == n;
    forall i: nat | i < |l|
      ensures Linked(m, l, i)
    {
      var i' := if gone && i >= k then i + 1 else i;
      assert Linked(mem, list, i');
      assert i' < k ==> Before(list, i', k, 0, 0);
      assert i' > k ==> Before(list, k, i', 0, 0);
      assert i' < k - 1 ==> Before(list, i', k - 1, 0, 0);
      assert i' > k - 1 ==> Before(list, k - 1, i', 0, 0);
    }
  }

  /** Taking keeps the whole state consistent, and the block taken overlaps nothing handed out before. */
  lemma TakeConsistent(base: nat, mem: map<nat, Header>, list: seq<Block>, live: map<nat, nat>, top: nat, k: nat, n: nat)
    requires Consistent(base, mem, list, live, top) && 0 < k < |list| && 0 < n <= list[k].size
    ensures list[k].addr in mem && list[k - 1].addr in mem && mem[list[k].addr].size == list[k].size
    ensures var (m, q) := TakeMem(mem, list[k - 1].addr, list[k].addr, n);
            && q == TakenBlock(list, k, n).addr && q !in live
            && Consistent(base, m, Taken(list, k, n), live[q := n], top)
  {
    TakeLinked(mem, list, k, n);
    TakenList(list, k, n);
    ListBlock(base, mem, list, live, top, k);
    ListBlock(base, mem, list, live, top, k - 1);
    hide Apart, Linked, Taken, Covers;
    var b := TakenBlock(list, k, n);
    var (m, q) := TakeMem(mem, list[k - 1].addr, list[k].addr, n);
    assert q in live ==> Disjoint(Block(q, live[q]), list[k]);
    var l := live[q := n];
    forall a, c | a in l && c in l && a != c
      ensures Disjoint(Block(a, l[a]), Block(c, l[c]))
    {
      assert a in live ==> Disjoint(Block(a, live[a]), list[k]);
      assert c in live ==> Disjoint(Block(c, live[c]), list[k]);
      assert a in live && c in live ==> Disjoint(Block(a, live[a]), Block(c, live[c]));
    }
  }

  /** Memory from the operating system, above everything so far, may be handed to the caller. */
  lemma GrowConsistent(base: nat, mem: map<nat, Header>, list: seq<Block>, live: map<nat, nat>, top: nat, hp: nat, h: Header)
    requires Consistent(base, mem, list, live, top) && top <= hp && 0 < h.size && End(Block(hp, h.size)) < KERNBASE
    ensures Consistent(base, mem[hp := h], list, live[hp := h.size], End(Block(hp, h.size))) && hp !in live
  {
    var m, l := mem[hp := h], live[hp := h.size];
    forall i: nat | i < |list|
      ensures Linked(m, list, i)
    {
      ListBlock(base, mem, list, live, top, i);
      assert Linked(mem, list, i);
    }
    forall a | a in live
      ensures End(Block(a, live[a])) <= hp && a != hp
    {
      assert Within(base, top, Block(a, live[a]));
    }
    hide Apart, Linked, Covers;
    forall a, c | a in l && c in l && a != c
      ensures Disjoint(Block(a, l[a]), Block(c, l[c]))
    {
      assert a in live && c in live ==> Disjoint(Block(a, live[a]), Block(c, live[c]));
    }
    forall a | a in l ensures Within(base, End(Block(hp, h.size)), Block(a, l[a])) {
      assert a in live ==> Within(base, top, Block(a, live[a]));
    }
  }

  // ------------------------------------------------------------------ requests

  function Units(nbytes: nat): nat {
    U32(nbytes + HEADER - 1) / HEADER + 1
  }

  /** The number of headers asked of the operating system. */
  function Ask(nunits: nat): nat {
    if nunits < MORECORE then MORECORE else nunits
  }

  function AsInt(n: nat): int {
    if n < UINT_LIMIT / 2 then n else n - UINT_LIMIT
  }

  /** The argument of sbrk: a product of unsigned words, read as a signed one. */
  function SbrkArg(nu: nat): int {
    AsInt(U32(nu * HEADER))
  }

  function Gives(os: Os, nu: nat): bool {
    os.grants && os.brk + HEADER * nu < KERNBASE
  }

  /** A request the rounding and the system call can both express. */
  predicate Servable(nbytes: nat) {
    nbytes < KERNBASE - 2 * HEADER + 1
  }

  /** The block is large enough for the request unless the rounding wraps around. */
  lemma UnitsEnough(nbytes: nat)
    requires nbytes < UINT_LIMIT
    ensures HEADER * (Units(nbytes) - 1) >= nbytes <==> nbytes <= UINT_LIMIT - HEADER
    ensures nbytes > UINT_LIMIT - HEADER ==> Units(nbytes) == 1
  {
  }

  /** sbrk is asked for what morecore then frees exactly for the servable requests and those that wrap around to one header. */
  lemma SbrkSound(nbytes: nat)
    requires nbytes < UINT_LIMIT
    ensures SbrkArg(Ask(Units(nbytes))) == HEADER * Ask(Units(nbytes)) <==> Servable(nbytes) || nbytes > UINT_LIMIT - HEADER
    ensures SbrkArg(Ask(Units(nbytes))) > 0 <==> Servable(nbytes) || nbytes > UINT_LIMIT - HEADER
    ensures !Servable(nbytes) && nbytes <= UINT_LIMIT - HEADER ==> HEADER * Units(nbytes) >= KERNBASE
  {
  }

  // ------------------------------------------------------------------ the allocator

  ghost predicate At(list: seq<Block>, i: nat, p: nat) {
    i < |list| && list[i].addr == p
  }

  /** Some block of the list is large enough. */
  ghost predicate HasFit(list: seq<Block>, n: nat) {
    exists i | 0 <= i < |list| :: list[i].size >= n
  }

  /** Walking the circle: the header at a position leads to the next one, and no two positions share an address. */
  lemma Walk(base: nat, mem: map<nat, Header>, list: seq<Block>, live: map<nat, nat>, top: nat, i: nat, f: nat)
    requires Consistent(base, mem, list, live, top) && i < |list| && f < |list|
    ensures list[i].addr in mem && mem[list[i].addr] == Header(list[Succ(list, i)].addr, list[i].size)
    ensures list[i].addr == list[f].addr <==> i == f
    ensures list[i].addr >= base > 0 && list[0].size == 0
    ensures i != f ==> Steps(|list|, Succ(list, i), f) < Steps(|list|, i, f)
  {
    assert Linked(mem, list, i);
    assert i < f ==> Before(list, i, f, 0, 0);
    assert f < i ==> Before(list, f, i, 0, 0);
    assert i > 0 ==> Before(list, 0, i, 0, 0);
  }

  /** The search of free stops exactly at the place where the block belongs. */
  lemma StopsAt(base: nat, mem: map<nat, Header>, list: seq<Block>, live: map<nat, nat>, top: nat, k: nat, goal: nat, bp: nat)
    requires Consistent(base, mem, list, live, top) && k < |list| && goal < |list|
    requires forall i | 0 <= i < |list| :: list[i].addr != bp && (list[i].addr < bp <==> i <= goal)
    ensures var p, next := list[k].addr, list[Succ(list, k)].addr;
            (bp > p && bp < next) || (p >= next && (bp > p || bp < next)) <==> k == goal
  {
    assert list[0].addr < bp;
    assert k + 1 < |list| ==> Before(list, k, k + 1, 0, 0);
    assert k > 0 ==> Before(list, 0, k, 0, 0);
  }

  /** Every position passed on the way round to f holds a block that is too small. */
  ghost predicate Passed(list: seq<Block>, i: nat, f: nat, n: nat) {
    && i < |list| && f < |list|
    && (forall m: nat | m < |list| && Steps(|list|, m, f) > Steps(|list|, i, f) :: list[m].size < n)
  }

  lemma PassedStart(list: seq<Block>, f: nat, n: nat)
    requires f < |list|
    ensures Passed(list, Succ(list, f), f, n)
  {
  }

  lemma PassedStep(list: seq<Block>, i: nat, f: nat, n: nat)
    requires Passed(list, i, f, n) && list[i].size < n
    ensures if i == f then !HasFit(list, n) else Passed(list, Succ(list, i), f, n)
  {
    forall m: nat | m < |list| && (i == f || Steps(|list|, m, f) > Steps(|list|, Succ(list, i), f))
      ensures list[m].size < n
    {
      if m != i {
        assert Steps(|list|, m, f) > Steps(|list|, i, f);
      }
    }
  }

  ghost predicate AfterFree(list: seq<Block>, list': seq<Block>, freep: nat, k: nat, b: Block) {
    k < |list| && Fits(list, k, b) && list' == Freed(list, k, b) && At(list', k, freep)
  }

  ghost predicate NearFit(list: seq<Block>, k: nat, n: nat) {
    k < |list| && (list[k].size >= n || list[Succ(list, k)].size >= n)
  }

  /** The freed block is now part of the block at its place or of the one behind it. */
  lemma FreedNear(list: seq<Block>, list': seq<Block>, freep: nat, k: nat, b: Block, n: nat)
    requires AfterFree(list, list', freep, k, b) && n <= b.size
    ensures At(list', k, freep) && NearFit(list', k, n)
  {
  }

  /** Block b was taken from the list, or from the list with the region of fresh memory added. */
  ghost predicate TakenFrom(before: seq<Block>, after: seq<Block>, b: Block, region: Block, fit: bool) {
    if fit then Lost(before, after, b)
    else exists mid :: Gained(before, mid, region) && Lost(mid, after, b)
  }

  lemma FoundFit(before: seq<Block>, list: seq<Block>, i: nat, n: nat, grown: bool)
    requires i < |list| && list[i].size >= n && (!grown ==> list == before)
    ensures !grown ==> HasFit(before, n)
  {
  }

  lemma TakenFromEither(before: seq<Block>, mid: seq<Block>, after: seq<Block>, b: Block, region: Block, grown: bool)
    requires Lost(mid, after, b)
    requires if grown then Gained(before, mid, region) else before == mid
    ensures TakenFrom(before, after, b, region, !grown)
  {
  }

  lemma NoHugeFit(base: nat, mem: map<nat, Header>, list: seq<Block>, live: map<nat, nat>, top: nat, n: nat)
    requires Consistent(base, mem, list, live, top) && HEADER * n >= KERNBASE
    ensures !HasFit(list, n)
  {
    forall i | 0 <= i < |list|
      ensures list[i].size < n
    {
      ListBlock(base, mem, list, live, top, i);
    }
  }

  /** The list, the blocks handed out and the end of the heap when malloc was called. */
  datatype Snapshot = Snapshot(list: seq<Block>, live: map<nat, nat>, top: nat)

  /** Where malloc's loop is: whether memory was added, the position of freep, and the position of prevp. */
  datatype Where = Where(grown: bool, f: nat, j: nat)

  class Allocator {
    const base: nat
    var mem: map<nat, Header>
    var freep: nat
    ghost var list: seq<Block>
    ghost var live: map<nat, nat>
    ghost var top: nat

    ghost predicate Valid()
      reads this
    {
      if freep == 0 then list == [Block(base, 0)] && live == map[] && 0 < base && base + HEADER <= top < KERNBASE
      else Consistent(base, mem, list, live, top) && exists i: nat :: At(list, i, freep)
    }

    ghost predicate Started()
      reads this
    {
      freep != 0 && Valid()
    }

    constructor (base: nat, top: nat)
      requires 0 < base && base + HEADER <= top < KERNBASE
      ensures Valid() && freep == 0 && this.base == base && this.top == top && fresh(this)
    {
      this.base := base;
      mem := map[];
      freep := 0;
      list := [Block(base, 0)];
      live := map[];
      this.top := top;
    }

    /** The search of free: it ends, at the one place where the block belongs. */
    method FindPlace(bp: nat) returns (p: nat, ghost k: nat)
      requires Started() && bp in live
      ensures At(list, k, p)
      ensures Fits(list, k, Block(bp, live[bp])) && (k == 0 ==> End(list[0]) != bp)
      ensures Insertable(mem, list, k, Block(bp, live[bp]))
    {
      ghost var goal := Place(base, mem, list, live, top, bp);
      p := freep;
      k :| At(list, k, p);
      hide Insertable, Fits, Consistent;
      Walk(base, mem, list, live, top, k, goal);
      StopsAt(base, mem, list, live, top, k, goal, bp);
      while !(bp > p && bp < mem[p].ptr)
        invariant At(list, k, p) && p in mem && mem[p].ptr == list[Succ(list, k)].addr
        invariant (bp > p && bp < mem[p].ptr) || (p >= mem[p].ptr && (bp > p || bp < mem[p].ptr)) <==> k == goal
        decreases Steps(|list|, k, goal)
      {
        if p >= mem[p].ptr && (bp > p || bp < mem[p].ptr) {
          break;
        }
        Walk(base, mem, list, live, top, k, goal);
        p := mem[p].ptr;
        k := Succ(list, k);
        Walk(base, mem, list, live, top, k, goal);
        StopsAt(base, mem, list, live, top, k, goal, bp);
      }
    }

    /** free: exactly the bytes of the block become free, and the circle stays in order with no two free blocks touching. */
    method Free(ap: nat) returns (ghost k: nat)
      requires Valid() && ap >= HEADER && ap - HEADER in live
      modifies this
      ensures Started() && live == old(live) - {ap - HEADER} && top == old(top)
      ensures Gained(old(list), list, Block(ap - HEADER, old(live[ap - HEADER])))
      ensures AfterFree(old(list), list, freep, k, Block(ap - HEADER, old(live[ap - HEADER])))
    {
      hide Consistent, Insertable, Freed, Gained, Apart, JoinNext, JoinPrev, Fits;
      var bp := ap - HEADER;
      var p;
      p, k := FindPlace(bp);
      ghost var b := Block(bp, live[bp]);
      FreeConsistent(base, mem, list, live, top, k, bp);
      FreedList(list, k, b);
      Walk(base, mem, list, live, top, k, k);
      mem := JoinNext(mem, p, bp);
      mem := JoinPrev(mem, p, bp);
      freep := p;
      list := Freed(list, k, b);
      live := live - {bp};
      assert AfterFree(old(list), list, freep, k, b);
      assert At(list, k, freep);
    }

    /** morecore: the system is asked once; what it gives becomes free, and freep leads to it. */
    method MoreCore(nunits: nat, os: Os) returns (p: nat, broken: bool)
      requires Started() && 0 < nunits && top <= os.brk
      modifies this
      ensures Started() && live == old(live)
      ensures broken <==> SbrkArg(Ask(nunits)) <= 0
      ensures p == 0 <==> broken || !Gives(os, Ask(nunits))
      ensures p == 0 ==> list == old(list) && freep == old(freep) && mem == old(mem) && top == old(top)
      ensures p != 0 ==> p == freep && Gained(old(list), list, Block(os.brk, Ask(nunits))) && top == os.brk + HEADER * Ask(nunits)
      ensures p != 0 ==> exists k: nat :: At(list, k, freep) && NearFit(list, k, nunits)
    {
      hide Consistent, Gained, NearFit;
      var nu := Ask(nunits);
      if SbrkArg(nu) <= 0 {
        return 0, true;
      }
      if !Gives(os, nu) {
        return 0, false;
      }
      Extend(os.brk, nu, nunits);
      return freep, false;
    }

    /** A fresh piece of memory is given a header and freed. */
    method Extend(hp: nat, nu: nat, ghost nunits: nat)
      requires Started() && 0 < nu && nunits <= nu && top <= hp && End(Block(hp, nu)) < KERNBASE
      modifies this
      ensures Started() && live == old(live) && top == End(Block(hp, nu))
      ensures Gained(old(list), list, Block(hp, nu))
      ensures exists k: nat :: At(list, k, freep) && NearFit(list, k, nunits)
    {
      var h := Header(if hp in mem then mem[hp].ptr else 0, nu);
      GrowConsistent(base, mem, list, live, top, hp, h);
      assert live[hp := nu] - {hp} == live;
      hide Consistent, Gained, AfterFree, NearFit;
      mem := mem[hp := h];
      live := live[hp := nu];
      top := End(Block(hp, nu));
      ghost var k := Free(hp + HEADER);
      FreedNear(old(list), list, freep, k, Block(hp, nu), nunits);
    }

    /** The end of malloc: the block at p, or its tail, is handed out. */
    method Take(prevp: nat, p: nat, nunits: nat, ghost k: nat) returns (ap: nat)
      requires Started() && 0 < k && At(list, k, p) && At(list, k - 1, prevp) && 0 < nunits <= list[k].size
      modifies this
      ensures Started() && top == old(top)
      ensures ap >= HEADER && ap - HEADER !in old(live) && live == old(live)[ap - HEADER := nunits]
      ensures Lost(old(list), list, Block(ap - HEADER, nunits))
    {
      TakeConsistent(base, mem, list, live, top, k, nunits);
      TakenList(list, k, nunits);
      Walk(base, mem, list, live, top, k - 1, k);
      ghost var b := TakenBlock(list, k, nunits);
      assert At(Taken(list, k, nunits), k - 1, prevp);
      hide Consistent, Taken, Apart, Lost;
      var (m, q) := TakeMem(mem, prevp, p, nunits);
      mem := m;
      freep := prevp;
      list := Taken(list, k, nunits);
      live := live[q := nunits];
      ap := q + HEADER;
    }

    /** The first malloc: the circle is the base alone. */
    method Start()
      requires Valid() && freep == 0
      modifies this
      ensures Started() && list == old(list) && live == old(live) && top == old(top)
    {
      mem := mem[base := Header(base, 0)];
      freep := base;
      assert At(list, 0, base);
      assert Linked(mem, list, 0);
    }

    /** What malloc promises of a request for n headers, given the list and the blocks handed out before it. */
    ghost predicate Served(before: seq<Block>, handed: map<nat, nat>, n: nat, os: Os, r: Outcome)
      reads this
    {
      && (r.Broken? <==> !HasFit(before, n) && SbrkArg(Ask(n)) <= 0)
      && (r.Null? <==> !HasFit(before, n) && SbrkArg(Ask(n)) > 0 && !Gives(os, Ask(n)))
      && (!r.Memory? ==> live == handed && list == before)
      && (r.Memory? ==>
        && r.ptr >= HEADER && r.ptr - HEADER !in handed && live == handed[r.ptr - HEADER := n]
        && TakenFrom(before, list, Block(r.ptr - HEADER, n), Block(os.brk, Ask(n)), HasFit(before, n)))
    }

    /** The state of malloc's loop: where it is, and what it has learnt about the list it started with. */
    ghost predicate Looking(was: Snapshot, n: nat, os: Os, w: Where, prevp: nat, p: nat)
      reads this
    {
      && Started() && 0 < n && live == was.live && was.top <= os.brk
      && At(list, w.f, freep) && At(list, w.j, prevp) && At(list, Succ(list, w.j), p)
      && (if w.grown then
            && !HasFit(was.list, n) && SbrkArg(Ask(n)) > 0 && Gives(os, Ask(n))
            && Gained(was.list, list, Block(os.brk, Ask(n)))
            && (list[w.f].size >= n || (w.j == w.f && list[Succ(list, w.f)].size >= n))
          else list == was.list && top == was.top && Passed(list, Succ(list, w.j), w.f, n))
    }

    /** The block at p is large enough and is taken. */
    method Hit(ghost was: Snapshot, n: nat, os: Os, ghost w: Where, prevp: nat, p: nat) returns (ap: nat)
      requires Looking(was, n, os, w, prevp, p) && p in mem && mem[p].size >= n
      modifies this
      ensures Started() && Served(was.list, was.live, n, os, Memory(ap))
    {
      hide Consistent, Gained, Lost, Passed, HasFit, TakenFrom, SbrkArg, Gives;
      ghost var i := Succ(list, w.j);
      Walk(base, mem, list, live, top, i, w.f);
      FoundFit(was.list, list, i, n, w.grown);
      ghost var mid := list;
      ap := Take(prevp, p, n, i);
      TakenFromEither(was.list, mid, list, Block(ap - HEADER, n), Block(os.brk, Ask(n)), w.grown);
    }

    /** The block at p is too small and is not where the search began. */
    method Miss(ghost was: Snapshot, n: nat, os: Os, ghost w: Where, prevp: nat, p: nat) returns (ghost w': Where)
      requires Looking(was, n, os, w, prevp, p) && p in mem && mem[p].size < n && p != freep
      ensures Looking(was, n, os, w', p, mem[p].ptr) && w'.grown == w.grown && w'.f == w.f && w'.j == Succ(list, w.j)
      ensures Steps(|list|, Succ(list, w'.j), w.f) < Steps(|list|, Succ(list, w.j), w.f)
    {
      ghost var i := Succ(list, w.j);
      Walk(base, mem, list, live, top, i, w.f);
      hide Consistent, Gained, Passed, HasFit, Steps;
      if !w.grown {
        PassedStep(list, i, w.f, n);
      }
      w' := w.(j := i);
    }

    /** The search is back where it began: more memory is needed. */
    method Renew(ghost was: Snapshot, n: nat, os: Os, ghost w: Where, prevp: nat, p: nat)
      returns (p': nat, broken: bool, ghost w': Where)
      requires Looking(was, n, os, w, prevp, p) && p in mem && mem[p].size < n && p == freep
      modifies this
      ensures Started() && !w.grown
      ensures broken ==> Served(was.list, was.live, n, os, Broken)
      ensures !broken && p' == 0 ==> Served(was.list, was.live, n, os, Null)
      ensures p' != 0 ==> !broken && p' in mem && Looking(was, n, os, w', p', mem[p'].ptr) && w'.grown
    {
      ghost var i := Succ(list, w.j);
      Walk(base, mem, list, live, top, i, w.f);
      hide Consistent, Gained, Passed, HasFit, TakenFrom, SbrkArg, Gives;
      assert !w.grown;
      PassedStep(list, i, w.f, n);
      p', broken := MoreCore(n, os);
      w' := w;
      if p' != 0 {
        ghost var f: nat :| At(list, f, freep) && NearFit(list, f, n);
        w' := Where(true, f, f);
        Walk(base, mem, list, live, top, f, f);
      }
    }

    /** The loop of malloc: once round the circle, one call of morecore at most, and then a block is found. */
    method Search(n: nat, os: Os) returns (r: Outcome)
      requires Started() && 0 < n && top <= os.brk
      modifies this
      ensures Started() && Served(old(list), old(live), n, os, r)
    {
      var prevp := freep;
      ghost var f: nat :| At(list, f, prevp);
      ghost var was, w := Snapshot(list, live, top), Where(false, f, f);
      Walk(base, mem, list, live, top, f, f);
      PassedStart(list, f, n);
      var p := mem[prevp].ptr;
      hide Consistent, Passed, HasFit, Steps, Served;
      while true
        invariant Looking(was, n, os, w, prevp, p)
        decreases !w.grown, Steps(|list|, Succ(list, w.j), w.f)
      {
        Walk(base, mem, list, live, top, Succ(list, w.j), w.f);
        if mem[p].size >= n {
          var ap := Hit(was, n, os, w, prevp, p);
          return Memory(ap);
        }
        if p == freep {
          var broken;
          p, broken, w := Renew(was, n, os, w, prevp, p);
          if broken {
            return Broken;
          }
          if p == 0 {
            return Null;
          }
        } else {
          w := Miss(was, n, os, w, prevp, p);
        }
        prevp := p;
        p := mem[p].ptr;
      }
    }

    /**
     * malloc: null exactly when no free block is large enough and the system gives no more, and otherwise a block of
     * free memory of the right size.  Requests of half the address space and up make it misuse sbrk.
     */
    method Malloc(nbytes: nat, os: Os) returns (r: Outcome)
      requires Valid() && nbytes < UINT_LIMIT && top <= os.brk
      modifies this
      ensures Started() && Served(old(list), old(live), Units(nbytes), os, r)
      ensures r.Broken? <==> !Servable(nbytes) && nbytes <= UINT_LIMIT - HEADER
      ensures r.Memory? ==> (HEADER * (live[r.ptr - HEADER] - 1) >= nbytes <==> nbytes <= UINT_LIMIT - HEADER)
    {
      UnitsEnough(nbytes);
      SbrkSound(nbytes);
      if freep == 0 {
        Start();
      }
      if HEADER * Units(nbytes) >= KERNBASE {
        NoHugeFit(base, mem, list, live, top, Units(nbytes));
      }
      hide Consistent, Units, TakenFrom, HasFit, SbrkArg;
      r := Search(Units(nbytes), os);
    }
  }
}
