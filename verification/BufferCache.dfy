/**
 * The buffer cache of xv6/bio.c: NBUF buffers in a static array, linked through prev and
 * next into one most-recently-used list around a head node, over a disk driver with the
 * meaning of xv6/memide.c.  A reference into the array is an index; the head is index NBUF.
 *
 * Every method is one section of the source that runs without interference (under
 * bcache.lock, or on a buffer whose sleep lock the caller holds), so a run of the cache
 * under any number of processes is a sequence of these calls.
 */
module BufferCache {
  import opened Blocks
  import opened Common

  type BufferCount = n: nat | 2 <= n witness 30

  /** NBUF of param.h. */
  const NBUF: BufferCount

  datatype Buf = Buf(dev: nat, blockno: nat, valid: bool, dirty: bool, refcnt: nat, data: Block)

  type Disk = map<nat, Block>

  datatype DiskWrite = DiskWrite(dev: nat, blockno: nat, data: Block)

  predicate Keyed(b: Buf, dev: nat, blockno: nat)
  {
    b.dev == dev && b.blockno == blockno
  }

  /** The test in bget's recycling loop. */
  predicate Evictable(b: Buf)
  {
    b.refcnt == 0 && !b.dirty
  }

  /** Node k of the cycle head, order[0], ..., order[|order|-1], head. */
  function Node(order: seq<nat>, k: int): nat
    requires -1 <= k <= |order|
  {
    if 0 <= k < |order| then order[k] else NBUF
  }

  predicate Distinct(order: seq<nat>)
  {
    forall i, j | 0 <= i < j < |order| :: order[i] != order[j]
  }

  /** next and prev link the buffers of order, and the head, into one cycle both ways. */
  ghost predicate Linked(order: seq<nat>, next: seq<nat>, prev: seq<nat>)
  {
    && |next| == NBUF + 1 && |prev| == NBUF + 1
    && Distinct(order)
    && (forall k | 0 <= k < |order| :: order[k] < NBUF)
    && next[NBUF] == Node(order, 0)
    && prev[NBUF] == Node(order, |order| - 1)
    && (forall k {:trigger next[order[k]]} | 0 <= k < |order| :: next[order[k]] == Node(order, k + 1))
    && (forall k {:trigger prev[order[k]]} | 0 <= k < |order| :: prev[order[k]] == Node(order, k - 1))
  }

  /** No block of a real device is held by two buffers.  Buffers start keyed (0, 0). */
  ghost predicate Unique(buf: seq<Buf>)
  {
    forall i, j | 0 <= i < |buf| && 0 <= j < |buf| && i != j && buf[i].dev != 0 ::
      !Keyed(buf[j], buf[i].dev, buf[i].blockno)
  }

  ghost predicate Cached(buf: seq<Buf>, dev: nat, blockno: nat)
  {
    exists i | 0 <= i < |buf| :: Keyed(buf[i], dev, blockno)
  }

  ghost predicate Pinned(buf: seq<Buf>, dev: nat, blockno: nat)
  {
    exists i | 0 <= i < |buf| :: Keyed(buf[i], dev, blockno) && buf[i].dirty
  }

  /** b may be recycled, and no buffer used less recently may. */
  ghost predicate LeastRecentlyUsable(buf: seq<Buf>, order: seq<nat>, b: nat)
    requires forall k | 0 <= k < |order| :: order[k] < |buf|
  {
    exists k :: 0 <= k < |order| && order[k] == b && Evictable(buf[b])
      && forall j :: k < j < |order| ==> !Evictable(buf[order[j]])
  }

  ghost predicate SomeEvictable(buf: seq<Buf>)
  {
    exists i | 0 <= i < |buf| :: Evictable(buf[i])
  }

  predicate OnDisk(disks: map<nat, Disk>, dev: nat, blockno: nat)
  {
    dev in disks && blockno in disks[dev]
  }

  /** Only a pinned block may differ from its disk copy. */
  ghost predicate WriteBack(buf: seq<Buf>, disks: map<nat, Disk>, latest: map<nat, Disk>)
  {
    && latest.Keys == disks.Keys
    && (forall d | d in disks :: latest[d].Keys == disks[d].Keys)
    && (forall d, b | d != 0 && OnDisk(disks, d, b) && latest[d][b] != disks[d][b] :: Pinned(buf, d, b))
  }

  /** A valid buffer nobody has locked holds the last value written for its block. */
  ghost predicate Coherent(buf: seq<Buf>, held: set<nat>, latest: map<nat, Disk>)
  {
    forall i | 0 <= i < |buf| && buf[i].valid && buf[i].dev != 0 ::
      OnDisk(latest, buf[i].dev, buf[i].blockno)
      && (i !in held ==> buf[i].data == latest[buf[i].dev][buf[i].blockno])
  }

  ghost predicate CacheInv(buf: seq<Buf>, held: set<nat>, disks: map<nat, Disk>, latest: map<nat, Disk>)
  {
    && |buf| == NBUF
    && Unique(buf)
    && (forall i | i in held :: i < |buf| && buf[i].refcnt > 0)
    && (forall i | 0 <= i < |buf| && buf[i].dirty :: buf[i].valid)
    && WriteBack(buf, disks, latest)
    && Coherent(buf, held, latest)
  }

  // ----- The list ----------------------------------------------------------------

  /** Linking b in after the head. */
  lemma PushFront(order: seq<nat>, next: seq<nat>, prev: seq<nat>, b: nat)
    requires Linked(order, next, prev) && b < NBUF && b !in order
    ensures next[NBUF] <= NBUF
    ensures Linked([b] + order, next[b := next[NBUF]][NBUF := b], prev[b := NBUF][next[NBUF] := b])
  {
    var list := [b] + order;
    assert forall k | 0 < k < |list| :: list[k] == order[k-1];
  }

  function Without(order: seq<nat>, k: nat): seq<nat>
    requires k < |order|
  {
    order[..k] + order[k+1..]
  }

  lemma WithoutFacts(order: seq<nat>, k: nat)
    requires Distinct(order) && k < |order|
    ensures var list := Without(order, k);
            && |list| == |order| - 1
            && Distinct(list) && order[k] !in list
            && forall j | 0 <= j < |list| :: list[j] == order[if j < k then j else j + 1]
  {
  }

  lemma UnlinkAt(order: seq<nat>, next: seq<nat>, prev: seq<nat>, k: nat, j: nat)
    requires Linked(order, next, prev) && k < |order| && j < |order| && j != k
    ensures var b := order[k];
            && next[b] == Node(order, k + 1) <= NBUF && prev[b] == Node(order, k - 1) <= NBUF
            && next[prev[b] := next[b]][order[j]] == Node(order, if j + 1 == k then k + 1 else j + 1)
            && prev[next[b] := prev[b]][order[j]] == Node(order, if j - 1 == k then k - 1 else j - 1)
  {
    assert next[order[j]] == Node(order, j + 1) && prev[order[j]] == Node(order, j - 1);
  }

  /** Unlinking the buffer at position k. */
  lemma Unlink(order: seq<nat>, next: seq<nat>, prev: seq<nat>, k: nat)
    requires Linked(order, next, prev) && k < |order|
    ensures var b := order[k];
            && next[b] <= NBUF && prev[b] <= NBUF && next[b] != b
            && b !in Without(order, k)
            && Linked(Without(order, k), next[prev[b] := next[b]], prev[next[b] := prev[b]])
  {
    var b, list := order[k], Without(order, k);
    WithoutFacts(order, k);
    hide Distinct, Without;
    assert next[b] == Node(order, k + 1) && prev[b] == Node(order, k - 1);
    var next', prev' := next[prev[b] := next[b]], prev[next[b] := prev[b]];
    forall j | 0 <= j < |list|
      ensures next'[list[j]] == Node(list, j + 1) && prev'[list[j]] == Node(list, j - 1)
    {
      UnlinkAt(order, next, prev, k, if j < k then j else j + 1);
    }
    assert next'[NBUF] == Node(list, 0) && prev'[NBUF] == Node(list, |list| - 1);
  }

  /** next and prev after b has been unlinked and linked in again after the head. */
  lemma MoveToFront(order: seq<nat>, next: seq<nat>, prev: seq<nat>, b: nat) returns (k: nat)
    requires Linked(order, next, prev) && |order| == NBUF && b < NBUF
    ensures k < NBUF && order[k] == b
    ensures |next| == |prev| == NBUF + 1 && next[b] <= NBUF && prev[b] <= NBUF && next[b] != b
    ensures var next1, prev1 := next[prev[b] := next[b]], prev[next[b] := prev[b]];
            && next1[NBUF] <= NBUF
            && Linked([b] + Without(order, k), next1[b := next1[NBUF]][NBUF := b], prev1[b := NBUF][next1[NBUF] := b])
  {
    OrderCovers(order, b);
    k :| k < NBUF && order[k] == b;
    Unlink(order, next, prev, k);
    PushFront(Without(order, k), next[prev[b] := next[b]], prev[next[b] := prev[b]], b);
  }

  /** The numbers below n. */
  function Below(n: nat): set<nat>
  {
    if n == 0 then {} else Below(n - 1) + {n - 1}
  }

  lemma BelowIs(n: nat)
    ensures |Below(n)| == n
    ensures forall i: nat :: i in Below(n) <==> i < n
  {
  }

  function Elements(order: seq<nat>): set<nat>
  {
    set i | i in order
  }

  lemma {:induction false} DistinctSize(order: seq<nat>)
    requires Distinct(order)
    ensures |Elements(order)| == |order|
  {
    if order != [] {
      var rest := order[1..];
      DistinctSize(rest);
      assert Elements(order) == {order[0]} + Elements(rest);
      assert order[0] !in rest;
    }
  }

  /** A list of NBUF distinct buffers is a permutation of all of them. */
  lemma OrderCovers(order: seq<nat>, i: nat)
    requires |order| == NBUF && Distinct(order) && i < NBUF
    requires forall k | 0 <= k < |order| :: order[k] < NBUF
    ensures exists k: nat :: k < NBUF && order[k] == i
  {
    BelowIs(NBUF);
    DistinctSize(order);
    SubsetSize(Elements(order), Below(NBUF));
    assert i in Below(NBUF);
    assert i in order;
  }

  // ----- The contents ------------------------------------------------------------

  /** Some process has the block's buffer locked. */
  ghost predicate Locked(buf: seq<Buf>, held: set<nat>, dev: nat, blockno: nat)
  {
    exists i | i in held && i < |buf| :: Keyed(buf[i], dev, blockno)
  }

  /** The buffer found for a block, or recycled for it, is locked exactly when the block is. */
  lemma LockedKey(buf: seq<Buf>, held: set<nat>, disks: map<nat, Disk>, latest: map<nat, Disk>,
                  dev: nat, blockno: nat, b: nat)
    requires CacheInv(buf, held, disks, latest) && dev != 0 && b < NBUF
    requires if Cached(buf, dev, blockno) then Keyed(buf[b], dev, blockno) else Evictable(buf[b])
    ensures b in held <==> Locked(buf, held, dev, blockno)
    ensures b in held ==> Cached(buf, dev, blockno)
  {
  }

  lemma CacheSize(buf: seq<Buf>, held: set<nat>, disks: map<nat, Disk>, latest: map<nat, Disk>)
    requires CacheInv(buf, held, disks, latest)
    ensures |buf| == NBUF
  {
  }

  /** What the invariant says of a locked buffer. */
  lemma HeldFacts(buf: seq<Buf>, held: set<nat>, disks: map<nat, Disk>, latest: map<nat, Disk>, b: nat)
    requires CacheInv(buf, held, disks, latest) && b in held
    ensures b < |buf| == NBUF && buf[b].refcnt > 0
    ensures buf[b].valid && buf[b].dev != 0 ==> OnDisk(latest, buf[b].dev, buf[b].blockno)
  {
  }

  /** A change to buffer b, and to who holds it, that keeps its key and its dirty bit. */
  lemma KeepsKey(buf: seq<Buf>, held: set<nat>, disks: map<nat, Disk>, latest: map<nat, Disk>,
                 b: nat, nb: Buf, held': set<nat>)
    requires CacheInv(buf, held, disks, latest) && b < NBUF
    requires Keyed(nb, buf[b].dev, buf[b].blockno) && nb.dirty == buf[b].dirty
    requires nb.dirty ==> nb.valid
    requires nb.valid && nb.dev != 0 ==>
               OnDisk(latest, nb.dev, nb.blockno) && (b !in held' ==> nb.data == latest[nb.dev][nb.blockno])
    requires (forall i | i != b :: i in held' <==> i in held) && (b in held' ==> nb.refcnt > 0)
    ensures CacheInv(buf[b := nb], held', disks, latest)
  {
    var buf' := buf[b := nb];
    forall d, k | d != 0 && OnDisk(disks, d, k) && latest[d][k] != disks[d][k]
      ensures Pinned(buf', d, k)
    {
      var i :| 0 <= i < |buf| && Keyed(buf[i], d, k) && buf[i].dirty;
      assert Keyed(buf'[i], d, k) && buf'[i].dirty;
    }
    forall i | 0 <= i < |buf'| && buf'[i].valid && buf'[i].dev != 0
      ensures OnDisk(latest, buf'[i].dev, buf'[i].blockno)
      ensures i !in held' ==> buf'[i].data == latest[buf'[i].dev][buf'[i].blockno]
    {
      if i != b {
        assert buf'[i] == buf[i];
      }
    }
  }

  /** bget reuses an evictable buffer for a block that is not cached. */
  lemma Recycles(buf: seq<Buf>, held: set<nat>, disks: map<nat, Disk>, latest: map<nat, Disk>,
                 b: nat, nb: Buf)
    requires CacheInv(buf, held, disks, latest) && b < NBUF && Evictable(buf[b])
    requires !Cached(buf, nb.dev, nb.blockno)
    requires !nb.valid && !nb.dirty
    ensures CacheInv(buf[b := nb], held, disks, latest)
  {
    var buf' := buf[b := nb];
    assert b !in held;
    forall d, k | d != 0 && OnDisk(disks, d, k) && latest[d][k] != disks[d][k]
      ensures Pinned(buf', d, k)
    {
      var i :| 0 <= i < |buf| && Keyed(buf[i], d, k) && buf[i].dirty;
      assert Keyed(buf'[i], d, k) && buf'[i].dirty;
    }
    forall i, j | 0 <= i < |buf'| && 0 <= j < |buf'| && i != j && buf'[i].dev != 0
      ensures !Keyed(buf'[j], buf'[i].dev, buf'[i].blockno)
    {
      assert i == b || j == b || !Keyed(buf[j], buf[i].dev, buf[i].blockno);
    }
  }

  function PutBlock(disks: map<nat, Disk>, dev: nat, blockno: nat, data: Block): map<nat, Disk>
    requires dev in disks
  {
    var d: Disk := disks[dev][blockno := data];
    disks[dev := d]
  }

  /** A buffer whose data is the latest of its block is unlocked, with one reference less. */
  lemma ReleaseInv(buf: seq<Buf>, held: set<nat>, disks: map<nat, Disk>, latest: map<nat, Disk>, b: nat)
    requires CacheInv(buf, held, disks, latest) && b in held
    requires buf[b].valid && buf[b].dev != 0 ==>
               OnDisk(latest, buf[b].dev, buf[b].blockno) && buf[b].data == latest[buf[b].dev][buf[b].blockno]
    ensures b < |buf| == NBUF && buf[b].refcnt > 0
    ensures CacheInv(buf[b := buf[b].(refcnt := buf[b].refcnt - 1)], held - {b}, disks, latest)
  {
    hide Unique, WriteBack, Coherent;
    KeepsKey(buf, held, disks, latest, b, buf[b].(refcnt := buf[b].refcnt - 1), held - {b});
  }

  lemma PutBlockKeys(disks: map<nat, Disk>, dev: nat, blockno: nat, data: Block)
    requires OnDisk(disks, dev, blockno)
    ensures var disks' := PutBlock(disks, dev, blockno, data);
            disks'.Keys == disks.Keys && forall d | d in disks :: disks'[d].Keys == disks[d].Keys
  {
    assert disks[dev][blockno := data].Keys == disks[dev].Keys;
  }

  /** The data of a locked buffer becomes the latest value of its block, which no other buffer holds. */
  lemma StoreCoherent(buf: seq<Buf>, held: set<nat>, latest: map<nat, Disk>, b: nat, dirty: bool)
    requires Unique(buf) && Coherent(buf, held, latest) && b in held && b < |buf| && buf[b].dev != 0
    requires OnDisk(latest, buf[b].dev, buf[b].blockno)
    ensures Unique(buf[b := buf[b].(dirty := dirty)])
    ensures Coherent(buf[b := buf[b].(dirty := dirty)], held, PutBlock(latest, buf[b].dev, buf[b].blockno, buf[b].data))
  {
    var buf', latest' := buf[b := buf[b].(dirty := dirty)], PutBlock(latest, buf[b].dev, buf[b].blockno, buf[b].data);
    forall i | 0 <= i < |buf'| && buf'[i].valid && buf'[i].dev != 0
      ensures OnDisk(latest', buf'[i].dev, buf'[i].blockno)
      ensures i !in held ==> buf'[i].data == latest'[buf'[i].dev][buf'[i].blockno]
    {
      assert i != b ==> !Keyed(buf[b], buf[i].dev, buf[i].blockno);
    }
  }

  lemma LogsBack(buf: seq<Buf>, disks: map<nat, Disk>, latest: map<nat, Disk>, b: nat)
    requires WriteBack(buf, disks, latest) && b < |buf| && OnDisk(latest, buf[b].dev, buf[b].blockno)
    ensures WriteBack(buf[b := buf[b].(dirty := true)], disks, PutBlock(latest, buf[b].dev, buf[b].blockno, buf[b].data))
  {
    var x := buf[b];
    var buf', latest' := buf[b := x.(dirty := true)], PutBlock(latest, x.dev, x.blockno, x.data);
    PutBlockKeys(latest, x.dev, x.blockno, x.data);
    forall d, k | d != 0 && OnDisk(disks, d, k) && latest'[d][k] != disks[d][k]
      ensures Pinned(buf', d, k)
    {
      if d == x.dev && k == x.blockno {
        assert Keyed(buf'[b], d, k);
      } else {
        var i :| 0 <= i < |buf| && Keyed(buf[i], d, k) && buf[i].dirty;
        assert Keyed(buf'[i], d, k) && buf'[i].dirty;
      }
    }
  }

  /** log_write makes the locked buffer's data the latest value of its block, and pins it. */
  lemma Logs(buf: seq<Buf>, held: set<nat>, disks: map<nat, Disk>, latest: map<nat, Disk>, b: nat)
    requires CacheInv(buf, held, disks, latest) && b in held && buf[b].valid && buf[b].dev != 0
    ensures b < |buf|
    ensures OnDisk(latest, buf[b].dev, buf[b].blockno)
    ensures CacheInv(buf[b := buf[b].(dirty := true)], held, disks,
                     PutBlock(latest, buf[b].dev, buf[b].blockno, buf[b].data))
  {
    assert OnDisk(latest, buf[b].dev, buf[b].blockno);
    hide Unique, WriteBack, Coherent, PutBlock;
    StoreCoherent(buf, held, latest, b, true);
    LogsBack(buf, disks, latest, b);
  }

  lemma WritesBack(buf: seq<Buf>, disks: map<nat, Disk>, latest: map<nat, Disk>, b: nat)
    requires WriteBack(buf, disks, latest) && Unique(buf) && b < |buf| && buf[b].dev != 0
    requires OnDisk(latest, buf[b].dev, buf[b].blockno)
    ensures OnDisk(disks, buf[b].dev, buf[b].blockno)
    ensures WriteBack(buf[b := buf[b].(dirty := false)], PutBlock(disks, buf[b].dev, buf[b].blockno, buf[b].data),
                      PutBlock(latest, buf[b].dev, buf[b].blockno, buf[b].data))
  {
    var x := buf[b];
    var buf' := buf[b := x.(dirty := false)];
    var latest', disks' := PutBlock(latest, x.dev, x.blockno, x.data), PutBlock(disks, x.dev, x.blockno, x.data);
    PutBlockKeys(latest, x.dev, x.blockno, x.data);
    PutBlockKeys(disks, x.dev, x.blockno, x.data);
    forall d, k | d != 0 && OnDisk(disks', d, k) && latest'[d][k] != disks'[d][k]
      ensures Pinned(buf', d, k)
    {
      assert OnDisk(disks, d, k) && latest[d][k] != disks[d][k];
      var i :| 0 <= i < |buf| && Keyed(buf[i], d, k) && buf[i].dirty;
      assert i != b;
      assert Keyed(buf'[i], d, k) && buf'[i].dirty;
    }
  }

  /** bwrite makes the locked buffer's data the latest value of its block, on disk. */
  lemma Writes(buf: seq<Buf>, held: set<nat>, disks: map<nat, Disk>, latest: map<nat, Disk>, b: nat)
    requires CacheInv(buf, held, disks, latest) && b in held && buf[b].valid && buf[b].dev != 0
    ensures b < |buf|
    ensures OnDisk(disks, buf[b].dev, buf[b].blockno)
    ensures CacheInv(buf[b := buf[b].(dirty := false)], held,
                     PutBlock(disks, buf[b].dev, buf[b].blockno, buf[b].data),
                     PutBlock(latest, buf[b].dev, buf[b].blockno, buf[b].data))
  {
    assert OnDisk(latest, buf[b].dev, buf[b].blockno);
    hide Unique, WriteBack, Coherent, PutBlock;
    WritesBack(buf, disks, latest, b);
    StoreCoherent(buf, held, latest, b, false);
  }

  // ----- Buffer supply -----------------------------------------------------------

  ghost function Busy(buf: seq<Buf>): set<nat>
  {
    set i: nat | i < |buf| && !Evictable(buf[i])
  }

  /** bget can recycle a buffer as soon as fewer than NBUF are referenced or dirty. */
  lemma SupplySuffices(buf: seq<Buf>)
    requires |buf| == NBUF
    ensures SomeEvictable(buf) <==> |Busy(buf)| < NBUF
  {
    BelowIs(NBUF);
    SubsetSize(Busy(buf), Below(NBUF));
    if SomeEvictable(buf) {
      var i: nat :| i < |buf| && Evictable(buf[i]);
      assert i in Below(NBUF) && i !in Busy(buf);
    } else {
      forall i: nat | i in Below(NBUF) ensures i in Busy(buf) {
        assert !Evictable(buf[i]);
      }
      assert Below(NBUF) == Busy(buf);
    }
  }

  // ----- The searches of bget ------------------------------------------------------

  /** The first loop of bget: look for the block. */
  method FindKey(buf: seq<Buf>, next: seq<nat>, ghost prev: seq<nat>, ghost order: seq<nat>,
                 dev: nat, blockno: nat) returns (b: nat)
    requires |buf| == NBUF && |order| == NBUF && Linked(order, next, prev)
    ensures b <= NBUF
    ensures b < NBUF ==> Keyed(buf[b], dev, blockno)
    ensures b == NBUF ==> !Cached(buf, dev, blockno)
  {
    b := next[NBUF];
    ghost var k := 0;
    while b != NBUF && !Keyed(buf[b], dev, blockno)
      invariant 0 <= k <= NBUF && b == Node(order, k)
      invariant forall j | 0 <= j < k :: !Keyed(buf[order[j]], dev, blockno)
      decreases NBUF - k
    {
      b, k := next[b], k + 1;
    }
    if b == NBUF {
      forall i | 0 <= i < |buf| ensures !Keyed(buf[i], dev, blockno) {
        OrderCovers(order, i);
      }
    }
  }

  /** The second loop of bget: the least recently used buffer that may be recycled. */
  method FindUnused(buf: seq<Buf>, ghost next: seq<nat>, prev: seq<nat>, ghost order: seq<nat>) returns (b: nat)
    requires |buf| == NBUF && |order| == NBUF && Linked(order, next, prev)
    ensures b <= NBUF
    ensures b < NBUF ==> LeastRecentlyUsable(buf, order, b)
    ensures b == NBUF ==> !SomeEvictable(buf)
  {
    b := prev[NBUF];
    ghost var k := NBUF - 1;
    while b != NBUF && !Evictable(buf[b])
      invariant -1 <= k < NBUF && b == Node(order, k)
      invariant forall j | k < j < NBUF :: !Evictable(buf[order[j]])
      decreases k
    {
      b, k := prev[b], k - 1;
    }
    if b == NBUF {
      forall i | 0 <= i < |buf| ensures !Evictable(buf[i]) {
        OrderCovers(order, i);
      }
    }
  }

  class BCache {
    var buf: seq<Buf>
    var next: seq<nat>
    var prev: seq<nat>
    /** Buffers whose sleep lock is held. */
    var held: set<nat>
    var disks: map<nat, Disk>

    /** The list from most to least recently used. */
    ghost var order: seq<nat>
    /** The value last written for each block, by bwrite or by log_write. */
    ghost var latest: map<nat, Disk>
    /** Every write the disk has performed, in order. */
    ghost var writes: seq<DiskWrite>

    ghost predicate Valid()
      reads this
    {
      && |order| == NBUF
      && Linked(order, next, prev)
      && CacheInv(buf, held, disks, latest)
    }

    /** binit. */
    constructor (image: map<nat, Disk>)
      ensures Valid()
      ensures disks == image && latest == image && writes == [] && held == {}
      ensures forall i | 0 <= i < NBUF :: buf[i] == Buf(0, 0, false, false, 0, ZeroBlock())
      ensures forall i | 0 <= i < NBUF :: order[i] == NBUF - 1 - i
    {
      var nx: seq<nat> := seq(NBUF + 1, _ => NBUF);
      var pv: seq<nat> := seq(NBUF + 1, _ => NBUF);
      ghost var list: seq<nat> := [];
      for b := 0 to NBUF
        invariant |list| == b
        invariant forall k | 0 <= k < b :: list[k] == b - 1 - k
        invariant Linked(list, nx, pv)
      {
        PushFront(list, nx, pv, b);
        pv := pv[b := NBUF][nx[NBUF] := b];
        nx := nx[b := nx[NBUF]][NBUF := b];
        list := [b] + list;
      }
      buf := seq(NBUF, _ => Buf(0, 0, false, false, 0, ZeroBlock()));
      next, prev, order := nx, pv, list;
      held := {};
      disks, latest, writes := image, image, [];
    }

    /** bget up to the point where the sleep lock is acquired. */
    method Bget(dev: nat, blockno: nat) returns (ok: bool, b: nat)
      requires Valid()
      modifies this`buf
      ensures Valid()
      ensures ok <==> Cached(old(buf), dev, blockno) || SomeEvictable(old(buf))
      ensures !ok ==> buf == old(buf)
      ensures ok ==> b < NBUF
      ensures ok && Cached(old(buf), dev, blockno) ==>
                Keyed(old(buf[b]), dev, blockno)
                && buf == old(buf)[b := old(buf[b]).(refcnt := old(buf[b]).refcnt + 1)]
      // a miss recycles the least recently used buffer that is neither referenced nor dirty
      ensures ok && !Cached(old(buf), dev, blockno) ==>
                LeastRecentlyUsable(old(buf), order, b)
                && buf == old(buf)[b := Buf(dev, blockno, false, false, 1, old(buf[b]).data)]
    {
      b := FindKey(buf, next, prev, order, dev, blockno);
      if b != NBUF {
        KeepsKey(buf, held, disks, latest, b, buf[b].(refcnt := buf[b].refcnt + 1), held);
        buf := buf[b := buf[b].(refcnt := buf[b].refcnt + 1)];
        return true, b;
      }
      b := FindUnused(buf, next, prev, order);
      if b != NBUF {
        Recycles(buf, held, disks, latest, b, Buf(dev, blockno, false, false, 1, buf[b].data));
        buf := buf[b := Buf(dev, blockno, false, false, 1, buf[b].data)];
        return true, b;
      }
      return false, NBUF;
    }

    /** acquiresleep(&b->lock) returning. */
    method Lock(b: nat)
      requires Valid()
      requires b < NBUF && b !in held && buf[b].refcnt > 0
      modifies this`held
      ensures Valid() && held == old(held) + {b}
    {
      KeepsKey(buf, held, disks, latest, b, buf[b], held + {b});
      assert buf[b := buf[b]] == buf;
      held := held + {b};
    }

    /** iderw on a locked buffer that is neither valid nor dirty: read the block. */
    method Fill(b: nat)
      requires Valid()
      requires b in held && !buf[b].valid && buf[b].dev != 0 && OnDisk(disks, buf[b].dev, buf[b].blockno)
      modifies this`buf
      ensures Valid()
      ensures buf == old(buf)[b := old(buf[b]).(valid := true, data := latest[old(buf[b]).dev][old(buf[b]).blockno])]
    {
      var x := buf[b].(valid := true, data := disks[buf[b].dev][buf[b].blockno]);
      assert !Pinned(buf, x.dev, x.blockno);
      KeepsKey(buf, held, disks, latest, b, x, held);
      buf := buf[b := x];
    }

    /** A valid buffer that nobody holds has the latest value. */
    lemma Fresh(b: nat)
      requires Valid() && b < NBUF && b !in held && buf[b].valid && buf[b].dev != 0
      ensures OnDisk(latest, buf[b].dev, buf[b].blockno) && buf[b].data == latest[buf[b].dev][buf[b].blockno]
    {
    }

    /**
     * bread.  If another process has the block locked, the caller has its reference and sleeps in
     * acquiresleep; its Lock and Fill come later.
     */
    method Bread(dev: nat, blockno: nat) returns (ok: bool, asleep: bool, b: nat)
      requires Valid()
      requires dev != 0 && OnDisk(disks, dev, blockno)
      modifies this`buf, this`held
      ensures Valid()
      ensures ok <==> Cached(old(buf), dev, blockno) || SomeEvictable(old(buf))
      ensures !ok ==> buf == old(buf) && held == old(held)
      ensures ok ==> b < NBUF && buf == old(buf)[b := buf[b]]
      ensures asleep <==> Locked(old(buf), old(held), dev, blockno)
      ensures asleep ==> ok && b in old(held) && held == old(held) && Keyed(old(buf[b]), dev, blockno)
      ensures asleep ==> buf[b] == old(buf[b]).(refcnt := old(buf[b]).refcnt + 1)
      ensures ok && !asleep ==> b !in old(held) && held == old(held) + {b}
      ensures ok && !asleep ==> buf[b].data == latest[dev][blockno]
      ensures ok && !asleep ==>
                buf[b] == Buf(dev, blockno, true, old(buf[b]).dirty, old(buf[b]).refcnt + 1, buf[b].data)
      ensures ok && Cached(old(buf), dev, blockno) ==> Keyed(old(buf[b]), dev, blockno)
      ensures ok && !Cached(old(buf), dev, blockno) ==> Evictable(old(buf[b]))
    {
      hide CacheInv, Linked;
      ghost var buf0 := buf;
      CacheSize(buf, held, disks, latest);
      ok, b := Bget(dev, blockno);
      if ok {
        LockedKey(buf0, held, disks, latest, dev, blockno, b);
      }
      asleep := ok && b in held;
      if ok && !asleep {
        Acquire(b);
      }
    }

    /** acquiresleep returns at once, and an invalid buffer is read. */
    method Acquire(b: nat)
      requires Valid()
      requires b < NBUF && b !in held && buf[b].refcnt > 0 && buf[b].dev != 0
      requires OnDisk(disks, buf[b].dev, buf[b].blockno)
      modifies this`buf, this`held
      ensures Valid()
      ensures held == old(held) + {b} && OnDisk(latest, old(buf[b]).dev, old(buf[b]).blockno)
      ensures buf == old(buf)[b := old(buf[b]).(valid := true, data := latest[old(buf[b]).dev][old(buf[b]).blockno])]
    {
      hide Linked, Unique, Coherent;
      if buf[b].valid {
        Fresh(b);
      }
      Lock(b);
      if !buf[b].valid {
        Fill(b);
      }
    }

    /** The caller stores into b->data. */
    method SetData(b: nat, data: Block)
      requires Valid()
      requires b in held
      modifies this`buf
      ensures Valid()
      ensures buf == old(buf)[b := old(buf[b]).(data := data)]
    {
      KeepsKey(buf, held, disks, latest, b, buf[b].(data := data), held);
      buf := buf[b := buf[b].(data := data)];
    }

    /** bwrite: set B_DIRTY and let the driver write the block, which clears it again. */
    method Bwrite(b: nat)
      requires Valid()
      requires b in held && buf[b].valid && buf[b].dev != 0
      modifies this`buf, this`disks, this`latest, this`writes
      ensures Valid()
      ensures buf == old(buf)[b := old(buf[b]).(dirty := false)]
      ensures OnDisk(old(disks), buf[b].dev, buf[b].blockno)
      ensures disks == PutBlock(old(disks), buf[b].dev, buf[b].blockno, buf[b].data)
      ensures latest == PutBlock(old(latest), buf[b].dev, buf[b].blockno, buf[b].data)
      ensures writes == old(writes) + [DiskWrite(buf[b].dev, buf[b].blockno, buf[b].data)]
    {
      hide CacheInv, Linked, PutBlock;
      HeldFacts(buf, held, disks, latest, b);
      Writes(buf, held, disks, latest, b);
      ghost var buf0, x := buf, buf[b];
      buf := buf[b := buf[b].(dirty := true)];
      disks := PutBlock(disks, buf[b].dev, buf[b].blockno, buf[b].data);
      latest := PutBlock(latest, buf[b].dev, buf[b].blockno, buf[b].data);
      writes := writes + [DiskWrite(buf[b].dev, buf[b].blockno, buf[b].data)];
      buf := buf[b := buf[b].(dirty := false)];
      assert buf == buf0[b := x.(dirty := false)];
    }

    /** log_write's b->flags |= B_DIRTY on a buffer the caller has changed. */
    method Pin(b: nat)
      requires Valid()
      requires b in held && buf[b].valid && buf[b].dev != 0
      modifies this`buf, this`latest
      ensures Valid()
      ensures buf == old(buf)[b := old(buf[b]).(dirty := true)]
      ensures OnDisk(old(latest), buf[b].dev, buf[b].blockno)
      ensures latest == PutBlock(old(latest), buf[b].dev, buf[b].blockno, buf[b].data)
    {
      Logs(buf, held, disks, latest, b);
      hide CacheInv, Linked;
      latest := PutBlock(latest, buf[b].dev, buf[b].blockno, buf[b].data);
      buf := buf[b := buf[b].(dirty := true)];
    }

    /** brelse.  A caller that changed the data has called bwrite or log_write since. */
    method Brelse(b: nat)
      requires Valid()
      requires b in held
      requires buf[b].valid && buf[b].dev != 0 ==> buf[b].data == latest[buf[b].dev][buf[b].blockno]
      modifies this`buf, this`held, this`next, this`prev, this`order
      ensures Valid()
      ensures held == old(held) - {b}
      ensures buf == old(buf)[b := old(buf[b]).(refcnt := old(buf[b]).refcnt - 1)]
      ensures buf[b].refcnt > 0 ==> order == old(order)
      ensures buf[b].refcnt == 0 ==>
                exists k: nat :: k < NBUF && old(order)[k] == b && order == [b] + Without(old(order), k)
    {
      hide CacheInv, Linked, Without, OnDisk;
      HeldFacts(buf, held, disks, latest, b);
      ReleaseInv(buf, held, disks, latest, b);
      held := held - {b};
      buf := buf[b := buf[b].(refcnt := buf[b].refcnt - 1)];
      if buf[b].refcnt == 0 {
        ToFront(b);
      }
    }

    /** The list surgery at the end of brelse. */
    method ToFront(b: nat)
      requires |order| == NBUF && Linked(order, next, prev) && b < NBUF
      modifies this`next, this`prev, this`order
      ensures |order| == NBUF && Linked(order, next, prev)
      ensures exists k: nat :: k < NBUF && old(order)[k] == b && order == [b] + Without(old(order), k)
    {
      hide Linked;
      ghost var k := MoveToFront(order, next, prev, b);
      prev := prev[next[b] := prev[b]];
      next := next[prev[b] := next[b]];
      prev := prev[b := NBUF][next[NBUF] := b];
      next := next[b := next[NBUF]][NBUF := b];
      order := [b] + Without(order, k);
    }
  }
}
