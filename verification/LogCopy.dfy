/**
 * The block copy at the heart of write_log and install_trans in xv6/log.c, and the supply of
 * buffers it needs.
 */
module LogCopy {
  import opened Blocks
  import opened Common
  import opened BufferCache

  datatype Key = Key(dev: nat, blockno: nat)

  /** The blocks that log_write has pinned in the cache. */
  ghost function PinnedKeys(buf: seq<Buf>): set<Key>
  {
    set i | 0 <= i < |buf| && buf[i].dirty :: Key(buf[i].dev, buf[i].blockno)
  }

  /** Only the buffers in held are referenced. */
  ghost predicate OnlyHeld(buf: seq<Buf>, held: set<nat>)
  {
    forall i: nat | i < |buf| && i !in held :: buf[i].refcnt == 0
  }

  ghost predicate RealDevices(keys: set<Key>)
  {
    forall k | k in keys :: k.dev != 0
  }

  lemma PinnedKeysIff(buf: seq<Buf>, dev: nat, blockno: nat)
    ensures Pinned(buf, dev, blockno) <==> Key(dev, blockno) in PinnedKeys(buf)
  {
    if Pinned(buf, dev, blockno) {
      var i :| 0 <= i < |buf| && Keyed(buf[i], dev, blockno) && buf[i].dirty;
      assert Key(buf[i].dev, buf[i].blockno) in PinnedKeys(buf);
    }
    if Key(dev, blockno) in PinnedKeys(buf) {
      var i :| 0 <= i < |buf| && buf[i].dirty && Key(buf[i].dev, buf[i].blockno) == Key(dev, blockno);
      assert Keyed(buf[i], dev, blockno);
    }
  }

  /** An update that neither pins nor unpins. */
  lemma PinsSame(buf: seq<Buf>, b: nat, nb: Buf)
    requires b < |buf|
    requires nb.dirty == buf[b].dirty
    requires nb.dirty ==> Keyed(nb, buf[b].dev, buf[b].blockno)
    ensures PinnedKeys(buf[b := nb]) == PinnedKeys(buf)
  {
    var buf' := buf[b := nb];
    forall k | k in PinnedKeys(buf) ensures k in PinnedKeys(buf') {
      var i :| 0 <= i < |buf| && buf[i].dirty && Key(buf[i].dev, buf[i].blockno) == k;
      assert buf'[i].dirty && Key(buf'[i].dev, buf'[i].blockno) == k;
    }
    forall k | k in PinnedKeys(buf') ensures k in PinnedKeys(buf) {
      var i :| 0 <= i < |buf'| && buf'[i].dirty && Key(buf'[i].dev, buf'[i].blockno) == k;
      assert buf[i].dirty && Key(buf[i].dev, buf[i].blockno) == k;
    }
  }

  /** Clearing the dirty bit of b unpins its block and no other. */
  lemma PinsDrop(buf: seq<Buf>, b: nat)
    requires b < |buf| && Unique(buf) && buf[b].dev != 0
    ensures PinnedKeys(buf[b := buf[b].(dirty := false)]) == PinnedKeys(buf) - {Key(buf[b].dev, buf[b].blockno)}
  {
    var buf' := buf[b := buf[b].(dirty := false)];
    var key := Key(buf[b].dev, buf[b].blockno);
    forall k | k in PinnedKeys(buf) && k != key ensures k in PinnedKeys(buf') {
      var i :| 0 <= i < |buf| && buf[i].dirty && Key(buf[i].dev, buf[i].blockno) == k;
      assert buf'[i] == buf[i];
    }
    forall k | k in PinnedKeys(buf') ensures k in PinnedKeys(buf) && k != key {
      var i :| 0 <= i < |buf'| && buf'[i].dirty && Key(buf'[i].dev, buf'[i].blockno) == k;
      assert i != b && buf[i] == buf'[i];
      assert !Keyed(buf[i], buf[b].dev, buf[b].blockno);
    }
  }

  /** Setting the dirty bit of b pins its block. */
  lemma PinsAdd(buf: seq<Buf>, b: nat)
    requires b < |buf|
    ensures PinnedKeys(buf[b := buf[b].(dirty := true)]) == PinnedKeys(buf) + {Key(buf[b].dev, buf[b].blockno)}
  {
    var buf' := buf[b := buf[b].(dirty := true)];
    var key := Key(buf[b].dev, buf[b].blockno);
    assert buf'[b].dirty && Key(buf'[b].dev, buf'[b].blockno) == key;
    forall k | k in PinnedKeys(buf) ensures k in PinnedKeys(buf') {
      var i :| 0 <= i < |buf| && buf[i].dirty && Key(buf[i].dev, buf[i].blockno) == k;
      assert buf'[i].dirty && Key(buf'[i].dev, buf'[i].blockno) == k;
    }
    forall k | k in PinnedKeys(buf') && k != key ensures k in PinnedKeys(buf) {
      var i :| 0 <= i < |buf'| && buf'[i].dirty && Key(buf'[i].dev, buf'[i].blockno) == k;
      assert buf[i] == buf'[i];
    }
  }

  lemma InjectionSize(s: set<nat>, buf: seq<Buf>, t: set<Key>)
    requires forall i | i in s :: i < |buf| && Key(buf[i].dev, buf[i].blockno) in t
    requires forall i, j | i in s && j in s && i != j ::
               Key(buf[i].dev, buf[i].blockno) != Key(buf[j].dev, buf[j].blockno)
    ensures |s| <= |t|
  {
    if i :| i in s {
      InjectionSize(s - {i}, buf, t - {Key(buf[i].dev, buf[i].blockno)});
    }
  }

  /** The busy buffers are the referenced ones and, one per pinned block, the dirty ones. */
  lemma Supply(buf: seq<Buf>, referenced: set<nat>)
    requires |buf| == NBUF && Unique(buf)
    requires OnlyHeld(buf, referenced) && RealDevices(PinnedKeys(buf))
    requires |PinnedKeys(buf)| + |referenced| < NBUF
    ensures SomeEvictable(buf)
  {
    var busy := Busy(buf) - referenced;
    forall i | i in busy
      ensures i < |buf| && Key(buf[i].dev, buf[i].blockno) in PinnedKeys(buf) && buf[i].dev != 0
    {
      assert Key(buf[i].dev, buf[i].blockno) in PinnedKeys(buf);
    }
    forall i, j | i in busy && j in busy && i != j
      ensures Key(buf[i].dev, buf[i].blockno) != Key(buf[j].dev, buf[j].blockno)
    {
      assert !Keyed(buf[j], buf[i].dev, buf[i].blockno);
    }
    InjectionSize(busy, buf, PinnedKeys(buf));
    SubsetSize(Busy(buf), busy + referenced);
    SupplySuffices(buf);
  }

  /** What a copier needs of the cache: nobody else uses a buffer and one more can be had. */
  ghost predicate CanCopy(bc: BCache)
    reads bc
  {
    && bc.Valid() && bc.held == {}
    && OnlyHeld(bc.buf, {}) && RealDevices(PinnedKeys(bc.buf))
    && |PinnedKeys(bc.buf)| < NBUF
  }

  /** bread of a block when only the buffers in held are referenced. */
  method ReadBlock(bc: BCache, dev: nat, blockno: nat) returns (b: nat)
    requires bc.Valid() && dev != 0 && OnDisk(bc.disks, dev, blockno)
    requires forall i | i in bc.held :: !Keyed(bc.buf[i], dev, blockno)
    requires OnlyHeld(bc.buf, bc.held) && RealDevices(PinnedKeys(bc.buf))
    requires |PinnedKeys(bc.buf)| + |bc.held| < NBUF || Pinned(bc.buf, dev, blockno)
    modifies bc`buf, bc`held
    ensures bc.Valid() && b < NBUF && b !in old(bc.held) && bc.held == old(bc.held) + {b}
    ensures bc.buf == old(bc.buf)[b := bc.buf[b]]
    ensures bc.buf[b] == Buf(dev, blockno, true, old(bc.buf[b]).dirty, 1, bc.latest[dev][blockno])
    ensures PinnedKeys(bc.buf) == PinnedKeys(old(bc.buf))
    ensures OnlyHeld(bc.buf, bc.held)
  {
    ghost var buf0 := bc.buf;
    assert Cached(bc.buf, dev, blockno) || SomeEvictable(bc.buf) by {
      if Pinned(bc.buf, dev, blockno) {
        var i :| 0 <= i < |bc.buf| && Keyed(bc.buf[i], dev, blockno) && bc.buf[i].dirty;
      } else {
        Supply(bc.buf, bc.held);
      }
    }
    hide CacheInv, Linked;
    var ok, asleep;
    ok, asleep, b := bc.Bread(dev, blockno);
    PinsSame(buf0, b, bc.buf[b]);
  }

  /** The two buffers of a copy have been read and are all that is held. */
  ghost predicate Holding(bc: BCache, dev: nat, x: nat, xno: nat, y: nat, yno: nat)
    reads bc
  {
    && bc.Valid() && x != y && bc.held == {x, y} && x < NBUF && y < NBUF
    && dev != 0 && xno != yno && OnDisk(bc.latest, dev, xno) && OnDisk(bc.latest, dev, yno)
    && bc.buf[x] == Buf(dev, xno, true, bc.buf[x].dirty, 1, bc.latest[dev][xno])
    && bc.buf[y] == Buf(dev, yno, true, bc.buf[y].dirty, 1, bc.latest[dev][yno])
    && OnlyHeld(bc.buf, {x, y})
  }

  lemma LatestOnDisk(buf: seq<Buf>, held: set<nat>, disks: map<nat, Disk>, latest: map<nat, Disk>, dev: nat, blockno: nat)
    requires CacheInv(buf, held, disks, latest)
    ensures OnDisk(latest, dev, blockno) <==> OnDisk(disks, dev, blockno)
  {
  }

  method ReadBoth(bc: BCache, dev: nat, logb: nat, home: nat) returns (l: nat, h: nat)
    requires CanCopy(bc)
    requires dev != 0 && OnDisk(bc.disks, dev, logb) && OnDisk(bc.disks, dev, home) && logb != home
    requires |PinnedKeys(bc.buf)| + 1 < NBUF || Key(dev, home) in PinnedKeys(bc.buf)
    modifies bc`buf, bc`held
    ensures Holding(bc, dev, l, logb, h, home)
    ensures PinnedKeys(bc.buf) == PinnedKeys(old(bc.buf))
  {
    hide CacheInv, Linked, PinnedKeys, Pinned, OnDisk, OnlyHeld, RealDevices;
    CacheSize(bc.buf, bc.held, bc.disks, bc.latest);
    LatestOnDisk(bc.buf, bc.held, bc.disks, bc.latest, dev, logb);
    LatestOnDisk(bc.buf, bc.held, bc.disks, bc.latest, dev, home);
    l := ReadBlock(bc, dev, logb);
    PinnedKeysIff(bc.buf, dev, home);
    assert bc.held == {l};
    h := ReadBlock(bc, dev, home);
    assert bc.held == {l, h};
  }

  /** Store buffer src's data in buffer dst, write it, and release both. */
  method WriteAndRelease(bc: BCache, dev: nat, dst: nat, src: nat, ghost dno: nat, ghost sno: nat)
    requires Holding(bc, dev, dst, dno, src, sno)
    modifies bc
    ensures bc.Valid() && bc.held == {} && OnlyHeld(bc.buf, {})
    ensures OnDisk(old(bc.disks), dev, dno)
    ensures bc.disks == PutBlock(old(bc.disks), dev, dno, old(bc.latest)[dev][sno])
    ensures bc.latest == PutBlock(old(bc.latest), dev, dno, old(bc.latest)[dev][sno])
    ensures bc.writes == old(bc.writes) + [DiskWrite(dev, dno, old(bc.latest)[dev][sno])]
    ensures PinnedKeys(bc.buf) == PinnedKeys(old(bc.buf)) - {Key(dev, dno)}
  {
    hide Unique, WriteBack, Coherent, Linked, PinnedKeys;
    ghost var data := bc.buf[src].data;
    ghost var buf0 := bc.buf;
    PinsSame(buf0, dst, buf0[dst].(data := data));
    bc.SetData(dst, bc.buf[src].data);
    ghost var buf1 := bc.buf;
    PinsDrop(buf1, dst);
    bc.Bwrite(dst);
    ghost var buf2 := bc.buf;
    PinsSame(buf2, src, buf2[src].(refcnt := 0));
    bc.Brelse(src);
    ghost var buf3 := bc.buf;
    PinsSame(buf3, dst, buf3[dst].(refcnt := 0));
    bc.Brelse(dst);
  }

  /** One buffer has been read and is all that is held. */
  ghost predicate HoldingOne(bc: BCache, dev: nat, x: nat, xno: nat)
    reads bc
  {
    && bc.Valid() && bc.held == {x} && x < NBUF
    && dev != 0 && OnDisk(bc.latest, dev, xno)
    && bc.buf[x] == Buf(dev, xno, true, bc.buf[x].dirty, 1, bc.latest[dev][xno])
    && OnlyHeld(bc.buf, {x})
  }

  method ReadOne(bc: BCache, dev: nat, blockno: nat) returns (b: nat)
    requires CanCopy(bc)
    requires dev != 0 && OnDisk(bc.disks, dev, blockno)
    modifies bc`buf, bc`held
    ensures HoldingOne(bc, dev, b, blockno)
    ensures PinnedKeys(bc.buf) == PinnedKeys(old(bc.buf))
  {
    LatestOnDisk(bc.buf, bc.held, bc.disks, bc.latest, dev, blockno);
    hide Unique, WriteBack, Coherent, Linked, PinnedKeys, Pinned, OnlyHeld, RealDevices;
    b := ReadBlock(bc, dev, blockno);
    assert bc.held == {b};
  }

  method Release(bc: BCache, dev: nat, b: nat, ghost blockno: nat)
    requires HoldingOne(bc, dev, b, blockno)
    modifies bc`buf, bc`held, bc`next, bc`prev, bc`order
    ensures bc.Valid() && bc.held == {} && OnlyHeld(bc.buf, {})
    ensures PinnedKeys(bc.buf) == PinnedKeys(old(bc.buf))
  {
    hide Unique, WriteBack, Coherent, Linked, PinnedKeys;
    PinsSame(bc.buf, b, bc.buf[b].(refcnt := 0));
    bc.Brelse(b);
  }

  /** Store data in the one held buffer, write it, and release it. */
  method StoreOne(bc: BCache, dev: nat, b: nat, ghost blockno: nat, data: Block)
    requires HoldingOne(bc, dev, b, blockno)
    modifies bc
    ensures bc.Valid() && bc.held == {} && OnlyHeld(bc.buf, {})
    ensures OnDisk(old(bc.disks), dev, blockno)
    ensures bc.disks == PutBlock(old(bc.disks), dev, blockno, data)
    ensures bc.latest == PutBlock(old(bc.latest), dev, blockno, data)
    ensures bc.writes == old(bc.writes) + [DiskWrite(dev, blockno, data)]
    ensures PinnedKeys(bc.buf) == PinnedKeys(old(bc.buf)) - {Key(dev, blockno)}
  {
    hide Unique, WriteBack, Coherent, Linked, PinnedKeys;
    ghost var buf0 := bc.buf;
    PinsSame(buf0, b, buf0[b].(data := data));
    bc.SetData(b, data);
    ghost var buf1 := bc.buf;
    PinsDrop(buf1, b);
    bc.Bwrite(b);
    ghost var buf2 := bc.buf;
    PinsSame(buf2, b, buf2[b].(refcnt := 0));
    bc.Brelse(b);
  }

  /**
   * Copy one block over another, as write_log (toLog) and install_trans (!toLog) do: read the
   * log block, read the home block, copy, write the destination, release both.
   */
  method CopyBlock(bc: BCache, dev: nat, logb: nat, home: nat, toLog: bool)
    requires CanCopy(bc)
    requires dev != 0 && OnDisk(bc.disks, dev, logb) && OnDisk(bc.disks, dev, home) && logb != home
    requires |PinnedKeys(bc.buf)| + 1 < NBUF || Key(dev, home) in PinnedKeys(bc.buf)
    modifies bc
    ensures CanCopy(bc)
    ensures var (dst, src) := if toLog then (logb, home) else (home, logb);
            var data := old(bc.latest)[dev][src];
            && bc.disks == PutBlock(old(bc.disks), dev, dst, data)
            && bc.latest == PutBlock(old(bc.latest), dev, dst, data)
            && bc.writes == old(bc.writes) + [DiskWrite(dev, dst, data)]
            && PinnedKeys(bc.buf) == PinnedKeys(old(bc.buf)) - {Key(dev, dst)}
  {
    hide CacheInv, Linked, PinnedKeys, PutBlock;
    var l, h := ReadBoth(bc, dev, logb, home);
    if toLog {
      WriteAndRelease(bc, dev, l, h, logb, home);
    } else {
      WriteAndRelease(bc, dev, h, l, home, logb);
    }
    SubsetSize(PinnedKeys(bc.buf), PinnedKeys(old(bc.buf)));
  }
}
