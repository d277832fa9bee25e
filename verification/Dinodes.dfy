/**
 * The bytes of an inode on disk: struct dinode of xv6/fs.h, packed several to a block, as iupdate
 * stores it and ilock reads it.
 */
module Dinodes {
  import opened Blocks
  import opened Common
  import opened FsSpec

  /** The type of a device in stat.h. */
  const T_DEV := 3

  const SHORT_LIMIT := 0x1_0000

  /** The length of a struct dinode in words: four shorts, the size and the addresses. */
  const DINODE_WORDS: Positive := NDIRECT + 4

  datatype Dinode = Dinode(kind: nat, major: nat, minor: nat, nlink: nat, size: nat, addrs: seq<nat>)

  predicate WfDinode(d: Dinode)
  {
    && d.kind < SHORT_LIMIT && d.major < SHORT_LIMIT && d.minor < SHORT_LIMIT && d.nlink < SHORT_LIMIT
    && d.size < UINT_LIMIT && |d.addrs| == NDIRECT + 1 && forall k | 0 <= k < |d.addrs| :: d.addrs[k] < UINT_LIMIT
  }

  /** What the file system's model keeps of an inode. */
  function InodeOf(d: Dinode): Inode
  {
    Inode(d.kind == T_DEV, d.size, d.addrs)
  }

  /** As many inodes fit in a block. */
  predicate FitIn(ipb: nat)
  {
    ipb * DINODE_WORDS <= WORDS
  }

  /** The first word of the inode in a slot of a block. */
  function Base(slot: nat): nat
  {
    slot * DINODE_WORDS
  }

  lemma SlotFits(ipb: nat, slot: nat)
    requires FitIn(ipb) && slot < ipb
    ensures Base(slot) + DINODE_WORDS <= WORDS
  {
    MulMonotone(slot + 1, ipb, DINODE_WORDS);
  }

  /** The words of different slots are different. */
  lemma SlotsApart(s: nat, t: nat)
    requires s < t
    ensures Base(s) + DINODE_WORDS <= Base(t)
  {
    MulMonotone(s + 1, t, DINODE_WORDS);
  }

  /** ilock: the inode in a slot of a block. */
  function GetDinode(b: Block, ipb: nat, slot: nat): Dinode
    requires FitIn(ipb) && slot < ipb
  {
    SlotFits(ipb, slot);
    var base := Base(slot);
    var w0, w1 := GetWord(b, base), GetWord(b, base + 1);
    Dinode(w0 % SHORT_LIMIT, w0 / SHORT_LIMIT, w1 % SHORT_LIMIT, w1 / SHORT_LIMIT, GetWord(b, base + 2),
           seq<nat>(NDIRECT + 1, k requires 0 <= k < NDIRECT + 1 => GetWord(b, base + 3 + k)))
  }

  function WordsOf(d: Dinode): (ws: seq<nat>)
    requires WfDinode(d)
    ensures |ws| == DINODE_WORDS && forall k | 0 <= k < |ws| :: ws[k] < UINT_LIMIT
  {
    [d.kind + SHORT_LIMIT * d.major, d.minor + SHORT_LIMIT * d.nlink, d.size] + d.addrs
  }

  /** iupdate: the inode is stored in its slot. */
  function PutDinode(b: Block, ipb: nat, slot: nat, d: Dinode): Block
    requires FitIn(ipb) && slot < ipb && WfDinode(d)
  {
    SlotFits(ipb, slot);
    PutWords(b, Base(slot), WordsOf(d))
  }

  lemma Halves(low: nat, high: nat)
    requires low < SHORT_LIMIT
    ensures (low + SHORT_LIMIT * high) % SHORT_LIMIT == low && (low + SHORT_LIMIT * high) / SHORT_LIMIT == high
  {
  }

  lemma WordsDecode(b: Block, ipb: nat, slot: nat, d: Dinode)
    requires FitIn(ipb) && slot < ipb && WfDinode(d) && Base(slot) + DINODE_WORDS <= WORDS
    requires forall j: nat | Base(slot) <= j < Base(slot) + DINODE_WORDS :: GetWord(b, j) == WordsOf(d)[j - Base(slot)]
    ensures GetDinode(b, ipb, slot) == d
  {
    hide GetWord, Base;
    Halves(d.kind, d.major);
    Halves(d.minor, d.nlink);
    assert GetDinode(b, ipb, slot).addrs == d.addrs;
  }

  lemma SameWordsDecode(b: Block, b': Block, ipb: nat, slot: nat)
    requires FitIn(ipb) && slot < ipb && Base(slot) + DINODE_WORDS <= WORDS
    requires forall j: nat | Base(slot) <= j < Base(slot) + DINODE_WORDS :: GetWord(b', j) == GetWord(b, j)
    ensures GetDinode(b', ipb, slot) == GetDinode(b, ipb, slot)
  {
    hide GetWord, Base;
    assert GetDinode(b', ipb, slot).addrs == GetDinode(b, ipb, slot).addrs;
  }

  /** A stored inode reads back, and storing it disturbs no other inode of the block. */
  lemma DinodeRoundTrip(b: Block, ipb: nat, slot: nat, d: Dinode, other: nat)
    requires FitIn(ipb) && slot < ipb && other < ipb && WfDinode(d)
    ensures GetDinode(PutDinode(b, ipb, slot, d), ipb, other) == if other == slot then d else GetDinode(b, ipb, other)
  {
    SlotFits(ipb, slot);
    SlotFits(ipb, other);
    if slot < other {
      SlotsApart(slot, other);
    } else if other < slot {
      SlotsApart(other, slot);
    }
    var b' := PutDinode(b, ipb, slot, d);
    hide GetWord, Base, PutWords, GetDinode, WordsOf, WfDinode, FitIn;
    forall j: nat | Base(other) <= j < Base(other) + DINODE_WORDS
      ensures GetWord(b', j) == if other == slot then WordsOf(d)[j - Base(slot)] else GetWord(b, j)
    {
      PutWordsGet(b, Base(slot), WordsOf(d), j);
    }
    if other == slot {
      WordsDecode(b', ipb, slot, d);
    } else {
      SameWordsDecode(b, b', ipb, other);
    }
  }
}
