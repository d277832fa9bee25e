/**
 * Pipes: a ring of bytes under a lock, with 32-bit counters that are left to overflow.  A method is one
 * stay in the critical section, from taking the lock to releasing it or going to sleep on it, so the calls
 * made on a pipe, by however many readers and writers, are any interleaving of their sections.
 */
module Pipes {
  import opened Common

  const PIPESIZE := 512

  /** How a stay in the critical section ended. */
  datatype Outcome = Returned | Failed | Asleep

  /** The cell of the ring for a position. */
  function Cell(n: nat): (r: nat)
    ensures r < PIPESIZE
  {
    n % PIPESIZE
  }

  /** Two positions less than a ring apart use different cells. */
  lemma CellsApart(i: nat, j: nat)
    requires i < j < i + PIPESIZE
    ensures Cell(i) != Cell(j)
  {
  }

  /** The overflow of the counters does not show: the ring size divides their range. */
  lemma CounterCell(n: nat)
    ensures Cell(U32(n)) == Cell(n)
  {
  }

  lemma CounterStep(n: nat)
    ensures U32(U32(n) + 1) == U32(n + 1)
  {
  }

  /** The comparisons for a full and an empty ring, made on wrapped counters, agree with the true counts. */
  lemma CounterTests(taken: nat, stored: nat)
    requires taken <= stored <= taken + PIPESIZE
    ensures U32(stored) == U32(U32(taken) + PIPESIZE) <==> stored == taken + PIPESIZE
    ensures U32(stored) == U32(taken) <==> stored == taken
  {
  }

  class Pipe {
    const data: array<byte>
    var nread: nat
    var nwrite: nat
    var readopen: bool
    var writeopen: bool
    /** Everything ever stored, and everything ever read, by all the sections so far. */
    ghost var stored: seq<byte>
    ghost var fetched: seq<byte>

    /** What was read is a prefix of what was stored, and the rest is in the ring, where the counters say. */
    ghost predicate Valid()
      reads this, data
    {
      && data.Length == PIPESIZE
      && fetched <= stored && |stored| <= |fetched| + PIPESIZE
      && nread == U32(|fetched|) && nwrite == U32(|stored|)
      && (forall k | |fetched| <= k < |stored| :: data[Cell(k)] == stored[k])
    }

    constructor ()
      ensures Valid() && stored == [] && fetched == [] && readopen && writeopen && fresh(this) && fresh(data)
    {
      data := new byte[PIPESIZE];
      nread, nwrite := 0, 0;
      readopen, writeopen := true, true;
      stored, fetched := [], [];
    }

    /** One byte into the ring. */
    method Store(x: byte)
      requires Valid() && |stored| < |fetched| + PIPESIZE
      modifies this`nwrite, this`stored, data
      ensures Valid() && stored == old(stored) + [x]
    {
      hide U32, Cell;
      CounterCell(|stored|);
      CounterStep(|stored|);
      forall k | |fetched| <= k < |stored|
        ensures Cell(k) != Cell(|stored|)
      {
        CellsApart(k, |stored|);
      }
      data[Cell(nwrite)] := x;
      nwrite := U32(nwrite + 1);
      stored := stored + [x];
    }

    /** One byte out of the ring, the oldest. */
    method Fetch() returns (x: byte)
      requires Valid() && |fetched| < |stored|
      modifies this`nread, this`fetched
      ensures Valid() && fetched == old(fetched) + [x]
    {
      hide U32, Cell;
      CounterCell(|fetched|);
      CounterStep(|fetched|);
      x := data[Cell(nread)];
      nread := U32(nread + 1);
      fetched := fetched + [x];
    }

    /**
     * pipewrite from byte i on: as many of the bytes as there is room for are stored, in order.  A full ring puts
     * the writer to sleep, or fails it if nobody can read or it has been killed.
     */
    method Write(addr: seq<byte>, i: nat, killed: bool) returns (i': nat, r: Outcome)
      requires Valid() && i <= |addr|
      modifies this`nwrite, this`stored, data
      ensures Valid() && i' == Min(|addr|, i + (|fetched| + PIPESIZE - |old(stored)|))
      ensures stored == old(stored) + addr[i..i']
      ensures r == if i' == |addr| then Returned else if !readopen || killed then Failed else Asleep
    {
      hide U32, Cell;
      i' := i;
      while i' < |addr|
        invariant Valid() && i <= i' <= |addr| && stored == old(stored) + addr[i..i']
      {
        CounterTests(|fetched|, |stored|);
        if nwrite == U32(nread + PIPESIZE) {
          if !readopen || killed {
            return i', Failed;
          }
          return i', Asleep;
        }
        Store(addr[i']);
        i' := i' + 1;
      }
      return i', Returned;
    }

    /**
     * piperead: with something to read, or no writer left, as many bytes as wanted and stored are taken, oldest first.
     * Otherwise the reader sleeps, or fails if it has been killed.
     */
    method Read(n: nat, killed: bool) returns (bytes: seq<byte>, r: Outcome)
      requires Valid()
      modifies this`nread, this`fetched
      ensures Valid() && fetched == old(fetched) + bytes
      ensures r == if stored == old(fetched) && writeopen then (if killed then Failed else Asleep) else Returned
      ensures |bytes| == if r == Returned then Min(n, |stored| - |old(fetched)|) else 0
    {
      hide U32, Cell;
      bytes := [];
      CounterTests(|fetched|, |stored|);
      if nread == nwrite && writeopen {
        if killed {
          return bytes, Failed;
        }
        return bytes, Asleep;
      }
      while |bytes| < n
        invariant Valid() && |bytes| <= n && fetched == old(fetched) + bytes
      {
        CounterTests(|fetched|, |stored|);
        if nread == nwrite {
          break;
        }
        var x := Fetch();
        bytes := bytes + [x];
      }
      return bytes, Returned;
    }

    /** pipeclose: the pipe is freed when its second end is closed. */
    method Close(writable: bool) returns (freed: bool)
      requires Valid()
      modifies this`readopen, this`writeopen
      ensures Valid() && writeopen == (old(writeopen) && !writable) && readopen == (old(readopen) && writable)
      ensures freed <==> !readopen && !writeopen
    {
      if writable {
        writeopen := false;
      } else {
        readopen := false;
      }
      return !readopen && !writeopen;
    }
  }
}
