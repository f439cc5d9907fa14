/** Pipes: a ring buffer with wrapping counters, and two semaphores to sleep on. */
module Pipes {
  import opened Common
  import opened Semaphores

  const PIPESIZE: nat := 512
  const U32: nat := 0x1_0000_0000

  /** The names the writer and the reader sleep under. */
  const WRITER: nat := 0
  const READER: nat := 1

  /** How one stretch under the lock ends: the call is over, has failed, or sleeps. */
  datatype Outcome = Done | Failed | Asleep

  /** The ring index of a counter is the same whether or not the counter has wrapped. */
  lemma WrapIndex(a: nat)
    ensures a % U32 % PIPESIZE == a % PIPESIZE
  {
    var c, r := a / U32, a % U32;
    assert a == PIPESIZE * (8388608 * c) + r;
  }

  lemma RingApart(a: nat, k: nat, n: nat)
    requires k < n < PIPESIZE
    ensures (a + k) % PIPESIZE != (a + n) % PIPESIZE
  {
  }

  /** The bytes in the ring, oldest first. */
  ghost predicate Holds(data: seq<int>, nread: nat, q: seq<int>) {
    |data| == PIPESIZE && |q| <= PIPESIZE && forall k :: 0 <= k < |q| ==> data[(nread + k) % PIPESIZE] == q[k]
  }

  lemma PutByte(data: seq<int>, nread: nat, q: seq<int>, c: int)
    requires Holds(data, nread, q) && |q| < PIPESIZE
    ensures Holds(data[(nread + |q|) % PIPESIZE := c], nread, q + [c])
  {
    var d := data[(nread + |q|) % PIPESIZE := c];
    forall k | 0 <= k < |q| + 1
      ensures d[(nread + k) % PIPESIZE] == (q + [c])[k]
    {
      if k < |q| {
        RingApart(nread, k, |q|);
      }
    }
  }

  lemma TakeByte(data: seq<int>, nread: nat, q: seq<int>)
    requires Holds(data, nread, q) && q != []
    ensures data[nread % PIPESIZE] == q[0] && Holds(data, (nread + 1) % U32, q[1..])
  {
    assert data[(nread + 0) % PIPESIZE] == q[0];
    forall k | 0 <= k < |q| - 1
      ensures data[((nread + 1) % U32 + k) % PIPESIZE] == q[1..][k]
    {
      WrapIndex(nread + 1);
      assert ((nread + 1) % U32 + k) % PIPESIZE == (nread + (k + 1)) % PIPESIZE;
      assert data[(nread + (k + 1)) % PIPESIZE] == q[k + 1];
    }
  }

  class Pipe {
    const data: array<int>
    var nread: nat
    var nwrite: nat
    var readopen: bool
    var writeopen: bool
    var rlock: Sem
    var wlock: Sem
    ghost var q: seq<int>
    ghost var written: seq<int>
    ghost var taken: seq<int>

    /** Counters and bytes: what has been read, then what is in the ring, is what has been written. */
    ghost predicate Buffer()
      reads this, data
    {
      && data.Length == PIPESIZE && nread < U32 && nwrite < U32
      && nwrite == (nread + |q|) % U32 && Holds(data[..], nread, q) && written == taken + q
    }

    /** Nobody sleeps who could go on. */
    ghost predicate Valid()
      reads this, data
    {
      && Buffer() && Law(rlock) && Law(wlock)
      && (forall x :: x in wlock.sleep || x in wlock.up ==> x == WRITER)
      && (forall x :: x in rlock.sleep || x in rlock.up ==> x == READER)
      && (wlock.sleep != [] ==> |q| == PIPESIZE && readopen)
      && (rlock.sleep != [] ==> q == [] && writeopen)
    }

    constructor ()
      ensures Valid() && fresh(data) && written == [] && readopen && writeopen
    {
      data := new int[PIPESIZE];
      nread, nwrite, readopen, writeopen := 0, 0, true, true;
      rlock, wlock := Init(0), Init(0);
      q, written, taken := [], [], [];
    }

    lemma NeverBothAsleep()
      requires Valid()
      ensures wlock.sleep == [] || rlock.sleep == []
      ensures (nwrite - nread) % U32 == |q| <= PIPESIZE && taken <= written
    {
    }

    /** Put one byte in the ring. */
    method Store(c: int)
      requires Buffer() && |q| < PIPESIZE
      modifies data, `nwrite, `q, `written
      ensures Buffer() && q == old(q) + [c] && written == old(written) + [c]
    {
      WrapIndex(nread + |q|);
      PutByte(data[..], nread, q, c);
      data[nwrite % PIPESIZE] := c;
      nwrite := (nwrite + 1) % U32;
      q, written := q + [c], written + [c];
    }

    method Fetch() returns (c: int)
      requires Buffer() && q != []
      modifies `nread, `q, `taken
      ensures Buffer() && c == old(q)[0] && q == old(q)[1..] && taken == old(taken) + [c]
    {
      TakeByte(data[..], nread, q);
      c := data[nread % PIPESIZE];
      nread := (nread + 1) % U32;
      q, taken := q[1..], taken + [c];
    }

    /** Store bytes of `src` from `i` on until there is no more, or no room. */
    method Fill(src: seq<int>, i: nat) returns (j: nat)
      requires Buffer() && i <= |src|
      modifies data, `nwrite, `q, `written
      ensures Buffer() && i <= j <= |src| && (j == |src| || |q| == PIPESIZE)
      ensures q == old(q) + src[i..j] && written == old(written) + src[i..j]
    {
      j := i;
      while j < |src| && nwrite != (nread + PIPESIZE) % U32
        invariant Buffer() && i <= j <= |src|
        invariant q == old(q) + src[i..j] && written == old(written) + src[i..j]
      {
        Store(src[j]);
        assert src[i..j] + [src[j]] == src[i..j + 1];
        j := j + 1;
      }
    }

    /**
     One stretch of a write under the lock, from byte `i` on. It ends with all bytes stored and
     the reader woken, with a failure, or asleep on a full pipe.
     */
    method Write(src: seq<int>, i: nat, killed: bool) returns (out: Outcome, j: nat)
      requires Valid() && i <= |src| && WRITER !in wlock.sleep && WRITER !in wlock.up
      modifies this, data
      ensures Valid() && i <= j <= |src|
      ensures written == old(written) + src[i..j] && taken == old(taken) && readopen == old(readopen) &&
              writeopen == old(writeopen)
      ensures out.Failed? <==> i < |src| && (!readopen || killed)
      ensures out.Failed? ==> j == i
      ensures out.Done? ==> j == |src|
      ensures !out.Failed? ==> rlock.sleep == []
      ensures out.Asleep? <==> WRITER in wlock.sleep
      ensures out.Asleep? ==> j < |src| && |q| == PIPESIZE
    {
      j := i;
      if i < |src| && (!readopen || killed) {
        return Failed, i;
      }
      j := Fill(src, i);
      StepKeepsLaw(rlock, PostAll);
      rlock := Step(rlock, PostAll);
      if j == |src| {
        return Done, j;
      }
      StepKeepsLaw(wlock, GetAll);
      wlock := Step(wlock, GetAll);
      StepKeepsLaw(wlock, Wait(WRITER));
      wlock := Step(wlock, Wait(WRITER));
      return Asleep, j;
    }

    /** Take up to `n` bytes, as many as there are. */
    method Drain(n: nat) returns (bytes: seq<int>)
      requires Buffer()
      modifies `nread, `q, `taken
      ensures Buffer() && bytes == old(q)[..if n < |old(q)| then n else |old(q)|]
      ensures old(q) == bytes + q && taken == old(taken) + bytes
    {
      bytes := [];
      ghost var all := q;
      while |bytes| < n && nread != nwrite
        invariant Buffer() && |bytes| <= n && |bytes| <= |all|
        invariant bytes == all[..|bytes|] && q == all[|bytes|..] && taken == old(taken) + bytes
        decreases n - |bytes|
      {
        var c := Fetch();
        bytes := bytes + [c];
      }
    }

    /**
     One stretch of a read under the lock: bytes are taken and the writer woken, or the reader
     sleeps on an empty pipe, or it has been killed.
     */
    method Read(n: nat, killed: bool) returns (out: Outcome, bytes: seq<int>)
      requires Valid() && READER !in rlock.sleep && READER !in rlock.up
      modifies this
      ensures Valid() && taken == old(taken) + bytes && written == old(written)
      ensures readopen == old(readopen) && writeopen == old(writeopen)
      ensures out.Done? <==> old(q) != [] || !writeopen
      ensures out.Done? ==> bytes == old(q)[..if n < |old(q)| then n else |old(q)|] && wlock.sleep == []
      ensures !out.Done? ==> bytes == [] && (out.Failed? <==> killed)
      ensures out.Asleep? <==> READER in rlock.sleep
    {
      bytes := [];
      if nread == nwrite && writeopen {
        if killed {
          return Failed, [];
        }
        StepKeepsLaw(rlock, GetAll);
        rlock := Step(rlock, GetAll);
        StepKeepsLaw(rlock, Wait(READER));
        rlock := Step(rlock, Wait(READER));
        return Asleep, [];
      }
      bytes := Drain(n);
      StepKeepsLaw(wlock, PostAll);
      wlock := Step(wlock, PostAll);
      out := Done;
    }

    /** A side given a token runs again. */
    method Wake(writer: bool)
      requires Valid() && if writer then WRITER in wlock.up else READER in rlock.up
      modifies this
      ensures Valid() && q == old(q) && written == old(written) && taken == old(taken)
      ensures if writer then WRITER !in wlock.sleep && WRITER !in wlock.up
              else READER !in rlock.sleep && READER !in rlock.up
    {
      if writer {
        StepKeepsLaw(wlock, Resume(WRITER));
        wlock := Step(wlock, Resume(WRITER));
      } else {
        StepKeepsLaw(rlock, Resume(READER));
        rlock := Step(rlock, Resume(READER));
      }
    }

    /** Close one end and wake whoever sleeps at the other; true when both are closed. */
    method Close(writable: bool) returns (gone: bool)
      requires Valid()
      modifies this
      ensures Valid() && q == old(q) && written == old(written) && taken == old(taken)
      ensures writeopen == (old(writeopen) && !writable) && readopen == (old(readopen) && writable)
      ensures if writable then rlock.sleep == [] else wlock.sleep == []
      ensures gone <==> !readopen && !writeopen
    {
      if writable {
        writeopen := false;
        AloneIsOne(rlock, READER);
        StepKeepsLaw(rlock, Post);
        rlock := Step(rlock, Post);
      } else {
        readopen := false;
        AloneIsOne(wlock, WRITER);
        StepKeepsLaw(wlock, Post);
        wlock := Step(wlock, Post);
      }
      gone := !readopen && !writeopen;
    }
  }

  lemma TwoDiffer(s: seq<nat>)
    requires NoDup(s) && |s| > 1
    ensures s[0] in s && s[1] in s && s[0] != s[1]
  {
  }

  /** With one name there is at most one sleeper. */
  lemma AloneIsOne(s: Sem, id: nat)
    requires Law(s) && forall x :: x in s.sleep ==> x == id
    ensures |s.sleep| <= 1
  {
    if |s.sleep| > 1 {
      TwoDiffer(s.sleep);
    }
  }
}
