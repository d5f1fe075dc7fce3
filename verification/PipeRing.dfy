/** The ring buffer of a pipe, whose counters are 32-bit and wrap.
 */
module PipeRing {

  const PIPESIZE: nat := 512
  const WRAP: nat := 0x1_0000_0000

  type byte = b: int | 0 <= b < 256

  /** struct pipe without its lock. */
  datatype Data = Data(data: seq<byte>, nread: nat, nwrite: nat, readopen: bool, writeopen: bool)

  predicate Full(d: Data) { d.nwrite == (d.nread + PIPESIZE) % WRAP }

  predicate Empty(d: Data) { d.nread == d.nwrite }

  function Push(d: Data, b: byte): Data
    requires |d.data| == PIPESIZE
  {
    d.(data := d.data[d.nwrite % PIPESIZE := b], nwrite := (d.nwrite + 1) % WRAP)
  }

  function Front(d: Data): byte
    requires |d.data| == PIPESIZE
  {
    d.data[d.nread % PIPESIZE]
  }

  function Pop(d: Data): Data {
    d.(nread := (d.nread + 1) % WRAP)
  }

  /** Of the bytes written so far, `read` came first and the rest are in the ring. */
  ghost predicate Fifo(d: Data, written: seq<byte>, read: seq<byte>) {
    && |d.data| == PIPESIZE && read <= written && |written| - |read| <= PIPESIZE
    && d.nread == |read| % WRAP && d.nwrite == |written| % WRAP
    && forall k {:trigger written[k]} :: |read| <= k < |written| ==> d.data[k % PIPESIZE] == written[k]
  }

  lemma WrapIndex(k: nat)
    ensures (k % WRAP) % PIPESIZE == k % PIPESIZE
  {
  }

  /** The counters tell how many bytes are in the ring, wrapped or not. */
  lemma CountersTell(d: Data, written: seq<byte>, read: seq<byte>)
    requires Fifo(d, written, read)
    ensures Full(d) <==> |written| - |read| == PIPESIZE
    ensures Empty(d) <==> |written| == |read|
    ensures (d.nwrite - d.nread) % WRAP == |written| - |read|
  {
  }

  lemma SlotsDiffer(k: nat, w: nat)
    requires k < w < k + PIPESIZE
    ensures k % PIPESIZE != w % PIPESIZE
  {
  }

  lemma Succ(k: nat)
    ensures (k % WRAP + 1) % WRAP == (k + 1) % WRAP
  {
  }

  lemma PushKeeps(d: Data, written: seq<byte>, read: seq<byte>, b: byte)
    requires Fifo(d, written, read) && !Full(d)
    ensures Fifo(Push(d, b), written + [b], read)
  {
    CountersTell(d, written, read);
    WrapIndex(|written|);
    var d', w' := Push(d, b), written + [b];
    Succ(|written|);
    forall k | |read| <= k < |w'| ensures d'.data[k % PIPESIZE] == w'[k] {
      if k < |written| {
        assert w'[k] == written[k];
        SlotsDiffer(k, |written|);
      }
    }
  }

  /** The byte taken is the next one in the order of writing. */
  lemma PopKeeps(d: Data, written: seq<byte>, read: seq<byte>)
    requires Fifo(d, written, read) && !Empty(d)
    ensures |read| < |written| && Front(d) == written[|read|]
    ensures Fifo(Pop(d), written, read + [Front(d)])
  {
    CountersTell(d, written, read);
    WrapIndex(|read|);
    Succ(|read|);
  }

  /** The loops of pipewrite and piperead that run without giving up the lock. */
  class Ring {
    var data: array<byte>
    var nread: nat
    var nwrite: nat
    var readopen: bool
    var writeopen: bool
    ghost var written: seq<byte>
    ghost var read: seq<byte>

    ghost function State(): Data
      reads this, data
    {
      Data(data[..], nread, nwrite, readopen, writeopen)
    }

    ghost predicate Valid()
      reads this, data
    {
      Fifo(State(), written, read)
    }

    constructor ()
      ensures Valid() && fresh(data) && written == [] && read == [] && readopen && writeopen
    {
      data := new byte[PIPESIZE](_ => 0);
      nread, nwrite, readopen, writeopen := 0, 0, true, true;
      written, read := [], [];
    }

    /** pipewrite from byte i on, up to the next full ring. */
    method Fill(addr: seq<byte>, i: nat) returns (j: nat)
      requires Valid() && i <= |addr|
      modifies this`nwrite, this`written, data
      ensures Valid() && i <= j <= |addr| && written == old(written) + addr[i..j]
      ensures j < |addr| ==> |written| - |read| == PIPESIZE
      ensures j - i == if |addr| - i < PIPESIZE - (|old(written)| - |read|) then |addr| - i
              else PIPESIZE - (|old(written)| - |read|)
    {
      j := i;
      while j < |addr|
        invariant i <= j <= |addr| && Valid() && written == old(written) + addr[i..j]
      {
        CountersTell(State(), written, read);
        if nwrite == (nread + PIPESIZE) % WRAP {
          return;
        }
        PushKeeps(State(), written, read, addr[j]);
        ghost var d := Push(State(), addr[j]);
        data[nwrite % PIPESIZE] := addr[j];
        nwrite := (nwrite + 1) % WRAP;
        assert State() == d;
        written := written + [addr[j]];
        j := j + 1;
      }
    }

    /** piperead's copy loop: up to n bytes, fewer only if the ring runs empty. */
    method Drain(n: nat) returns (addr: seq<byte>)
      requires Valid()
      modifies this`nread, this`read
      ensures Valid() && read == old(read) + addr
      ensures |addr| == if n < |written| - |old(read)| then n else |written| - |old(read)|
      ensures addr == written[|old(read)|..|old(read)| + |addr|]
    {
      addr := [];
      for i := 0 to n
        invariant |addr| == i && Valid() && read == old(read) + addr
        invariant |old(read)| + i <= |written| && addr == written[|old(read)|..|old(read)| + i]
      {
        CountersTell(State(), written, read);
        if nread == nwrite {
          return;
        }
        PopKeeps(State(), written, read);
        ghost var d := Pop(State());
        var b := data[nread % PIPESIZE];
        nread := (nread + 1) % WRAP;
        assert State() == d;
        addr := addr + [b];
        read := read + [b];
      }
    }
  }
}
