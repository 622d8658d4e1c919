/** Command output collected up to a limit, with a callback on the first overrun. */
module CappedBuffer {
  function First(s: seq<bv8>, limit: nat): seq<bv8> {
    if |s| <= limit then s else s[..limit]
  }

  class Buffer {
    var buf: seq<bv8>
    const limit: nat
    var exceeded: bool
    /** Everything ever written, how often the callback ran, and whether an empty write met a full buffer. */
    ghost var written: seq<bv8>
    var fired: nat
    ghost var emptyOnFull: bool

    ghost predicate Valid()
      reads this
    {
      && buf == First(written, limit)
      && (exceeded <==> |written| > limit || emptyOnFull)
      && fired == (if exceeded then 1 else 0)
      && (emptyOnFull ==> |written| >= limit)
    }

    constructor (limit: nat)
      ensures Valid() && written == [] && this.limit == limit && !emptyOnFull
    {
      this.limit := limit;
      buf, exceeded, fired := [], false, 0;
      written, emptyOnFull := [], false;
    }

    /** After any writes the buffer holds the first `limit` bytes of them. The callback has run at most
        once: exactly when more was written, or when an empty write met a full buffer. */
    method Write(p: seq<bv8>) returns (n: nat)
      requires Valid()
      modifies this
      ensures Valid() && n == |p|
      ensures written == old(written) + p
      ensures emptyOnFull == (old(emptyOnFull) || (p == [] && !old(exceeded) && |old(written)| == limit))
      ensures p != [] && !old(emptyOnFull) ==> (exceeded <==> |written| > limit)
    {
      n := |p|;
      written := written + p;
      if exceeded {
        return;
      }
      var remain := limit - |buf|;
      if remain <= 0 {
        emptyOnFull := p == [];
        exceeded := true;
        fired := fired + 1;
        return;
      }
      if |p| > remain {
        buf := buf + p[..remain];
        exceeded := true;
        fired := fired + 1;
        return;
      }
      buf := buf + p;
    }
  }

  /** An output of exactly the limit, and then an empty write: nothing is lost, and the callback fires. */
  method EmptyWriteFires(output: seq<bv8>) returns (kept: seq<bv8>, firedBefore: nat, firedAfter: nat)
    ensures kept == output && firedBefore == 0 && firedAfter == 1
  {
    var b := new Buffer(|output|);
    if output != [] {
      var _ := b.Write(output);
    }
    assert b.written == output;
    firedBefore := b.fired;
    var _ := b.Write([]);
    kept, firedAfter := b.buf, b.fired;
  }
}
