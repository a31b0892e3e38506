/** The end of an apply pod's output. */
module TailBuffer {
  import opened Output

  function LastBytes(s: seq<byte>, max: nat): seq<byte> {
    if |s| > max then s[|s| - max..] else s
  }

  /** The longest end of s of at most max bytes. */
  lemma LastBytesExactly(s: seq<byte>, max: nat)
    ensures |LastBytes(s, max)| == if |s| < max then |s| else max
    ensures exists before :: s == before + LastBytes(s, max)
  {
    assert s == s[..|s| - |LastBytes(s, max)|] + LastBytes(s, max);
  }

  class TailBuffer {
    var b: seq<byte>
    const max: nat
    ghost var written: seq<byte>

    constructor (max: nat)
      ensures Valid() && this.max == max && written == []
    {
      b, this.max, written := [], max, [];
    }

    /** The buffer is the end of everything written. */
    ghost predicate Valid()
      reads this
    {
      b == LastBytes(written, max)
    }

    method Write(p: seq<byte>) returns (n: nat)
      requires Valid()
      modifies this
      ensures Valid() && written == old(written) + p && n == |p|
    {
      LastOfLast(written, p, max);
      b := b + p;
      if |b| > max {
        b := b[|b| - max..];
      }
      written := written + p;
      n := |p|;
    }
  }

  /** Cutting before a write loses nothing of the end after it. */
  lemma LastOfLast(s: seq<byte>, p: seq<byte>, max: nat)
    ensures LastBytes(LastBytes(s, max) + p, max) == LastBytes(s + p, max)
  {
    if |s| > max {
      var k := |s| - max;
      assert s + p == s[..k] + (s[k..] + p);
    }
  }

  /** However the output is split into writes, the same end is kept. */
  function WriteAll(b: seq<byte>, ps: seq<seq<byte>>, max: nat): seq<byte> {
    if ps == [] then b else LastBytes(WriteAll(b, ps[..|ps| - 1], max) + ps[|ps| - 1], max)
  }

  function Joined(ps: seq<seq<byte>>): seq<byte> {
    if ps == [] then [] else Joined(ps[..|ps| - 1]) + ps[|ps| - 1]
  }

  lemma {:induction false} SplitsDoNotMatter(ps: seq<seq<byte>>, max: nat)
    ensures WriteAll([], ps, max) == LastBytes(Joined(ps), max)
  {
    if ps != [] {
      SplitsDoNotMatter(ps[..|ps| - 1], max);
      LastOfLast(Joined(ps[..|ps| - 1]), ps[|ps| - 1], max);
    }
  }
}
