/** Byte strings, Python slicing and big-endian integers, shared by the MaxMind DB modules. */
module Bytes {
  type byte = x: int | 0 <= x < 256

  /** The exceptions the MaxMind DB reader can raise. */
  datatype Error = IndexError | StructError | RecursionError | TypeError | MMDBError

  datatype Result<+T> = Ok(value: T) | Err(error: Error) {
    predicate IsFailure() { Err? }
    function PropagateFailure<U>(): Result<U>
      requires Err?
    { Err(error) }
    function Extract(): T
      requires Ok?
    { value }
  }

  /** Python's buf[lo:hi]: a slice that runs past the end of the buffer is cut short, not refused. */
  function Slice(buf: seq<byte>, lo: nat, hi: nat): seq<byte>
    requires lo <= hi
  {
    if |buf| <= lo then [] else if |buf| <= hi then buf[lo..] else buf[lo..hi]
  }

  /** s sits in buf at offset off. */
  predicate At(buf: seq<byte>, off: nat, s: seq<byte>) {
    off + |s| <= |buf| && buf[off..off + |s|] == s
  }

  lemma AtSplit(buf: seq<byte>, off: nat, a: seq<byte>, b: seq<byte>)
    requires At(buf, off, a + b)
    ensures At(buf, off, a) && At(buf, off + |a|, b)
  {
    var s := buf[off..off + |a + b|];
    assert s[..|a|] == a && s[|a|..] == b;
    assert buf[off..off + |a|] == s[..|a|];
    assert buf[off + |a|..off + |a| + |b|] == s[|a|..];
  }

  lemma AtSlice(buf: seq<byte>, off: nat, s: seq<byte>)
    requires At(buf, off, s)
    ensures Slice(buf, off, off + |s|) == s
  {
  }

  lemma AtIndex(buf: seq<byte>, off: nat, s: seq<byte>)
    requires At(buf, off, s) && |s| > 0
    ensures off < |buf| && buf[off] == s[0] && At(buf, off + 1, s[1..])
  {
    assert s == [s[0]] + s[1..];
    AtSplit(buf, off, [s[0]], s[1..]);
    assert buf[off] == buf[off..off + 1][0];
  }

  lemma AtFirst(buf: seq<byte>, off: nat, s: seq<byte>)
    ensures At(buf, off, s) && |s| > 0 ==> off < |buf| && buf[off] == s[0]
  {
    if At(buf, off, s) && |s| > 0 { AtIndex(buf, off, s); }
  }

  function Pow256(n: nat): (p: nat)
    ensures p > 0
  {
    if n == 0 then 1 else 256 * Pow256(n - 1)
  }

  /** int.from_bytes(s, "big"). */
  function FromBytes(s: seq<byte>): nat {
    if s == [] then 0 else FromBytes(s[..|s| - 1]) * 256 + s[|s| - 1]
  }

  /** n.to_bytes(width, "big"), for a number that fits. */
  function ToBytes(n: nat, width: nat): (s: seq<byte>)
    ensures |s| == width
  {
    if width == 0 then [] else ToBytes(n / 256, width - 1) + [n % 256]
  }

  lemma {:induction false} FromToBytes(n: nat, width: nat)
    requires n < Pow256(width)
    ensures FromBytes(ToBytes(n, width)) == n
  {
    if width > 0 {
      FromToBytes(n / 256, width - 1);
      var s := ToBytes(n, width);
      assert s[..|s| - 1] == ToBytes(n / 256, width - 1);
    }
  }

  lemma {:induction false} FromBytesBound(s: seq<byte>)
    ensures FromBytes(s) < Pow256(|s|)
  {
    if s != [] {
      FromBytesBound(s[..|s| - 1]);
    }
  }

  lemma Pow256Values()
    ensures Pow256(1) == 256 && Pow256(2) == 65536 && Pow256(3) == 16777216 && Pow256(4) == 4294967296
  {
    assert Pow256(1) == 256;
    assert Pow256(2) == 65536;
    assert Pow256(3) == 16777216;
  }

  /** A number written in big-endian bytes is read back from where they stand. */
  lemma ReadBigEndian(buf: seq<byte>, off: nat, n: nat, width: nat)
    requires n < Pow256(width) && At(buf, off, ToBytes(n, width))
    ensures FromBytes(Slice(buf, off, off + width)) == n
  {
    hide ToBytes, FromBytes, Pow256;
    AtSlice(buf, off, ToBytes(n, width));
    FromToBytes(n, width);
  }
}
