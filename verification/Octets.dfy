/** Byte strings, fixed-width integers in either byte order, and reading fixed-size chunks off a buffer. */
module Octets {
  import opened Arithmetic
  import opened Options

  type Byte = x: int | 0 <= x < 256
  type Bytes = seq<Byte>

  /** 256 to the power `width`: the number of values `width` bytes can hold. */
  function Pow256(width: nat): (p: nat)
    ensures p > 0
  {
    if width == 0 then 1 else 256 * Pow256(width - 1)
  }

  lemma WidePowers()
    ensures Pow256(8) == 0x1_0000_0000_0000_0000 && Pow256(16) == 0x1_0000_0000_0000_0000_0000_0000_0000_0000
  {
    assert Pow256(4) == 0x1_0000_0000;
    assert Pow256(12) == 0x1_0000_0000_0000_0000_0000_0000;
  }

  function LittleEndian(n: nat, width: nat): (b: Bytes)
    ensures |b| == width
  {
    if width == 0 then [] else [n % 256] + LittleEndian(n / 256, width - 1)
  }

  function FromLittleEndian(b: Bytes): nat {
    if b == [] then 0 else b[0] + 256 * FromLittleEndian(b[1..])
  }

  lemma {:induction false} LittleEndianReads(n: nat, width: nat)
    requires n < Pow256(width)
    ensures FromLittleEndian(LittleEndian(n, width)) == n
  {
    if width > 0 {
      LittleEndianReads(n / 256, width - 1);
      assert LittleEndian(n, width)[1..] == LittleEndian(n / 256, width - 1);
    }
  }

  lemma {:induction false} FromLittleEndianFits(b: Bytes)
    ensures FromLittleEndian(b) < Pow256(|b|)
  {
    if b != [] { FromLittleEndianFits(b[1..]); }
  }

  lemma {:induction false} LittleEndianWrites(b: Bytes)
    ensures LittleEndian(FromLittleEndian(b), |b|) == b
  {
    if b != [] {
      LittleEndianWrites(b[1..]);
      assert (b[0] + 256 * FromLittleEndian(b[1..])) / 256 == FromLittleEndian(b[1..]);
    }
  }

  /** The low byte comes first, and each byte weighs 256 times the one before it. */
  lemma {:induction false} ByteAt(b: Bytes, i: nat)
    requires i < |b|
    ensures FromLittleEndian(b) / Pow256(i) % 256 == b[i]
    decreases i
  {
    var n, rest := FromLittleEndian(b), FromLittleEndian(b[1..]);
    Quotient(n, 256, rest, b[0]);
    if i > 0 {
      ByteAt(b[1..], i - 1);
      assert Pow256(i) == 256 * Pow256(i - 1);
      hide FromLittleEndian, Pow256;
      QuotientInSteps(n, Pow256(i - 1));
    }
  }

  lemma QuotientInSteps(n: nat, p: nat)
    requires p > 0
    ensures n / (256 * p) == n / 256 / p
  {
    var q, r := n / 256 / p, n / 256 % p;
    DivMod(n / 256, p);
    assert n == 256 * (q * p + r) + n % 256;
    assert 256 * (q * p + r) == q * (256 * p) + 256 * r;
    Quotient(n, 256 * p, q, 256 * r + n % 256);
  }

  function BigEndian(n: nat, width: nat): (b: Bytes)
    ensures |b| == width
  {
    Reversed(LittleEndian(n, width))
  }

  function FromBigEndian(b: Bytes): nat {
    FromLittleEndian(Reversed(b))
  }

  function Reversed(b: Bytes): (r: Bytes)
    ensures |r| == |b| && forall i | 0 <= i < |b| :: r[i] == b[|b| - 1 - i]
  {
    seq(|b|, i requires 0 <= i < |b| => b[|b| - 1 - i])
  }

  lemma BigEndianReads(n: nat, width: nat)
    requires n < Pow256(width)
    ensures FromBigEndian(BigEndian(n, width)) == n
  {
    LittleEndianReads(n, width);
    assert Reversed(Reversed(LittleEndian(n, width))) == LittleEndian(n, width);
  }

  lemma BigEndianWrites(b: Bytes)
    ensures FromBigEndian(b) < Pow256(|b|) && BigEndian(FromBigEndian(b), |b|) == b
  {
    FromLittleEndianFits(Reversed(b));
    LittleEndianWrites(Reversed(b));
    hide LittleEndian, FromLittleEndian, Pow256;
    assert Reversed(Reversed(b)) == b;
  }

  // ----- Chunks --------------------------------------------------------------------------------

  function Flat(chunks: seq<Bytes>): Bytes {
    if chunks == [] then [] else chunks[0] + Flat(chunks[1..])
  }

  /** The first `count` chunks of `size` bytes, and what follows them. */
  function ReadChunks(b: Bytes, count: nat, size: nat): Option<(seq<Bytes>, Bytes)> {
    if count == 0 then Some(([], b))
    else if |b| < size then None
    else
      match ReadChunks(b[size..], count - 1, size)
      case None => None
      case Some((chunks, rest)) => Some(([b[..size]] + chunks, rest))
  }

  lemma {:induction false} ChunksRead(chunks: seq<Bytes>, size: nat, rest: Bytes)
    requires forall c | c in chunks :: |c| == size
    ensures ReadChunks(Flat(chunks) + rest, |chunks|, size) == Some((chunks, rest))
  {
    if chunks == [] {
      assert Flat(chunks) + rest == rest;
    } else {
      var head, tail := chunks[0], Flat(chunks[1..]) + rest;
      ChunksRead(chunks[1..], size, rest);
      assert Flat(chunks) + rest == head + tail;
      HeadReads(head, tail, |chunks|);
      assert [head] + chunks[1..] == chunks;
    }
  }

  lemma HeadReads(head: Bytes, tail: Bytes, count: nat)
    requires count > 0 && ReadChunks(tail, count - 1, |head|).Some?
    ensures var (chunks, rest) := ReadChunks(tail, count - 1, |head|).value;
            ReadChunks(head + tail, count, |head|) == Some(([head] + chunks, rest))
  {
  }

  lemma {:induction false} FlatAppend(chunks: seq<Bytes>, c: Bytes)
    ensures Flat(chunks + [c]) == Flat(chunks) + c
  {
    if chunks == [] {
      assert [c][1..] == [];
    } else {
      assert (chunks + [c])[1..] == chunks[1..] + [c];
      FlatAppend(chunks[1..], c);
    }
  }

  /** Where the `i`-th chunk lies in the whole. */
  lemma {:induction false} FlatSlice(chunks: seq<Bytes>, i: nat)
    requires i < |chunks|
    ensures var at := |Flat(chunks[..i])|;
            at + |chunks[i]| <= |Flat(chunks)| && Flat(chunks)[at..at + |chunks[i]|] == chunks[i]
  {
    if i > 0 {
      FlatSlice(chunks[1..], i - 1);
      assert chunks[..i][1..] == chunks[1..][..i - 1];
      var at, head := |Flat(chunks[1..][..i - 1])|, chunks[0];
      assert Flat(chunks)[|head| + at..|head| + at + |chunks[i]|] == Flat(chunks[1..])[at..at + |chunks[i]|];
    } else {
      assert chunks[..0] == [];
    }
  }

  /** Chunks of known sizes can be told apart. */
  lemma {:induction false} FlatInjective(a: seq<Bytes>, b: seq<Bytes>)
    requires |a| == |b| && (forall i | 0 <= i < |a| :: |a[i]| == |b[i]|) && Flat(a) == Flat(b)
    ensures a == b
  {
    if a != [] {
      assert Flat(a)[..|a[0]|] == a[0] && Flat(b)[..|b[0]|] == b[0];
      assert Flat(a)[|a[0]|..] == Flat(a[1..]) && Flat(b)[|b[0]|..] == Flat(b[1..]);
      FlatInjective(a[1..], b[1..]);
      assert a == [a[0]] + a[1..] && b == [b[0]] + b[1..];
    }
  }
}
