/** Little-endian words inside byte strings, as the x86 stores them. */
module Bytes {
  type Byte = b: int | 0 <= b < 256

  /** How many pages, or blocks, of 4 KiB hold n bytes. */
  function UnitsFor(n: nat): nat {
    (n + 0xfff) / 0x1000
  }

  function Pow256(n: nat): (p: nat)
    ensures p > 0
  {
    if n == 0 then 1 else 256 * Pow256(n - 1)
  }

  /** The n low-order bytes of v, least significant first. */
  function ToLe(v: nat, n: nat): (s: seq<Byte>)
    ensures |s| == n
  {
    if n == 0 then [] else [v % 256] + ToLe(v / 256, n - 1)
  }

  function FromLe(s: seq<Byte>): (v: nat)
    ensures v < Pow256(|s|)
  {
    if s == [] then 0 else s[0] + 256 * FromLe(s[1..])
  }

  function Zeros(n: nat): (s: seq<Byte>)
    ensures |s| == n
    ensures forall i :: 0 <= i < n ==> s[i] == 0
  {
    seq(n, _ => 0)
  }

  lemma {:induction false} LeRoundTrip(v: nat, n: nat)
    requires v < Pow256(n)
    ensures FromLe(ToLe(v, n)) == v
  {
    if n > 0 {
      LeRoundTrip(v / 256, n - 1);
      assert ToLe(v, n)[1..] == ToLe(v / 256, n - 1);
    }
  }

  lemma {:induction false} LeInverse(s: seq<Byte>)
    ensures ToLe(FromLe(s), |s|) == s
  {
    if s != [] {
      LeInverse(s[1..]);
      LowByte(s[0], FromLe(s[1..]));
      assert s == [s[0]] + s[1..];
    }
  }

  lemma LowByte(b: Byte, v: nat)
    ensures (b + 256 * v) % 256 == b && (b + 256 * v) / 256 == v
  {
  }

  /** The byte at the lowest address counts least. */
  lemma LeastFirst(a: Byte, b: Byte, c: Byte, d: Byte)
    ensures FromLe([a, b, c, d]) == a + 0x100 * b + 0x1_0000 * c + 0x100_0000 * d
    ensures ToLe(a + 0x100 * b + 0x1_0000 * c + 0x100_0000 * d, 4) == [a, b, c, d]
  {
    assert [a, b, c, d][1..] == [b, c, d] && [b, c, d][1..] == [c, d] && [c, d][1..] == [d] && [d][1..] == [];
    assert FromLe([d]) == d && FromLe([c, d]) == c + 256 * d && FromLe([b, c, d]) == b + 256 * FromLe([c, d]);
    LeInverse([a, b, c, d]);
  }

  lemma {:induction false} LeOfZeros(s: seq<Byte>)
    requires forall i :: 0 <= i < |s| ==> s[i] == 0
    ensures FromLe(s) == 0
  {
    if s != [] {
      LeOfZeros(s[1..]);
    }
  }

  /** s with the bytes from `at` on overwritten by t. */
  function Splice<T>(s: seq<T>, at: nat, t: seq<T>): (r: seq<T>)
    requires at + |t| <= |s|
    ensures |r| == |s|
    ensures forall i :: 0 <= i < |s| ==> r[i] == if at <= i < at + |t| then t[i - at] else s[i]
  {
    s[..at] + t + s[at + |t|..]
  }

  lemma SpliceSame<T>(s: seq<T>, at: nat, t: seq<T>)
    requires at + |t| <= |s|
    ensures Splice(s, at, t)[at..at + |t|] == t
  {
  }

  lemma SpliceElsewhere<T>(s: seq<T>, at: nat, t: seq<T>, lo: nat, hi: nat)
    requires at + |t| <= |s| && lo <= hi <= |s|
    requires hi <= at || at + |t| <= lo
    ensures Splice(s, at, t)[lo..hi] == s[lo..hi]
  {
  }
}

module Options {
  datatype Option<+T> = None | Some(value: T)
}

/** Memory, or a file, as bytes at addresses. */
module ByteStores {
  import opened Bytes

  /** Bytes by address; what was never written reads as zero. */
  type Store = map<nat, Byte>

  function ByteAt(d: Store, i: nat): Byte {
    if i in d then d[i] else 0
  }

  function Read(d: Store, off: nat, n: nat): (s: seq<Byte>)
    ensures |s| == n
    ensures forall i :: 0 <= i < n ==> s[i] == ByteAt(d, off + i)
    decreases n
  {
    if n == 0 then [] else Read(d, off, n - 1) + [ByteAt(d, off + n - 1)]
  }

  predicate InRange(off: nat, n: nat, i: nat) {
    off <= i < off + n
  }

  function Put(d: Store, off: nat, s: seq<Byte>): (r: Store)
    ensures forall i: nat :: ByteAt(r, i) == if InRange(off, |s|, i) then s[i - off] else ByteAt(d, i)
  {
    d + map i: nat | off <= i < off + |s| && InRange(off, |s|, i) :: s[i - off]
  }

  lemma PutThenRead(d: Store, off: nat, s: seq<Byte>)
    ensures Read(Put(d, off, s), off, |s|) == s
  {
    hide Put, ByteAt, Read;
    var r := Read(Put(d, off, s), off, |s|);
    forall i: nat | i < |s|
      ensures r[i] == s[i]
    {
      assert r[i] == ByteAt(Put(d, off, s), off + i);
    }
  }

  lemma PutElsewhere(d: Store, off: nat, s: seq<Byte>, at: nat, n: nat)
    requires n == 0 || s == [] || at + n <= off || off + |s| <= at
    ensures Read(Put(d, off, s), at, n) == Read(d, at, n)
  {
    hide Put, ByteAt, Read;
    var r, q := Read(Put(d, off, s), at, n), Read(d, at, n);
    forall i: nat | i < n
      ensures r[i] == q[i]
    {
      assert r[i] == ByteAt(Put(d, off, s), at + i);
    }
  }

  lemma PartOfRead(d: Store, off: nat, n: nat, at: nat, m: nat)
    requires at + m <= n
    ensures Read(d, off, n)[at..at + m] == Read(d, off + at, m)
  {
    hide Read, ByteAt;
    var r, q := Read(d, off, n)[at..at + m], Read(d, off + at, m);
    forall i: nat | i < m
      ensures r[i] == q[i]
    {
      assert r[i] == Read(d, off, n)[at + i] == ByteAt(d, off + (at + i));
      assert q[i] == ByteAt(d, off + at + i);
    }
  }
}
