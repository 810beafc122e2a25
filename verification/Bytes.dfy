/** Bytes, little-endian integers and block ranges. */
module Bytes {

  type byte = x: int | 0 <= x < 256

  datatype Option<+T> = None | Some(value: T)

  /** A half-open range of filesystem blocks. */
  datatype Range = Range(start: nat, end: nat)

  // ----- Little-endian integers -----

  /** The low `n` bytes of `v`, least significant first. */
  function LE(v: nat, n: nat): (b: seq<byte>)
    ensures |b| == n
  {
    if n == 0 then [] else [v % 256] + LE(v / 256, n - 1)
  }

  function Read(b: seq<byte>): nat {
    if b == [] then 0 else b[0] as int + 256 * Read(b[1..])
  }

  /** The `n`-byte little-endian integer at offset `off`. */
  function Field(buf: seq<byte>, off: nat, n: nat): nat
    requires off + n <= |buf|
  {
    Read(buf[off..off + n])
  }

  function Limit(n: nat): nat {
    if n == 0 then 1 else 256 * Limit(n - 1)
  }

  /** Reading undoes writing for every value that fits. */
  lemma {:induction false} ReadLE(v: nat, n: nat)
    requires v < Limit(n)
    ensures Read(LE(v, n)) == v
    decreases n
  {
    if n > 0 {
      assert LE(v, n)[1..] == LE(v / 256, n - 1);
      ReadLE(v / 256, n - 1);
    }
  }

  /** What can be read from so many bytes. */
  lemma {:induction false} ReadLimit(b: seq<byte>)
    ensures Read(b) < Limit(|b|)
  {
    if b != [] { ReadLimit(b[1..]); }
  }

  lemma Limits()
    ensures Limit(1) == 0x100 && Limit(2) == 0x1_0000 && Limit(4) == 0x1_0000_0000
    ensures Limit(8) == 0x1_0000_0000_0000_0000
  {
    assert Limit(2) == 256 * Limit(1);
    assert Limit(3) == 256 * Limit(2);
    assert Limit(4) == 256 * Limit(3);
    assert Limit(5) == 256 * Limit(4);
    assert Limit(6) == 256 * Limit(5);
    assert Limit(7) == 256 * Limit(6);
    assert Limit(8) == 256 * Limit(7);
  }

  /** A field of `n` bytes reads back as the value whose bytes stand there. */
  lemma {:induction false} FieldRead(buf: seq<byte>, off: nat, n: nat, v: nat)
    requires off + n <= |buf| && buf[off..off + n] == LE(v, n)
    requires (n == 1 && v < 0x100) || (n == 2 && v < 0x1_0000) || (n == 4 && v < 0x1_0000_0000)
             || (n == 8 && v < 0x1_0000_0000_0000_0000)
    ensures Field(buf, off, n) == v
  {
    Limits();
    ReadLE(v, n);
  }

  function Zeros(n: nat): (b: seq<byte>)
    ensures |b| == n
  {
    seq(n, i => 0)
  }

  lemma Assoc<T>(a: seq<T>, b: seq<T>, c: seq<T>)
    ensures a + (b + c) == (a + b) + c
  {
  }

  lemma SubSlice<T>(s: seq<T>, a: nat, b: nat, i: nat, j: nat)
    requires a <= b <= |s| && i <= j <= b - a
    ensures s[a..b][i..j] == s[a + i..a + j]
  {
    var l, r := s[a..b][i..j], s[a + i..a + j];
    assert |l| == |r|;
    forall k | 0 <= k < |l| ensures l[k] == r[k] {}
  }

  /** A slice of a slice whose value is known. */
  lemma SliceVia<T>(s: seq<T>, a: nat, b: nat, part: seq<T>, i: nat, j: nat, v: seq<T>)
    requires a <= b <= |s| && s[a..b] == part && i <= j <= b - a && part[i..j] == v
    ensures s[a + i..a + j] == v
  {
    SubSlice(s, a, b, i, j);
  }

  /** A part of a concatenation. */
  lemma MiddleSlice<T>(a: seq<T>, b: seq<T>, c: seq<T>)
    ensures (a + b + c)[|a|..|a| + |b|] == b
  {
  }

  // ----- Lexicographic order -----

  predicate Less(a: seq<byte>, b: seq<byte>) {
    b != [] && (a == [] || a[0] < b[0] || (a[0] == b[0] && Less(a[1..], b[1..])))
  }

  lemma {:induction false} LessDiffers(a: seq<byte>)
    ensures !Less(a, a)
  {
    if a != [] { LessDiffers(a[1..]); }
  }

  lemma {:induction false} LessOneWay(a: seq<byte>, b: seq<byte>)
    requires Less(a, b)
    ensures !Less(b, a)
  {
    if a != [] && a[0] == b[0] { LessOneWay(a[1..], b[1..]); }
  }

  lemma {:induction false} LessSplits(a: seq<byte>, b: seq<byte>, c: seq<byte>)
    requires Less(a, c)
    ensures Less(a, b) || Less(b, c)
  {
    if a != [] && b != [] && a[0] == b[0] == c[0] { LessSplits(a[1..], b[1..], c[1..]); }
  }
}
