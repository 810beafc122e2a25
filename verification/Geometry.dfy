/** Block groups, sparse-super backup groups and the reserved descriptor area that follows each
    superblock copy. */
module Geometry {

  const BLOCK: nat := 4096
  const GROUP: nat := 32768
  const GROUPS_PER_DESCRIPTOR_BLOCK: nat := 128
  const ADDRESSES_PER_BLOCK: nat := 1024
  const RESERVED_GDT_MULTIPLIER: nat := 32
  /** 2^32 blocks: past this a block number no longer fits the 32 bits it has on disk. */
  const MAX_IMAGE: nat := 0x1_0000_0000 * 4096

  function Min(a: int, b: int): int { if a <= b then a else b }
  function Max(a: int, b: int): int { if a <= b then b else a }

  // ----- Sparse-super groups -----

  function Pow(b: nat, k: nat): nat {
    if k == 0 then 1 else b * Pow(b, k - 1)
  }

  ghost predicate PowerOf(n: nat, base: nat) {
    exists k: nat {:trigger Pow(base, k)} :: k >= 1 && n == Pow(base, k)
  }

  /** Divide out `base` as often as it goes. */
  function Strip(n: nat, base: nat): (r: nat)
    requires n > 0 && base >= 2
    ensures r > 0
  {
    if n % base == 0 then
      DivShrinks(n, base);
      Strip(n / base, base)
    else n
  }

  lemma DivShrinks(n: nat, base: nat)
    requires n > 0 && base >= 2 && n % base == 0
    ensures 0 < n / base < n && n == base * (n / base)
  {
    var q := n / base;
    assert n == base * q;
    MulMonotone(q, 2, base);
  }

  predicate IsPowerOf(n: nat, base: nat)
    requires base >= 2
  {
    n >= base && Strip(n, base) == 1
  }

  lemma {:induction false} PowPositive(b: nat, k: nat)
    requires b >= 1
    ensures Pow(b, k) >= 1
  {
    if k > 0 { PowPositive(b, k - 1); }
  }

  lemma {:induction false} StripPow(b: nat, k: nat)
    requires b >= 2
    ensures Pow(b, k) > 0 && Strip(Pow(b, k), b) == 1
  {
    PowPositive(b, k);
    if k > 0 {
      var q := Pow(b, k - 1);
      PowPositive(b, k - 1);
      MultipleDivides(b, q);
      StripPow(b, k - 1);
    }
  }

  lemma MulMonotone(x: nat, a: nat, b: nat)
    requires a <= b
    ensures x * a <= x * b && a * x <= b * x
  {
  }

  lemma MultipleDivides(b: nat, q: nat)
    requires b >= 1
    ensures (b * q) % b == 0 && (b * q) / b == q
  {
    var x := b * q;
    var y := x / b;
    assert x == b * y + x % b;
    if q < y {
      MulMonotone(b, q + 1, y);
    } else if q > y {
      MulMonotone(b, y + 1, q);
    }
  }

  lemma {:induction false} StripIsPow(n: nat, b: nat) returns (k: nat)
    requires n > 0 && b >= 2 && Strip(n, b) == 1
    ensures n == Pow(b, k)
    decreases n
  {
    if n % b == 0 {
      DivShrinks(n, b);
      var j := StripIsPow(n / b, b);
      k := j + 1;
    } else {
      k := 0;
    }
  }

  /** The loop of repeated divisions recognises exactly the positive powers of its base. */
  lemma IsPowerOfExact(n: nat, base: nat)
    requires base >= 2
    ensures IsPowerOf(n, base) <==> PowerOf(n, base)
  {
    if IsPowerOf(n, base) {
      var k := StripIsPow(n, base);
      assert n == Pow(base, k);
      if k == 0 { assert false; }
    }
    if PowerOf(n, base) {
      var k: nat :| k >= 1 && n == Pow(base, k);
      StripPow(base, k);
      PowPositive(base, k - 1);
      assert base * Pow(base, k - 1) >= base;
    }
  }

  method CheckPowerOf(m: nat, base: nat) returns (r: bool)
    requires base >= 2
    ensures r <==> PowerOf(m, base)
  {
    IsPowerOfExact(m, base);
    if m < base { return false; }
    var n := m;
    while n % base == 0
      invariant n > 0
      invariant Strip(n, base) == Strip(m, base)
      decreases n
    {
      DivShrinks(n, base);
      n := n / base;
    }
    return n == 1;
  }

  predicate HasSparse(group: nat) {
    group == 0 || group == 1 || IsPowerOf(group, 3) || IsPowerOf(group, 5) || IsPowerOf(group, 7)
  }

  // ----- The reserved descriptor area -----

  /** Block and group counts in 32 bits, as the formatter computes them. */
  function BlockCount(size: nat): (n: nat)
    requires size >= 1
    ensures n < 0x1_0000_0000
  {
    ((size - 1) / BLOCK + 1) % 0x1_0000_0000
  }

  function GroupCount(size: nat): (n: nat)
    requires size >= 1
    ensures 1 <= n <= 0x2_0000
  {
    (BlockCount(size) + 0xFFFF_FFFF) % 0x1_0000_0000 / GROUP + 1
  }

  function DescriptorBlocks(groups: nat): (d: nat)
    requires groups >= 1
    ensures d >= 1
  {
    (groups - 1) / GROUPS_PER_DESCRIPTOR_BLOCK + 1
  }

  function ReservedGdt(d: nat): nat {
    Min((RESERVED_GDT_MULTIPLIER - 1) * d, Max(ADDRESSES_PER_BLOCK - d, 0))
  }

  function AreaFor(d: nat): nat { d + ReservedGdt(d) }

  /** Descriptor blocks plus reserved descriptor blocks for an image of `size` bytes. */
  function Area(size: nat): (a: nat)
    requires size >= 1
    ensures 32 <= a <= ADDRESSES_PER_BLOCK && a % 32 == 0
  {
    var d := DescriptorBlocks(GroupCount(size));
    assert 1 <= d <= 1024;
    AreaFor(d)
  }

  /** More descriptor blocks never shrink the reserved area. */
  lemma AreaForMonotone(d: nat, e: nat)
    requires d <= e
    ensures AreaFor(d) <= AreaFor(e)
  {
  }

  /** A growing image never shrinks its reserved area, as long as blocks are counted in 32 bits. */
  lemma AreaMonotone(s: nat, t: nat)
    requires 1 <= s <= t <= MAX_IMAGE
    ensures Area(s) <= Area(t)
  {
    var bs, bt := (s - 1) / BLOCK + 1, (t - 1) / BLOCK + 1;
    assert 1 <= bs <= bt <= 0x1_0000_0000;
    GroupCountExact(s);
    GroupCountExact(t);
    assert (bs - 1) / GROUP <= (bt - 1) / GROUP;
    AreaForMonotone(DescriptorBlocks(GroupCount(s)), DescriptorBlocks(GroupCount(t)));
  }

  lemma GroupCountExact(s: nat)
    requires 1 <= s <= MAX_IMAGE
    ensures GroupCount(s) == (s - 1) / BLOCK / GROUP + 1
  {
    var n := (s - 1) / BLOCK;
    assert n + 1 <= 0x1_0000_0000;
    if n + 1 == 0x1_0000_0000 {
      assert BlockCount(s) == 0;
    } else {
      assert BlockCount(s) == n + 1;
      assert (n + 1 + 0xFFFF_FFFF) % 0x1_0000_0000 == n;
    }
  }

  /** Block `b` belongs to the superblock copy or the descriptor area of its group. */
  predicate Reserved(b: nat, area: nat) {
    HasSparse(b / GROUP) && b % GROUP < 1 + area
  }

  function ReservedEnd(b: nat, area: nat): (e: nat)
  {
    if Reserved(b, area) then b / GROUP * GROUP + 1 + area else b
  }

  /** The first block at or after `b` that is not reserved. */
  lemma ReservedEndIsNext(b: nat, area: nat)
    requires area <= ADDRESSES_PER_BLOCK
    ensures b <= ReservedEnd(b, area)
    ensures !Reserved(ReservedEnd(b, area), area)
    ensures forall x :: b <= x < ReservedEnd(b, area) ==> Reserved(x, area)
    ensures ReservedEnd(ReservedEnd(b, area), area) == ReservedEnd(b, area)
  {
    var g := b / GROUP;
    if Reserved(b, area) {
      var e := g * GROUP + 1 + area;
      assert e / GROUP == g && e % GROUP == 1 + area;
      forall x | b <= x < e ensures Reserved(x, area) {
        assert x / GROUP == g;
      }
    }
  }

  // ----- At most 25 sparse groups below 2^17 -----

  const POWERS_OF_3: seq<nat> := [1, 3, 9, 27, 81, 243, 729, 2187, 6561, 19683, 59049]
  const POWERS_OF_5: seq<nat> := [5, 25, 125, 625, 3125, 15625, 78125]
  const POWERS_OF_7: seq<nat> := [7, 49, 343, 2401, 16807, 117649]
  const SPARSE_LIST: seq<nat> := [0] + POWERS_OF_3 + POWERS_OF_5 + POWERS_OF_7

  lemma {:induction false} PowersBelow(n: nat, b: nat, list: seq<nat>)
    requires b >= 2 && |list| >= 1 && list[0] == 1
    requires forall i :: 0 <= i < |list| - 1 ==> list[i + 1] == b * list[i]
    requires n > 0 && Strip(n, b) == 1 && n < b * list[|list| - 1]
    ensures n in list
    decreases |list|
  {
    if n % b == 0 {
      DivShrinks(n, b);
      var m := |list| - 1;
      if list[m] <= n / b { MulMonotone(b, list[m], n / b); }
      assert n / b < list[m];
      assert m >= 1;
      assert list[m - 1 + 1] == b * list[m - 1];
      PowersBelow(n / b, b, list[..m]);
      var i :| 0 <= i < m && list[i] == n / b;
      assert list[i + 1] == n;
    } else {
      assert list[0] == n;
    }
  }

  lemma SparseInList(g: nat)
    requires HasSparse(g) && g < 0x2_0000
    ensures g in SPARSE_LIST
  {
    if g == 0 || g == 1 {
      assert SPARSE_LIST[0] == 0 && SPARSE_LIST[1] == 1;
    } else if IsPowerOf(g, 3) {
      PowersBelow(g, 3, POWERS_OF_3);
    } else if IsPowerOf(g, 5) {
      PowersBelow(g, 5, [1] + POWERS_OF_5);
    } else {
      PowersBelow(g, 7, [1] + POWERS_OF_7);
    }
  }

  /** Sparse groups numbered at least `g` and below 2^17. */
  ghost function SparseFrom(g: nat): (s: set<nat>) {
    set x: nat | g <= x < 0x2_0000 && HasSparse(x)
  }

  ghost function Elements<T>(s: seq<T>): set<T> { set x | x in s }

  lemma SeqToSetSize<T>(s: seq<T>)
    ensures |Elements(s)| <= |s|
  {
    if s == [] {
      assert Elements(s) == {};
    } else {
      SeqToSetSize(s[1..]);
      assert Elements(s) == {s[0]} + Elements(s[1..]);
    }
  }

  lemma {:induction false} DistinctSize<T>(s: seq<T>)
    requires forall i, j :: 0 <= i < j < |s| ==> s[i] != s[j]
    ensures |Elements(s)| == |s|
  {
    if s == [] {
      assert Elements(s) == {};
    } else {
      var n := |s| - 1;
      DistinctSize(s[..n]);
      assert Elements(s) == Elements(s[..n]) + {s[n]};
    }
  }

  lemma SubsetSize<T>(a: set<T>, b: set<T>)
    requires a <= b
    ensures |a| <= |b|
  {
    assert b == a + (b - a);
  }

  lemma AtMost25Sparse(g: nat)
    ensures |SparseFrom(g)| <= 25
  {
    forall x | x in SparseFrom(g) ensures x in Elements(SPARSE_LIST) { SparseInList(x); }
    SeqToSetSize(SPARSE_LIST);
    SubsetSize(SparseFrom(g), Elements(SPARSE_LIST));
  }

  function NumbersBelow(n: nat): (r: set<nat>)
    ensures |r| == n && forall x: nat :: x in r <==> x < n
  {
    if n == 0 then {} else NumbersBelow(n - 1) + {n - 1}
  }
}
