/** Extended attributes: name prefixes, placement in the inode or in a block, and the buffers they are
    packed into: entries from the front, values from the back. */
module Xattrs {
  import opened Bytes
  import opened Geometry

  // ----- Name prefixes -----

  datatype Prefix = Prefix(index: byte, text: seq<byte>)

  const PREFIXES: seq<Prefix> := [
    // user.
    Prefix(1, [117, 115, 101, 114, 46]),
    // system.posix_acl_access
    Prefix(2, [115, 121, 115, 116, 101, 109, 46, 112, 111, 115, 105, 120, 95, 97, 99, 108, 95, 97, 99, 99, 101, 115,
               115]),
    // system.posix_acl_default
    Prefix(3, [115, 121, 115, 116, 101, 109, 46, 112, 111, 115, 105, 120, 95, 97, 99, 108, 95, 100, 101, 102, 97, 117,
               108, 116]),
    // trusted.
    Prefix(4, [116, 114, 117, 115, 116, 101, 100, 46]),
    // security.
    Prefix(6, [115, 101, 99, 117, 114, 105, 116, 121, 46]),
    // system.
    Prefix(7, [115, 121, 115, 116, 101, 109, 46]),
    // system.richacl
    Prefix(8, [115, 121, 115, 116, 101, 109, 46, 114, 105, 99, 104, 97, 99, 108])
  ]

  function TextOf(table: seq<Prefix>, index: byte): seq<byte> {
    if table == [] then [] else if table[0].index == index then table[0].text else TextOf(table[1..], index)
  }

  function Decompress(index: byte, suffix: seq<byte>): seq<byte> { TextOf(PREFIXES, index) + suffix }

  /** Each index stands for one prefix; 0 stands for none. */
  ghost predicate Proper(table: seq<Prefix>) {
    && (forall i :: 0 <= i < |table| ==> table[i].index != 0)
    && (forall i, j :: 0 <= i < j < |table| ==> table[i].index != table[j].index)
  }

  lemma TableIsProper()
    ensures Proper(PREFIXES)
  {
  }

  lemma {:induction false} TextAt(table: seq<Prefix>, k: nat)
    requires Proper(table) && k < |table|
    ensures TextOf(table, table[k].index) == table[k].text
  {
    if k > 0 {
      assert table[1..][k - 1] == table[k];
      TextAt(table[1..], k - 1);
    }
  }

  lemma {:induction false} TextOfNone(table: seq<Prefix>)
    requires Proper(table)
    ensures TextOf(table, 0) == []
  {
    if table != [] { TextOfNone(table[1..]); }
  }

  /** Strip the longest prefix that fits; putting it back gives the name again, whatever the name. */
  method CompressName(name: seq<byte>) returns (index: byte, suffix: seq<byte>)
    ensures Decompress(index, suffix) == name
    ensures forall k :: 0 <= k < |PREFIXES| && PREFIXES[k].text <= name ==> |PREFIXES[k].text| <= |name| - |suffix|
  {
    hide *;
    TableIsProper();
    TextOfNone(PREFIXES);
    index := 0;
    var best: nat := 0;
    for k := 0 to |PREFIXES|
      invariant best <= |name| && TextOf(PREFIXES, index) == name[..best]
      invariant forall x :: 0 <= x < k && PREFIXES[x].text <= name ==> |PREFIXES[x].text| <= best
    {
      if PREFIXES[k].text <= name && |PREFIXES[k].text| > best {
        TextAt(PREFIXES, k);
        index, best := PREFIXES[k].index, |PREFIXES[k].text|;
      }
    }
    suffix := name[best..];
    Together(index, name, best);
  }

  lemma {:induction false} Together(index: byte, name: seq<byte>, best: nat)
    requires best <= |name| && TextOf(PREFIXES, index) == name[..best]
    ensures Decompress(index, name[best..]) == name
  {
    hide TextOf;
  }

  // ----- Sizes and placement -----

  datatype Attribute = Attribute(name: seq<byte>, index: byte, value: seq<byte>)

  const HEADER_MAGIC: nat := 0xEA02_0000
  const INODE_HEADER: nat := 4
  const BLOCK_HEADER: nat := 32
  const INODE_CAPACITY: nat := 96
  const BLOCK_CAPACITY: nat := 4096

  function Up4(n: nat): (r: nat)
    ensures n <= r < n + 4 && r % 4 == 0
  {
    (n + 3) / 4 * 4
  }

  function EntrySize(a: Attribute): nat { Up4(16 + |a.name|) }
  function ValueSize(a: Attribute): nat { Up4(|a.value|) }

  function EntriesSize(attrs: seq<Attribute>): nat {
    if attrs == [] then 0 else EntriesSize(attrs[..|attrs| - 1]) + EntrySize(attrs[|attrs| - 1])
  }

  function ValuesSize(attrs: seq<Attribute>): nat {
    if attrs == [] then 0 else ValuesSize(attrs[..|attrs| - 1]) + ValueSize(attrs[|attrs| - 1])
  }

  ghost predicate ShortNames(attrs: seq<Attribute>) {
    forall i :: 0 <= i < |attrs| ==> |attrs[i].name| <= 255
  }

  /** The attributes and the terminator behind the entries have room in `capacity` bytes. */
  ghost predicate HaveRoom(attrs: seq<Attribute>, header: nat, capacity: nat) {
    ShortNames(attrs) && header + EntriesSize(attrs) + ValuesSize(attrs) + 4 <= capacity
  }

  lemma {:induction false} SizesSnoc(attrs: seq<Attribute>, a: Attribute)
    ensures EntriesSize(attrs + [a]) == EntriesSize(attrs) + EntrySize(a)
    ensures ValuesSize(attrs + [a]) == ValuesSize(attrs) + ValueSize(a)
  {
    assert (attrs + [a])[..|attrs|] == attrs;
  }

  // ----- The hash of an attribute -----

  const NAME_HASH_SHIFT: nat := 5
  const VALUE_HASH_SHIFT: nat := 16

  /** Rotate and mix in. */
  function Mix(h: bv32, shift: nat, word: bv32): bv32
    requires 0 < shift < 32
  {
    (h << shift) ^ (h >> (32 - shift)) ^ word
  }

  function NameHash(name: seq<byte>): bv32 {
    if name == [] then 0 else Mix(NameHash(name[..|name| - 1]), NAME_HASH_SHIFT, name[|name| - 1] as bv32)
  }

  /** Up to four bytes as a little-endian number. */
  function Word(b: seq<byte>): bv32
    requires |b| <= 4
  {
    var padded := b + Zeros(4 - |b|);
    ReadLimit(padded);
    Limits();
    Read(padded) as bv32
  }

  /** Mix in a value, four bytes at a time; what is left at the end is padded with zeros. */
  function ValueHash(h: bv32, value: seq<byte>): bv32
    decreases |value|
  {
    if value == [] then h else ValueHash(Mix(h, VALUE_HASH_SHIFT, Word(value[..Min(4, |value|)])),
                                         value[Min(4, |value|)..])
  }

  function HashOf(a: Attribute): bv32 { ValueHash(NameHash(a.name), a.value) }

  method Hash(a: Attribute) returns (h: bv32)
    ensures h == HashOf(a)
  {
    hide Mix, Word;
    h := 0;
    for k := 0 to |a.name|
      invariant h == NameHash(a.name[..k])
    {
      assert a.name[..k + 1][..k] == a.name[..k];
      h := Mix(h, NAME_HASH_SHIFT, a.name[k] as bv32);
    }
    assert a.name[..|a.name|] == a.name;
    var value := a.value;
    for i := 0 to |value| / 4
      invariant ValueHash(h, value[4 * i..]) == HashOf(a)
    {
      ghost var rest := value[4 * i..];
      assert rest[..4] == value[4 * i..4 * i + 4] && rest[4..] == value[4 * (i + 1)..];
      h := Mix(h, VALUE_HASH_SHIFT, Word(value[4 * i..4 * i + 4]));
    }
    var tail := value[|value| / 4 * 4..];
    NoValue(h);
    if |tail| > 0 {
      assert tail[..|tail|] == tail && tail[|tail|..] == [];
      h := Mix(h, VALUE_HASH_SHIFT, Word(tail));
      NoValue(h);
    }
  }

  lemma {:induction false} NoValue(h: bv32)
    ensures ValueHash(h, []) == h
  {
  }

  function Hashes(attrs: seq<Attribute>): (r: seq<nat>)
    ensures |r| == |attrs|
  {
    seq(|attrs|, i requires 0 <= i < |attrs| => HashOf(attrs[i]) as nat)
  }

  datatype Refusal = InvalidName | InsufficientSpace

  /** Decides for each attribute whether it goes into the inode or into the block. */
  class XattrState {
    var inlineAttrs: seq<Attribute>
    var blockAttrs: seq<Attribute>
    var usedInline: nat
    var usedBlock: nat

    ghost predicate Valid()
      reads this
    {
      && usedInline == INODE_HEADER + EntriesSize(inlineAttrs) + ValuesSize(inlineAttrs)
      && usedBlock == BLOCK_HEADER + EntriesSize(blockAttrs) + ValuesSize(blockAttrs)
      && HaveRoom(inlineAttrs, INODE_HEADER, INODE_CAPACITY) && HaveRoom(blockAttrs, BLOCK_HEADER, BLOCK_CAPACITY)
    }

    constructor ()
      ensures Valid() && inlineAttrs == [] && blockAttrs == []
    {
      inlineAttrs, blockAttrs, usedInline, usedBlock := [], [], INODE_HEADER, BLOCK_HEADER;
    }

    /** Into the inode if it fits there, else into the block if it fits there, else nowhere. What is
        accepted goes to the end of exactly one list; what is refused changes nothing. */
    method Add(a: Attribute) returns (refusal: Option<Refusal>)
      requires Valid()
      modifies this
      ensures Valid()
      ensures refusal == None <==> |a.name| <= 255 && (HaveRoom(old(inlineAttrs) + [a], INODE_HEADER, INODE_CAPACITY)
                                                       || HaveRoom(old(blockAttrs) + [a], BLOCK_HEADER, BLOCK_CAPACITY))
      ensures refusal == Some(InvalidName) <==> |a.name| > 255
      ensures refusal.Some? ==> inlineAttrs == old(inlineAttrs) && blockAttrs == old(blockAttrs)
      ensures refusal == None ==>
                if HaveRoom(old(inlineAttrs) + [a], INODE_HEADER, INODE_CAPACITY)
                then inlineAttrs == old(inlineAttrs) + [a] && blockAttrs == old(blockAttrs)
                else inlineAttrs == old(inlineAttrs) && blockAttrs == old(blockAttrs) + [a]
    {
      hide EntriesSize, ValuesSize, EntrySize, ValueSize;
      if |a.name| > 255 {
        LongName(inlineAttrs, a);
        return Some(InvalidName);
      }
      SizesSnoc(inlineAttrs, a);
      SizesSnoc(blockAttrs, a);
      var total := EntrySize(a) + ValueSize(a);
      if usedInline + total + 4 <= INODE_CAPACITY {
        usedInline, inlineAttrs := usedInline + total, inlineAttrs + [a];
        return None;
      }
      if usedBlock + total + 4 <= BLOCK_CAPACITY {
        usedBlock, blockAttrs := usedBlock + total, blockAttrs + [a];
        return None;
      }
      return Some(InsufficientSpace);
    }

    /** The area in the inode: reading it gives back the attributes placed there. */
    method WriteInline() returns (buf: array<byte>)
      requires Valid()
      ensures fresh(buf) && buf.Length == INODE_CAPACITY
      ensures ReadAttributes(buf[..], INODE_HEADER, INODE_HEADER) == inlineAttrs
    {
      hide HaveRoom, Buffer, ReadAttributes, LE;
      var header := LE(HEADER_MAGIC, 4);
      buf := Pack(header, inlineAttrs, seq(|inlineAttrs|, _ => 0), INODE_HEADER, INODE_CAPACITY);
      PackRoundTrip(header, inlineAttrs, seq(|inlineAttrs|, _ => 0), INODE_HEADER, INODE_CAPACITY);
    }

    /** The block of its own, entries sorted by index, length and name and each with its hash: reading it gives
        back exactly the attributes placed there, in that order. */
    method WriteBlock() returns (buf: array<byte>)
      requires Valid()
      ensures fresh(buf) && buf.Length == BLOCK_CAPACITY
      ensures ReadAttributes(buf[..], BLOCK_HEADER, 0) == SortAttributes(blockAttrs)
      ensures InOrder(SortAttributes(blockAttrs)) && multiset(SortAttributes(blockAttrs)) == multiset(blockAttrs)
      ensures var sorted := SortAttributes(blockAttrs);
              HaveRoom(sorted, BLOCK_HEADER, BLOCK_CAPACITY)
                && buf[..] == Buffer(BlockHeader(), sorted, Hashes(sorted), 0, BLOCK_CAPACITY)
    {
      hide HaveRoom, Buffer, ReadAttributes, SortAttributes, HashOf, BlockHeader;
      var sorted := SortAttributes(blockAttrs);
      SortRoom(blockAttrs, BLOCK_HEADER, BLOCK_CAPACITY);
      SortedInOrder(blockAttrs);
      SameCount(sorted, blockAttrs);
      var hashes: seq<nat> := [];
      for i := 0 to |sorted|
        invariant hashes == Hashes(sorted)[..i]
      {
        var h := Hash(sorted[i]);
        hashes := hashes + [h as nat];
      }
      assert hashes == Hashes(sorted);
      buf := Pack(BlockHeader(), sorted, hashes, 0, BLOCK_CAPACITY);
      PackRoundTrip(BlockHeader(), sorted, hashes, 0, BLOCK_CAPACITY);
    }
  }

  function BlockHeader(): (b: seq<byte>)
    ensures |b| == BLOCK_HEADER
  {
    LE(HEADER_MAGIC, 4) + LE(1, 4) + LE(1, 4) + Zeros(20)
  }

  lemma SameCount<T>(a: seq<T>, b: seq<T>)
    requires multiset(a) == multiset(b)
    ensures |a| == |b|
  {
    assert |multiset(a)| == |a| && |multiset(b)| == |b|;
  }

  // ----- The order of entries in a block -----

  predicate Before(a: Attribute, b: Attribute) {
    a.index < b.index || (a.index == b.index && (|a.name| < |b.name| || (|a.name| == |b.name| && Less(a.name, b.name))))
  }

  function PlaceAttribute(list: seq<Attribute>, a: Attribute): (r: seq<Attribute>)
    ensures multiset(r) == multiset(list) + multiset{a}
  {
    if list == [] then [a]
    else
      var n := |list| - 1;
      assert list == list[..n] + [list[n]];
      if Before(a, list[n]) then PlaceAttribute(list[..n], a) + [list[n]] else list + [a]
  }

  function SortAttributes(attrs: seq<Attribute>): (r: seq<Attribute>)
    ensures multiset(r) == multiset(attrs)
  {
    if attrs == [] then []
    else
      var n := |attrs| - 1;
      assert attrs == attrs[..n] + [attrs[n]];
      PlaceAttribute(SortAttributes(attrs[..n]), attrs[n])
  }

  /** No entry stands in front of one that belongs before it. */
  ghost predicate InOrder(list: seq<Attribute>) {
    forall i, j :: 0 <= i < j < |list| ==> !Before(list[j], list[i])
  }

  lemma BeforeSplits(a: Attribute, b: Attribute, c: Attribute)
    requires Before(a, c)
    ensures Before(a, b) || Before(b, c)
  {
    if a.index == b.index == c.index && |a.name| == |b.name| == |c.name| { LessSplits(a.name, b.name, c.name); }
  }

  lemma {:induction false} PlaceInOrder(list: seq<Attribute>, a: Attribute)
    requires InOrder(list)
    ensures InOrder(PlaceAttribute(list, a))
  {
    hide Before;
    if list != [] {
      var n := |list| - 1;
      var r, head := PlaceAttribute(list, a), PlaceAttribute(list[..n], a);
      if Before(a, list[n]) {
        PlaceInOrder(list[..n], a);
        SameCount(head, list[..n] + [a]);
        forall i | 0 <= i < |head| ensures !Before(list[n], head[i]) {
          assert head[i] in multiset(head);
          if head[i] == a && Before(list[n], a) { BeforeIrreflexive(a, list[n]); }
        }
      } else {
        forall i | 0 <= i < n ensures !Before(a, list[i]) {
          if Before(a, list[i]) { BeforeSplits(a, list[n], list[i]); }
        }
      }
    }
  }

  lemma BeforeIrreflexive(a: Attribute, b: Attribute)
    requires Before(a, b)
    ensures !Before(b, a)
  {
    if a.index == b.index && |a.name| == |b.name| { LessOneWay(a.name, b.name); }
  }

  /** The entries of a block stand in order. */
  lemma {:induction false} SortedInOrder(attrs: seq<Attribute>)
    ensures InOrder(SortAttributes(attrs))
  {
    hide Before;
    if attrs != [] {
      var n := |attrs| - 1;
      SortedInOrder(attrs[..n]);
      PlaceInOrder(SortAttributes(attrs[..n]), attrs[n]);
    }
  }

  lemma {:induction false} PlaceSizes(list: seq<Attribute>, a: Attribute)
    ensures EntriesSize(PlaceAttribute(list, a)) == EntriesSize(list) + EntrySize(a)
    ensures ValuesSize(PlaceAttribute(list, a)) == ValuesSize(list) + ValueSize(a)
  {
    hide EntrySize, ValueSize, EntriesSize, ValuesSize, Before;
    SizesSnoc(list, a);
    if list == [] {
      assert [] + [a] == [a];
    } else {
      var n := |list| - 1;
      assert list == list[..n] + [list[n]];
      SizesSnoc(list[..n], list[n]);
      PlaceSizes(list[..n], a);
      SizesSnoc(PlaceAttribute(list[..n], a), list[n]);
    }
  }

  lemma {:induction false} SortSizes(attrs: seq<Attribute>)
    ensures EntriesSize(SortAttributes(attrs)) == EntriesSize(attrs)
    ensures ValuesSize(SortAttributes(attrs)) == ValuesSize(attrs)
  {
    hide EntrySize, ValueSize;
    if attrs != [] {
      var n := |attrs| - 1;
      SortSizes(attrs[..n]);
      PlaceSizes(SortAttributes(attrs[..n]), attrs[n]);
    }
  }

  lemma {:induction false} SortRoom(attrs: seq<Attribute>, header: nat, capacity: nat)
    requires HaveRoom(attrs, header, capacity)
    ensures HaveRoom(SortAttributes(attrs), header, capacity)
  {
    hide EntriesSize, ValuesSize, SortAttributes;
    SortSizes(attrs);
    var r := SortAttributes(attrs);
    forall i | 0 <= i < |r| ensures |r[i].name| <= 255 {
      assert r[i] in multiset(r);
      assert r[i] in attrs;
    }
  }

  lemma LongName(attrs: seq<Attribute>, a: Attribute)
    requires |a.name| > 255
    ensures !ShortNames(attrs + [a])
  {
    assert (attrs + [a])[|attrs|] == a;
  }

  // ----- The packed buffer -----

  function EntryBytes(a: Attribute, valueOffset: nat, hash: nat): (b: seq<byte>)
    requires |a.name| <= 255
    ensures |b| == EntrySize(a)
  {
    [|a.name| as byte, a.index] + LE(valueOffset, 2) + LE(0, 4) + LE(|a.value|, 4) + LE(hash, 4) + a.name
      + Zeros(EntrySize(a) - 16 - |a.name|)
  }

  /** The entries, each with the offset of its value, counted from `base`. */
  function Front(attrs: seq<Attribute>, hashes: seq<nat>, base: nat, capacity: nat): (b: seq<byte>)
    requires ShortNames(attrs) && |hashes| == |attrs| && base + ValuesSize(attrs) <= capacity
    ensures |b| == EntriesSize(attrs)
  {
    if attrs == [] then []
    else
      var n := |attrs| - 1;
      Front(attrs[..n], hashes[..n], base, capacity)
        + EntryBytes(attrs[n], capacity - ValuesSize(attrs) - base, hashes[n])
  }

  /** The values, the last one first. */
  function Back(attrs: seq<Attribute>): (b: seq<byte>)
    ensures |b| == ValuesSize(attrs)
  {
    if attrs == [] then []
    else
      var n := |attrs| - 1;
      attrs[n].value + Zeros(ValueSize(attrs[n]) - |attrs[n].value|) + Back(attrs[..n])
  }

  function Buffer(header: seq<byte>, attrs: seq<Attribute>, hashes: seq<nat>, base: nat, capacity: nat): (b: seq<byte>)
    requires HaveRoom(attrs, |header|, capacity) && |hashes| == |attrs| && base <= |header|
    ensures |b| == capacity
  {
    header + Front(attrs, hashes, base, capacity) + Zeros(capacity - |header| - EntriesSize(attrs) - ValuesSize(attrs))
      + Back(attrs)
  }

  // ----- Reading it back -----

  /** Walk the entries from `off` on, up to four zero bytes. */
  function ReadAttributes(buf: seq<byte>, off: nat, base: nat): seq<Attribute>
    decreases |buf| - off
  {
    if off + 16 > |buf| || Field(buf, off, 4) == 0 then []
    else
      var length, at, size := buf[off] as int, base + Field(buf, off + 2, 2), Field(buf, off + 8, 4);
      if off + 16 + length > |buf| || at + size > |buf| then []
      else
        [Attribute(buf[off + 16..off + 16 + length], buf[off + 1], buf[at..at + size])]
        + ReadAttributes(buf, off + Up4(16 + length), base)
  }

  lemma {:induction false} SizesGrow(attrs: seq<Attribute>, i: nat, j: nat)
    requires i <= j <= |attrs|
    ensures EntriesSize(attrs[..i]) <= EntriesSize(attrs[..j]) && ValuesSize(attrs[..i]) <= ValuesSize(attrs[..j])
    decreases j
  {
    hide EntrySize, ValueSize;
    if i < j {
      assert attrs[..j][..j - 1] == attrs[..j - 1];
      SizesGrow(attrs, i, j - 1);
    }
  }

  lemma {:induction false} SizesAt(attrs: seq<Attribute>, i: nat)
    requires i < |attrs|
    ensures EntriesSize(attrs[..i + 1]) == EntriesSize(attrs[..i]) + EntrySize(attrs[i])
    ensures ValuesSize(attrs[..i + 1]) == ValuesSize(attrs[..i]) + ValueSize(attrs[i])
    ensures EntriesSize(attrs[..i + 1]) <= EntriesSize(attrs) && ValuesSize(attrs[..i + 1]) <= ValuesSize(attrs)
  {
    hide EntrySize, ValueSize;
    assert attrs[..i + 1][..i] == attrs[..i];
    assert attrs[..|attrs|] == attrs;
    SizesGrow(attrs, i + 1, |attrs|);
  }

  lemma SliceLeft<T>(a: seq<T>, b: seq<T>, i: nat, j: nat)
    requires i <= j <= |a|
    ensures (a + b)[i..j] == a[i..j]
  {
  }

  lemma SliceRight<T>(a: seq<T>, b: seq<T>, i: nat, j: nat)
    requires i <= j <= |b|
    ensures (a + b)[|a| + i..|a| + j] == b[i..j]
  {
  }

  /** Entry `i` stands behind the entries before it. */
  lemma {:induction false} FrontAt(attrs: seq<Attribute>, hashes: seq<nat>, base: nat, capacity: nat, i: nat)
    requires ShortNames(attrs) && |hashes| == |attrs| && base + ValuesSize(attrs) <= capacity && i < |attrs|
    ensures EntriesSize(attrs[..i]) + EntrySize(attrs[i]) <= EntriesSize(attrs)
    ensures ValuesSize(attrs[..i + 1]) <= ValuesSize(attrs)
    ensures Front(attrs, hashes, base,
                  capacity)[EntriesSize(attrs[..i])..EntriesSize(attrs[..i]) + EntrySize(attrs[i])] ==
            EntryBytes(attrs[i], capacity - ValuesSize(attrs[..i + 1]) - base, hashes[i])
    decreases |attrs|
  {
    hide EntryBytes, EntrySize, ValueSize, Front, EntriesSize, ValuesSize;
    SizesAt(attrs, i);
    var n := |attrs| - 1;
    SizesAt(attrs, n);
    var e := FrontUnfold(attrs, hashes, base, capacity);
    var init := Front(attrs[..n], hashes[..n], base, capacity);
    if i < n {
      FrontAt(attrs[..n], hashes[..n], base, capacity, i);
      TakeTake(attrs, i, n);
      TakeTake(attrs, i + 1, n);
      SliceLeft(init, e, EntriesSize(attrs[..i]), EntriesSize(attrs[..i]) + EntrySize(attrs[i]));
    } else {
      SliceRight(init, e, 0, |e|);
      assert e[0..|e|] == e;
    }
  }

  lemma TakeTake<T>(s: seq<T>, i: nat, n: nat)
    requires i <= n <= |s|
    ensures s[..n][..i] == s[..i]
  {
  }

  lemma FrontUnfold(attrs: seq<Attribute>, hashes: seq<nat>, base: nat, capacity: nat) returns (e: seq<byte>)
    requires ShortNames(attrs) && |hashes| == |attrs| > 0 && base + ValuesSize(attrs) <= capacity
    ensures var n := |attrs| - 1;
            && attrs[..n + 1] == attrs && base + ValuesSize(attrs[..n]) <= capacity
            && e == EntryBytes(attrs[n], capacity - ValuesSize(attrs) - base, hashes[n])
            && Front(attrs, hashes, base, capacity) == Front(attrs[..n], hashes[..n], base, capacity) + e
  {
    hide EntryBytes, EntrySize, ValueSize;
    var n := |attrs| - 1;
    assert attrs[..n + 1] == attrs;
    e := EntryBytes(attrs[n], capacity - ValuesSize(attrs) - base, hashes[n]);
  }

  /** Value `i` stands in front of the values before it. */
  lemma {:induction false} BackAt(attrs: seq<Attribute>, i: nat)
    requires i < |attrs|
    ensures ValuesSize(attrs[..i + 1]) <= ValuesSize(attrs) && |attrs[i].value| <= ValuesSize(attrs[..i + 1])
    ensures var at := ValuesSize(attrs) - ValuesSize(attrs[..i + 1]);
            Back(attrs)[at..at + |attrs[i].value|] == attrs[i].value
    decreases |attrs|
  {
    hide EntrySize, Back, EntriesSize, ValuesSize;
    SizesAt(attrs, i);
    var n := |attrs| - 1;
    SizesAt(attrs, n);
    var padded := BackUnfold(attrs);
    if i < n {
      BackAt(attrs[..n], i);
      TakeTake(attrs, i + 1, n);
      var at := ValuesSize(attrs[..n]) - ValuesSize(attrs[..i + 1]);
      SliceRight(padded, Back(attrs[..n]), at, at + |attrs[i].value|);
    } else {
      SliceLeft(padded, Back(attrs[..n]), 0, |attrs[n].value|);
    }
  }

  lemma BackUnfold(attrs: seq<Attribute>) returns (padded: seq<byte>)
    requires attrs != []
    ensures var n := |attrs| - 1;
            && attrs[..n + 1] == attrs && |padded| == ValueSize(attrs[n])
            && padded[0..|attrs[n].value|] == attrs[n].value
            && Back(attrs) == padded + Back(attrs[..n])
  {
    var n := |attrs| - 1;
    assert attrs[..n + 1] == attrs;
    padded := attrs[n].value + Zeros(ValueSize(attrs[n]) - |attrs[n].value|);
  }

  lemma {:induction false} EntryParts(a: Attribute, valueOffset: nat, hash: nat)
    requires |a.name| <= 255
    ensures var e := EntryBytes(a, valueOffset, hash);
            && e[0] == |a.name| && e[1] == a.index && e[2..4] == LE(valueOffset, 2) && e[8..12] == LE(|a.value|, 4)
            && e[16..16 + |a.name|] == a.name
  {
    hide LE;
  }

  lemma {:induction false} ReadPositive(b: seq<byte>, i: nat)
    requires i < |b| && b[i] != 0
    ensures Read(b) != 0
  {
    if i > 0 { ReadPositive(b[1..], i - 1); }
  }

  lemma {:induction false} ReadZeros(b: seq<byte>)
    requires forall i :: 0 <= i < |b| ==> b[i] == 0
    ensures Read(b) == 0
  {
    if b != [] { ReadZeros(b[1..]); }
  }

  /** The fields of an entry that stands at `off`. */
  lemma EntryFields(buf: seq<byte>, off: nat, a: Attribute, valueOffset: nat, hash: nat)
    requires |a.name| <= 255 && off + EntrySize(a) <= |buf|
    requires buf[off..off + EntrySize(a)] == EntryBytes(a, valueOffset, hash)
    requires 0 < valueOffset < 0x1_0000 && |a.value| < 0x1_0000_0000
    ensures off + 16 <= |buf| && Field(buf, off, 4) != 0 && buf[off] == |a.name| && buf[off + 1] == a.index
    ensures Field(buf, off + 2, 2) == valueOffset && Field(buf, off + 8, 4) == |a.value|
    ensures off + 16 + |a.name| <= |buf| && buf[off + 16..off + 16 + |a.name|] == a.name
  {
    hide EntryBytes, Field;
    var e, n := EntryBytes(a, valueOffset, hash), EntrySize(a);
    EntryParts(a, valueOffset, hash);
    SliceVia(buf, off, off + n, e, 2, 4, LE(valueOffset, 2));
    SliceVia(buf, off, off + n, e, 8, 12, LE(|a.value|, 4));
    SliceVia(buf, off, off + n, e, 16, 16 + |a.name|, a.name);
    FieldRead(buf, off + 2, 2, valueOffset);
    FieldRead(buf, off + 8, 4, |a.value|);
    assert buf[off] == buf[off..off + n][0] && buf[off + 1] == buf[off..off + n][1];
    NotTheEnd(buf, off);
  }

  lemma NotTheEnd(buf: seq<byte>, off: nat)
    requires off + 4 <= |buf| && Field(buf, off + 2, 2) != 0
    ensures Field(buf, off, 4) != 0
  {
    var b := buf[off..off + 4];
    assert b[2..4] == buf[off + 2..off + 4];
    if b[2] != 0 { ReadPositive(b, 2); }
    else if b[3] != 0 { ReadPositive(b, 3); }
    else { ReadZeros(buf[off + 2..off + 4]); }
  }

  /** The terminator: four zero bytes behind the last entry. */
  lemma {:induction false} EndOfEntries(buf: seq<byte>, off: nat, base: nat)
    requires off + 4 <= |buf| && forall i :: off <= i < off + 4 ==> buf[i] == 0
    ensures ReadAttributes(buf, off, base) == []
  {
    ReadZeros(buf[off..off + 4]);
  }

  /** Where the parts of a buffer are. */
  ghost predicate Laid(buf: seq<byte>, header: nat, attrs: seq<Attribute>, hashes: seq<nat>, base: nat, capacity: nat)
    requires HaveRoom(attrs, header, capacity) && |hashes| == |attrs| && base <= header
  {
    && |buf| == capacity
    && buf[header..header + EntriesSize(attrs)] == Front(attrs, hashes, base, capacity)
    && (forall i :: header + EntriesSize(attrs) <= i < capacity - ValuesSize(attrs) ==> buf[i] == 0)
    && buf[capacity - ValuesSize(attrs)..capacity] == Back(attrs)
  }

  lemma BufferIsLaid(header: seq<byte>, attrs: seq<Attribute>, hashes: seq<nat>, base: nat, capacity: nat)
    requires HaveRoom(attrs, |header|, capacity) && |hashes| == |attrs| && base <= |header|
    ensures Laid(Buffer(header, attrs, hashes, base, capacity), |header|, attrs, hashes, base, capacity)
  {
    hide EntriesSize, ValuesSize, Front, Back;
  }

  lemma {:induction false} ReadFrom(buf: seq<byte>, header: nat, attrs: seq<Attribute>, hashes: seq<nat>, base: nat,
                                    capacity: nat, i: nat)
    requires HaveRoom(attrs, header, capacity) && |hashes| == |attrs| && base <= header && capacity < 0x1_0000
    requires i <= |attrs|
    requires Laid(buf, header, attrs, hashes, base, capacity)
    ensures ReadAttributes(buf, header + EntriesSize(attrs[..i]), base) == attrs[i..]
    decreases |attrs| - i
  {
    hide EntriesSize, ValuesSize, Laid, ReadAttributes, EntrySize, HaveRoom;
    if i == |attrs| {
      assert attrs[..i] == attrs && attrs[i..] == [];
      LaidEnd(buf, header, attrs, hashes, base, capacity);
    } else {
      OneEntry(buf, header, attrs, hashes, base, capacity, i);
      SizesAt(attrs, i);
      ReadFrom(buf, header, attrs, hashes, base, capacity, i + 1);
      assert attrs[i..] == [attrs[i]] + attrs[i + 1..];
    }
  }

  lemma {:induction false} LaidEnd(buf: seq<byte>, header: nat, attrs: seq<Attribute>, hashes: seq<nat>, base: nat,
                                   capacity: nat)
    requires HaveRoom(attrs, header, capacity) && |hashes| == |attrs| && base <= header
    requires Laid(buf, header, attrs, hashes, base, capacity)
    ensures ReadAttributes(buf, header + EntriesSize(attrs), base) == []
  {
    hide EntriesSize, ValuesSize, Front, Back, ReadAttributes;
    EndOfEntries(buf, header + EntriesSize(attrs), base);
  }

  /** Entry `i` is read with its name, index and value. */
  lemma {:induction false} OneEntry(buf: seq<byte>, header: nat, attrs: seq<Attribute>, hashes: seq<nat>, base: nat,
                                    capacity: nat, i: nat)
    requires HaveRoom(attrs, header, capacity) && |hashes| == |attrs| && base <= header && capacity < 0x1_0000
    requires i < |attrs|
    requires Laid(buf, header, attrs, hashes, base, capacity)
    ensures var off := header + EntriesSize(attrs[..i]);
            ReadAttributes(buf, off, base) == [attrs[i]] + ReadAttributes(buf, off + EntrySize(attrs[i]), base)
  {
    hide EntriesSize, ValuesSize, Front, Back, EntryBytes, Field, ReadAttributes;
    var a, off, vs := attrs[i], header + EntriesSize(attrs[..i]), ValuesSize(attrs[..i + 1]);
    SizesAt(attrs, i);
    FrontAt(attrs, hashes, base, capacity, i);
    var at := EntriesSize(attrs[..i]);
    SliceVia(buf, header, header + EntriesSize(attrs), Front(attrs, hashes, base, capacity), at, at + EntrySize(a),
             EntryBytes(a, capacity - vs - base, hashes[i]));
    BackAt(attrs, i);
    var from := ValuesSize(attrs) - vs;
    SliceVia(buf, capacity - ValuesSize(attrs), capacity, Back(attrs), from, from + |a.value|, a.value);
    ReadStep(buf, off, base, a, capacity - vs - base, hashes[i]);
  }

  lemma ReadStep(buf: seq<byte>, off: nat, base: nat, a: Attribute, valueOffset: nat, hash: nat)
    requires |a.name| <= 255 && off + EntrySize(a) <= |buf|
    requires buf[off..off + EntrySize(a)] == EntryBytes(a, valueOffset, hash)
    requires 0 < valueOffset < 0x1_0000 && |a.value| < 0x1_0000_0000
    requires base + valueOffset + |a.value| <= |buf|
    requires buf[base + valueOffset..base + valueOffset + |a.value|] == a.value
    ensures ReadAttributes(buf, off, base) == [a] + ReadAttributes(buf, off + EntrySize(a), base)
  {
    hide EntryBytes, Field;
    EntryFields(buf, off, a, valueOffset, hash);
  }

  /** Packing and reading back gives every name, index and value, in order. */
  lemma {:induction false} PackRoundTrip(header: seq<byte>, attrs: seq<Attribute>, hashes: seq<nat>, base: nat,
                                         capacity: nat)
    requires HaveRoom(attrs, |header|, capacity) && |hashes| == |attrs| && base <= |header| && capacity < 0x1_0000
    ensures ReadAttributes(Buffer(header, attrs, hashes, base, capacity), |header|, base) == attrs
  {
    hide Buffer, Laid, ReadAttributes;
    BufferIsLaid(header, attrs, hashes, base, capacity);
    ReadFrom(Buffer(header, attrs, hashes, base, capacity), |header|, attrs, hashes, base, capacity, 0);
    assert attrs[..0] == [] && attrs[0..] == attrs;
  }

  // ----- Packing in place -----

  function Splice(s: seq<byte>, off: nat, bytes: seq<byte>): (r: seq<byte>)
    requires off + |bytes| <= |s|
    ensures |r| == |s|
  {
    s[..off] + bytes + s[off + |bytes|..]
  }

  method Put(buf: array<byte>, off: nat, bytes: seq<byte>)
    requires off + |bytes| <= buf.Length
    modifies buf
    ensures buf[..] == Splice(old(buf[..]), off, bytes)
  {
    ghost var before := buf[..];
    for i := 0 to |bytes|
      invariant forall j :: 0 <= j < buf.Length ==> buf[j] == if off <= j < off + i then bytes[j - off] else before[j]
    {
      buf[off + i] := bytes[i];
    }
    assert buf[..] == Splice(before, off, bytes);
  }

  lemma SpliceAt(a: seq<byte>, z: seq<byte>, b: seq<byte>, x: seq<byte>, i: nat)
    requires i + |x| <= |z|
    ensures Splice(a + z + b, |a| + i, x) == a + (z[..i] + x + z[i + |x|..]) + b
  {
  }

  /** One more entry in front and one more value behind make the buffer of one more attribute. */
  lemma {:induction false} PackStep(header: seq<byte>, attrs: seq<Attribute>, hashes: seq<nat>, base: nat,
                                    capacity: nat, a: Attribute, hash: nat)
    requires HaveRoom(attrs + [a], |header|, capacity) && |hashes| == |attrs| && base <= |header|
    ensures HaveRoom(attrs, |header|, capacity)
    ensures var off, end := |header| + EntriesSize(attrs), capacity - ValuesSize(attrs) - ValueSize(a);
            && off + EntrySize(a) + 4 <= end && base <= end
            && Splice(Splice(Buffer(header, attrs, hashes, base, capacity), off, EntryBytes(a, end - base, hash)), end,
                      a.value) ==
               Buffer(header, attrs + [a], hashes + [hash], base, capacity)
  {
    hide EntriesSize, ValuesSize, Front, Back, EntryBytes, EntrySize, Splice, Buffer, Zeros;
    SizesSnoc(attrs, a);
    RoomBefore(attrs, a, |header|, capacity);
    BufferParts(header, attrs, hashes, base, capacity);
    BufferParts(header, attrs + [a], hashes + [hash], base, capacity);
    var end := capacity - ValuesSize(attrs) - ValueSize(a);
    var front, back, entry := Front(attrs, hashes, base, capacity), Back(attrs), EntryBytes(a, end - base, hash);
    FrontSnoc(attrs, hashes, base, capacity, a, hash);
    BackSnoc(attrs, a);
    Assoc(header, front, entry);
    TwoSplices(header + front, back, capacity - |header| - |front| - |back|, entry, a.value, ValueSize(a));
  }

  lemma {:induction false} BufferParts(header: seq<byte>, attrs: seq<Attribute>, hashes: seq<nat>, base: nat,
                                       capacity: nat)
    requires HaveRoom(attrs, |header|, capacity) && |hashes| == |attrs| && base <= |header|
    ensures var front, back := Front(attrs, hashes, base, capacity), Back(attrs);
            Buffer(header, attrs, hashes, base, capacity) == (header + front)
              + Zeros(capacity - |header| - |front| - |back|) + back
  {
    hide EntriesSize, ValuesSize, Front, Back;
  }

  /** An entry at the front of the gap and a value at its back. */
  lemma TwoSplices(front: seq<byte>, back: seq<byte>, gap: nat, entry: seq<byte>, value: seq<byte>, room: nat)
    requires |entry| + room <= gap && |value| <= room
    ensures Splice(Splice(front + Zeros(gap) + back, |front|, entry), |front| + gap - room, value) ==
            (front + entry) + Zeros(gap - |entry| - room) + (value + Zeros(room - |value|) + back)
  {
    hide Splice;
    SpliceAt(front, Zeros(gap), back, entry, 0);
    ZeroParts(gap, 0, |entry|);
    var left := gap - |entry|;
    NoFront(entry, Zeros(left));
    Assoc(front, entry, Zeros(left));
    SpliceAt(front + entry, Zeros(left), back, value, left - room);
    ZeroParts(left, left - room, |value|);
    Regroup(front + entry, Zeros(left - room), value, Zeros(room - |value|), back);
  }

  lemma NoFront(a: seq<byte>, b: seq<byte>)
    ensures [] + a + b == a + b
  {
  }

  lemma ZeroParts(n: nat, i: nat, k: nat)
    requires i + k <= n
    ensures Zeros(n)[..i] == Zeros(i) && Zeros(n)[i + k..] == Zeros(n - i - k) && Zeros(0) == []
  {
  }

  lemma Regroup(a: seq<byte>, z: seq<byte>, v: seq<byte>, p: seq<byte>, b: seq<byte>)
    ensures a + (z + v + p) + b == a + z + (v + p + b)
  {
  }

  lemma RoomBefore(attrs: seq<Attribute>, a: Attribute, header: nat, capacity: nat)
    requires HaveRoom(attrs + [a], header, capacity)
    ensures HaveRoom(attrs, header, capacity) && |a.name| <= 255
  {
    hide EntrySize, ValueSize;
    SizesSnoc(attrs, a);
    assert (attrs + [a])[|attrs|] == a;
    assert forall i :: 0 <= i < |attrs| ==> attrs[i] == (attrs + [a])[i];
  }

  lemma {:induction false} FrontSnoc(attrs: seq<Attribute>, hashes: seq<nat>, base: nat, capacity: nat, a: Attribute,
                                     hash: nat)
    requires ShortNames(attrs + [a]) && |hashes| == |attrs| && base + ValuesSize(attrs + [a]) <= capacity
    requires ShortNames(attrs) && |a.name| <= 255
    ensures ValuesSize(attrs + [a]) == ValuesSize(attrs) + ValueSize(a)
    ensures Front(attrs + [a], hashes + [hash], base, capacity) ==
            Front(attrs, hashes, base, capacity)
              + EntryBytes(a, capacity - ValuesSize(attrs) - ValueSize(a) - base, hash)
  {
    hide EntryBytes, EntrySize, ValueSize;
    SizesSnoc(attrs, a);
    assert (attrs + [a])[..|attrs|] == attrs && (hashes + [hash])[..|hashes|] == hashes;
  }

  lemma {:induction false} BackSnoc(attrs: seq<Attribute>, a: Attribute)
    ensures Back(attrs + [a]) == a.value + Zeros(ValueSize(a) - |a.value|) + Back(attrs)
  {
    assert (attrs + [a])[..|attrs|] == attrs;
  }

  lemma NoAttributes(header: seq<byte>, base: nat, capacity: nat)
    requires |header| + 4 <= capacity && base <= |header|
    ensures HaveRoom([], |header|, capacity) && EntriesSize([]) == ValuesSize([]) == 0
    ensures Buffer(header, [], [], base, capacity) == header + Zeros(capacity - |header|)
  {
  }

  lemma {:induction false} RoomForPrefix(attrs: seq<Attribute>, header: nat, capacity: nat, k: nat)
    requires HaveRoom(attrs, header, capacity) && k <= |attrs|
    ensures HaveRoom(attrs[..k], header, capacity)
  {
    hide EntrySize, ValueSize;
    assert attrs[..|attrs|] == attrs;
    SizesGrow(attrs, k, |attrs|);
  }

  /** Entries grow forward from the header, values backward from the end; they never meet, so no check on
      the way can fail. */
  method Pack(header: seq<byte>, attrs: seq<Attribute>, hashes: seq<nat>, base: nat, capacity: nat)
      returns (buf: array<byte>)
    requires HaveRoom(attrs, |header|, capacity) && |hashes| == |attrs| && base <= |header|
    ensures fresh(buf) && buf[..] == Buffer(header, attrs, hashes, base, capacity)
  {
    hide EntriesSize, ValuesSize, Buffer, EntryBytes, EntrySize, Splice, HaveRoom;
    Room(attrs, |header|, capacity);
    buf := new byte[capacity](_ => 0);
    Fresh(buf[..], header);
    Put(buf, 0, header);
    NoAttributes(header, base, capacity);
    var entryOffset: nat, valueEnd: nat := |header|, capacity;
    assert attrs[..0] == [] && hashes[..0] == [];
    for k := 0 to |attrs|
      invariant valueEnd == capacity - ValuesSize(attrs[..k]) && entryOffset == |header| + EntriesSize(attrs[..k])
      invariant buf.Length == capacity
      invariant HaveRoom(attrs[..k], |header|, capacity)
      invariant buf[..] == Buffer(header, attrs[..k], hashes[..k], base, capacity)
    {
      var a := attrs[k];
      RoomForPrefix(attrs, |header|, capacity, k + 1);
      assert attrs[..k + 1] == attrs[..k] + [a] && hashes[..k + 1] == hashes[..k] + [hashes[k]];
      RoomBefore(attrs[..k], a, |header|, capacity);
      PackStep(header, attrs[..k], hashes[..k], base, capacity, a, hashes[k]);
      SizesSnoc(attrs[..k], a);
      valueEnd := valueEnd - ValueSize(a);
      Put(buf, entryOffset, EntryBytes(a, valueEnd - base, hashes[k]));
      entryOffset := entryOffset + EntrySize(a);
      Put(buf, valueEnd, a.value);
    }
    assert attrs[..|attrs|] == attrs && hashes[..|hashes|] == hashes;
  }

  lemma Room(attrs: seq<Attribute>, header: nat, capacity: nat)
    requires HaveRoom(attrs, header, capacity)
    ensures header + 4 <= capacity
  {
  }

  lemma Fresh(buf: seq<byte>, header: seq<byte>)
    requires |header| <= |buf| && forall i :: 0 <= i < |buf| ==> buf[i] == 0
    ensures Splice(buf, 0, header) == header + Zeros(|buf| - |header|)
  {
  }
}
