/**
  The memory routines of the paging test environment (`isa-tests/env/v/string.c`).  Memory is
  one array of bytes and an address is an index into it.  `W` is `sizeof(uintptr_t)`; a word is
  the sequence of its `W` bytes, lowest first.
 */
module StringRoutines {
  import opened Machine
  import Bits

  predicate WordSize(w: nat) {
    w == 4 || w == 8
  }

  /** `((x & (W - 1)) == 0` */
  predicate Aligned(x: nat, w: nat)
    requires w > 0
  {
    x % w == 0
  }

  function LoadWord(mem: seq<Byte>, at: nat, w: nat): seq<Byte>
    requires at + w <= |mem|
  {
    mem[at..at + w]
  }

  method StoreWord(mem: array<Byte>, at: nat, word: seq<Byte>)
    requires at + |word| <= mem.Length
    modifies mem
    ensures mem[..] == old(mem[..at]) + word + old(mem[at + |word|..])
  {
    ghost var before := mem[..];
    var i := 0;
    while i < |word|
      invariant 0 <= i <= |word|
      invariant mem[..] == before[..at] + word[..i] + before[at + i..]
    {
      mem[at + i] := word[i];
      i := i + 1;
    }
    assert word[..i] == word;
  }

  /** An aligned address below an aligned end leaves room for a word. */
  lemma RoomForWord(at: nat, end: nat, w: nat)
    requires WordSize(w) && Aligned(at, w) && Aligned(end, w) && at < end
    ensures at + w <= end && Aligned(at + w, w)
  {
    RoomForUnit(at, end, w);
  }

  // ---------------------------------------------------------------------------
  // memcmp
  // ---------------------------------------------------------------------------

  function Minus(a: int, b: int): int {
    a - b
  }

  /** The difference at the first position where the two differ, or zero. */
  function Difference(a: seq<Byte>, b: seq<Byte>): int
    requires |a| == |b|
  {
    if a == [] then 0 else if a[0] != b[0] then Minus(a[0], b[0]) else Difference(a[1..], b[1..])
  }

  /** It is zero exactly for equal contents. */
  lemma {:induction false} DifferenceMeans(a: seq<Byte>, b: seq<Byte>)
    requires |a| == |b|
    ensures Difference(a, b) == 0 <==> a == b
    decreases |a|
  {
    if a != [] {
      DifferenceMeans(a[1..], b[1..]);
      assert a == [a[0]] + a[1..] && b == [b[0]] + b[1..];
    }
  }

  /** Its sign is the order of the bytes where the two first differ. */
  lemma DifferenceOrders(a: seq<Byte>, b: seq<Byte>, k: nat)
    requires |a| == |b| && k < |a| && a[..k] == b[..k] && a[k] != b[k]
    ensures Difference(a, b) + b[k] == a[k]
    ensures Difference(a, b) < 0 <==> a[k] < b[k]
  {
    FirstDiffers(a, b, k);
  }

  /** And otherwise it comes from the first position where they differ. */
  lemma FirstDiffers(a: seq<Byte>, b: seq<Byte>, k: nat)
    requires |a| == |b| && k < |a| && a[..k] == b[..k] && a[k] != b[k]
    ensures Difference(a, b) == Minus(a[k], b[k])
  {
    SamePrefix(a, b, k);
  }

  lemma {:induction false} SamePrefix(a: seq<Byte>, b: seq<Byte>, n: nat)
    requires |a| == |b| && n <= |a| && a[..n] == b[..n]
    ensures Difference(a, b) == Difference(a[n..], b[n..])
    decreases n
  {
    if n > 0 {
      assert a[0] == a[..n][0] && b[0] == b[..n][0];
      assert a[1..][..n - 1] == a[..n][1..] && b[1..][..n - 1] == b[..n][1..];
      SamePrefix(a[1..], b[1..], n - 1);
      assert a[1..][n - 1..] == a[n..] && b[1..][n - 1..] == b[n..];
    } else {
      assert a[0..] == a && b[0..] == b;
    }
  }

  /** A region of memory. */
  function Region(mem: seq<Byte>, at: nat, n: nat): seq<Byte>
    requires at + n <= |mem|
  {
    mem[at..at + n]
  }

  lemma RegionGrows(m: seq<Byte>, s1: nat, s2: nat, i: nat, n: nat)
    requires s1 + i + n <= |m| && s2 + i + n <= |m|
    requires Region(m, s1, i) == Region(m, s2, i) && Region(m, s1 + i, n) == Region(m, s2 + i, n)
    ensures Region(m, s1, i + n) == Region(m, s2, i + n)
  {
    assert Region(m, s1, i + n) == Region(m, s1, i) + Region(m, s1 + i, n);
    assert Region(m, s2, i + n) == Region(m, s2, i) + Region(m, s2 + i, n);
  }

  lemma WholeWords(n: nat, w: nat)
    requires WordSize(w)
    ensures n / w * w <= n && (n / w * w) % w == 0
  {
    Recompose(n, w);
    Rest(n / w, w, 0);
  }

  /** The word loop: how far whole words are equal. */
  method EqualWords(mem: array<Byte>, s1: nat, s2: nat, n: nat, w: nat) returns (u: nat)
    requires WordSize(w) && s1 + n <= mem.Length && s2 + n <= mem.Length
    ensures u <= n && Region(mem[..], s1, u) == Region(mem[..], s2, u)
  {
    hide Region, LoadWord;
    ghost var m := mem[..];
    u := 0;
    var end := n / w * w;
    WholeWords(n, w);
    Empty(m, s1, s2);
    while u < end
      invariant u <= end <= n && u % w == 0 && end % w == 0
      invariant Region(m, s1, u) == Region(m, s2, u)
    {
      RoomForWord(u, end, w);
      if LoadWord(mem[..], s1 + u, w) != LoadWord(mem[..], s2 + u, w) {
        break;
      }
      WordIsRegion(m, s1 + u, s2 + u, w);
      RegionGrows(m, s1, s2, u, w);
      u := u + w;
    }
  }

  /** Whole words are compared while they are equal, and the rest byte by byte. */
  method Memcmp(mem: array<Byte>, s1: nat, s2: nat, n: nat, w: nat) returns (r: int)
    requires WordSize(w) && s1 + n <= mem.Length && s2 + n <= mem.Length
    ensures r == Difference(Region(mem[..], s1, n), Region(mem[..], s2, n))
  {
    hide Difference, Region;
    ghost var m := mem[..];
    var u := 0;
    assert Region(m, s1, 0) == Region(m, s2, 0) by { Empty(m, s1, s2); }
    if Aligned(s1, w) && Aligned(s2, w) {
      u := EqualWords(mem, s1, s2, n, w);
    }
    while u < n
      invariant u <= n && Region(m, s1, u) == Region(m, s2, u)
    {
      var c1, c2 := mem[s1 + u], mem[s2 + u];
      if c1 != c2 {
        FirstDifference(m, s1, s2, u, n);
        return Minus(c1, c2);
      }
      ByteIsRegion(m, s1 + u, s2 + u);
      RegionGrows(m, s1, s2, u, 1);
      u := u + 1;
    }
    r := 0;
    DifferenceMeans(Region(m, s1, n), Region(m, s2, n));
  }

  lemma Empty(m: seq<Byte>, a: nat, b: nat)
    requires a <= |m| && b <= |m|
    ensures Region(m, a, 0) == Region(m, b, 0)
  {
  }

  lemma WordIsRegion(m: seq<Byte>, a: nat, b: nat, w: nat)
    requires a + w <= |m| && b + w <= |m|
    ensures LoadWord(m, a, w) == LoadWord(m, b, w) <==> Region(m, a, w) == Region(m, b, w)
  {
    assert LoadWord(m, a, w) == Region(m, a, w) && LoadWord(m, b, w) == Region(m, b, w);
  }

  lemma ByteIsRegion(m: seq<Byte>, a: nat, b: nat)
    requires a < |m| && b < |m|
    ensures m[a] == m[b] ==> Region(m, a, 1) == Region(m, b, 1)
  {
    assert Region(m, a, 1) == [m[a]] && Region(m, b, 1) == [m[b]];
  }

  lemma FirstDifference(m: seq<Byte>, s1: nat, s2: nat, u: nat, n: nat)
    requires s1 + n <= |m| && s2 + n <= |m| && u < n && Region(m, s1, u) == Region(m, s2, u) && m[s1 + u] != m[s2 + u]
    ensures Difference(Region(m, s1, n), Region(m, s2, n)) == Minus(m[s1 + u], m[s2 + u])
  {
    var a, b := Region(m, s1, n), Region(m, s2, n);
    assert a[..u] == Region(m, s1, u) && b[..u] == Region(m, s2, u);
    FirstDiffers(a, b, u);
  }

  // ---------------------------------------------------------------------------
  // memcpy
  // ---------------------------------------------------------------------------

  /** Memory with `data` written at `at`. */
  function Written(m: seq<Byte>, at: nat, data: seq<Byte>): (r: seq<Byte>)
    requires at + |data| <= |m|
    ensures |r| == |m|
  {
    m[..at] + data + m[at + |data|..]
  }

  lemma WrittenOn(m: seq<Byte>, at: nat, data: seq<Byte>, more: seq<Byte>)
    requires at + |data| + |more| <= |m|
    ensures Written(Written(m, at, data), at + |data|, more) == Written(m, at, data + more)
  {
  }

  /** Bytes not yet copied are still the old ones, unless the destination overlaps the source from above. */
  lemma SourceIntact(m: seq<Byte>, dest: nat, src: nat, len: nat, i: nat, n: nat)
    requires dest + len <= |m| && src + len <= |m| && i + n <= len
    requires dest <= src || src + len <= dest
    ensures Region(Written(m, dest, Region(m, src, i)), src + i, n) == Region(m, src + i, n)
  {
  }

  lemma RegionSplit(m: seq<Byte>, at: nat, i: nat, n: nat)
    requires at + i + n <= |m|
    ensures Region(m, at, i) + Region(m, at + i, n) == Region(m, at, i + n)
  {
  }

  /** Word by word or byte by byte, the destination becomes what the source was. */
  method Memcpy(mem: array<Byte>, dest: nat, src: nat, len: nat, w: nat)
    requires WordSize(w) && dest + len <= mem.Length && src + len <= mem.Length
    requires dest <= src || src + len <= dest
    modifies mem
    ensures mem[..] == Written(old(mem[..]), dest, Region(old(mem[..]), src, len))
  {
    if Aligned(dest, w) && Aligned(src, w) && Aligned(len, w) {
      CopyLoop(mem, dest, src, len, w);
    } else {
      CopyLoop(mem, dest, src, len, 1);
    }
  }

  /** `while (d < dest + len) *d++ = *s++;` with units of `unit` bytes. */
  method CopyLoop(mem: array<Byte>, dest: nat, src: nat, len: nat, unit: nat)
    requires (WordSize(unit) || unit == 1) && len % unit == 0
    requires dest + len <= mem.Length && src + len <= mem.Length
    requires dest <= src || src + len <= dest
    modifies mem
    ensures mem[..] == Written(old(mem[..]), dest, Region(old(mem[..]), src, len))
  {
    hide Written, Region;
    ghost var m := mem[..];
    NothingWritten(m, dest, src);
    var i := 0;
    while i < len
      invariant 0 <= i <= len && i % unit == 0
      invariant |Region(m, src, i)| == i && mem[..] == Written(m, dest, Region(m, src, i))
      decreases len - i
    {
      RoomForUnit(i, len, unit);
      SourceIntact(m, dest, src, len, i, unit);
      CopyUnit(mem, dest + i, src + i, unit);
      RegionLength(m, src, i, unit);
      WrittenOn(m, dest, Region(m, src, i), Region(m, src + i, unit));
      RegionSplit(m, src, i, unit);
      i := i + unit;
    }
  }

  lemma RoomForUnit(at: nat, end: nat, unit: nat)
    requires (WordSize(unit) || unit == 1) && at % unit == 0 && end % unit == 0 && at < end
    ensures at + unit <= end && (at + unit) % unit == 0
  {
    Recompose(at, unit);
    Recompose(end, unit);
    NextMultiple(at / unit, end / unit, unit);
    Rest(at / unit + 1, unit, 0);
  }

  /** `*d++ = *s++` on a word or a byte. */
  method CopyUnit(mem: array<Byte>, d: nat, s: nat, n: nat)
    requires d + n <= mem.Length && s + n <= mem.Length
    modifies mem
    ensures |Region(old(mem[..]), s, n)| == n && mem[..] == Written(old(mem[..]), d, Region(old(mem[..]), s, n))
  {
    var word := mem[s..s + n];
    StoreWord(mem, d, word);
  }

  lemma NothingWritten(m: seq<Byte>, dest: nat, src: nat)
    requires dest <= |m| && src <= |m|
    ensures |Region(m, src, 0)| == 0 && Written(m, dest, Region(m, src, 0)) == m
  {
  }

  lemma RegionLength(m: seq<Byte>, src: nat, i: nat, n: nat)
    requires src + i + n <= |m|
    ensures |Region(m, src, i)| == i && |Region(m, src + i, n)| == n && |Region(m, src, i + n)| == i + n
  {
  }

  // ---------------------------------------------------------------------------
  // memset
  // ---------------------------------------------------------------------------

  /** `a | b` on bytes. */
  function Or(a: Byte, b: Byte): Byte {
    ByteOf(OrBits(Bits.BitsOf(a, 8), Bits.BitsOf(b, 8)))
  }

  function OrBits(a: seq<bool>, b: seq<bool>): (r: seq<bool>)
    requires |a| == |b|
    ensures |r| == |a|
  {
    seq(|a|, i requires 0 <= i < |a| => a[i] || b[i])
  }

  lemma OrZero(a: Byte)
    ensures Or(a, 0) == a && Or(0, a) == a
  {
    var x, z := Bits.BitsOf(a, 8), Bits.BitsOf(0, 8);
    forall i | 0 <= i < 8
      ensures !z[i]
    {
      Bits.NoBits(8, i);
    }
    assert OrBits(x, z) == x && OrBits(z, x) == x;
    assert Bits.Power2(8) == 0x100;
    Bits.NatOfBits(a, 8);
  }

  /** `word << (8 * k)` in a word of this many bytes. */
  function ShiftLeft(word: seq<Byte>, k: nat): (r: seq<Byte>)
    ensures |r| == |word|
  {
    seq(|word|, i requires 0 <= i < |word| => if i < k then 0 else word[i - k])
  }

  function OrWord(a: seq<Byte>, b: seq<Byte>): (r: seq<Byte>)
    requires |a| == |b|
    ensures |r| == |a|
  {
    seq(|a|, i requires 0 <= i < |a| => Or(a[i], b[i]))
  }

  /** A word whose lowest `k` bytes are `b` and whose others are zero. */
  function LowBytes(b: Byte, k: nat, w: nat): (r: seq<Byte>)
    ensures |r| == w
  {
    seq(w, i requires 0 <= i < w => if i < k then b else 0)
  }

  /** `word |= word << (8 * k)` doubles the filled part. */
  lemma Doubles(b: Byte, k: nat, w: nat)
    ensures OrWord(LowBytes(b, k, w), ShiftLeft(LowBytes(b, k, w), k)) == LowBytes(b, 2 * k, w)
  {
    hide Or;
    OrZero(b);
    OrZero(0);
  }

  /** The three doubling lines; the last shifts by 16 bits twice, which is also right for 32-bit words. */
  method FillWord(byte: int, w: nat) returns (word: seq<Byte>)
    requires WordSize(w)
    ensures word == Filled(byte % 0x100, w)
  {
    hide OrWord;
    var b: Byte := byte % 0x100;
    word := LowBytes(b, 1, w);
    Doubles(b, 1, w);
    word := OrWord(word, ShiftLeft(word, 1));
    Doubles(b, 2, w);
    word := OrWord(word, ShiftLeft(word, 2));
    Doubles(b, 4, w);
    assert ShiftLeft(ShiftLeft(word, 2), 2) == ShiftLeft(word, 4);
    word := OrWord(word, ShiftLeft(ShiftLeft(word, 2), 2));
    assert word == Filled(b, w);
  }

  function Filled(b: Byte, n: nat): (r: seq<Byte>)
    ensures |r| == n
  {
    seq(n, _ => b)
  }

  /** Word by word or byte by byte, every byte of the destination becomes the low byte of `byte`. */
  method Memset(mem: array<Byte>, dest: nat, byte: int, len: nat, w: nat)
    requires WordSize(w) && dest + len <= mem.Length
    modifies mem
    ensures mem[..] == Written(old(mem[..]), dest, Filled(byte % 0x100, len))
  {
    if Aligned(dest, w) && Aligned(len, w) {
      var word := FillWord(byte, w);
      SetLoop(mem, dest, byte % 0x100, word, len);
    } else {
      SetLoop(mem, dest, byte % 0x100, [byte % 0x100], len);
    }
  }

  /** `while (d < dest + len) *d++ = unit;` */
  method SetLoop(mem: array<Byte>, dest: nat, b: Byte, unit: seq<Byte>, len: nat)
    requires (WordSize(|unit|) || |unit| == 1) && unit == Filled(b, |unit|) && len % |unit| == 0
    requires dest + len <= mem.Length
    modifies mem
    ensures mem[..] == Written(old(mem[..]), dest, Filled(b, len))
  {
    hide Written, Filled;
    ghost var m := mem[..];
    NothingSet(m, dest, b);
    var i := 0;
    while i < len
      invariant 0 <= i <= len && i % |unit| == 0
      invariant mem[..] == Written(m, dest, Filled(b, i))
      decreases len - i
    {
      RoomForUnit(i, len, |unit|);
      StoreUnit(mem, dest + i, unit);
      WrittenOn(m, dest, Filled(b, i), unit);
      FilledOn(b, i, |unit|);
      i := i + |unit|;
    }
  }

  method StoreUnit(mem: array<Byte>, at: nat, unit: seq<Byte>)
    requires at + |unit| <= mem.Length
    modifies mem
    ensures mem[..] == Written(old(mem[..]), at, unit)
  {
    StoreWord(mem, at, unit);
  }

  lemma NothingSet(m: seq<Byte>, dest: nat, b: Byte)
    requires dest <= |m|
    ensures Written(m, dest, Filled(b, 0)) == m
  {
  }

  lemma FilledOn(b: Byte, i: nat, n: nat)
    ensures Filled(b, i) + Filled(b, n) == Filled(b, i + n)
  {
  }
}
