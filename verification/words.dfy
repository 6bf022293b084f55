/** 32-bit machine words: the wrapping operators of the ring code, and the masking of an index. */
module Words {

  type U32 = x: int | 0 <= x < 0x1_0000_0000

  const MODULUS: int := 0x1_0000_0000

  /** The word that holds the unbounded counter `n`. */
  function Low(n: int): U32 { n % 0x1_0000_0000 }

  function WrapAdd(a: U32, b: U32): U32 { Low(a + b) }

  function WrapSub(a: U32, b: U32): U32 { Low(a - b) }

  function Min(a: int, b: int): int { if a <= b then a else b }

  /** `u32::saturating_sub`. */
  function SaturatingSub(a: U32, b: U32): U32 { if a <= b then 0 else a - b }

  lemma WholeTurns(n: int, q: int)
    ensures Low(n - 0x1_0000_0000 * q) == Low(n)
  {
  }

  lemma LowShift(n: int, b: int)
    ensures Low(Low(n) + b) == Low(n + b)
    ensures Low(Low(n) - b) == Low(n - b)
  {
    var q := n / 0x1_0000_0000;
    assert Low(n) == n - 0x1_0000_0000 * q;
    hide Low;
    WholeTurns(n + b, q);
    WholeTurns(n - b, q);
  }

  lemma WrapSubSmall(a: U32, b: U32)
    requires b <= a
    ensures WrapSub(a, b) == a - b
  {
  }

  /** A word is the given counter plus its wrapping distance from it. */
  lemma Offset(n: int, w: U32)
    ensures w == Low(n + WrapSub(w, Low(n)))
  {
    LowShift(n, WrapSub(w, Low(n)));
  }

  lemma LowOfWord(w: U32)
    ensures Low(w) == w
  {
  }

  lemma Wraparound(n: int)
    ensures Low(n + MODULUS) == Low(n)
  {
  }

  /** Two counters less than 2^32 apart keep their exact distance, however often both wrapped. */
  lemma DistanceExact(ahead: int, behind: int)
    requires 0 <= ahead - behind < MODULUS
    ensures WrapSub(Low(ahead), Low(behind)) == ahead - behind
  {
  }

  // ---------- Power-of-two sizes and masks ----------

  function Pow2(k: nat): nat
    ensures Pow2(k) > 0
  {
    if k == 0 then 1 else 2 * Pow2(k - 1)
  }

  /** `u32::is_power_of_two`. */
  ghost predicate PowerOfTwo(n: int) { exists k: nat :: k < 32 && Pow2(k) == n }

  /** Bitwise `&`, bit by bit. */
  function And(a: nat, b: nat): (r: nat)
    ensures r <= a && r <= b
  {
    if a == 0 || b == 0 then 0
    else 2 * And(a / 2, b / 2) + (if a % 2 == 1 && b % 2 == 1 then 1 else 0)
  }

  /** The slot that a raw index selects in a ring of `size` entries: `idx & mask`, `mask == size - 1`. */
  function Slot(idx: U32, size: U32): (s: U32)
    requires size > 0
    ensures s < size
  {
    And(idx, size - 1)
  }

  lemma Distributes(d: int, x: int, y: int)
    ensures d * (x - y) == d * x - d * y && d * (x + y) == d * x + d * y
  {
  }

  lemma AtLeastOnce(d: int, x: int)
    requires d >= 0 && x >= 1
    ensures d * x >= d
  {
  }

  lemma DivisionUnique(d: int, q: int, r: int, q': int, r': int)
    requires d > 0 && 0 <= r < d && 0 <= r' < d && d * q + r == d * q' + r'
    ensures q == q' && r == r'
  {
    Distributes(d, q, q');
    Distributes(d, q', q);
    if q > q' {
      AtLeastOnce(d, q - q');
    } else if q < q' {
      AtLeastOnce(d, q' - q);
    }
  }

  lemma ModUnique(n: int, d: int, q: int, r: int)
    requires d > 0 && 0 <= r < d && n == d * q + r
    ensures n % d == r
  {
    DivisionUnique(d, q, r, n / d, n % d);
  }

  lemma Regroup(a: int, b: int, c: int)
    ensures a * b * c == a * (b * c)
  {
  }

  function Rem(a: nat, d: nat): nat
    requires d > 0
  {
    a % d
  }

  /** Bit 0 of `a` is bit 0 of the remainder; the other bits come from `a / 2`. */
  lemma HalvedRemainder(a: nat, m: nat)
    requires m > 0
    ensures Rem(a, 2 * m) == 2 * Rem(a / 2, m) + a % 2
  {
    var q, r := (a / 2) / m, (a / 2) % m;
    Regroup(2, m, q);
    ModUnique(a, 2 * m, q, 2 * r + a % 2);
  }

  lemma {:induction false} AndMask(a: nat, k: nat)
    ensures And(a, Pow2(k) - 1) == Rem(a, Pow2(k))
  {
    if k == 0 {
    } else {
      var m := Pow2(k - 1);
      AndMask(a / 2, k - 1);
      HalvedRemainder(a, m);
      AndOdd(a, m);
      hide And, Rem;
    }
  }

  lemma AndOdd(a: nat, m: nat)
    requires m > 0
    ensures And(a, 2 * m - 1) == 2 * And(a / 2, m - 1) + a % 2
  {
    assert (2 * m - 1) / 2 == m - 1;
  }

  lemma {:induction false} Pow2Splits(j: nat, k: nat)
    ensures Pow2(j + k) == Pow2(j) * Pow2(k)
    decreases k
  {
    if k == 0 {
    } else {
      Pow2Splits(j, k - 1);
      Regroup(2, Pow2(j), Pow2(k - 1));
      Regroup(Pow2(j), 2, Pow2(k - 1));
    }
  }

  lemma Pow2Values()
    ensures Pow2(32) == MODULUS && Pow2(31) == 0x8000_0000
  {
    assert Pow2(4) == 16;
    Pow2Splits(4, 4);
    Pow2Splits(8, 8);
    Pow2Splits(16, 16);
  }

  lemma PowerDivides(size: U32) returns (m: int)
    requires PowerOfTwo(size)
    ensures 0 < size <= 0x8000_0000 && size * m == MODULUS
  {
    var k: nat :| k < 32 && Pow2(k) == size;
    Pow2Values();
    Pow2Splits(k, 32 - k);
    Pow2Splits(k, 31 - k);
    AtLeastOnce(size, Pow2(31 - k));
    m := Pow2(32 - k);
  }

  lemma PowerBounds(size: U32)
    requires PowerOfTwo(size)
    ensures 0 < size <= 0x8000_0000
  {
    var _ := PowerDivides(size);
  }

  lemma ModCongruent(n: int, d: int, w: int, m: int, t: int)
    requires d > 0 && n == d * m * t + w
    ensures n % d == w % d
  {
    var q := w / d;
    Regroup(d, m, t);
    Distributes(d, m * t, q);
    ModUnique(n, d, m * t + q, w % d);
  }

  lemma DivisionParts(n: int, d: int) returns (q: int)
    requires d > 0
    ensures n == d * q + n % d
  {
    q := n / d;
  }

  lemma ModDistinct(a: int, b: int, d: int)
    requires d > 0 && a <= b < a + d && a % d == b % d
    ensures a == b
  {
    var p := DivisionParts(a, d);
    var q := DivisionParts(b, d);
    Distributes(d, q, p);
    DivisionUnique(d, q - p, 0, 0, b - a);
  }

  /** Masking the wrapped head gives the unbounded head modulo the ring size. */
  lemma SlotIsModulo(n: nat, size: U32)
    requires PowerOfTwo(size)
    ensures Slot(Low(n), size) == n % size
  {
    var k: nat :| k < 32 && Pow2(k) == size;
    AndMask(Low(n), k);
    var m := PowerDivides(size);
    ModCongruent(n, size, Low(n), m, n / 0x1_0000_0000);
  }

  /** Two indices share a slot exactly when they are equal, inside any window of `size` indices. */
  lemma SlotsDistinct(a: nat, b: nat, size: U32)
    requires PowerOfTwo(size) && a <= b < a + size
    ensures Slot(Low(a), size) == Slot(Low(b), size) <==> a == b
  {
    PowerBounds(size);
    SlotIsModulo(a, size);
    SlotIsModulo(b, size);
    if a % size == b % size {
      ModDistinct(a, b, size);
    }
  }

  /** Two indices exactly one ring apart share a slot. */
  lemma SlotsRepeat(a: nat, size: U32)
    requires PowerOfTwo(size)
    ensures Slot(Low(a), size) == Slot(Low(a + size), size)
  {
    PowerBounds(size);
    SlotIsModulo(a, size);
    SlotIsModulo(a + size, size);
    ModCongruent(a + size, size, a, 1, 1);
  }

  // ---------- Where an entry lies in the mapping ----------

  /** The byte length that `XskRing::map` asks of mmap. */
  function MapLength(desc: nat, count: U32, entry: nat): nat { desc + count * entry }

  /** The first byte of the entry selected by `idx`. */
  function EntryAt(desc: nat, entry: nat, idx: U32, size: U32): nat
    requires size > 0
  {
    desc + Slot(idx, size) * entry
  }

  lemma {:induction false} EntriesApart(s: int, t: int, entry: nat)
    requires s < t
    ensures s * entry + entry <= t * entry
  {
    Distributes(entry, t, s);
    AtLeastOnce(entry, t - s);
  }

  /** Every 32-bit index selects an entry inside the mapped length. */
  lemma EntryInsideMapping(desc: nat, entry: nat, idx: U32, size: U32)
    requires size > 0
    ensures desc <= EntryAt(desc, entry, idx, size)
    ensures EntryAt(desc, entry, idx, size) + entry <= MapLength(desc, size, entry)
  {
    EntriesApart(Slot(idx, size), size, entry);
  }

  /**
   The layout of a ring: the entry of index 0 stands at the `desc` offset, each next index selects the next
   entry, the last entry ends the mapping, and the index after it is back at the first.
   */
  lemma EntryLayout(desc: nat, entry: nat, n: nat, size: U32)
    requires PowerOfTwo(size)
    ensures size > 0 && EntryAt(desc, entry, 0, size) == desc
    ensures n % size == size - 1 ==>
              && EntryAt(desc, entry, Low(n), size) + entry == MapLength(desc, size, entry)
              && EntryAt(desc, entry, Low(n + 1), size) == desc
    ensures n % size != size - 1 ==>
              EntryAt(desc, entry, Low(n + 1), size) == EntryAt(desc, entry, Low(n), size) + entry
  {
    PowerBounds(size);
    SlotIsModulo(0, size);
    SlotIsModulo(n, size);
    SlotIsModulo(n + 1, size);
    LowOfWord(0);
    NextRemainder(n, size);
    var r := n % size;
    hide Low, Slot;
    OneMore(r, entry);
    if r == size - 1 {
      OneMore(size - 1, entry);
    }
  }

  lemma OneMore(r: int, entry: int)
    ensures (r + 1) * entry == r * entry + entry
  {
  }

  lemma NextRemainder(n: nat, d: nat)
    requires d > 0
    ensures 0 % d == 0
    ensures (n + 1) % d == if n % d == d - 1 then 0 else n % d + 1
  {
    var q := DivisionParts(n, d);
    ModUnique(0, d, 0, 0);
    if n % d == d - 1 {
      Distributes(d, q, 1);
      ModUnique(n + 1, d, q + 1, 0);
    } else {
      ModUnique(n + 1, d, q, n % d + 1);
    }
  }

  /** Entries of different indices in a window of `size` never overlap, also across the 2^32 wrap. */
  lemma EntriesDisjoint(desc: nat, entry: nat, a: nat, b: nat, size: U32)
    requires PowerOfTwo(size) && a < b < a + size
    ensures var x, y := EntryAt(desc, entry, Low(a), size), EntryAt(desc, entry, Low(b), size);
            x + entry <= y || y + entry <= x
  {
    SlotsDistinct(a, b, size);
    var s, t := Slot(Low(a), size), Slot(Low(b), size);
    if s < t {
      EntriesApart(s, t, entry);
    } else {
      EntriesApart(t, s, entry);
    }
  }
}
