/** ceil_div of src/process.c:25-29 on all its arguments: what single precision makes of the page count. */
module Rounding {
  import opened Bytes
  import opened Processes

  predicate PowerOfTwo(m: nat) {
    m in {1, 2, 4, 8, 16, 32, 64, 128, 256}
  }

  /** There are 24 significant bits: the spacing around n is the power of two that brings n below 2^24, and not below
      2^23 unless it is 1. */
  lemma SpacingIs(n: u32)
    ensures PowerOfTwo(Spacing(n))
    ensures n < 0x100_0000 * Spacing(n) && (Spacing(n) > 1 ==> n >= 0x80_0000 * Spacing(n))
  {
  }

  /** The a-th multiple of m, case by case. */
  function Times(m: nat, a: nat): nat {
    if m == 1 then a else if m == 2 then 2 * a else if m == 4 then 4 * a else if m == 8 then 8 * a
    else if m == 16 then 16 * a else if m == 32 then 32 * a else if m == 64 then 64 * a
    else if m == 128 then 128 * a else 256 * a
  }

  lemma TimesIs(m: nat, a: nat)
    requires PowerOfTwo(m)
    ensures Times(m, a) == a * m
  {
  }

  lemma NextMultiple(m: nat, a: nat)
    requires PowerOfTwo(m)
    ensures Times(m, a + 1) == Times(m, a) + m
  {
  }

  lemma Apart(m: nat, a: nat, b: nat)
    requires PowerOfTwo(m) && Times(m, a) < Times(m, b)
    ensures a < b && Times(m, a) + m <= Times(m, b) && (Times(m, b) == Times(m, a) + m ==> b == a + 1)
  {
  }

  /** A page boundary is an even multiple of the spacing. */
  lemma BoundaryIsEven(m: nat, k: nat) returns (h: nat)
    requires PowerOfTwo(m)
    ensures Times(m, 2 * h) == 0x40_0000 * k
  {
    match m
    case 1 => h := 0x20_0000 * k;
    case 2 => h := 0x10_0000 * k;
    case 4 => h := 0x8_0000 * k;
    case 8 => h := 0x4_0000 * k;
    case 16 => h := 0x2_0000 * k;
    case 32 => h := 0x1_0000 * k;
    case 64 => h := 0x8000 * k;
    case 128 => h := 0x4000 * k;
    case _ => h := 0x2000 * k;
  }

  /** (float) n is the nearest multiple of the spacing, and of two that are equally near the even one. */
  lemma FloatIsNearest(n: u32) returns (a: nat)
    ensures var m, f := Spacing(n), ToFloat(n);
      && f == Times(m, a) && 2 * (f - n) <= m && 2 * (n - f) <= m
      && (2 * (f - n) == m || 2 * (n - f) == m ==> a % 2 == 0)
  {
    hide Spacing, Times;
    SpacingIs(n);
    var m := Spacing(n);
    var q, r := n / m, n % m;
    assert n == q * m + r;
    TimesIs(m, q);
    TimesIs(m, q + 1);
    NextMultiple(m, q);
    a := if 2 * r < m || (2 * r == m && q % 2 == 0) then q else q + 1;
  }

  /** The pages that n bytes take. */
  function Pages(n: u32): nat {
    (n + 0x3F_FFFF) / 0x40_0000
  }

  lemma InPage(n: u32)
    ensures n == 0x40_0000 * (n / 0x40_0000) + n % 0x40_0000
    ensures Pages(n) == n / 0x40_0000 + (if n % 0x40_0000 == 0 then 0 else 1)
  {
  }

  /** Where the rounded number lies: in the page of n, and on its lower boundary exactly when n is close to that. */
  lemma RoundedInPage(n: u32)
    ensures var k, r, f := n / 0x40_0000, n % 0x40_0000, ToFloat(n);
      && 0x40_0000 * k <= f <= 0x40_0000 * (k + 1)
      && (f == 0x40_0000 * k <==> 2 * r <= Spacing(n))
  {
    hide Spacing, ToFloat, Times;
    var m, f, k := Spacing(n), ToFloat(n), n / 0x40_0000;
    SpacingIs(n);
    InPage(n);
    var a := FloatIsNearest(n);
    var low := BoundaryIsEven(m, k);
    var high := BoundaryIsEven(m, k + 1);
    if f < Times(m, 2 * low) { Apart(m, a, 2 * low); }
    if f > Times(m, 2 * high) { Apart(m, 2 * high, a); }
    if f > Times(m, 2 * low) { Apart(m, 2 * low, a); }
  }

  /** The page count is the exact one, or one too few: that is when the bytes of the last page are so few that rounding
      loses them, which takes at least 2^24 bytes. */
  lemma PageCountIs(n: u32)
    ensures var lost := 0 < n % 0x40_0000 && 2 * (n % 0x40_0000) <= Spacing(n);
      CeilDiv(n) == if lost then Pages(n) - 1 else Pages(n)
  {
    hide Spacing, ToFloat;
    SpacingIs(n);
    RoundedInPage(n);
    InPage(n);
    BetweenPages(ToFloat(n), n / 0x40_0000);
  }

  lemma BetweenPages(f: nat, k: nat)
    requires 0x40_0000 * k <= f <= 0x40_0000 * (k + 1)
    ensures (if f % 0x40_0000 == 0 then f / 0x40_0000 else f / 0x40_0000 + 1) == if f == 0x40_0000 * k then k else k + 1
  {
  }

  /** Which programs are refused for their size: those of more than 28 MiB and two bytes - the two bytes are lost in the
      rounding - up to the sizes whose sum with a page wraps round, which are taken for small ones. */
  lemma TooLargeIs(size: u32)
    ensures PagesNeeded(size) > 8 <==> 0x1C0_0002 < size < 0xFFC0_0000
  {
    hide CeilDiv;
    var n: u32 := (size + 0x40_0000) % 0x1_0000_0000;
    PageCountIs(n);
    InPage(n);
  }
}
