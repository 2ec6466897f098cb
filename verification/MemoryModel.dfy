/** How much memory a node of a declared size is modelled to have, and how much of it is left for pods. */
module MemoryModel {

  const MAX_INT64: int := 0x7FFF_FFFF_FFFF_FFFF
  const MIB: int := 1024 * 1024

  function Ceil(x: real): int {
    if x.Floor as real == x then x.Floor else x.Floor + 1
  }

  function Max(a: real, b: real): real { if a < b then b else a }

  function Min(a: real, b: real): real { if a < b then a else b }

  datatype VMMemoryOverheadConfig = VMMemoryOverheadConfig(baseMiB: real, perGBMiB: real, percent: real)

  const DEFAULT_OVERHEAD := VMMemoryOverheadConfig(600.0, 19.0, 0.0)

  /** The larger of the two forms, in whole MiB. */
  function LargerMiB(fixed: real, percent: real): int {
    var overhead := Ceil(Max(Max(fixed, percent), 0.0));
    if overhead >= MAX_INT64 then MAX_INT64 else overhead
  }

  function FixedMiB(c: VMMemoryOverheadConfig, gbs: real): real { c.baseMiB + c.perGBMiB * gbs }

  function PercentMiB(c: VMMemoryOverheadConfig, gbs: real): real { c.percent * gbs * 1024.0 }

  function OverheadMiB(c: VMMemoryOverheadConfig, gbs: real): int {
    LargerMiB(FixedMiB(c, gbs), PercentMiB(c, gbs))
  }

  function DeclaredMiB(gbs: real): int { (gbs * 1024.0).Floor }

  function CapacityAfter(declared: int, overhead: int): int {
    if declared - overhead < 1 then 1 else declared - overhead
  }

  /** A VM never sees all of the memory that its shape declares; a bare metal machine does. */
  function MemoryCapacityMiB(bareMetal: bool, gbs: real, c: VMMemoryOverheadConfig): int {
    if bareMetal then DeclaredMiB(gbs) else CapacityAfter(DeclaredMiB(gbs), OverheadMiB(c, gbs))
  }

  /** GiB that the kubelet keeps for itself. */
  function KubeReservedGiB(gbs: real): real {
    if gbs <= 4.0 then 0.25 * gbs
    else if gbs <= 8.0 then 0.20 * (gbs - 4.0) + 1.0
    else if gbs <= 16.0 then 0.10 * (gbs - 8.0) + 1.8
    else if gbs <= 128.0 then 0.06 * (gbs - 16.0) + 2.6
    else 0.02 * (gbs - 128.0) + 9.32
  }

  function KubeReservedBytes(gbs: real): int {
    Ceil(KubeReservedGiB(gbs) * 1024.0 * 1024.0 * 1024.0)
  }

  const SYSTEM_RESERVED_BYTES: int := 100 * MIB

  /** Without kubelet overrides there is no eviction threshold. */
  function AllocatableBytes(bareMetal: bool, gbs: real, c: VMMemoryOverheadConfig): int {
    MemoryCapacityMiB(bareMetal, gbs, c) * MIB - KubeReservedBytes(gbs) - SYSTEM_RESERVED_BYTES
  }

  // ---- Properties ----

  lemma CeilBounds(x: real)
    ensures x <= Ceil(x) as real < x + 1.0
  {
  }

  lemma CeilMonotone(x: real, y: real)
    requires x <= y
    ensures Ceil(x) <= Ceil(y)
  {
  }

  /** The five branches are the least of their five lines, so the reservation is concave in the size. */
  lemma ReservedIsLeastOfLines(gbs: real)
    ensures KubeReservedGiB(gbs) ==
              Min(Min(Min(Min(0.25 * gbs, 0.20 * (gbs - 4.0) + 1.0), 0.10 * (gbs - 8.0) + 1.8),
                      0.06 * (gbs - 16.0) + 2.6), 0.02 * (gbs - 128.0) + 9.32)
  {
  }

  /** Each more GiB reserves more, but never more than a quarter of it. */
  lemma ReservedGrowsSlowly(a: real, b: real)
    requires a <= b
    ensures 0.02 * (b - a) <= KubeReservedGiB(b) - KubeReservedGiB(a) <= 0.25 * (b - a)
  {
  }

  lemma TimesMonotone(a: real, b: real, x: real)
    requires a <= b && x >= 0.0
    ensures a * x <= b * x
  {
    assert (b - a) * x >= 0.0;
  }

  lemma LargerMonotone(fixed: real, low: real, more: real, high: real)
    requires fixed <= more && low <= high
    ensures LargerMiB(fixed, low) <= LargerMiB(more, high)
  {
    CeilMonotone(Max(Max(fixed, low), 0.0), Max(Max(more, high), 0.0));
  }

  /** A percentage can only lower the estimate. */
  lemma PercentOnlyLowers(bareMetal: bool, gbs: real, c: VMMemoryOverheadConfig, percent: real)
    requires gbs >= 0.0 && c.percent <= percent
    ensures MemoryCapacityMiB(bareMetal, gbs, c.(percent := percent)) <= MemoryCapacityMiB(bareMetal, gbs, c)
  {
    var d := c.(percent := percent);
    assert FixedMiB(c, gbs) == FixedMiB(d, gbs);
    assert PercentMiB(c, gbs) <= PercentMiB(d, gbs) by {
      TimesMonotone(c.percent, percent, gbs);
    }
    LargerMonotone(FixedMiB(c, gbs), PercentMiB(c, gbs), FixedMiB(d, gbs), PercentMiB(d, gbs));
  }

  /** The estimate exceeds what a shape declares exactly if the shape is a VM that declares less than one MiB. */
  lemma NeverOverDeclared(bareMetal: bool, gbs: real, c: VMMemoryOverheadConfig)
    ensures MemoryCapacityMiB(bareMetal, gbs, c) > DeclaredMiB(gbs) <==> !bareMetal && DeclaredMiB(gbs) < 1
  {
    CeilBounds(Max(Max(FixedMiB(c, gbs), PercentMiB(c, gbs)), 0.0));
  }

  lemma DefaultOverhead(gbs: real)
    requires gbs >= 0.0
    ensures var o := Ceil(600.0 + 19.0 * gbs);
            OverheadMiB(DEFAULT_OVERHEAD, gbs) == if o >= MAX_INT64 then MAX_INT64 else o
  {
    assert FixedMiB(DEFAULT_OVERHEAD, gbs) == 600.0 + 19.0 * gbs && PercentMiB(DEFAULT_OVERHEAD, gbs) == 0.0;
  }

  /** The reservation in bytes stays within a quarter of the size, rounded up. */
  lemma ReservedBytesBound(a: real, b: real)
    requires a <= b
    ensures (KubeReservedBytes(b) - KubeReservedBytes(a)) as real < 0.25 * (b - a) * 1073741824.0 + 1.0
  {
    ReservedGrowsSlowly(a, b);
    CeilBounds(KubeReservedGiB(a) * 1024.0 * 1024.0 * 1024.0);
    CeilBounds(KubeReservedGiB(b) * 1024.0 * 1024.0 * 1024.0);
  }

  /** With the default overhead, sizes of at least one GiB leave memory for pods. */
  lemma AllocatablePositive(bareMetal: bool, gbs: real)
    requires 1.0 <= gbs
    ensures AllocatableBytes(bareMetal, gbs, DEFAULT_OVERHEAD) > 0
  {
    ReservedBytesBound(0.0, gbs);
    DefaultOverhead(gbs);
    CeilBounds(600.0 + 19.0 * gbs);
    var capacity := MemoryCapacityMiB(bareMetal, gbs, DEFAULT_OVERHEAD);
    assert capacity as real > 1005.0 * gbs - 602.0;
    assert (capacity * MIB) as real == capacity as real * 1048576.0;
  }

  /** With the default overhead, one more GiB leaves more for pods. */
  lemma AllocatableIncreases(bareMetal: bool, gib: nat)
    requires gib >= 1
    ensures AllocatableBytes(bareMetal, gib as real, DEFAULT_OVERHEAD)
          < AllocatableBytes(bareMetal, (gib + 1) as real, DEFAULT_OVERHEAD)
  {
    ReservedBytesBound(gib as real, (gib + 1) as real);
    WholeCapacity(bareMetal, gib);
    WholeCapacity(bareMetal, gib + 1);
    var a, b := MemoryCapacityMiB(bareMetal, gib as real, DEFAULT_OVERHEAD),
                MemoryCapacityMiB(bareMetal, (gib + 1) as real, DEFAULT_OVERHEAD);
    assert b >= a + 1005;
    assert b * MIB >= a * MIB + 1005 * MIB;
  }

  lemma WholeCapacity(bareMetal: bool, gib: nat)
    requires gib >= 1
    ensures MemoryCapacityMiB(bareMetal, gib as real, DEFAULT_OVERHEAD)
         == 1024 * gib - (if bareMetal then 0 else if 600 + 19 * gib >= MAX_INT64 then MAX_INT64 else 600 + 19 * gib)
  {
    DefaultOverhead(gib as real);
    assert 600.0 + 19.0 * gib as real == (600 + 19 * gib) as real;
    assert gib as real * 1024.0 == (gib * 1024) as real;
  }

  /** The memory that the kubelet reserves of whole GiB, in hundredths of a GiB. */
  function ReservedHundredths(gib: nat): nat {
    if gib <= 4 then 25 * gib
    else if gib <= 8 then 20 * gib + 20
    else if gib <= 16 then 10 * gib + 100
    else if gib <= 128 then 6 * gib + 164
    else 2 * gib + 676
  }

  lemma CeilOfHundredths(n: nat)
    ensures Ceil(n as real / 100.0) == (n + 99) / 100
  {
    var q, r := n / 100, n % 100;
    assert n == 100 * q + r;
    assert n as real / 100.0 == q as real + r as real / 100.0;
  }

  /** Of whole GiB, the kubelet reserves a quarter of the first four, a fifth of the next four, a tenth of the next
      eight, six hundredths up to 128 and two hundredths from there, rounded up to bytes. */
  lemma WholeReserved(gib: nat)
    ensures KubeReservedBytes(gib as real) == (ReservedHundredths(gib) * 1073741824 + 99) / 100
  {
    assert KubeReservedGiB(gib as real) == ReservedHundredths(gib) as real / 100.0;
    CeilOfHundredths(ReservedHundredths(gib) * 1073741824);
    assert ReservedHundredths(gib) as real / 100.0 * 1024.0 * 1024.0 * 1024.0
        == (ReservedHundredths(gib) * 1073741824) as real / 100.0;
  }

  /** What is left for pods, in bytes, of whole GiB under the default overhead. */
  lemma WholeAllocatable(bareMetal: bool, gib: nat)
    requires 1 <= gib && 600 + 19 * gib < MAX_INT64
    ensures AllocatableBytes(bareMetal, gib as real, DEFAULT_OVERHEAD) ==
              (1024 * gib - (if bareMetal then 0 else 600 + 19 * gib) - 100) * 1048576
                - (ReservedHundredths(gib) * 1073741824 + 99) / 100
  {
    WholeCapacity(bareMetal, gib);
    WholeReserved(gib);
  }

  /** A percentage counts instead of the fixed form where it comes to more: that many hundredths, rounded up to MiB. */
  lemma WholePercent(gib: nat, percent: nat, c: VMMemoryOverheadConfig)
    requires c.percent == percent as real / 100.0 && (1024 * gib * percent + 99) / 100 < MAX_INT64
    requires FixedMiB(c, gib as real) <= PercentMiB(c, gib as real)
    ensures MemoryCapacityMiB(false, gib as real, c) ==
              var left := 1024 * gib - (1024 * gib * percent + 99) / 100;
              if left < 1 then 1 else left
  {
    PercentIs(gib, percent);
    LargerIsPercent(FixedMiB(c, gib as real), PercentMiB(c, gib as real), 1024 * gib * percent);
    DeclaredWhole(gib);
  }

  lemma DeclaredWhole(gib: nat)
    ensures DeclaredMiB(gib as real) == 1024 * gib
  {
    assert gib as real * 1024.0 == (gib * 1024) as real;
  }

  lemma LargerIsPercent(fixed: real, percent: real, n: nat)
    requires fixed <= percent == n as real / 100.0 && (n + 99) / 100 < MAX_INT64
    ensures LargerMiB(fixed, percent) == (n + 99) / 100
  {
    CeilOfHundredths(n);
    assert Max(Max(fixed, percent), 0.0) == n as real / 100.0;
  }

  lemma PercentIs(gib: nat, percent: nat)
    ensures percent as real / 100.0 * gib as real * 1024.0 == (1024 * gib * percent) as real / 100.0
  {
    assert (1024 * gib * percent) as real == 1024.0 * gib as real * percent as real;
  }
}
