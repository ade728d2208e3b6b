/** The host side of the work-group summation pipeline (`main` of
    work-groups.c): four reference sums computed on the host, then the
    combination of the per-group partial sums the device wrote back.

    The C code fixes `N = 1048576`, the group size 256 and the group count
    `(1024 * 1024) / 256`; here they are parameters `numbers.Length`, `g` and
    `d`, and `SourceConfiguration` checks the fixed values. */
module WorkGroups {
  import opened Arithmetic
  import opened Summation
  import opened Grouping

  /** Number of input floats. */
  const N: nat := 1048576
  /** Work-group size (the device's local work size). */
  const GroupSize: nat := 256
  /** Number of work-groups, written independently of `N` in the source. */
  const GroupCount: nat := (1024 * 1024) / 256

  /** The five sums the program reports. */
  datatype Totals<E> = Totals(
    host: E,
    hostKahan: E,
    hostGrouped: E,
    hostGroupedKahan: E,
    device: E)

  /** The hard-coded group count times the group size is exactly `N`, so the
      grouped loops stay in bounds and read every input element. */
  lemma SourceConfiguration()
    ensures GroupCount * GroupSize == N
  {
  }

  /** Plain running sum of the first `count` entries of `a`:
      `total = 0; for i < count: total += a[i]`. */
  method AccumulatePlain<E>(ar: Arith<E>, a: array<E>, count: nat) returns (total: E)
    requires count <= a.Length
    ensures total == Sum(ar, a[..count])
  {
    total := ar.zero;
    for i := 0 to count
      invariant total == Sum(ar, a[..i])
    {
      assert a[..i + 1][..i] == a[..i];
      total := ar.add(total, a[i]);
    }
  }

  /** Kahan running sum of the first `count` entries of `a`, with the carry
      `c` and the temporaries `y`, `t` of the source. */
  method AccumulateKahan<E>(ar: Arith<E>, a: array<E>, count: nat) returns (total: E)
    requires count <= a.Length
    ensures total == KahanSum(ar, a[..count])
  {
    total := ar.zero;
    var c := ar.zero;
    for i := 0 to count
      invariant Compensated(total, c) == KahanFold(ar, Fresh(ar), a[..i])
    {
      assert a[..i + 1][..i] == a[..i];
      var y := ar.sub(a[i], c);
      var t := ar.add(total, y);
      c := ar.sub(ar.sub(t, total), y);
      total := t;
    }
  }

  /** One group of the naive pass: `grouped[i]` is reset to zero and then
      accumulates the `g` elements of `numbers` from `base` on. No other
      entry of `grouped` changes. */
  method SumGroup<E>(ar: Arith<E>, numbers: array<E>, grouped: array<E>, i: nat, base: nat, g: nat)
    requires numbers != grouped
    requires i < grouped.Length && base + g <= numbers.Length
    modifies grouped
    ensures grouped[i] == Sum(ar, numbers[base .. base + g])
    ensures forall k :: 0 <= k < grouped.Length && k != i ==> grouped[k] == old(grouped[k])
  {
    grouped[i] := ar.zero;
    for x := 0 to g
      invariant grouped[i] == Sum(ar, numbers[base .. base + x])
      invariant forall k :: 0 <= k < grouped.Length && k != i ==> grouped[k] == old(grouped[k])
    {
      assert numbers[base .. base + x + 1][..x] == numbers[base .. base + x];
      grouped[i] := ar.add(grouped[i], numbers[base + x]);
    }
  }

  /** The naive grouping pass: for each group `i < d`, `SumGroup` fills
      `grouped[i]` from `numbers[i * g + x]`, `x < g`. Entries of `grouped`
      from `d` on are not touched. */
  method GroupPass<E>(ar: Arith<E>, numbers: array<E>, grouped: array<E>, g: nat, d: nat)
    requires numbers != grouped
    requires d * g <= numbers.Length && d <= grouped.Length
    modifies grouped
    ensures grouped[..d] == GroupSums(ar, numbers[..], g, d)
    ensures grouped[d..] == old(grouped[d..])
  {
    for i := 0 to d
      invariant i * g <= numbers.Length
      invariant grouped[..i] == GroupSums(ar, numbers[..], g, i)
      invariant grouped[i..] == old(grouped[i..])
    {
      GroupStep(numbers[..], g, d, i);
      ghost var done := grouped[..i];
      SumGroup(ar, numbers, grouped, i, i * g, g);
      assert grouped[..i] == done;
      assert grouped[..i + 1] == done + [grouped[i]];
    }
  }

  /** One group of the compensated pass: `grouped[i]` and the carry restart
      at zero, and `grouped[i]` takes the running sum of Kahan steps over the
      `g` elements of `numbers` from `base` on. No other entry of `grouped`
      changes, and no carry comes in from an earlier group. */
  method KahanGroup<E>(ar: Arith<E>, numbers: array<E>, grouped: array<E>, i: nat, base: nat, g: nat)
    requires numbers != grouped
    requires i < grouped.Length && base + g <= numbers.Length
    modifies grouped
    ensures grouped[i] == KahanSum(ar, numbers[base .. base + g])
    ensures forall k :: 0 <= k < grouped.Length && k != i ==> grouped[k] == old(grouped[k])
  {
    grouped[i] := ar.zero;
    var c := ar.zero;
    for x := 0 to g
      invariant Compensated(grouped[i], c) == KahanFold(ar, Fresh(ar), numbers[base .. base + x])
      invariant forall k :: 0 <= k < grouped.Length && k != i ==> grouped[k] == old(grouped[k])
    {
      assert numbers[base .. base + x + 1][..x] == numbers[base .. base + x];
      var y := ar.sub(numbers[base + x], c);
      var t := ar.add(grouped[i], y);
      c := ar.sub(ar.sub(t, grouped[i]), y);
      grouped[i] := t;
    }
  }

  /** The compensated grouping pass: for each group `i < d`, `KahanGroup`
      overwrites `grouped[i]`, so nothing an earlier pass left below `d`
      survives; entries from `d` on are not touched. */
  method KahanGroupPass<E>(ar: Arith<E>, numbers: array<E>, grouped: array<E>, g: nat, d: nat)
    requires numbers != grouped
    requires d * g <= numbers.Length && d <= grouped.Length
    modifies grouped
    ensures grouped[..d] == KahanGroupSums(ar, numbers[..], g, d)
    ensures grouped[d..] == old(grouped[d..])
  {
    for i := 0 to d
      invariant i * g <= numbers.Length
      invariant grouped[..i] == KahanGroupSums(ar, numbers[..], g, i)
      invariant grouped[i..] == old(grouped[i..])
    {
      GroupStep(numbers[..], g, d, i);
      ghost var done := grouped[..i];
      KahanGroup(ar, numbers, grouped, i, i * g, g);
      assert grouped[..i] == done;
      assert grouped[..i + 1] == done + [grouped[i]];
    }
  }

  /** The four host references, in the order `main` computes them. `grouped`
      is the scratch buffer; after the two grouped passes it holds the Kahan
      group sums. */
  method HostReferences<E>(ar: Arith<E>, numbers: array<E>, grouped: array<E>, g: nat, d: nat)
    returns (host: E, hostKahan: E, hostGrouped: E, hostGroupedKahan: E)
    requires numbers != grouped
    requires d * g <= numbers.Length && d <= grouped.Length
    modifies grouped
    ensures host == Sum(ar, numbers[..])
    ensures hostKahan == KahanSum(ar, numbers[..])
    ensures hostGrouped == Sum(ar, GroupSums(ar, numbers[..], g, d))
    ensures hostGroupedKahan == KahanSum(ar, KahanGroupSums(ar, numbers[..], g, d))
    ensures grouped[..d] == KahanGroupSums(ar, numbers[..], g, d)
    ensures grouped[d..] == old(grouped[d..])
  {
    assert numbers[..numbers.Length] == numbers[..];
    host := AccumulatePlain(ar, numbers, numbers.Length);
    hostKahan := AccumulateKahan(ar, numbers, numbers.Length);
    GroupPass(ar, numbers, grouped, g, d);
    hostGrouped := AccumulatePlain(ar, grouped, d);
    KahanGroupPass(ar, numbers, grouped, g, d);
    hostGroupedKahan := AccumulateKahan(ar, grouped, d);
  }

  /** The host-side combination of the device's per-group partial sums:
      only the first `d` entries of the read-back buffer are added. */
  method DeviceCombine<E>(ar: Arith<E>, readBack: array<E>, d: nat) returns (total: E)
    requires d <= readBack.Length
    ensures total == Sum(ar, readBack[..d])
  {
    total := AccumulatePlain(ar, readBack, d);
  }

  /** The whole host pipeline. The device's output buffer arrives as
      `deviceOutput` and is read back into `numbers`, as the source does,
      after the host references are computed. */
  method Run<E(!new)>(ar: Arith<E>, numbers: array<E>, grouped: array<E>, deviceOutput: seq<E>, g: nat, d: nat)
    returns (totals: Totals<E>)
    requires numbers != grouped
    requires d * g <= numbers.Length && d <= grouped.Length
    requires d <= numbers.Length == |deviceOutput|
    modifies numbers, grouped
    ensures totals.host == Sum(ar, old(numbers[..]))
    ensures totals.hostKahan == KahanSum(ar, old(numbers[..]))
    ensures totals.hostGrouped == Sum(ar, GroupSums(ar, old(numbers[..]), g, d))
    ensures totals.hostGroupedKahan == KahanSum(ar, KahanGroupSums(ar, old(numbers[..]), g, d))
    ensures totals.device == Sum(ar, deviceOutput[..d])
    ensures numbers[..] == deviceOutput
    ensures grouped[..d] == KahanGroupSums(ar, old(numbers[..]), g, d)
    ensures grouped[d..] == old(grouped[d..])
    ensures Exact(ar) && d * g == numbers.Length ==>
      totals.hostKahan == totals.host && totals.hostGrouped == totals.host &&
      totals.hostGroupedKahan == totals.host
  {
    var host, hostKahan, hostGrouped, hostGroupedKahan :=
      HostReferences(ar, numbers, grouped, g, d);
    if Exact(ar) && d * g == numbers.Length {
      ReferencesAgree(ar, numbers[..], g, d);
    }
    ghost var afterHost := grouped[..];
    forall k | 0 <= k < numbers.Length {
      numbers[k] := deviceOutput[k];
    }
    assert grouped[..] == afterHost;
    assert numbers[..] == deviceOutput;
    assert grouped[..d] == KahanGroupSums(ar, old(numbers[..]), g, d);
    var device := DeviceCombine(ar, numbers, d);
    totals := Totals(host, hostKahan, hostGrouped, hostGroupedKahan, device);
  }

  /** The pipeline with the source's own sizes: `N` integer inputs, groups
      of `GroupSize`, `GroupCount` groups and buffers of `N` entries. With
      exact arithmetic the four host references coincide, and the device
      total is the sum of the first `GroupCount` read-back entries. */
  method RunAsConfigured(numbers: array<int>, grouped: array<int>, deviceOutput: seq<int>)
    returns (totals: Totals<int>)
    requires numbers != grouped
    requires numbers.Length == N && grouped.Length == N && |deviceOutput| == N
    modifies numbers, grouped
    ensures totals.host == Sum(IntArith(), old(numbers[..]))
    ensures totals.hostKahan == totals.host
    ensures totals.hostGrouped == totals.host
    ensures totals.hostGroupedKahan == totals.host
    ensures totals.device == Sum(IntArith(), deviceOutput[..GroupCount])
    ensures numbers[..] == deviceOutput
    ensures grouped[..GroupCount] == GroupSums(IntArith(), old(numbers[..]), GroupSize, GroupCount)
    ensures grouped[GroupCount..] == old(grouped[GroupCount..])
  {
    SourceConfiguration();
    IntArithIsExact();
    totals := Run(IntArith(), numbers, grouped, deviceOutput, GroupSize, GroupCount);
    KahanGroupSumsExact(IntArith(), old(numbers[..]), GroupSize, GroupCount);
  }
}
