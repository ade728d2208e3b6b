# Work-group summation pipeline, modelled in Dafny

The program `work-groups.c` sums 2^20 single-precision floats in five ways
and prints the results side by side:

1. a plain left-to-right sum on the host (`total_sum_host`);
2. a sequential Kahan-compensated sum on the host (`total_sum_host_kahan`);
3. a two-level sum "the way the device would do it": `d = (1024*1024)/256`
   contiguous groups of 256 elements are each summed into the scratch buffer
   `grouped[]`, and the group sums are then summed (`total_sum_host_grouped`);
4. the same two-level sum with Kahan compensation inside each group and
   across the groups (`total_sum_host_grouped_kahan`);
5. after an OpenCL kernel has written one partial sum per work-group, the
   host sums the first `d` entries of the read-back buffer
   (`total_sum_device`).

This project models steps 1 to 5 as Dafny methods over arrays, written with
the same loops, the same per-group resets and the same order of operations
as the C code, and proves each method against recursive specification
functions. It then proves properties of those functions: the index structure
of the groups, group independence, and the laws that relate the five sums
when arithmetic is exact.

## Layout

- `arithmetic.dfy` (module `Arithmetic`): the element arithmetic. Dafny has
  no 32-bit float, so the element type `E` is abstract. An `Arith<E>` carries
  `add`, `sub` and `zero`, and every loop uses only those, in the source's
  order. Nothing is claimed about rounding. `Exact(ar)` collects the laws of
  unrounded arithmetic (associativity, zero neutral on both sides,
  `(a + b) - a == b`, `a - a == 0`), and `ZeroNeutral(ar)` the weaker laws
  `0 + a == a` and `a - 0 == a`. `IntArith` and `RealArith` satisfy `Exact`.
- `summation.dfy` (module `Summation`): `Sum` is the left-to-right running
  sum from zero. `KahanStep` is one compensated step
  `y = v - c; t = sum + y; c = (t - sum) - y; sum = t`. `KahanFold` applies
  it left to right, and `KahanSum` is the sum after a fresh (0, 0) start.
- `grouping.dfy` (module `Grouping`): `Block(s, g, k)` is group `k`, i.e.
  the elements at `k*g .. k*g+g`. `GroupSums` and `KahanGroupSums` are the
  contents of `grouped[0..d)` after the naive and the compensated pass.
  This module also holds the index lemmas and the partition laws.
- `work_groups.dfy` (module `WorkGroups`): the source's constants
  `N = 1048576`, group size 256 and group count `(1024*1024)/256`, the loops
  of `main` as methods, and the whole pipeline `Run`.

The constants are parameters of the methods: `N` is `numbers.Length`, the
group size is `g` and the group count is `d`. Memory safety of the grouped
loops needs exactly `d * g <= numbers.Length`, so the methods require that.
The stronger `d * g == numbers.Length`, which the source's constants meet
(`SourceConfiguration`), is required only where the model claims that the
groups cover the whole input.

Every method's result is a function of its inputs, so running a reducer twice
on the same input gives identical results.

## Model

| member | source | states |
|---|---|---|
| `WorkGroups.SourceConfiguration` | work-groups.c:144 | the hard-coded group count `(1024*1024)/256` times the group size 256 equals `N = 1048576` from line 84, so the grouped loops cover the input exactly |
| `WorkGroups.AccumulatePlain` | work-groups.c:153-156 | `total = 0; total += a[i]` for `i < count` returns the left-to-right sum `Sum` of `a[..count]`; the same loop is used for lines 126-132 (over all of `numbers`) and 232-236 |
| `WorkGroups.AccumulateKahan` | work-groups.c:170-178 | the loop with carry `c` and temporaries `y`, `t` returns the sum part of the Kahan fold of `a[..count]` from a fresh (0, 0) state; it is also used for lines 134-142 |
| `WorkGroups.SumGroup` | work-groups.c:148-151 | `grouped[i]` is reset to zero and ends as the left-to-right sum of the `g` elements from `base`, and every other entry of `grouped` is unchanged |
| `WorkGroups.GroupPass` | work-groups.c:147-152 | after the naive pass, `grouped[..d]` is the sequence of plain group sums, `grouped[d..]` is unchanged, and `numbers` is untouched (it is not in the frame) |
| `WorkGroups.KahanGroup` | work-groups.c:160-168 | `grouped[i]` and the carry restart at zero, and `grouped[i]` ends as the Kahan sum of the `g` elements from `base`; no other entry changes |
| `WorkGroups.KahanGroupPass` | work-groups.c:159-169 | after the compensated pass, `grouped[..d]` is the sequence of Kahan group sums, whatever the buffer held before, and `grouped[d..]` is unchanged |
| `WorkGroups.HostReferences` | work-groups.c:126-178 | the four host references are, in order, `Sum` and `KahanSum` of the input, `Sum` of the plain group sums and `KahanSum` of the Kahan group sums; afterwards `grouped[..d]` holds the Kahan group sums |
| `WorkGroups.DeviceCombine` | work-groups.c:232-236 | the device total is the left-to-right sum of only the first `d` entries of the read-back buffer, so entries `d..N-1` cannot affect it |
| `WorkGroups.Run` | work-groups.c:126-236 | the five totals as above; the read-back overwrites `numbers`; `grouped[..d]` ends holding the Kahan group sums and `grouped[d..]` is unchanged; when arithmetic is exact and `d * g == N`, all four host references are equal |
| `Summation.KahanFoldExact` | work-groups.c:137-142 | under exact arithmetic every Kahan step leaves the carry at zero, so each intermediate state is (plain running sum, 0) |
| `Summation.KahanSumExact` | work-groups.c:134-142 | under exact arithmetic the Kahan sum equals the plain left-to-right sum |
| `Grouping.ConstantInput` | work-groups.c:129 | over exact integers with `d*g == n`, an input of `n` copies of `k` gives `n * k` for all four host references (line 129 keeps the all-`1.0f` input as a comment) |
| `WorkGroups.RunAsConfigured` | work-groups.c:84-236 | `Run` at the source's own sizes (`N` inputs, groups of 256, `(1024*1024)/256` groups, buffers of `N`): with exact integers all four host references equal the plain sum, the device total is the sum of the first `(1024*1024)/256` read-back entries, `numbers` ends holding the read-back, `grouped[..(1024*1024)/256]` ends holding the group sums and the rest of `grouped` is unchanged |
| `Summation.SumOfConstant` | work-groups.c:126-132 | over exact integers, summing `n` copies of the constant `k` gives `n * k` (line 129 keeps the all-`1.0f` input as a comment) |
| `Grouping.BlockIndexInRange` | work-groups.c:147-150 | every index `i*g + x` with `i < d` and `x < g` lies below `d * g` |
| `Grouping.BlockIndexUnique` | work-groups.c:147-150 | `(i, x) -> i*g + x` is one-to-one for `x < g`, so no element is read twice |
| `Grouping.BlockIndexOnto` | work-groups.c:147-150 | every index `k < d*g` is read: it is element `k % g` of group `k / g < d` |
| `Grouping.BlockAt` | work-groups.c:149-150 | group `k` has `g` elements and its element `x` is `s[k*g + x]` |
| `Grouping.BlocksCover` | work-groups.c:147-152 | the `d` groups laid end to end are exactly the first `d*g` input elements, in ascending order |
| `Grouping.GroupSumsAt` | work-groups.c:147-152 | the plain group sums have length `d`, and entry `k` is the sum of group `k` alone |
| `Grouping.KahanGroupSumsAt` | work-groups.c:159-169 | the Kahan group sums have length `d`, and entry `k` is the Kahan sum of group `k` from a fresh state, so no carry crosses from one group to the next |
| `Grouping.PartitionLaw` | work-groups.c:147-156 | under exact arithmetic, summing the group sums gives the sum of the first `d*g` elements |
| `Grouping.KahanGroupSumsExact` | work-groups.c:159-169 | under exact arithmetic the compensated pass leaves the same `grouped[..d]` as the naive pass |
| `Grouping.ReferencesAgree` | work-groups.c:126-178 | under exact arithmetic and with `d*g == N`, the Kahan sequential, plain grouped and Kahan grouped references all equal the plain sequential sum |
| `Grouping.SingleGroup` | work-groups.c:144-178 | with one group of the whole input and zero neutral, the plain and Kahan grouped references equal their sequential counterparts |
| `Grouping.UnitGroups` | work-groups.c:144-178 | with groups of one element and zero neutral, both passes leave `grouped[..d]` equal to the input, so the grouped references equal the sequential ones |

## Left out

- OpenCL calls are not modelled: platform and device enumeration, `print_device_info`, context, queue, buffer, program and kernel creation, argument setting, dispatch, wait, read-back and release. They are calls into a foreign runtime. `Run` takes the kernel's output buffer as an arbitrary input `deviceOutput` and copies it into `numbers`, as the read-back does.
- The kernel `work-groups.cl` is not part of this model, so nothing relates the device's partial sums to the input.
- Status codes are not modelled. The source only prints them and carries on, so `Run` always computes the device total.
- Loading the kernel source with `fopen`/`fread`, and the exit when the file is missing, are left out as file I/O.
- Random input generation with `srand`/`rand` is left out. `numbers` is a given array, and line 131 becomes a sum over that array.
- `printf` reporting is left out.
- IEEE-754 single precision is not modelled. The element type is abstract, and no claim is made about rounding, such as Kahan being more accurate or grouped sums differing from sequential ones.
- `ZeroNeutral` fails for floats only at a negative-zero or a NaN operand (`0.0f + -0.0f` is `+0.0f`, and NaN is not equal to itself); inputs of the form `rand() / RAND_MAX` are never either. `SingleGroup` and `UnitGroups` therefore state their equalities under that law, not for all floats.
- `SumGroup`, `KahanGroup`: the inner loops of the two grouped passes are separate methods, not nested inside the outer loops. The operations and their order are the same.
- `julia-set.c` and `checking-device.c` are not part of this model. They only dispatch OpenCL work, query devices and write output.
- The C code hard-codes the group count independently of `N`, and it computes the device total even after a reported error. The model follows the code on both points: the group count is a parameter bounded by `d * g <= N`, and no dispatch failure path exists.
