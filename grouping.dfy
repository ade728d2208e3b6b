/** The two-level reduction "as the device would do": the input is cut into
    `d` contiguous groups of `g` elements, each group is accumulated on its own,
    and the `d` group results are accumulated in turn. Group `k` covers the
    indices `k * g + x` for `x` in `[0, g)`. */
module Grouping {
  import opened Arithmetic
  import opened Summation

  /** `a <= b` scales to `a * g <= b * g`. */
  lemma MulMono(a: nat, b: nat, g: nat)
    requires a <= b
    ensures a * g <= b * g
  {
  }

  /** Group `k` of `s`: the `g` elements from index `k * g` on. */
  function Block<E>(s: seq<E>, g: nat, k: nat): seq<E>
    requires k * g + g <= |s|
  {
    s[k * g .. k * g + g]
  }

  /** The first `d` groups of `s`, in ascending order. */
  function Blocks<E>(s: seq<E>, g: nat, d: nat): seq<seq<E>>
    requires d * g <= |s|
  {
    if d == 0 then [] else Blocks(s, g, d - 1) + [Block(s, g, d - 1)]
  }

  /** The concatenation of a sequence of sequences, in order. */
  function Flatten<E>(ss: seq<seq<E>>): seq<E>
  {
    if |ss| == 0 then [] else Flatten(ss[..|ss| - 1]) + ss[|ss| - 1]
  }

  /** The plain per-group sums of the first `d` groups (the `grouped[]`
      buffer after the naive pass). */
  function GroupSums<E>(ar: Arith<E>, s: seq<E>, g: nat, d: nat): seq<E>
    requires d * g <= |s|
  {
    if d == 0 then [] else GroupSums(ar, s, g, d - 1) + [Sum(ar, Block(s, g, d - 1))]
  }

  /** The Kahan per-group sums of the first `d` groups (the `grouped[]`
      buffer after the compensated pass); each group starts a fresh
      accumulation. */
  function KahanGroupSums<E>(ar: Arith<E>, s: seq<E>, g: nat, d: nat): seq<E>
    requires d * g <= |s|
  {
    if d == 0 then [] else KahanGroupSums(ar, s, g, d - 1) + [KahanSum(ar, Block(s, g, d - 1))]
  }

  /** Group `i < d` ends no later than `d * g`. */
  lemma GroupEnd(g: nat, d: nat, i: nat)
    requires i < d
    ensures i * g + g <= d * g
  {
    MulMono(i + 1, d, g);
  }

  /** Group `i < d` is the slice the grouped loops read for it, and the
      groups before and including it fit in the first `d * g` elements. */
  lemma GroupStep<E>(s: seq<E>, g: nat, d: nat, i: nat)
    requires i < d && d * g <= |s|
    ensures i * g + g <= |s| && (i + 1) * g <= |s|
    ensures Block(s, g, i) == s[i * g .. i * g + g]
  {
    GroupEnd(g, d, i);
  }

  /** Every index the grouped loops read lies below `d * g`. */
  lemma BlockIndexInRange(g: nat, d: nat, i: nat, x: nat)
    requires i < d && x < g
    ensures i * g + x < d * g
  {
    GroupEnd(g, d, i);
  }

  /** No index is read twice: `(i, x) -> i * g + x` is one-to-one on
      `x < g`. */
  lemma BlockIndexUnique(g: nat, i: nat, x: nat, j: nat, y: nat)
    requires x < g && y < g
    requires i * g + x == j * g + y
    ensures i == j && x == y
  {
    if i < j {
      MulMono(i + 1, j, g);
    } else if j < i {
      MulMono(j + 1, i, g);
    }
  }

  /** Every index below `d * g` is read: it is element `k % g` of group
      `k / g`, and that group is one of the first `d`. */
  lemma BlockIndexOnto(g: nat, d: nat, k: nat)
    requires k < d * g
    ensures g > 0 && k / g < d && k % g < g && (k / g) * g + k % g == k
  {
    if d <= k / g {
      MulMono(d, k / g, g);
    }
  }

  /** Group `k` holds exactly the elements at indices `k * g + x`. */
  lemma BlockAt<E>(s: seq<E>, g: nat, k: nat, x: nat)
    requires k * g + g <= |s| && x < g
    ensures |Block(s, g, k)| == g && Block(s, g, k)[x] == s[k * g + x]
  {
  }

  /** The `d` groups, laid end to end, are exactly the first `d * g`
      elements: each element is read once and in ascending order. */
  lemma {:induction false} BlocksCover<E>(s: seq<E>, g: nat, d: nat)
    requires d * g <= |s|
    ensures |Blocks(s, g, d)| == d
    ensures Flatten(Blocks(s, g, d)) == s[..d * g]
  {
    if d > 0 {
      BlocksCover(s, g, d - 1);
      var bs := Blocks(s, g, d);
      assert bs[..d - 1] == Blocks(s, g, d - 1);
      assert s[..d * g] == s[..(d - 1) * g] + Block(s, g, d - 1);
    }
  }

  /** Group `k`'s plain sum depends only on group `k`'s elements. */
  lemma {:induction false} GroupSumsAt<E>(ar: Arith<E>, s: seq<E>, g: nat, d: nat, k: nat)
    requires d * g <= |s| && k < d
    ensures k * g + g <= |s|
    ensures |GroupSums(ar, s, g, d)| == d
    ensures GroupSums(ar, s, g, d)[k] == Sum(ar, Block(s, g, k))
  {
    GroupEnd(g, d, k);
    if k < d - 1 {
      GroupSumsAt(ar, s, g, d - 1, k);
    } else {
      GroupSumsLength(ar, s, g, d - 1);
    }
  }

  lemma {:induction false} GroupSumsLength<E>(ar: Arith<E>, s: seq<E>, g: nat, d: nat)
    requires d * g <= |s|
    ensures |GroupSums(ar, s, g, d)| == d && |KahanGroupSums(ar, s, g, d)| == d
  {
    if d > 0 {
      GroupSumsLength(ar, s, g, d - 1);
    }
  }

  /** Group `k`'s Kahan sum depends only on group `k`'s elements: no carry
      crosses from one group to the next. */
  lemma {:induction false} KahanGroupSumsAt<E>(ar: Arith<E>, s: seq<E>, g: nat, d: nat, k: nat)
    requires d * g <= |s| && k < d
    ensures k * g + g <= |s|
    ensures |KahanGroupSums(ar, s, g, d)| == d
    ensures KahanGroupSums(ar, s, g, d)[k] == KahanSum(ar, Block(s, g, k))
  {
    GroupEnd(g, d, k);
    if k < d - 1 {
      KahanGroupSumsAt(ar, s, g, d - 1, k);
    } else {
      GroupSumsLength(ar, s, g, d - 1);
    }
  }

  /** Partition law: under exact arithmetic, summing the group sums gives
      the sum of the elements the groups cover. */
  lemma {:induction false} PartitionLaw<E(!new)>(ar: Arith<E>, s: seq<E>, g: nat, d: nat)
    requires Exact(ar) && d * g <= |s|
    ensures Sum(ar, GroupSums(ar, s, g, d)) == Sum(ar, s[..d * g])
  {
    if d == 0 {
      assert s[..0] == [];
    } else {
      var prev := GroupSums(ar, s, g, d - 1);
      var b := Block(s, g, d - 1);
      var head := s[..(d - 1) * g];
      GroupSumsLength(ar, s, g, d - 1);
      var all := prev + [Sum(ar, b)];
      assert all[..|all| - 1] == prev;
      assert Sum(ar, all) == ar.add(Sum(ar, prev), Sum(ar, b));
      PartitionLaw(ar, s, g, d - 1);
      SumAppend(ar, head, b);
      assert s[..d * g] == head + b;
    }
  }

  /** Under exact arithmetic the compensated pass fills `grouped[]` with the
      same values as the naive pass. */
  lemma {:induction false} KahanGroupSumsExact<E(!new)>(ar: Arith<E>, s: seq<E>, g: nat, d: nat)
    requires Exact(ar) && d * g <= |s|
    ensures KahanGroupSums(ar, s, g, d) == GroupSums(ar, s, g, d)
  {
    if d > 0 {
      KahanGroupSumsExact(ar, s, g, d - 1);
      KahanSumExact(ar, Block(s, g, d - 1));
    }
  }

  /** Under exact arithmetic and with the groups covering the whole input,
      the four host references agree: plain and Kahan, sequential and
      grouped, are all the plain sum of the input. */
  lemma ReferencesAgree<E(!new)>(ar: Arith<E>, s: seq<E>, g: nat, d: nat)
    requires Exact(ar) && d * g == |s|
    ensures KahanSum(ar, s) == Sum(ar, s)
    ensures Sum(ar, GroupSums(ar, s, g, d)) == Sum(ar, s)
    ensures KahanSum(ar, KahanGroupSums(ar, s, g, d)) == Sum(ar, s)
  {
    assert s[..d * g] == s;
    KahanSumExact(ar, s);
    PartitionLaw(ar, s, g, d);
    KahanGroupSumsExact(ar, s, g, d);
    KahanSumExact(ar, GroupSums(ar, s, g, d));
  }

  /** A single group of the whole input: the grouped references collapse to
      the sequential ones, plain and compensated. */
  lemma SingleGroup<E(!new)>(ar: Arith<E>, s: seq<E>)
    requires ZeroNeutral(ar)
    ensures Sum(ar, GroupSums(ar, s, |s|, 1)) == Sum(ar, s)
    ensures KahanSum(ar, KahanGroupSums(ar, s, |s|, 1)) == KahanSum(ar, s)
  {
    assert Block(s, |s|, 0) == s;
    SumOfOne(ar, Sum(ar, s));
    SumOfOne(ar, KahanSum(ar, s));
  }

  /** Groups of one element: the group sums are the input itself, so both
      grouped references equal their sequential counterparts. */
  lemma {:induction false} UnitGroups<E(!new)>(ar: Arith<E>, s: seq<E>, d: nat)
    requires ZeroNeutral(ar) && d <= |s|
    ensures GroupSums(ar, s, 1, d) == s[..d]
    ensures KahanGroupSums(ar, s, 1, d) == s[..d]
  {
    if d > 0 {
      UnitGroups(ar, s, d - 1);
      assert Block(s, 1, d - 1) == [s[d - 1]];
      SumOfOne(ar, s[d - 1]);
      assert s[..d] == s[..d - 1] + [s[d - 1]];
    }
  }

  /** With exact integers and the groups covering the input, an input of `n`
      copies of `k` gives `n * k` for all four host references. */
  lemma ConstantInput(n: nat, k: int, g: nat, d: nat)
    requires d * g == n
    ensures var s := seq(n, _ => k);
      && Sum(IntArith(), s) == n * k
      && KahanSum(IntArith(), s) == n * k
      && Sum(IntArith(), GroupSums(IntArith(), s, g, d)) == n * k
      && KahanSum(IntArith(), KahanGroupSums(IntArith(), s, g, d)) == n * k
  {
    IntArithIsExact();
    SumOfConstant(n, k);
    ReferencesAgree(IntArith(), seq(n, _ => k), g, d);
  }
}
