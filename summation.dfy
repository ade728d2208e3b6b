/** The two accumulation orders of the host code, as functions of the values
    accumulated: the plain left-to-right running sum (`total += v`) and the
    Kahan-compensated running sum, whose state is the pair (sum, carry). */
module Summation {
  import opened Arithmetic

  /** Left-to-right accumulation starting from zero:
      `((0 + s[0]) + s[1]) + ... + s[|s|-1]`. */
  function Sum<E>(ar: Arith<E>, s: seq<E>): E
  {
    if |s| == 0 then ar.zero else ar.add(Sum(ar, s[..|s| - 1]), s[|s| - 1])
  }

  /** The state of a Kahan accumulation: the running sum and the carried
      compensation `c`. */
  datatype Compensated<E> = Compensated(sum: E, carry: E)

  /** The state every Kahan accumulation of the host code starts from:
      sum and carry both `0.0f`. */
  function Fresh<E>(ar: Arith<E>): Compensated<E>
  {
    Compensated(ar.zero, ar.zero)
  }

  /** One Kahan step, in the source's order:
      `y = v - c; t = sum + y; c = (t - sum) - y; sum = t`. */
  function KahanStep<E>(ar: Arith<E>, st: Compensated<E>, v: E): Compensated<E>
  {
    var y := ar.sub(v, st.carry);
    var t := ar.add(st.sum, y);
    Compensated(t, ar.sub(ar.sub(t, st.sum), y))
  }

  /** Kahan steps applied left to right over `s`, starting from `st`. */
  function KahanFold<E>(ar: Arith<E>, st: Compensated<E>, s: seq<E>): Compensated<E>
  {
    if |s| == 0 then st else KahanStep(ar, KahanFold(ar, st, s[..|s| - 1]), s[|s| - 1])
  }

  /** The Kahan-compensated sum of `s`: the running sum after a fresh
      accumulation (the final carry is dropped, as the host code does). */
  function KahanSum<E>(ar: Arith<E>, s: seq<E>): E
  {
    KahanFold(ar, Fresh(ar), s).sum
  }

  /** Under exact arithmetic the left-to-right sum distributes over
      concatenation: summing `a + b` is adding the sum of `b` to the sum of `a`. */
  lemma {:induction false} SumAppend<E(!new)>(ar: Arith<E>, a: seq<E>, b: seq<E>)
    requires Exact(ar)
    ensures Sum(ar, a + b) == ar.add(Sum(ar, a), Sum(ar, b))
  {
    if |b| == 0 {
      assert a + b == a;
    } else {
      var b' := b[..|b| - 1];
      assert (a + b)[..|a + b| - 1] == a + b';
      SumAppend(ar, a, b');
    }
  }

  /** Under exact arithmetic the Kahan carry never leaves zero, so every
      intermediate Kahan state is (plain running sum, zero). */
  lemma {:induction false} KahanFoldExact<E(!new)>(ar: Arith<E>, s: seq<E>)
    requires Exact(ar)
    ensures KahanFold(ar, Fresh(ar), s) == Compensated(Sum(ar, s), ar.zero)
  {
    if |s| > 0 {
      KahanFoldExact(ar, s[..|s| - 1]);
    }
  }

  /** Under exact arithmetic the Kahan sum equals the plain sum. */
  lemma {:induction false} KahanSumExact<E(!new)>(ar: Arith<E>, s: seq<E>)
    requires Exact(ar)
    ensures KahanSum(ar, s) == Sum(ar, s)
  {
    KahanFoldExact(ar, s);
  }

  /** A one-element accumulation returns the element, plain or compensated,
      as long as zero is neutral. */
  lemma SumOfOne<E(!new)>(ar: Arith<E>, v: E)
    requires ZeroNeutral(ar)
    ensures Sum(ar, [v]) == v && KahanSum(ar, [v]) == v
  {
    assert [v][..0] == [];
    assert KahanFold(ar, Fresh(ar), [v]) == KahanStep(ar, Fresh(ar), v);
  }

  /** With exact integers, summing `n` copies of `k` gives `n * k`. */
  lemma {:induction false} SumOfConstant(n: nat, k: int)
    ensures Sum(IntArith(), seq(n, _ => k)) == n * k
  {
    if n > 0 {
      assert seq(n, _ => k)[..n - 1] == seq(n - 1, _ => k);
      SumOfConstant(n - 1, k);
    }
  }
}
