/** The element arithmetic of the summation pipeline.

    The host code works on 32-bit floats, whose rounding Dafny cannot express.
    The model therefore keeps the element type abstract: an `Arith<E>` bundles
    the three things the loops use (addition, subtraction and the literal
    `0.0f`), and every accumulation is written in terms of them, in the order
    the C code performs them. Nothing is assumed about rounding.

    `Exact` names the laws that exact arithmetic satisfies and floating point
    does not (associativity above all); the lemmas that compare the plain, Kahan
    and grouped results require it, and `IntArith` / `RealArith` show that it is
    satisfiable. */
module Arithmetic {

  /** Addition, subtraction and zero of an element type. */
  datatype Arith<!E> = Arith(add: (E, E) -> E, sub: (E, E) -> E, zero: E)

  /** Zero is neutral on the side each Kahan step and each one-element sum uses
      it: `0 + a == a` and `a - 0 == a`. IEEE arithmetic keeps this except at a
      negative-zero or a NaN operand. */
  ghost predicate ZeroNeutral<E(!new)>(ar: Arith<E>)
  {
    && (forall a :: ar.add(ar.zero, a) == a)
    && (forall a :: ar.sub(a, ar.zero) == a)
  }

  /** The laws of exact (unrounded) arithmetic that the comparisons rely on. */
  ghost predicate Exact<E(!new)>(ar: Arith<E>)
  {
    && ZeroNeutral(ar)
    && (forall a :: ar.add(a, ar.zero) == a)
    && (forall a, b, c :: ar.add(ar.add(a, b), c) == ar.add(a, ar.add(b, c)))
    && (forall a, b :: ar.sub(ar.add(a, b), a) == b)
    && (forall a :: ar.sub(a, a) == ar.zero)
  }

  /** Mathematical integers. */
  function IntArith(): Arith<int>
  {
    Arith((a: int, b: int) => a + b, (a: int, b: int) => a - b, 0)
  }

  /** Mathematical reals: what the float code would compute without rounding. */
  function RealArith(): Arith<real>
  {
    Arith((a: real, b: real) => a + b, (a: real, b: real) => a - b, 0.0)
  }

  lemma IntArithIsExact()
    ensures Exact(IntArith())
  {
  }

  lemma RealArithIsExact()
    ensures Exact(RealArith())
  {
  }
}
