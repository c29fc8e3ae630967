/**
 * Literals and clauses of the CNF side of the translator, with their Boolean
 * meaning under a truth assignment.
 */
module Clauses {
  /** A literal: a zero-based variable index and a sign bit that is set when the literal is negated. */
  datatype Lit = Lit(variable: nat, sign: bool)

  /** A clause is the ordered list of its literals. */
  type Clause = seq<Lit>

  /** A truth value for every variable. */
  type Assignment = nat -> bool

  /** `~l`: the same variable with the opposite sign. */
  function Negate(l: Lit): Lit
  {
    Lit(l.variable, !l.sign)
  }

  predicate IsPositive(l: Lit)
  {
    !l.sign
  }

  predicate Holds(a: Assignment, l: Lit)
  {
    a(l.variable) != l.sign
  }

  /** A clause is satisfied when one of its literals holds; the empty clause never is. */
  predicate Satisfies(a: Assignment, c: Clause)
  {
    exists i :: 0 <= i < |c| && Holds(a, c[i])
  }

  predicate SatisfiesAll(a: Assignment, cs: seq<Clause>)
  {
    forall i :: 0 <= i < |cs| ==> Satisfies(a, cs[i])
  }

  /** The number of non-negated literals. */
  function Positives(c: Clause): nat
  {
    if c == [] then 0 else Positives(c[..|c| - 1]) + (if IsPositive(c[|c| - 1]) then 1 else 0)
  }

  predicate VarsBelow(c: Clause, n: nat)
  {
    forall i :: 0 <= i < |c| ==> c[i].variable < n
  }

  predicate AllVarsBelow(cs: seq<Clause>, n: nat)
  {
    forall i :: 0 <= i < |cs| ==> VarsBelow(cs[i], n)
  }

  /** The concatenation of a list of literal lists. */
  function Flatten(cs: seq<Clause>): Clause
  {
    if cs == [] then [] else Flatten(cs[..|cs| - 1]) + cs[|cs| - 1]
  }

  /** Two assignments that give the same value to every variable below `n`. */
  predicate Agree(a: Assignment, b: Assignment, n: nat)
  {
    forall v: nat :: v < n ==> a(v) == b(v)
  }

  lemma SatisfiesAppend(a: Assignment, x: Clause, y: Clause)
    ensures Satisfies(a, x + y) <==> Satisfies(a, x) || Satisfies(a, y)
  {
    if Satisfies(a, x + y) {
      var i :| 0 <= i < |x + y| && Holds(a, (x + y)[i]);
      if i >= |x| {
        assert y[i - |x|] == (x + y)[i];
      }
    }
    if Satisfies(a, y) {
      var i :| 0 <= i < |y| && Holds(a, y[i]);
      assert (x + y)[|x| + i] == y[i];
    }
    if Satisfies(a, x) {
      var i :| 0 <= i < |x| && Holds(a, x[i]);
      assert (x + y)[i] == x[i];
    }
  }

  lemma {:induction false} PositivesAppend(x: Clause, y: Clause)
    ensures Positives(x + y) == Positives(x) + Positives(y)
    decreases |y|
  {
    if y != [] {
      assert (x + y)[..|x + y| - 1] == x + y[..|y| - 1];
      PositivesAppend(x, y[..|y| - 1]);
    } else {
      assert x + y == x;
    }
  }

  lemma {:induction false} PositivesAtMostSize(c: Clause)
    ensures Positives(c) <= |c|
  {
    if c != [] {
      PositivesAtMostSize(c[..|c| - 1]);
    }
  }

  /** Whether a clause is satisfied depends only on the variables it mentions. */
  lemma AgreeSatisfies(a: Assignment, b: Assignment, c: Clause, n: nat)
    requires Agree(a, b, n) && VarsBelow(c, n)
    ensures Satisfies(a, c) <==> Satisfies(b, c)
  {
    if Satisfies(a, c) {
      var i :| 0 <= i < |c| && Holds(a, c[i]);
      assert Holds(b, c[i]);
    }
    if Satisfies(b, c) {
      var i :| 0 <= i < |c| && Holds(b, c[i]);
      assert Holds(a, c[i]);
    }
  }

  /** When the concatenation of some literal lists is satisfied, one of the lists is. */
  lemma {:induction false} FlattenSatisfied(a: Assignment, cs: seq<Clause>) returns (k: nat)
    requires Satisfies(a, Flatten(cs))
    ensures k < |cs| && Satisfies(a, cs[k])
  {
    if cs == [] {
      assert false;
    } else {
      var init := cs[..|cs| - 1];
      SatisfiesAppend(a, Flatten(init), cs[|cs| - 1]);
      if Satisfies(a, cs[|cs| - 1]) {
        k := |cs| - 1;
      } else {
        k := FlattenSatisfied(a, init);
        assert cs[k] == init[k];
      }
    }
  }
}
