/**
 * The clause encoding of `read_cnf`: every chunked clause becomes one
 * polynomial over GF(2), built by a left fold that starts from the constant 1
 * and, per literal `l` on variable `x`, multiplies by `x` and adds the previous
 * polynomial back when `l` is positive. A polynomial is modelled by its value
 * under an assignment (addition is exclusive or, multiplication is and); the
 * ring's normal form is not modelled. The ANF system is the list of these
 * polynomials, each read as the equation `p = 0`.
 */
module Encoding {
  import opened Clauses

  datatype Poly = Const(value: bool) | Var(variable: nat) | Add(left: Poly, right: Poly) | Mul(left: Poly, right: Poly)

  /** The value of a polynomial over GF(2). */
  function Eval(p: Poly, a: Assignment): bool
  {
    match p
    case Const(b) => b
    case Var(v) => a(v)
    case Add(l, r) => Eval(l, a) != Eval(r, a)
    case Mul(l, r) => Eval(l, a) && Eval(r, a)
  }

  /** Every variable of the polynomial lies below `n`, the size of the ring. */
  predicate PolyVarsBelow(p: Poly, n: nat)
  {
    match p
    case Const(_) => true
    case Var(v) => v < n
    case Add(l, r) => PolyVarsBelow(l, n) && PolyVarsBelow(r, n)
    case Mul(l, r) => PolyVarsBelow(l, n) && PolyVarsBelow(r, n)
  }

  /** One literal of the fold: `alsoAdd` is the old polynomial for a positive literal and 0 otherwise. */
  function EncodeStep(poly: Poly, l: Lit): Poly
  {
    var alsoAdd := if !l.sign then poly else Const(false);
    Add(Mul(poly, Var(l.variable)), alsoAdd)
  }

  function Encode(clause: Clause): Poly
  {
    if clause == [] then Const(true)
    else EncodeStep(Encode(clause[..|clause| - 1]), clause[|clause| - 1])
  }

  /** The inner loop of the encoding, over the literals of one clause. */
  method EncodeClause(clause: Clause) returns (poly: Poly)
    ensures poly == Encode(clause)
    ensures clause == [] ==> poly == Const(true)
  {
    poly := Const(true);
    for i := 0 to |clause|
      invariant poly == Encode(clause[..i])
    {
      var l := clause[i];
      var alsoAdd := Const(false);
      if !l.sign {
        alsoAdd := poly;
      }
      poly := Mul(poly, Var(l.variable));
      poly := Add(poly, alsoAdd);
      assert clause[..i + 1][..i] == clause[..i];
    }
    assert clause[..|clause|] == clause;
  }

  /**
   * The encoded polynomial is 1 exactly under the assignments that falsify the
   * clause, so its equation `p = 0` holds exactly when the clause is satisfied.
   */
  lemma {:induction false} EncodeFalsified(clause: Clause, a: Assignment)
    ensures Eval(Encode(clause), a) <==> !Satisfies(a, clause)
  {
    if clause != [] {
      var init, l := clause[..|clause| - 1], clause[|clause| - 1];
      EncodeFalsified(init, a);
      var prev := Encode(init);
      assert Eval(Mul(prev, Var(l.variable)), a) == (Eval(prev, a) && a(l.variable));
      assert Eval(Encode(clause), a) == (Eval(prev, a) && !Holds(a, l));
      assert clause == init + [l];
      SatisfiesAppend(a, init, [l]);
      assert Satisfies(a, [l]) <==> Holds(a, l) by {
        assert [l][0] == l;
      }
    }
  }

  /** The polynomial mentions only the clause's variables, so it fits in a ring of size `n`. */
  lemma {:induction false} EncodeVarsBelow(clause: Clause, n: nat)
    requires VarsBelow(clause, n)
    ensures PolyVarsBelow(Encode(clause), n)
  {
    if clause != [] {
      EncodeVarsBelow(clause[..|clause| - 1], n);
    }
  }

  /** The ANF system built from a clause list: one polynomial per clause, in order. */
  function EncodeAll(clauses: seq<Clause>): (eqs: seq<Poly>)
    ensures |eqs| == |clauses|
    ensures forall i :: 0 <= i < |clauses| ==> eqs[i] == Encode(clauses[i])
  {
    if clauses == [] then []
    else EncodeAll(clauses[..|clauses| - 1]) + [Encode(clauses[|clauses| - 1])]
  }

  /** An assignment solves the ANF system (every polynomial is 0). */
  predicate Solves(a: Assignment, eqs: seq<Poly>)
  {
    forall i :: 0 <= i < |eqs| ==> !Eval(eqs[i], a)
  }

  /** The solutions of the ANF system are exactly the models of the clause list. */
  lemma EncodeAllSolutions(clauses: seq<Clause>, a: Assignment)
    ensures Solves(a, EncodeAll(clauses)) <==> SatisfiesAll(a, clauses)
  {
    forall i | 0 <= i < |clauses|
      ensures !Eval(EncodeAll(clauses)[i], a) <==> Satisfies(a, clauses[i])
    {
      EncodeFalsified(clauses[i], a);
    }
  }
}
