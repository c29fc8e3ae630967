/**
 * The DIMACS CNF reader (`DIMACSCache`). A file is a list of lines; a line is
 * blank, starts with a marker character (`p` problem line, `c` comment, `x`
 * XOR clause, anything else is not a number), or is a list of integer tokens.
 * `Parse` is the reference reading of a whole file; `DimacsCache.Open` runs the
 * reader's line and token loops and is proved to compute it.
 */
module Dimacs {
  import opened Wrappers
  import opened Clauses

  datatype Line = Blank | Marked(tag: char) | Numbers(tokens: seq<int>)

  datatype ParseError =
    | CannotOpen    // the file could not be opened for reading
    | XorClause     // a line starting with `x`
    | NotANumber    // a line whose first character starts no integer

  /** What the reader has collected: the clauses and the bound on their variables. */
  datatype Cnf = Cnf(clauses: seq<Clause>, maxVar: nat)

  function Abs(v: int): nat
  {
    if v < 0 then -v else v
  }

  function Max(a: nat, b: nat): nat
  {
    if a < b then b else a
  }

  /** The literal a non-zero DIMACS token denotes: variable |v|-1, negated iff v is negative. */
  function LitOf(v: int): Lit
    requires v != 0
  {
    Lit(Abs(v) - 1, v < 0)
  }

  /** The DIMACS token that denotes a literal. */
  function TokenOf(l: Lit): int
  {
    if l.sign then -(l.variable + 1) else l.variable + 1
  }

  /** The position of the first `0` token, or the length when there is none. */
  function TerminatorAt(tokens: seq<int>): (k: nat)
    ensures k <= |tokens|
    ensures forall i :: 0 <= i < k ==> tokens[i] != 0
    ensures k < |tokens| ==> tokens[k] == 0
  {
    if tokens == [] then 0
    else if tokens[0] == 0 then 0
    else 1 + TerminatorAt(tokens[1..])
  }

  function LitsOf(tokens: seq<int>): (c: Clause)
    requires forall i :: 0 <= i < |tokens| ==> tokens[i] != 0
  {
    seq(|tokens|, i requires 0 <= i < |tokens| => LitOf(tokens[i]))
  }

  /** The largest magnitude among the tokens, 0 for none. */
  function MaxAbs(tokens: seq<int>): nat
  {
    if tokens == [] then 0 else Max(MaxAbs(tokens[..|tokens| - 1]), Abs(tokens[|tokens| - 1]))
  }

  /** The bound `var + 1` over a list of literals, 0 for none. */
  function VarBound(lits: seq<Lit>): nat
  {
    if lits == [] then 0 else Max(VarBound(lits[..|lits| - 1]), lits[|lits| - 1].variable + 1)
  }

  /**
   * One clause line: the tokens up to the first `0` are read; a `0` closes the
   * clause and ends the line; without a `0` no clause is added. Every token read
   * raises `maxVar` to its magnitude.
   */
  function ReadTokens(cnf: Cnf, tokens: seq<int>): Cnf
  {
    var k := TerminatorAt(tokens);
    var read := tokens[..k];
    Cnf(if k < |tokens| then cnf.clauses + [LitsOf(read)] else cnf.clauses, Max(cnf.maxVar, MaxAbs(read)))
  }

  function ReadLine(cnf: Cnf, line: Line): Result<Cnf, ParseError>
  {
    match line
    case Blank => Success(cnf)
    case Marked(tag) =>
      if tag == 'p' || tag == 'c' then Success(cnf)
      else if tag == 'x' then Failure(XorClause)
      else Failure(NotANumber)
    case Numbers(tokens) => Success(ReadTokens(cnf, tokens))
  }

  /** Reading starts from no clauses and `maxVar` 0 and stops at the first bad line. */
  function ReadLines(lines: seq<Line>): Result<Cnf, ParseError>
  {
    if lines == [] then Success(Cnf([], 0))
    else
      match ReadLines(lines[..|lines| - 1])
      case Failure(e) => Failure(e)
      case Success(cnf) => ReadLine(cnf, lines[|lines| - 1])
  }

  /** A file that cannot be opened is `None`. */
  function Parse(file: Option<seq<Line>>): Result<Cnf, ParseError>
  {
    match file
    case None => Failure(CannotOpen)
    case Some(lines) => ReadLines(lines)
  }

  /** Once a line is rejected, the lines after it do not matter. */
  lemma {:induction false} FailureIsFinal(lines: seq<Line>, n: nat)
    requires n <= |lines| && ReadLines(lines[..n]).Failure?
    ensures ReadLines(lines) == ReadLines(lines[..n])
    decreases |lines|
  {
    if n < |lines| {
      var init := lines[..|lines| - 1];
      assert init[..n] == lines[..n];
      FailureIsFinal(init, n);
    } else {
      assert lines[..n] == lines;
    }
  }

  predicate Skipped(line: Line)
  {
    line == Blank || line == Marked('p') || line == Marked('c')
  }

  /** The lines that are not blank, comments or the problem line. */
  function Kept(lines: seq<Line>): seq<Line>
  {
    if lines == [] then []
    else Kept(lines[..|lines| - 1]) + (if Skipped(lines[|lines| - 1]) then [] else [lines[|lines| - 1]])
  }

  /** Blank lines, comments and the problem line change neither the clauses nor `maxVar`. */
  lemma {:induction false} SkippedLinesIgnored(lines: seq<Line>)
    ensures ReadLines(Kept(lines)) == ReadLines(lines)
  {
    if lines != [] {
      var init := lines[..|lines| - 1];
      var last := lines[|lines| - 1];
      SkippedLinesIgnored(init);
      if !Skipped(last) {
        assert (Kept(init) + [last])[..|Kept(init) + [last]| - 1] == Kept(init);
      } else {
        assert Kept(init) + [] == Kept(init);
      }
    }
  }

  /** A file with an `x` line is rejected, whatever the other lines hold. */
  lemma {:induction false} XorLineRejected(lines: seq<Line>, i: nat)
    requires i < |lines| && lines[i] == Marked('x')
    ensures ReadLines(lines).Failure?
  {
    var prefix := lines[..i + 1];
    assert prefix[..i] == lines[..i];
    assert prefix[i] == Marked('x');
    assert ReadLines(prefix).Failure?;
    FailureIsFinal(lines, i + 1);
  }

  lemma TokenRoundTrip(v: int, l: Lit)
    ensures v != 0 ==> TokenOf(LitOf(v)) == v
    ensures LitOf(TokenOf(l)) == l
  {
  }

  /** A `0` ends the clause: what follows it on the line is never read. */
  lemma TokensAfterTerminatorIgnored(cnf: Cnf, tokens: seq<int>, rest: seq<int>)
    requires 0 in tokens
    ensures ReadTokens(cnf, tokens + rest) == ReadTokens(cnf, tokens)
    ensures |ReadTokens(cnf, tokens).clauses| == |cnf.clauses| + 1
  {
    TerminatorAppend(tokens, rest);
    assert (tokens + rest)[..TerminatorAt(tokens)] == tokens[..TerminatorAt(tokens)];
  }

  lemma {:induction false} TerminatorAppend(tokens: seq<int>, rest: seq<int>)
    requires 0 in tokens
    ensures TerminatorAt(tokens + rest) == TerminatorAt(tokens) < |tokens|
  {
    if tokens[0] != 0 {
      assert (tokens + rest)[1..] == tokens[1..] + rest;
      TerminatorAppend(tokens[1..], rest);
    }
  }

  /** The `0`-terminated lines: each of them adds exactly one clause. */
  function TerminatedCount(lines: seq<Line>): nat
  {
    if lines == [] then 0
    else
      TerminatedCount(lines[..|lines| - 1])
      + (if lines[|lines| - 1].Numbers? && 0 in lines[|lines| - 1].tokens then 1 else 0)
  }

  /** One clause per `0`-terminated line; a clause line without `0` adds none. */
  lemma {:induction false} ClausePerTerminatedLine(lines: seq<Line>)
    requires ReadLines(lines).Success?
    ensures |ReadLines(lines).value.clauses| == TerminatedCount(lines)
  {
    if lines != [] {
      ClausePerTerminatedLine(lines[..|lines| - 1]);
      var last := lines[|lines| - 1];
      if last.Numbers? {
        var k := TerminatorAt(last.tokens);
        assert k < |last.tokens| <==> 0 in last.tokens;
      }
    }
  }

  lemma {:induction false} LitsBelowMaxAbs(tokens: seq<int>)
    requires forall i :: 0 <= i < |tokens| ==> tokens[i] != 0
    ensures VarsBelow(LitsOf(tokens), MaxAbs(tokens))
    ensures forall i :: 0 <= i < |tokens| ==> Abs(tokens[i]) <= MaxAbs(tokens)
  {
    if tokens != [] {
      var init := tokens[..|tokens| - 1];
      LitsBelowMaxAbs(init);
      assert forall i :: 0 <= i < |init| ==> LitsOf(tokens)[i] == LitsOf(init)[i];
    }
  }

  /** Every literal of every parsed clause has a variable below the parsed `maxVar`. */
  lemma {:induction false} ParsedVarsBelowMaxVar(lines: seq<Line>)
    requires ReadLines(lines).Success?
    ensures AllVarsBelow(ReadLines(lines).value.clauses, ReadLines(lines).value.maxVar)
  {
    if lines != [] {
      var init := lines[..|lines| - 1];
      ParsedVarsBelowMaxVar(init);
      var cnf := ReadLines(init).value;
      var last := lines[|lines| - 1];
      if last.Numbers? {
        var k := TerminatorAt(last.tokens);
        var read := last.tokens[..k];
        LitsBelowMaxAbs(read);
        var r := ReadTokens(cnf, last.tokens);
        forall i | 0 <= i < |r.clauses|
          ensures VarsBelow(r.clauses[i], r.maxVar)
        {
          if i < |cnf.clauses| {
            assert r.clauses[i] == cnf.clauses[i];
          }
        }
      }
    }
  }

  /** The tokens the reader consumes: those before the first `0` of each clause line. */
  function TokensRead(lines: seq<Line>): seq<int>
  {
    if lines == [] then []
    else
      var last := lines[|lines| - 1];
      TokensRead(lines[..|lines| - 1])
      + (if last.Numbers? then last.tokens[..TerminatorAt(last.tokens)] else [])
  }

  lemma {:induction false} MaxAbsAppend(x: seq<int>, y: seq<int>)
    ensures MaxAbs(x + y) == Max(MaxAbs(x), MaxAbs(y))
    decreases |y|
  {
    if y == [] {
      assert x + y == x;
    } else {
      assert (x + y)[..|x + y| - 1] == x + y[..|y| - 1];
      MaxAbsAppend(x, y[..|y| - 1]);
    }
  }

  /** `maxVar` starts at 0 and ends as the largest magnitude of a token read. */
  lemma {:induction false} MaxVarIsLargestToken(lines: seq<Line>)
    requires ReadLines(lines).Success?
    ensures ReadLines(lines).value.maxVar == MaxAbs(TokensRead(lines))
  {
    if lines != [] {
      var init := lines[..|lines| - 1];
      MaxVarIsLargestToken(init);
      var last := lines[|lines| - 1];
      if last.Numbers? {
        MaxAbsAppend(TokensRead(init), last.tokens[..TerminatorAt(last.tokens)]);
      } else {
        assert ReadLines(lines) == ReadLine(ReadLines(init).value, last);
        assert ReadLines(lines).value == ReadLines(init).value;
        assert TokensRead(lines) == TokensRead(init) + [];
        assert TokensRead(lines) == TokensRead(init);
      }
    }
  }

  /** The example file `p cnf 3 2 / 1 -2 0 / 2 3 0`. */
  lemma SmallFile()
    ensures Parse(Some([Marked('p'), Numbers([1, -2, 0]), Numbers([2, 3, 0])]))
         == Success(Cnf([[Lit(0, false), Lit(1, true)], [Lit(1, false), Lit(2, false)]], 3))
  {
    var lines := [Marked('p'), Numbers([1, -2, 0]), Numbers([2, 3, 0])];
    assert lines[..1] == [Marked('p')] && lines[..2] == [Marked('p'), Numbers([1, -2, 0])];
    assert [Marked('p')][..0] == [];
    assert [Marked('p'), Numbers([1, -2, 0])][..1] == [Marked('p')];
    assert TerminatorAt([1, -2, 0]) == 2 by {
      assert [1, -2, 0][1..] == [-2, 0] && [-2, 0][1..] == [0];
    }
    assert TerminatorAt([2, 3, 0]) == 2 by {
      assert [2, 3, 0][1..] == [3, 0] && [3, 0][1..] == [0];
    }
    assert [1, -2, 0][..2] == [1, -2] && [2, 3, 0][..2] == [2, 3];
    assert MaxAbs([1, -2]) == 2 by { assert [1, -2][..1] == [1]; assert [1][..0] == []; }
    assert MaxAbs([2, 3]) == 3 by { assert [2, 3][..1] == [2]; assert [2][..0] == []; }
    assert LitsOf([1, -2]) == [Lit(0, false), Lit(1, true)];
    assert LitsOf([2, 3]) == [Lit(1, false), Lit(2, false)];
    assert ReadLines(lines[..1]) == Success(Cnf([], 0));
    assert ReadTokens(Cnf([], 0), [1, -2, 0]) == Cnf([[Lit(0, false), Lit(1, true)]], 2);
    assert ReadLines(lines[..2]) == Success(Cnf([[Lit(0, false), Lit(1, true)]], 2));
    assert ReadTokens(Cnf([[Lit(0, false), Lit(1, true)]], 2), [2, 3, 0])
        == Cnf([[Lit(0, false), Lit(1, true)], [Lit(1, false), Lit(2, false)]], 3);
    assert lines[..2] == lines[..|lines| - 1];
  }

  class DimacsCache {
    var clauses: seq<Clause>
    var maxVar: nat

    /** The reset at the start of a read. */
    constructor ()
      ensures clauses == [] && maxVar == 0
    {
      clauses := [];
      maxVar := 0;
    }

    /** `addClause(const Lit*, uint32_t)`: copies the first `size` literals of a buffer. */
    method AddLits(lits: array<Lit>, size: nat)
      requires size <= lits.Length
      modifies this
      ensures clauses == old(clauses) + [lits[..size]]
      ensures maxVar == Max(old(maxVar), VarBound(lits[..size]))
    {
      clauses := clauses + [lits[..size]];
      var i := 0;
      while i < size
        invariant i <= size
        invariant clauses == old(clauses) + [lits[..size]]
        invariant maxVar == Max(old(maxVar), VarBound(lits[..i]))
      {
        assert lits[..i + 1][..i] == lits[..i];
        maxVar := Max(maxVar, lits[i].variable + 1);
        i := i + 1;
      }
    }

    /** `addClause(const Clause&)`. */
    method AddClause(cls: Clause)
      modifies this
      ensures clauses == old(clauses) + [cls]
      ensures maxVar == Max(old(maxVar), VarBound(cls))
    {
      clauses := clauses + [cls];
      for i := 0 to |cls|
        invariant clauses == old(clauses) + [cls]
        invariant maxVar == Max(old(maxVar), VarBound(cls[..i]))
      {
        assert cls[..i + 1][..i] == cls[..i];
        maxVar := Max(maxVar, cls[i].variable + 1);
      }
      assert cls[..|cls|] == cls;
    }

    /** The constructor `DIMACSCache(fname)`: reads the file line by line, token by token. */
    static method Open(file: Option<seq<Line>>) returns (r: Result<DimacsCache, ParseError>)
      ensures r.Failure? <==> Parse(file).Failure?
      ensures r.Failure? ==> r.error == Parse(file).error
      ensures r.Success? ==> fresh(r.value) && Cnf(r.value.clauses, r.value.maxVar) == Parse(file).value
    {
      if file.None? {
        return Failure(CannotOpen);
      }
      var lines := file.value;
      var cache := new DimacsCache();
      var n := 0;
      while n < |lines|
        invariant n <= |lines|
        invariant ReadLines(lines[..n]) == Success(Cnf(cache.clauses, cache.maxVar))
      {
        assert lines[..n + 1][..n] == lines[..n];
        match lines[n] {
          case Blank =>
          case Marked(tag) =>
            if tag == 'p' || tag == 'c' {
            } else if tag == 'x' {
              FailureIsFinal(lines, n + 1);
              return Failure(XorClause);
            } else {
              FailureIsFinal(lines, n + 1);
              return Failure(NotANumber);
            }
          case Numbers(tokens) =>
            ghost var before := Cnf(cache.clauses, cache.maxVar);
            var lits: Clause := [];
            var j := 0;
            while j < |tokens|
              invariant j <= TerminatorAt(tokens)
              invariant lits == LitsOf(tokens[..j])
              invariant cache.clauses == before.clauses
              invariant cache.maxVar == Max(before.maxVar, MaxAbs(tokens[..j]))
            {
              var v := tokens[j];
              if v == 0 {
                cache.clauses := cache.clauses + [lits];
                break;
              } else {
                lits := lits + [LitOf(v)];
              }
              assert tokens[..j + 1][..j] == tokens[..j];
              cache.maxVar := Max(cache.maxVar, Abs(v));
              j := j + 1;
            }
            assert Cnf(cache.clauses, cache.maxVar) == ReadTokens(before, tokens);
        }
        n := n + 1;
      }
      assert lines[..|lines|] == lines;
      return Success(cache);
    }
  }
}
