/**
 * The `Library` object's CNF front end: `check_library_in_use`, which lets a
 * library read in one problem only, and `read_cnf`, which parses a DIMACS
 * file, cuts clauses with too many positive literals, sizes the polynomial
 * ring and encodes every clause as a polynomial equation.
 *
 * The ring is modelled by its size only, and the ANF by the list of the
 * polynomials added to it, in order.
 */
module Library {
  import opened Wrappers
  import opened Clauses
  import opened Dimacs
  import opened Chunking
  import opened Encoding

  datatype LibraryError =
    | AlreadyInUse           // a problem was already read in (the source exits)
    | ReadFailed(ParseError) // the DIMACS reader rejected the file (the source exits)

  /** What `read_cnf` builds from a parsed file: the equations, the ring size and the extra clauses. */
  datatype Anf = Anf(eqs: seq<Poly>, ringSize: nat, extra: seq<Clause>)

  /** The reference translation: chunk every clause, starting the auxiliary variables at the parsed `maxVar`, then encode. */
  function CnfToAnf(cnf: Cnf, cutNum: nat): Anf
  {
    var t := ChunkAll(cnf.clauses, cutNum, cnf.maxVar);
    Anf(EncodeAll(t.chunked), t.maxVar, t.extra)
  }

  /**
   * The translation of a parsed file is sound: the ring holds every variable
   * the equations mention, it is at least as large as the parsed `maxVar`, and
   * the equations have a solution exactly when the clauses have a model.
   */
  lemma CnfToAnfCorrect(file: Option<seq<Line>>, cutNum: nat)
    requires Parse(file).Success?
    ensures var cnf := Parse(file).value;
      var anf := CnfToAnf(cnf, cutNum);
      && anf.ringSize >= cnf.maxVar
      && (forall i :: 0 <= i < |anf.eqs| ==> PolyVarsBelow(anf.eqs[i], anf.ringSize))
      && ((exists a: Assignment :: SatisfiesAll(a, cnf.clauses)) <==> (exists b: Assignment :: Solves(b, anf.eqs)))
  {
    var cnf := Parse(file).value;
    var t := ChunkAll(cnf.clauses, cutNum, cnf.maxVar);
    ParsedVarsBelowMaxVar(file.value);
    ChunkAllVarsBelow(cnf.clauses, cutNum, cnf.maxVar);
    forall i | 0 <= i < |t.chunked|
      ensures PolyVarsBelow(EncodeAll(t.chunked)[i], t.maxVar)
    {
      EncodeVarsBelow(t.chunked[i], t.maxVar);
    }
    ChunkAllEquisatisfiable(cnf.clauses, cutNum, cnf.maxVar);
    EncodingEquisatisfiable(t.chunked);
  }

  /** The equations have a solution exactly when the clause list has a model. */
  lemma EncodingEquisatisfiable(clauses: seq<Clause>)
    ensures (exists a: Assignment :: SatisfiesAll(a, clauses)) <==> (exists b: Assignment :: Solves(b, EncodeAll(clauses)))
  {
    if exists a: Assignment :: SatisfiesAll(a, clauses) {
      var a: Assignment :| SatisfiesAll(a, clauses);
      EncodeAllSolutions(clauses, a);
    }
    if exists b: Assignment :: Solves(b, EncodeAll(clauses)) {
      var b: Assignment :| Solves(b, EncodeAll(clauses));
      EncodeAllSolutions(clauses, b);
    }
  }

  /** The encoding loop of `read_cnf`: one polynomial per chunked clause, in order. */
  method EncodeClauses(clauses: seq<Clause>) returns (eqs: seq<Poly>)
    ensures eqs == EncodeAll(clauses)
  {
    eqs := [];
    for i := 0 to |clauses|
      invariant eqs == EncodeAll(clauses[..i])
    {
      assert clauses[..i + 1][..i] == clauses[..i];
      var poly := EncodeClause(clauses[i]);
      eqs := eqs + [poly];
    }
    assert clauses[..|clauses|] == clauses;
  }

  lemma ChunkAllPrefix(clauses: seq<Clause>, i: nat, cutNum: nat, maxVar: nat)
    requires i < |clauses|
    ensures var t := ChunkAll(clauses[..i], cutNum, maxVar);
      var c := Chunk(clauses[i], cutNum, t.maxVar);
      ChunkAll(clauses[..i + 1], cutNum, maxVar) == Translation(t.chunked + c.pieces, if c.split then t.extra + c.pieces else t.extra, c.maxVar)
  {
    assert clauses[..i + 1][..i] == clauses[..i];
  }

  class Library {
    /** `config.cutNum`: the most positive literals a clause may keep. */
    const cutNum: nat
    /** `read_in_data`. */
    var readInData: bool
    /** `extra_clauses`: the pieces of the clauses that were cut. */
    var extraClauses: seq<Clause>
    /** `polybori_ring`: `None` for the null pointer, otherwise the ring's size. */
    var ring: Option<nat>

    /** Before anything is read, there are no extra clauses and no ring. */
    ghost predicate Valid()
      reads this
    {
      !readInData ==> extraClauses == [] && ring == None
    }

    constructor (cutNum: nat)
      ensures Valid() && this.cutNum == cutNum
      ensures !readInData && extraClauses == [] && ring == None
    {
      this.cutNum := cutNum;
      readInData := false;
      extraClauses := [];
      ring := None;
    }

    /**
     * `check_library_in_use`: a second read is refused; the first one marks
     * the library as used and finds no extra clauses and no ring.
     */
    method CheckLibraryInUse() returns (r: Result<(), LibraryError>)
      requires Valid()
      modifies this
      ensures Valid() && readInData
      ensures r.Failure? <==> old(readInData)
      ensures r.Failure? ==> r.error == AlreadyInUse
      ensures r.Success? ==> extraClauses == [] && ring == None
      ensures extraClauses == old(extraClauses) && ring == old(ring)
    {
      if readInData {
        return Failure(AlreadyInUse);
      }
      readInData := true;
      return Success(());
    }

    /**
     * The chunking loop of `read_cnf`: every clause goes to the chunked list
     * whole or cut in pieces, and the pieces of cut clauses are also appended
     * to `extra_clauses`.
     */
    method ChunkClauses(origClauses: seq<Clause>, maxVar0: nat) returns (chunkedClauses: seq<Clause>, maxVar: nat)
      requires Valid() && readInData && extraClauses == []
      modifies this
      ensures Valid()
      ensures Translation(chunkedClauses, extraClauses, maxVar) == ChunkAll(origClauses, cutNum, maxVar0)
      ensures readInData == old(readInData) && ring == old(ring)
    {
      chunkedClauses, maxVar := [], maxVar0;
      for i := 0 to |origClauses|
        invariant ChunkAll(origClauses[..i], cutNum, maxVar0) == Translation(chunkedClauses, extraClauses, maxVar)
        invariant readInData == old(readInData) && ring == old(ring)
      {
        ChunkAllPrefix(origClauses, i, cutNum, maxVar0);
        var pieces, split, newMaxVar := ChunkClause(origClauses[i], cutNum, maxVar);
        chunkedClauses := chunkedClauses + pieces;
        if split {
          extraClauses := extraClauses + pieces;
        }
        maxVar := newMaxVar;
      }
      assert origClauses[..|origClauses|] == origClauses;
    }

    /**
     * `read_cnf`: the equations of the ANF, built by the reader's loop, the
     * chunking loop and the encoding loop, are those of `CnfToAnf`; the ring
     * gets the final `maxVar` as its size and the cut pieces are recorded as
     * extra clauses.
     */
    method ReadCnf(file: Option<seq<Line>>) returns (r: Result<seq<Poly>, LibraryError>)
      requires Valid()
      modifies this
      ensures Valid() && readInData
      ensures old(readInData) ==> r == Failure(AlreadyInUse) && extraClauses == old(extraClauses) && ring == old(ring)
      ensures !old(readInData) && Parse(file).Failure? ==>
        r == Failure(ReadFailed(Parse(file).error)) && extraClauses == [] && ring == None
      ensures !old(readInData) && Parse(file).Success? ==>
        var anf := CnfToAnf(Parse(file).value, cutNum);
        r == Success(anf.eqs) && ring == Some(anf.ringSize) && extraClauses == anf.extra
    {
      var inUse := CheckLibraryInUse();
      if inUse.Failure? {
        return Failure(AlreadyInUse);
      }
      var cache := DimacsCache.Open(file);
      if cache.Failure? {
        return Failure(ReadFailed(cache.error));
      }
      var chunkedClauses, maxVar := ChunkClauses(cache.value.clauses, cache.value.maxVar);
      ring := Some(maxVar);
      var eqs := EncodeClauses(chunkedClauses);
      return Success(eqs);
    }
  }
}
