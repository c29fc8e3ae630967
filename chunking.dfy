/**
 * Clause chunking in `read_cnf`: a clause with more than `cutNum` positive
 * literals is cut, left to right, into pieces linked by fresh auxiliary
 * variables taken from the running `maxVar` counter:
 * `(l1 .. lj, ~a) & (a, lj+1 .. lk)`.
 *
 * `Scan` follows the loop over the literals; it records the literals of the
 * clause in segments (`closed` ones already emitted, the `open` one being
 * collected) together with the loop's positive counter. `Chunk` is the result
 * for one clause and `ChunkAll` for the whole clause list; `ChunkClause` is the
 * loop itself. The lemmas show that the pieces are a chain over the segments,
 * that they are equisatisfiable with the clause, and where the positive bound
 * holds.
 */
module Chunking {
  import opened Clauses

  /** Progress of the split loop: emitted segments, the open segment and `count`. */
  datatype Split = Split(closed: seq<Clause>, open: Clause, count: nat)

  /** One iteration: push the literal, count it, and cut when `count` exceeds `cutNum`. */
  function ScanStep(s: Split, l: Lit, cutNum: nat): Split
  {
    var count := s.count + (if IsPositive(l) then 1 else 0);
    if count > cutNum then Split(s.closed + [s.open], [l], 2)
    else Split(s.closed, s.open + [l], count)
  }

  function Scan(lits: Clause, cutNum: nat): Split
  {
    if lits == [] then Split([], [], 0)
    else ScanStep(Scan(lits[..|lits| - 1], cutNum), lits[|lits| - 1], cutNum)
  }

  /** The positive auxiliary literal that opens piece `i > 0`. */
  function Head(base: nat, i: nat): Clause
  {
    if i == 0 then [] else [Lit(base + i - 1, false)]
  }

  /** Pieces that were cut: each ends in the negated auxiliary variable `base + i`. */
  function Closed(segs: seq<Clause>, base: nat): seq<Clause>
  {
    seq(|segs|, i requires 0 <= i < |segs| => Head(base, i) + segs[i] + [Lit(base + i, true)])
  }

  /** The chain of pieces over segments `segs` with auxiliary variables `base`, `base + 1`, ... */
  function Chain(segs: seq<Clause>, base: nat): seq<Clause>
    requires |segs| > 0
  {
    Closed(segs[..|segs| - 1], base) + [Head(base, |segs| - 1) + segs[|segs| - 1]]
  }

  /** The pieces a clause becomes, whether it was cut, and the advanced `maxVar`. */
  datatype Chunked = Chunked(pieces: seq<Clause>, split: bool, maxVar: nat)

  /** A clause that is kept as it is. */
  predicate Small(clause: Clause, cutNum: nat)
  {
    |clause| <= cutNum || Positives(clause) <= cutNum
  }

  /** The pieces of a clause that is cut: the closed ones, then the last collected one unless it is empty. */
  function Cut(clause: Clause, cutNum: nat, maxVar: nat): Chunked
  {
    var s := Scan(clause, cutNum);
    var collect := Head(maxVar, |s.closed|) + s.open;
    Chunked(Closed(s.closed, maxVar) + (if collect != [] then [collect] else []), true, maxVar + |s.closed|)
  }

  function Chunk(clause: Clause, cutNum: nat, maxVar: nat): Chunked
  {
    if Small(clause, cutNum) then Chunked([clause], false, maxVar) else Cut(clause, cutNum, maxVar)
  }

  /** The segments of the original literals that the pieces of `Chunk` carry. */
  function Segments(clause: Clause, cutNum: nat): seq<Clause>
  {
    if Small(clause, cutNum) then [clause]
    else
      var s := Scan(clause, cutNum);
      s.closed + [s.open]
  }

  lemma ClosedAppend(segs: seq<Clause>, seg: Clause, base: nat)
    ensures Closed(segs + [seg], base) == Closed(segs, base) + [Head(base, |segs|) + seg + [Lit(base + |segs|, true)]]
  {
  }

  /** Cutting: the collected piece with its last literal replaced by `~a(|closed|)` is the next closed piece. */
  lemma CloseSegment(closed: seq<Clause>, open: Clause, l: Lit, base: nat)
    ensures var c := Head(base, |closed|) + open + [l];
      Closed(closed + [open], base) == Closed(closed, base) + [c[|c| - 1 := Lit(base + |closed|, true)]]
  {
    var c := Head(base, |closed|) + open + [l];
    assert c[|c| - 1 := Lit(base + |closed|, true)] == Head(base, |closed|) + open + [Lit(base + |closed|, true)];
    ClosedAppend(closed, open, base);
  }

  /** A literal that does not push `count` over `cutNum` extends the open segment. */
  lemma KeepStep(s: Split, l: Lit, cutNum: nat, base: nat)
    requires s.count + (if IsPositive(l) then 1 else 0) <= cutNum
    ensures ScanStep(s, l, cutNum) == Split(s.closed, s.open + [l], s.count + (if IsPositive(l) then 1 else 0))
    ensures Head(base, |s.closed|) + s.open + [l] == Head(base, |s.closed|) + (s.open + [l])
  {
  }

  /** A literal that pushes `count` over `cutNum` closes the segment and opens the next one with `a(i)`. */
  lemma CutStep(s: Split, l: Lit, cutNum: nat, base: nat)
    requires s.count + (if IsPositive(l) then 1 else 0) > cutNum
    ensures ScanStep(s, l, cutNum) == Split(s.closed + [s.open], [l], 2)
    ensures [Lit(base + |s.closed|, false), l] == Head(base, |s.closed| + 1) + [l]
    ensures var c := Head(base, |s.closed|) + s.open + [l];
      Closed(s.closed + [s.open], base) == Closed(s.closed, base) + [c[|c| - 1 := Lit(base + |s.closed|, true)]]
  {
    CloseSegment(s.closed, s.open, l, base);
  }

  lemma ScanPrefix(lits: Clause, i: nat, cutNum: nat)
    requires i < |lits|
    ensures Scan(lits[..i + 1], cutNum) == ScanStep(Scan(lits[..i], cutNum), lits[i], cutNum)
  {
    assert lits[..i + 1][..i] == lits[..i];
  }

  /** The count of non-negated literals that decides whether a clause is cut. */
  method CountPositives(clause: Clause) returns (positiveCount: nat)
    ensures positiveCount == Positives(clause)
  {
    positiveCount := 0;
    for i := 0 to |clause|
      invariant positiveCount == Positives(clause[..i])
    {
      assert clause[..i + 1][..i] == clause[..i];
      positiveCount := positiveCount + (if clause[i].sign then 0 else 1);
    }
    assert clause[..|clause|] == clause;
  }

  /**
   * The body of the loop over one clause in `read_cnf`: clauses that are short
   * enough, or have few enough positive literals, are returned unchanged;
   * otherwise they are cut into pieces, and the caller records every piece as
   * an extra clause too.
   */
  method ChunkClause(clause: Clause, cutNum: nat, maxVar: nat) returns (pieces: seq<Clause>, split: bool, newMaxVar: nat)
    ensures Chunked(pieces, split, newMaxVar) == Chunk(clause, cutNum, maxVar)
  {
    if |clause| <= cutNum {
      return [clause], false, maxVar;
    }
    var positiveCount := CountPositives(clause);
    if positiveCount <= cutNum {
      return [clause], false, maxVar;
    }
    pieces, newMaxVar := CutClause(clause, cutNum, maxVar);
    split := true;
  }

  /** The split loop: collect literals, and on each cut emit the piece closed by `~aux` and reopen with `aux`. */
  method CutClause(clause: Clause, cutNum: nat, maxVar: nat) returns (pieces: seq<Clause>, newMaxVar: nat)
    ensures Chunked(pieces, true, newMaxVar) == Cut(clause, cutNum, maxVar)
  {
    newMaxVar := maxVar;
    pieces := [];
    var collect: Clause := [];
    var count := 0;
    ghost var s := Split([], [], 0);
    for i := 0 to |clause|
      invariant s == Scan(clause[..i], cutNum)
      invariant collect == Head(maxVar, |s.closed|) + s.open
      invariant count == s.count
      invariant newMaxVar == maxVar + |s.closed|
      invariant pieces == Closed(s.closed, maxVar)
    {
      var l := clause[i];
      ScanPrefix(clause, i, cutNum);
      collect := collect + [l];
      count := count + (if l.sign then 0 else 1);
      if count > cutNum {
        CutStep(s, l, cutNum, maxVar);
        var aux := Lit(newMaxVar, false);
        newMaxVar := newMaxVar + 1;
        var prev := collect[|collect| - 1];
        collect := collect[|collect| - 1 := Negate(aux)];
        pieces := pieces + [collect];
        collect := [aux, prev];
        count := 2;
        s := Split(s.closed + [s.open], [l], 2);
      } else {
        KeepStep(s, l, cutNum, maxVar);
        s := Split(s.closed, s.open + [l], count);
      }
    }
    assert clause[..|clause|] == clause;
    if collect != [] {
      pieces := pieces + [collect];
    }
  }

  /** One step of the loop moves one literal to the end of the segments. */
  lemma SegmentsStep(s: Split, l: Lit, cutNum: nat)
    ensures var s' := ScanStep(s, l, cutNum);
      Flatten(s'.closed) + s'.open == Flatten(s.closed) + s.open + [l]
  {
    FlattenSnoc(s.closed, s.open);
  }

  /** The segments partition the literals read so far. */
  lemma {:induction false} ScanSegments(lits: Clause, cutNum: nat)
    ensures Flatten(Scan(lits, cutNum).closed) + Scan(lits, cutNum).open == lits
  {
    if lits != [] {
      var init, l := lits[..|lits| - 1], lits[|lits| - 1];
      ScanSegments(init, cutNum);
      SegmentsStep(Scan(init, cutNum), l, cutNum);
      LastSplit(lits);
    }
  }

  lemma LastSplit<T>(s: seq<T>)
    requires s != []
    ensures s == s[..|s| - 1] + [s[|s| - 1]]
  {
  }

  /** The open segment is never empty once a literal has been read. */
  lemma ScanOpen(lits: Clause, cutNum: nat)
    requires lits != []
    ensures Scan(lits, cutNum).open != []
  {
    var n := |lits| - 1;
    ScanPrefix(lits, n, cutNum);
    assert lits[..n + 1] == lits;
  }

  lemma FlattenSnoc(cs: seq<Clause>, c: Clause)
    ensures Flatten(cs + [c]) == Flatten(cs) + c
  {
    assert (cs + [c])[..|cs|] == cs;
  }

  /**
   * Every clause becomes a chain: the pieces carry segments that concatenate to
   * the clause, piece `i` is opened by `a(i-1)` and closed by `~a(i)`, with
   * `a(i) = maxVar + i`, and `maxVar` advances by one per cut.
   */
  lemma ChunkIsChain(clause: Clause, cutNum: nat, maxVar: nat)
    ensures |Segments(clause, cutNum)| > 0
    ensures Flatten(Segments(clause, cutNum)) == clause
    ensures Chunk(clause, cutNum, maxVar).pieces == Chain(Segments(clause, cutNum), maxVar)
    ensures Chunk(clause, cutNum, maxVar).maxVar == maxVar + |Segments(clause, cutNum)| - 1
  {
    var segs := Segments(clause, cutNum);
    if Small(clause, cutNum) {
      assert Flatten(segs) == Flatten(segs[..0]) + clause;
    } else {
      var s := Scan(clause, cutNum);
      ScanSegments(clause, cutNum);
      ScanOpen(clause, cutNum);
      assert segs[..|segs| - 1] == s.closed;
      assert Flatten(segs) == Flatten(s.closed) + s.open;
      assert clause != [];
    }
  }

  /**
   * The auxiliary literals link consecutive pieces: all pieces but the last end
   * in `~a(i)`, all but the first start with `a(i-1)`, where `a(i) = maxVar + i`
   * lies at or above the incoming `maxVar` and below the returned one.
   */
  lemma ChunkLinks(clause: Clause, cutNum: nat, maxVar: nat)
    ensures var c := Chunk(clause, cutNum, maxVar);
      && c.maxVar == maxVar + |c.pieces| - 1
      && (forall i :: 0 <= i < |c.pieces| - 1 ==> c.pieces[i] != [] && c.pieces[i][|c.pieces[i]| - 1] == Lit(maxVar + i, true))
      && (forall i :: 0 < i < |c.pieces| ==> c.pieces[i] != [] && c.pieces[i][0] == Lit(maxVar + i - 1, false))
  {
    ChunkIsChain(clause, cutNum, maxVar);
  }

  /** With the auxiliary literals removed, the pieces spell out the clause in order. */
  function Original(c: Clause, base: nat): Clause
  {
    if c == [] then []
    else Original(c[..|c| - 1], base) + (if c[|c| - 1].variable < base then [c[|c| - 1]] else [])
  }

  lemma {:induction false} OriginalAppend(x: Clause, y: Clause, base: nat)
    ensures Original(x + y, base) == Original(x, base) + Original(y, base)
    decreases |y|
  {
    if y == [] {
      assert x + y == x;
    } else {
      assert (x + y)[..|x + y| - 1] == x + y[..|y| - 1];
      OriginalAppend(x, y[..|y| - 1], base);
    }
  }

  lemma {:induction false} OriginalKeeps(c: Clause, base: nat)
    requires VarsBelow(c, base)
    ensures Original(c, base) == c
  {
    if c != [] {
      OriginalKeeps(c[..|c| - 1], base);
    }
  }

  /** Each piece with its auxiliary literals removed. */
  function Strip(pieces: seq<Clause>, base: nat): seq<Clause>
  {
    seq(|pieces|, i requires 0 <= i < |pieces| => Original(pieces[i], base))
  }

  lemma OriginalPiece(segs: seq<Clause>, base: nat, i: nat)
    requires i < |segs| && VarsBelow(segs[i], base)
    ensures Original(Chain(segs, base)[i], base) == segs[i]
  {
    var p := Chain(segs, base)[i];
    OriginalAppend(Head(base, i), segs[i], base);
    OriginalKeeps(segs[i], base);
    if i > 0 {
      assert Head(base, i)[..0] == [];
      assert Original(Head(base, i), base) == [];
    }
    if i < |segs| - 1 {
      assert p == Head(base, i) + segs[i] + [Lit(base + i, true)];
      OriginalAppend(Head(base, i) + segs[i], [Lit(base + i, true)], base);
      assert [Lit(base + i, true)][..0] == [];
      assert Original([Lit(base + i, true)], base) == [];
    } else {
      assert p == Head(base, i) + segs[i];
    }
  }

  lemma FlattenOriginal(segs: seq<Clause>, base: nat)
    requires |segs| > 0 && VarsBelow(Flatten(segs), base)
    ensures Strip(Chain(segs, base), base) == segs
  {
    VarsBelowFlatten(segs, base);
    forall i | 0 <= i < |segs|
      ensures Strip(Chain(segs, base), base)[i] == segs[i]
    {
      OriginalPiece(segs, base, i);
    }
  }

  lemma {:induction false} VarsBelowFlatten(segs: seq<Clause>, n: nat)
    requires VarsBelow(Flatten(segs), n)
    ensures forall i :: 0 <= i < |segs| ==> VarsBelow(segs[i], n)
  {
    if segs != [] {
      var init := segs[..|segs| - 1];
      assert Flatten(segs) == Flatten(init) + segs[|segs| - 1];
      assert VarsBelow(Flatten(init), n) by {
        assert forall i :: 0 <= i < |Flatten(init)| ==> Flatten(init)[i] == Flatten(segs)[i];
      }
      VarsBelowFlatten(init, n);
      forall i | 0 <= i < |segs|
        ensures VarsBelow(segs[i], n)
      {
        if i == |segs| - 1 {
          forall j | 0 <= j < |segs[i]|
            ensures segs[i][j].variable < n
          {
            assert segs[i][j] == Flatten(segs)[|Flatten(init)| + j];
          }
        } else {
          assert segs[i] == init[i];
        }
      }
    }
  }

  /** Deleting the auxiliary literals from the pieces and concatenating them gives back the clause. */
  lemma ChunkKeepsLiterals(clause: Clause, cutNum: nat, maxVar: nat)
    requires VarsBelow(clause, maxVar)
    ensures Flatten(Strip(Chunk(clause, cutNum, maxVar).pieces, maxVar)) == clause
  {
    ChunkIsChain(clause, cutNum, maxVar);
    FlattenOriginal(Segments(clause, cutNum), maxVar);
  }

  /** Every literal of every piece has a variable below the returned `maxVar`, which never decreases. */
  lemma ChunkVarsBelow(clause: Clause, cutNum: nat, maxVar: nat)
    requires VarsBelow(clause, maxVar)
    ensures var c := Chunk(clause, cutNum, maxVar);
      c.maxVar >= maxVar && forall i :: 0 <= i < |c.pieces| ==> VarsBelow(c.pieces[i], c.maxVar)
  {
    ChunkIsChain(clause, cutNum, maxVar);
    var segs := Segments(clause, cutNum);
    VarsBelowFlatten(segs, maxVar);
  }

  /** Piece `i` of the chain over `segs`, as `Chain` lays it out. */
  function Piece(segs: seq<Clause>, base: nat, i: nat): Clause
    requires i < |segs|
  {
    if i < |segs| - 1 then Head(base, i) + segs[i] + [Lit(base + i, true)] else Head(base, i) + segs[i]
  }

  lemma ChainPieces(segs: seq<Clause>, base: nat)
    requires |segs| > 0
    ensures |Chain(segs, base)| == |segs|
    ensures forall i :: 0 <= i < |segs| ==> Chain(segs, base)[i] == Piece(segs, base, i)
  {
  }

  predicate PiecesHold(a: Assignment, segs: seq<Clause>, base: nat)
  {
    forall i :: 0 <= i < |segs| ==> Satisfies(a, Piece(segs, base, i))
  }

  /** The last piece holds and its head is false unless an earlier segment holds. */
  lemma LastPieceSound(a: Assignment, base: nat, k: nat, earlier: Clause, seg: Clause)
    requires Satisfies(a, Head(base, k) + seg)
    requires k > 0 && !Satisfies(a, earlier) ==> !Holds(a, Lit(base + k - 1, false))
    ensures Satisfies(a, earlier + seg)
  {
    SatisfiesAppend(a, Head(base, k), seg);
    SatisfiesAppend(a, earlier, seg);
    if k > 0 && Satisfies(a, Head(base, k)) {
      assert Holds(a, Head(base, k)[0]);
    }
  }

  /** If every piece holds, so does the clause (the auxiliary variables need not be fresh for this). */
  lemma ChainSound(segs: seq<Clause>, base: nat, a: Assignment)
    requires |segs| > 0 && SatisfiesAll(a, Chain(segs, base))
    ensures Satisfies(a, Flatten(segs))
  {
    ChainPieces(segs, base);
    assert PiecesHold(a, segs, base);
    PiecesSound(segs, base, a);
  }

  lemma PiecesSound(segs: seq<Clause>, base: nat, a: Assignment)
    requires |segs| > 0 && PiecesHold(a, segs, base)
    ensures Satisfies(a, Flatten(segs))
  {
    var k := |segs| - 1;
    var init := segs[..k];
    assert Satisfies(a, Piece(segs, base, k));
    if k > 0 && !Satisfies(a, Flatten(init)) {
      assert segs[..k - 1 + 1] == init;
      var j: nat := k - 1;
      AuxFalse(segs, base, a, j);
      assert Lit(base + j, false) == Lit(base + k - 1, false);
    }
    LastPieceSound(a, base, k, Flatten(init), segs[k]);
    assert Flatten(segs) == Flatten(init) + segs[k];
  }

  /** While no original literal has held yet, the pieces force every auxiliary variable false. */
  lemma {:induction false} AuxFalse(segs: seq<Clause>, base: nat, a: Assignment, i: nat)
    requires i < |segs| - 1 && PiecesHold(a, segs, base)
    requires !Satisfies(a, Flatten(segs[..i + 1]))
    ensures !Holds(a, Lit(base + i, false))
  {
    var segsI := segs[..i + 1];
    assert segsI[..i] == segs[..i];
    assert Flatten(segsI) == Flatten(segs[..i]) + segs[i];
    SatisfiesAppend(a, Flatten(segs[..i]), segs[i]);
    assert Satisfies(a, Piece(segs, base, i));
    SatisfiesAppend(a, Head(base, i) + segs[i], [Lit(base + i, true)]);
    SatisfiesAppend(a, Head(base, i), segs[i]);
    if i > 0 {
      AuxFalse(segs, base, a, i - 1);
      assert !Holds(a, Head(base, i)[0]);
    }
  }

  /**
   * If the clause holds and its variables lie below `base`, setting the
   * auxiliary variables (false before the piece holding a true literal, true
   * from it on) satisfies every piece.
   */
  lemma ChainComplete(segs: seq<Clause>, base: nat, a: Assignment) returns (b: Assignment)
    requires |segs| > 0 && VarsBelow(Flatten(segs), base) && Satisfies(a, Flatten(segs))
    ensures Agree(a, b, base) && SatisfiesAll(b, Chain(segs, base))
  {
    var c := FlattenSatisfied(a, segs);
    VarsBelowFlatten(segs, base);
    b := (v: nat) => if v < base then a(v) else v - base >= c;
    var k := |segs| - 1;
    forall i | 0 <= i < |segs|
      ensures Satisfies(b, Chain(segs, base)[i])
    {
      var piece := Chain(segs, base)[i];
      if i < c {
        assert piece == Head(base, i) + segs[i] + [Lit(base + i, true)];
        assert Holds(b, piece[|piece| - 1]);
      } else if i == c {
        AgreeSatisfies(a, b, segs[i], base);
        if i < k {
          assert piece == Head(base, i) + (segs[i] + [Lit(base + i, true)]);
          SatisfiesAppend(b, segs[i], [Lit(base + i, true)]);
          SatisfiesAppend(b, Head(base, i), segs[i] + [Lit(base + i, true)]);
        } else {
          assert piece == Head(base, i) + segs[i];
          SatisfiesAppend(b, Head(base, i), segs[i]);
        }
      } else {
        assert piece[0] == Lit(base + i - 1, false);
        assert Holds(b, piece[0]);
      }
    }
  }

  /**
   * The pieces are equisatisfiable with the clause: an assignment satisfying all
   * pieces satisfies the clause, and one satisfying the clause can be changed on
   * the fresh auxiliary variables alone to satisfy all pieces.
   */
  lemma ChunkEquisatisfiable(clause: Clause, cutNum: nat, maxVar: nat, a: Assignment)
    ensures SatisfiesAll(a, Chunk(clause, cutNum, maxVar).pieces) ==> Satisfies(a, clause)
    ensures VarsBelow(clause, maxVar) && Satisfies(a, clause) ==>
      exists b :: Agree(a, b, maxVar) && SatisfiesAll(b, Chunk(clause, cutNum, maxVar).pieces)
  {
    ChunkIsChain(clause, cutNum, maxVar);
    var segs := Segments(clause, cutNum);
    if SatisfiesAll(a, Chunk(clause, cutNum, maxVar).pieces) {
      ChainSound(segs, maxVar, a);
    }
    if VarsBelow(clause, maxVar) && Satisfies(a, clause) {
      var b := ChainComplete(segs, maxVar, a);
    }
  }

  /** The number of positive literals in a piece's head. */
  function HeadPositives(i: nat): nat
  {
    if i == 0 then 0 else 1
  }

  /** For `cutNum >= 2`, `count` is the number of positives collected and never exceeds `cutNum`. */
  lemma {:induction false} ScanCountsPositives(lits: Clause, cutNum: nat)
    requires cutNum >= 2
    ensures var s := Scan(lits, cutNum);
      && s.count == HeadPositives(|s.closed|) + Positives(s.open)
      && s.count <= cutNum
      && forall i :: 0 <= i < |s.closed| ==> HeadPositives(i) + Positives(s.closed[i]) <= cutNum
  {
    if lits != [] {
      var init := lits[..|lits| - 1];
      var l := lits[|lits| - 1];
      ScanCountsPositives(init, cutNum);
      var s := Scan(init, cutNum);
      PositivesAppend(s.open, [l]);
      assert Positives([l]) == (if IsPositive(l) then 1 else 0) by {
        assert [l][..0] == [];
      }
    }
  }

  lemma PositivesHead(base: nat, i: nat)
    ensures Positives(Head(base, i)) == HeadPositives(i)
  {
    if i > 0 {
      assert Head(base, i)[..0] == [];
    }
  }

  /** For `cutNum >= 2` no piece has more than `cutNum` positive literals. */
  lemma ChunkPositiveBound(clause: Clause, cutNum: nat, maxVar: nat)
    requires cutNum >= 2
    ensures var p := Chunk(clause, cutNum, maxVar).pieces;
      forall i :: 0 <= i < |p| ==> Positives(p[i]) <= cutNum
  {
    var p := Chunk(clause, cutNum, maxVar).pieces;
    if Small(clause, cutNum) {
      PositivesAtMostSize(clause);
    } else {
      var s := Scan(clause, cutNum);
      ScanCountsPositives(clause, cutNum);
      PositivesHead(maxVar, |s.closed|);
      PositivesAppend(Head(maxVar, |s.closed|), s.open);
      forall i | 0 <= i < |p|
        ensures Positives(p[i]) <= cutNum
      {
        if i < |s.closed| {
          var neg := [Lit(maxVar + i, true)];
          assert Positives(neg) == 0 by {
            assert neg[..0] == [];
          }
          PositivesHead(maxVar, i);
          PositivesAppend(Head(maxVar, i), s.closed[i]);
          PositivesAppend(Head(maxVar, i) + s.closed[i], neg);
        }
      }
    }
  }

  /**
   * With `cutNum = 1` the bound fails: `[x0, x1, ~x2]` becomes `[x0, ~x3]`,
   * `[x3, x1, ~x4]`, `[x4, ~x2]`. A piece opened by a cut starts with the
   * auxiliary literal and the literal that caused the cut; when that literal
   * is positive, as `x1` is here, the piece opens with two positives, more
   * than `cutNum` allows. (Reseeding the counter with 2 after a negative
   * literal, as before `~x2`, only overcounts and causes extra cuts.)
   */
  lemma CutOneExceedsBound()
    ensures var clause := [Lit(0, false), Lit(1, false), Lit(2, true)];
      var c := Chunk(clause, 1, 3);
      && c.pieces == [[Lit(0, false), Lit(3, true)], [Lit(3, false), Lit(1, false), Lit(4, true)], [Lit(4, false), Lit(2, true)]]
      && Positives(c.pieces[1]) == 2
  {
    var clause := [Lit(0, false), Lit(1, false), Lit(2, true)];
    var s := CutOneScan();
    TwoPositives(Lit(0, false), Lit(1, false), Lit(2, true));
    assert !Small(clause, 1);
    var closed := Closed(s.closed, 3);
    assert closed[0] == [Lit(0, false), Lit(3, true)];
    assert closed[1] == [Lit(3, false), Lit(1, false), Lit(4, true)];
    assert Head(3, 2) + s.open == [Lit(4, false), Lit(2, true)];
    TwoPositives(Lit(3, false), Lit(1, false), Lit(4, true));
  }

  lemma CutOneScan() returns (s: Split)
    ensures s == Split([[Lit(0, false)], [Lit(1, false)]], [Lit(2, true)], 2)
    ensures Scan([Lit(0, false), Lit(1, false), Lit(2, true)], 1) == s
  {
    var clause := [Lit(0, false), Lit(1, false), Lit(2, true)];
    assert Scan(clause[..0], 1) == Split([], [], 0);
    ScanPrefix(clause, 0, 1);
    assert Scan(clause[..1], 1) == Split([], [Lit(0, false)], 1);
    ScanPrefix(clause, 1, 1);
    assert Scan(clause[..2], 1) == Split([[Lit(0, false)]], [Lit(1, false)], 2);
    ScanPrefix(clause, 2, 1);
    assert clause[..3] == clause;
    s := Scan(clause, 1);
  }

  lemma TwoPositives(x: Lit, y: Lit, z: Lit)
    requires IsPositive(x) && IsPositive(y) && !IsPositive(z)
    ensures Positives([x, y, z]) == 2
  {
    assert [x][..0] == [];
    assert Positives([x]) == 1;
    assert [x, y][..1] == [x];
    assert Positives([x, y]) == 2;
    assert [x, y, z][..2] == [x, y];
  }

  /** The clause list after chunking, the extra clauses recorded, and the final `maxVar`. */
  datatype Translation = Translation(chunked: seq<Clause>, extra: seq<Clause>, maxVar: nat)

  /** The loop over all clauses of `read_cnf`: only cut clauses' pieces become extra clauses. */
  function ChunkAll(clauses: seq<Clause>, cutNum: nat, maxVar: nat): Translation
  {
    if clauses == [] then Translation([], [], maxVar)
    else
      var t := ChunkAll(clauses[..|clauses| - 1], cutNum, maxVar);
      var c := Chunk(clauses[|clauses| - 1], cutNum, t.maxVar);
      Translation(t.chunked + c.pieces, if c.split then t.extra + c.pieces else t.extra, c.maxVar)
  }

  /** When no clause needs cutting, chunking changes nothing and records no extra clause. */
  lemma {:induction false} ChunkAllSmall(clauses: seq<Clause>, cutNum: nat, maxVar: nat)
    requires forall i :: 0 <= i < |clauses| ==> Small(clauses[i], cutNum)
    ensures ChunkAll(clauses, cutNum, maxVar) == Translation(clauses, [], maxVar)
  {
    if clauses != [] {
      ChunkAllSmall(clauses[..|clauses| - 1], cutNum, maxVar);
    }
  }

  /**
   * `maxVar` never decreases, and every literal of every chunked clause has a
   * variable below the final `maxVar`, the ring size.
   */
  lemma {:induction false} ChunkAllVarsBelow(clauses: seq<Clause>, cutNum: nat, maxVar: nat)
    requires AllVarsBelow(clauses, maxVar)
    ensures var t := ChunkAll(clauses, cutNum, maxVar);
      t.maxVar >= maxVar && AllVarsBelow(t.chunked, t.maxVar)
  {
    if clauses != [] {
      var init := clauses[..|clauses| - 1];
      var last := clauses[|clauses| - 1];
      ChunkAllVarsBelow(init, cutNum, maxVar);
      var t := ChunkAll(init, cutNum, maxVar);
      ChunkVarsBelow(last, cutNum, t.maxVar);
      var c := Chunk(last, cutNum, t.maxVar);
      forall i | 0 <= i < |t.chunked + c.pieces|
        ensures VarsBelow((t.chunked + c.pieces)[i], c.maxVar)
      {
        if i < |t.chunked| {
          assert VarsBelow(t.chunked[i], t.maxVar);
        } else {
          assert (t.chunked + c.pieces)[i] == c.pieces[i - |t.chunked|];
        }
      }
    }
  }

  /** An assignment satisfying every chunked clause satisfies every original clause. */
  lemma {:induction false} ChunkAllSound(clauses: seq<Clause>, cutNum: nat, maxVar: nat, a: Assignment)
    requires SatisfiesAll(a, ChunkAll(clauses, cutNum, maxVar).chunked)
    ensures SatisfiesAll(a, clauses)
  {
    if clauses != [] {
      var init := clauses[..|clauses| - 1];
      var t := ChunkAll(init, cutNum, maxVar);
      var c := Chunk(clauses[|clauses| - 1], cutNum, t.maxVar);
      assert forall i :: 0 <= i < |t.chunked| ==> (t.chunked + c.pieces)[i] == t.chunked[i];
      assert forall i :: 0 <= i < |c.pieces| ==> (t.chunked + c.pieces)[|t.chunked| + i] == c.pieces[i];
      ChunkAllSound(init, cutNum, maxVar, a);
      ChunkEquisatisfiable(clauses[|clauses| - 1], cutNum, t.maxVar, a);
      assert forall i :: 0 <= i < |init| ==> clauses[i] == init[i];
    }
  }

  /** An assignment satisfying every original clause extends, on the auxiliary variables, to one satisfying every chunked clause. */
  lemma {:induction false} ChunkAllComplete(clauses: seq<Clause>, cutNum: nat, maxVar: nat, a: Assignment) returns (b: Assignment)
    requires AllVarsBelow(clauses, maxVar) && SatisfiesAll(a, clauses)
    ensures Agree(a, b, maxVar) && SatisfiesAll(b, ChunkAll(clauses, cutNum, maxVar).chunked)
  {
    if clauses == [] {
      b := a;
    } else {
      var init := clauses[..|clauses| - 1];
      var last := clauses[|clauses| - 1];
      assert forall i :: 0 <= i < |init| ==> init[i] == clauses[i];
      var b1 := ChunkAllComplete(init, cutNum, maxVar, a);
      var t := ChunkAll(init, cutNum, maxVar);
      ChunkAllVarsBelow(init, cutNum, maxVar);
      AgreeSatisfies(a, b1, last, maxVar);
      assert VarsBelow(last, t.maxVar);
      ChunkIsChain(last, cutNum, t.maxVar);
      var b2 := ChainComplete(Segments(last, cutNum), t.maxVar, b1);
      var c := Chunk(last, cutNum, t.maxVar);
      forall i | 0 <= i < |t.chunked + c.pieces|
        ensures Satisfies(b2, (t.chunked + c.pieces)[i])
      {
        if i < |t.chunked| {
          AgreeSatisfies(b1, b2, t.chunked[i], t.maxVar);
        } else {
          assert (t.chunked + c.pieces)[i] == c.pieces[i - |t.chunked|];
        }
      }
      b := b2;
    }
  }

  /** A satisfiable clause list stays satisfiable after chunking. */
  lemma ChunkAllSatisfiable(clauses: seq<Clause>, cutNum: nat, maxVar: nat, a: Assignment)
    requires AllVarsBelow(clauses, maxVar) && SatisfiesAll(a, clauses)
    ensures exists b: Assignment :: SatisfiesAll(b, ChunkAll(clauses, cutNum, maxVar).chunked)
  {
    var b := ChunkAllComplete(clauses, cutNum, maxVar, a);
  }

  /** A satisfiable chunked list means a satisfiable clause list. */
  lemma ChunkedSatisfiable(clauses: seq<Clause>, cutNum: nat, maxVar: nat, b: Assignment)
    requires SatisfiesAll(b, ChunkAll(clauses, cutNum, maxVar).chunked)
    ensures exists a: Assignment :: SatisfiesAll(a, clauses)
  {
    ChunkAllSound(clauses, cutNum, maxVar, b);
  }

  /** The chunked clause list is equisatisfiable with the parsed one. */
  lemma ChunkAllEquisatisfiable(clauses: seq<Clause>, cutNum: nat, maxVar: nat)
    requires AllVarsBelow(clauses, maxVar)
    ensures (exists a: Assignment :: SatisfiesAll(a, clauses)) <==>
      (exists b: Assignment :: SatisfiesAll(b, ChunkAll(clauses, cutNum, maxVar).chunked))
  {
    if exists a: Assignment :: SatisfiesAll(a, clauses) {
      var a: Assignment :| SatisfiesAll(a, clauses);
      ChunkAllSatisfiable(clauses, cutNum, maxVar, a);
    }
    if exists b: Assignment :: SatisfiesAll(b, ChunkAll(clauses, cutNum, maxVar).chunked) {
      var b: Assignment :| SatisfiesAll(b, ChunkAll(clauses, cutNum, maxVar).chunked);
      ChunkedSatisfiable(clauses, cutNum, maxVar, b);
    }
  }
}
