# Bosphorus CNF front end and simplification scheduler, in Dafny

This project models the core of Bosphorus, a tool that turns a CNF problem into an
ANF equation system over GF(2) and then simplifies that system. It covers:

- the DIMACS reader `DIMACSCache` and its two `addClause` overloads (`dimacs.dfy`);
- `Library::read_cnf`, made of three parts:
  - the clause-chunking loop, which cuts a clause with more than `cutNum` positive
    literals into pieces linked by fresh auxiliary variables (`chunking.dfy`);
  - the polynomial fold, which encodes each clause as one equation (`encoding.dfy`);
  - the driver that ties them together (`library.dfy`);
- `Library::check_library_in_use` (`library.dfy`);
- the strategy scheduler of `Library::simplify`, with its back-off table (`scheduler.dfy`);
- `Library::deduplicate` (`dedup.dfy`);
- the `XClause` value type and its text form, `operator<<` (`xclause.dfy`).

`clauses.dfy` holds literals, clauses and their meaning under an assignment.
`wrappers.dfy` holds `Option` and `Result`.

## How the model is built

- **Literals and assignments.** A literal is a zero-based variable with a sign bit.
  An assignment maps every variable to a truth value.
- **Polynomials.** A polynomial is an expression tree evaluated over GF(2): addition
  is exclusive or, multiplication is and. The ring's normal form is not modelled.
  The ANF is the list of polynomials `read_cnf` adds to it, in order.
- **Reference definitions.** Each loop is a method proved against a reference
  function: `Parse`, `Chunk`/`ChunkAll`, `Encode`/`EncodeAll`, `Dedup`, `Step`/`Run`
  and `Render`. The properties are then proved as lemmas about those functions.
- **DIMACS file.** The file is a list of lines. A line is blank, starts with a marker
  character, or is a list of integer tokens. `None` stands for a file that cannot be
  opened.
- **Scheduler environment.** Everything outside the scheduler is supplied turn by
  turn by an `Oracle`:
  - what the invoked strategy reports (XL, ElimLin or SAT);
  - whether the propagation after a productive turn leaves the ANF consistent;
  - whether the clock is past the limit.

  The turn list is finite, and the clock counts as past the limit after the last
  turn. This models the finite time budget. The three strategy arrays are real Dafny
  arrays, updated in place.
- **Library object.** `Library` is a class. Its fields are `read_in_data`,
  `extra_clauses` and the ring, modelled as `None` for the null pointer or the
  ring's size.

## Behaviour worth noting

The model follows the code in each case.

- **Extra clauses.** A reader might expect every clause of the chunked problem to
  be recorded in `extra_clauses`. The code records only the pieces of clauses it
  cuts: clauses that are short or have few positive literals go to the chunked list
  alone (`src/library.cpp:79-92`), while pieces are pushed to both lists
  (`src/library.cpp:112-113`, `124-125`). See `ChunkAll` and `Library.Library.ReadCnf`.
- **Positive-literal bound.** The comment at `src/library.cpp:120` justifies
  reseeding `count` with 2 on the grounds that both the auxiliary literal and the
  moved literal are positive. A piece opened by a cut therefore starts with two
  positive literals whenever the moved literal is positive, so the bound of `cutNum` positives per piece holds only for
  `cutNum >= 2` (`Chunking.ChunkPositiveBound`). With `cutNum = 1` and `maxVar` 3,
  the clause `x0, x1, ~x2` gives the middle piece `x3, x1, ~x4`, opened by the cut at
  the positive `x1`, with two positive literals (`Chunking.CutOneExceedsBound`).
  When the moved literal is negative, the reseed only overcounts and causes extra cuts.
- **Back-off growth.** A reader might expect each unproductive restart to skip more
  turns than the last. The `series` table at `src/library.cpp:367-368` is
  `0, 1, 1, 2, ...` and is capped at its last entry, 89, so the number of skipped
  turns is non-decreasing and bounded (`Scheduler.WaitBounds`). A stalled strategy is
  skipped on exactly `Wait(w)` of its turns between runs (`Scheduler.BackoffCycle`).
- **Reset after a productive turn.** The reset at `src/library.cpp:361-362` sets
  `waits` to 0 and leaves the countdown alone. The countdown is already 0, because
  only a strategy that is not waiting can be productive (`Scheduler.ProductiveTurn`).
- **Propagation failure.** The code only logs a failed propagation after a
  productive turn (`src/library.cpp:353-357`), so a reader might expect the loop to go
  on. The propagation leaves the ANF inconsistent, though, and the loop guard tests
  `anf->getOK()` (`src/library.cpp:274`), so the loop ends. The model ANDs the
  propagation outcome into `ok`. The ANF's flag on entry is ANDed with the initial
  propagation's outcome in the same way.
- **`getClause` assertion.** The assertion in `XClause::getClause` has an unbalanced
  parenthesis and names `empty` without calling it (`src/xclause.hpp:66`). The model
  takes the evident intent: a non-empty clause is required.

## Model

| member | source | states |
|---|---|---|
| Dimacs.DimacsCache.constructor | src/dimacscache.cpp:62-63 | a fresh reader holds no clauses and `maxVar` 0 |
| Dimacs.DimacsCache.AddLits | src/dimacscache.cpp:36-46 | appends exactly one clause, equal to the first `size` literals of the buffer, and sets `maxVar` to the maximum of its old value and `var + 1` over those literals; earlier clauses are untouched |
| Dimacs.DimacsCache.AddClause | src/dimacscache.cpp:48-54 | appends exactly the given clause and sets `maxVar` to the maximum of its old value and `var + 1` over its literals |
| Dimacs.DimacsCache.Open | src/dimacscache.cpp:56-98 | the line loop and token loop fail exactly when the reference reading `Parse` fails, with the same error (file cannot be opened, `x` line, non-numeric line); otherwise they produce `Parse`'s clauses and `maxVar` |
| Dimacs.FailureIsFinal | src/dimacscache.cpp:69-81 | once a line is rejected, the lines after it do not change the outcome |
| Dimacs.SkippedLinesIgnored | src/dimacscache.cpp:76-77 | removing the blank, `p` and `c` lines changes neither the clauses nor `maxVar` |
| Dimacs.XorLineRejected | src/dimacscache.cpp:78-81 | a file with an `x` line anywhere is rejected |
| Dimacs.TokenRoundTrip | src/dimacscache.cpp:92 | a non-zero token `v` and the literal `Lit(abs(v) - 1, v < 0)` determine each other |
| Dimacs.TokensAfterTerminatorIgnored | src/dimacscache.cpp:88-90 | on a line with a `0`, the tokens after the first `0` are never read, and the line adds exactly one clause |
| Dimacs.ClausePerTerminatedLine | src/dimacscache.cpp:84-90 | the number of clauses read equals the number of clause lines containing a `0`; a line without one adds no clause |
| Dimacs.ParsedVarsBelowMaxVar | src/dimacscache.cpp:84-94 | every literal of every parsed clause has a variable below the parsed `maxVar` |
| Dimacs.MaxVarIsLargestToken | src/dimacscache.cpp:62-94 | the parsed `maxVar` is the largest magnitude among the tokens read before each line's first `0`, including tokens of lines without a `0` |
| Dimacs.SmallFile | src/dimacscache.cpp:75-95 | the file `p cnf 3 2 / 1 -2 0 / 2 3 0` gives the clauses `[x0, ~x1]` and `[x1, x2]` with `maxVar` 3 |
| Chunking.CountPositives | src/library.cpp:85-88 | the loop counts the positive literals of the clause |
| Chunking.ChunkClause | src/library.cpp:79-128 | the body of the clause loop computes `Chunk`: a clause that is short enough or has few enough positive literals is kept whole and not marked as split; otherwise it is cut as `Cut` describes |
| Chunking.CutClause | src/library.cpp:98-128 | the split loop emits the pieces `Cut` describes and advances `maxVar` by the number of cuts |
| Chunking.ChunkIsChain | src/library.cpp:98-128 | the pieces are the clause's segments, in order, linked by the auxiliary variables `maxVar, maxVar + 1, ...`; concatenating the segments gives the clause back; `maxVar` grows by one per cut |
| Chunking.ChunkLinks | src/library.cpp:104-119 | the i-th cut allocates `maxVar + i`; every piece but the last ends with its negation, and every piece but the first starts with the previous auxiliary variable, positive |
| Chunking.ChunkKeepsLiterals | src/library.cpp:100-125 | deleting the auxiliary literals from the pieces and concatenating them gives the original clause, in order |
| Chunking.ChunkVarsBelow | src/library.cpp:104-106 | `maxVar` never decreases, and every literal of every piece has a variable below the new `maxVar` |
| Chunking.ChunkEquisatisfiable | src/library.cpp:98-128 | every assignment satisfying all pieces satisfies the clause; every assignment satisfying the clause can be changed on the auxiliary variables alone so that it satisfies all pieces |
| Chunking.ScanCountsPositives | src/library.cpp:98-121 | when `cutNum >= 2`, `count` equals the number of positive literals in `collect`, the linking literal included, after every iteration and never exceeds `cutNum` after an iteration |
| Chunking.ChunkPositiveBound | src/library.cpp:98-128 | when `cutNum >= 2`, every piece has at most `cutNum` positive literals |
| Chunking.CutOneExceedsBound | src/library.cpp:116-120 | with `cutNum = 1` and `maxVar` 3, the clause `x0, x1, ~x2` gives the pieces `[x0, ~x3]`, `[x3, x1, ~x4]` and `[x4, ~x2]`; the middle one has two positive literals |
| Chunking.ChunkAllSmall | src/library.cpp:77-92 | when no clause needs cutting, the chunked list is the parsed list, no extra clause is recorded and `maxVar` is unchanged |
| Chunking.ChunkAllVarsBelow | src/library.cpp:104-106 | over the whole clause loop, `maxVar` never decreases and every literal of every chunked clause has a variable below the final `maxVar`, the ring size |
| Chunking.ChunkAllSound | src/library.cpp:77-131 | an assignment satisfying every chunked clause satisfies every parsed clause |
| Chunking.ChunkAllComplete | src/library.cpp:77-131 | an assignment satisfying every parsed clause can be changed on the auxiliary variables alone so that it satisfies every chunked clause |
| Chunking.ChunkAllEquisatisfiable | src/library.cpp:77-131 | the chunked clause list has a model exactly when the parsed one has |
| Encoding.EncodeClause | src/library.cpp:141-148 | the fold computes `Encode` of the clause; the empty clause gives the constant 1 |
| Encoding.EncodeFalsified | src/library.cpp:141-148 | the polynomial of a clause is 1 exactly under the assignments that falsify the clause, so its equation `p = 0` holds exactly when the clause is satisfied |
| Encoding.EncodeVarsBelow | src/library.cpp:138-148 | the polynomial mentions only the clause's variables, so it fits in the ring |
| Encoding.EncodeAll | src/library.cpp:140-153 | one polynomial per chunked clause, in order |
| Encoding.EncodeAllSolutions | src/library.cpp:140-153 | an assignment solves the equation system exactly when it satisfies every chunked clause |
| Library.EncodeClauses | src/library.cpp:140-153 | the loop over the chunked clauses builds `EncodeAll` of them |
| Library.EncodingEquisatisfiable | src/library.cpp:140-153 | the equation system has a solution exactly when the chunked clause list has a model |
| Library.CnfToAnfCorrect | src/library.cpp:67-156 | for a parsed file, the ring size is at least the parsed `maxVar`, every equation's variables lie below the ring size, and the equations have a solution exactly when the parsed clauses have a model |
| Library.Library.constructor | src/library.cpp:36-50 | a new library has read nothing, has no extra clauses and no ring |
| Library.Library.CheckLibraryInUse | src/library.cpp:36-50 | fails exactly when a problem was already read in; otherwise it marks the library as used, and there are no extra clauses and no ring; neither is changed |
| Library.Library.ChunkClauses | src/library.cpp:75-131 | the clause loop computes `ChunkAll`: the chunked list, the pieces of cut clauses appended to `extra_clauses`, and the final `maxVar` |
| Library.Library.ReadCnf | src/library.cpp:67-156 | a second read fails; a rejected file gives the reader's error; otherwise the equations are `EncodeAll` of the chunked clauses, the ring's size is the final `maxVar`, and `extra_clauses` holds exactly the pieces of cut clauses |
| Deduplication.Deduplicate | src/library.cpp:402-414 | the hash-set loop computes `Dedup`, which keeps a fact exactly when no earlier fact has its hash |
| Deduplication.DedupLength | src/library.cpp:402-414 | the output is never longer than the input |
| Deduplication.DedupHashes | src/library.cpp:402-414 | the output has exactly the input's hash values |
| Deduplication.DedupDistinct | src/library.cpp:402-414 | no two output facts share a hash value |
| Deduplication.DedupDistinctUnchanged | src/library.cpp:402-414 | a list with distinct hash values is left as it is |
| Deduplication.DedupIdempotent | src/library.cpp:402-414 | deduplicating twice gives the same result as deduplicating once |
| Deduplication.DedupKeepsFirst | src/library.cpp:402-414 | the output is the subsequence of the input made of the first fact of each hash value, in input order |
| Scheduler.InvokeStrategy | src/library.cpp:289-339 | the `switch` computes `Invoke`: a disabled strategy does nothing; a failing XL or ElimLin makes the ANF inconsistent and learns nothing; SAT sets the solution; only an enabled strategy can report facts |
| Scheduler.EndTurn | src/library.cpp:349-373 | records whether the turn was productive, then applies the back-off rule to the strategy's `waits` and `countdowns` entries; the other strategies' entries are unchanged |
| Scheduler.TakeTurn | src/library.cpp:283-381 | one loop iteration on the arrays and counters computes `Step` |
| Scheduler.Simplify | src/library.cpp:248-400 | returns the solution, the learnt facts, the ANF's ok flag and the counters of `Simplified`: nothing when time is already up, otherwise the loop from the initial state until the guard fails |
| Scheduler.Run | src/library.cpp:274-383 | the loop ends in a state where the guard is false |
| Scheduler.WaitBounds | src/library.cpp:366-370 | the countdown taken from the table never exceeds 89 and does not decrease as `waits` grows; from the third entry on, each entry is the sum of the two before it |
| Scheduler.StepKeepsInvariant | src/library.cpp:360-381 | an iteration keeps `turn == 3 * numIters + subIters`, `subIters < 3` and every countdown at most 89 |
| Scheduler.RunKeepsInvariant | src/library.cpp:274-383 | the loop keeps that invariant |
| Scheduler.SimplifiedEnds | src/library.cpp:248-400 | on return, time is up, or the ANF is inconsistent, or a solution is known, or no strategy changed anything in its last turn and at least `minIter` rounds have passed; the invariant holds |
| Scheduler.WaitingTurn | src/library.cpp:285-287 | a strategy whose countdown is positive is not run: its turn is unproductive, its countdown goes down by one, and the ANF flag, the solution and the learnt facts are unchanged (up to the deduplication at the end of a round) |
| Scheduler.ProductiveTurn | src/library.cpp:349-363 | a turn is productive exactly when the strategy is not waiting, is enabled, reports facts and, for XL and ElimLin, succeeds; then its `waits` entry is 0 and its countdown is 0 |
| Scheduler.RoundEndDeduplicates | src/library.cpp:375-381 | after the third strategy, `subIters` returns to 0, `numIters` goes up by one, and the learnt facts are deduplicated: no two share a hash, and no hash value is lost |
| Scheduler.IdleCountsDown | src/library.cpp:364-365 | unproductive turns with a positive countdown count it down one by one |
| Scheduler.BackoffCycle | src/library.cpp:361-372 | a strategy that keeps learning nothing after `w` restarts is skipped on exactly its next `Wait(w)` turns and runs again on the one after, with `waits` one higher |
| Scheduler.DisabledRun | src/library.cpp:274-381 | with every strategy disabled, from any state of such a run, the loop stops after `max(minIter, 1)` rounds of three turns |
| Scheduler.AllDisabledStops | src/library.cpp:248-400 | with every strategy disabled and time not running out, `simplify` on a consistent ANF stops after `max(minIter, 1)` rounds of three turns, so after exactly three turns when `minIter` is 0, with the ANF consistent and no solution; on an ANF inconsistent on entry it stops before the first turn |
| XorClauses.Accessors | src/xclause.hpp:40-68 | the constructor keeps its arguments; `size` is the number of variables; `empty` holds exactly when `size` is 0; `getClause` of a non-empty clause returns its variables |
| XorClauses.Write | src/xclause.hpp:76-96 | `operator<<` appends `Render` of the clause to the stream |
| XorClauses.WriteVars | src/xclause.hpp:90-92 | the loop writes each variable plus one (in 32-bit arithmetic), followed by a space, in stored order |
| XorClauses.RenderRoundTrip | src/xclause.hpp:76-96 | when no variable is `2^32 - 1`, the text of a clause reads back as the clause: an empty clause writes `0` or nothing according to `rhs`; a non-empty one writes `x`, `-` exactly when `rhs` is false, the numbers and `0` |
| XorClauses.RenderNoZeroToken | src/xclause.hpp:90-93 | when no variable is `2^32 - 1`, every number written for a variable is at least 1 and is not written as `0`, so the only `0` is the terminator |
| XorClauses.LargestVarPrintedAsZero | src/xclause.hpp:91 | as written, the variable `2^32 - 1` is printed as `0`: the clause over it alone is written `x0 0` and does not read back |
| XorClauses.RenderWideRoundTrip | src/xclause.hpp:90-93 | with `var + 1` computed without wrap-around, every clause reads back from its text |
| XorClauses.RenderWideAgrees | src/xclause.hpp:90-93 | the two renderings agree whenever no variable is `2^32 - 1` |

## Findings

| source | as written | input that shows it | evidently intended | confidence | as-written member | corrected member |
|---|---|---|---|---|---|---|
| src/xclause.hpp:91 | `it+1` is computed on `uint32_t` and wraps to 0 | `XClause({4294967295}, true)` is written `x0 0`, and `0` is the clause terminator | write `var + 1` without wrap-around, as `4294967296` | low: it only matters at the top of the 32-bit range; not executed | XorClauses.LargestVarPrintedAsZero | XorClauses.RenderWideRoundTrip |

## Left out

- `write_anf`, `write_cnf`, `anf_to_cnf`, `cnf_from_anf_and_cnf` and `read_anf`
  (`src/library.cpp:52-65`, `158-246`): file output and calls into the ANF and CNF
  classes, which are not part of this model.
- The `~Library` destructor: memory management only.
- The external engines are outside the model. This covers `extendedLinearization`,
  `elimLin`, `SimplifyBySat` and the construction and update of the `CNF` object in
  strategy case 2. It also covers `ANF::propagate`, `addBoolePolynomial`, `setNOTOK`
  and `contextualize`. The oracle supplies each one's outcome: the learnt facts,
  `num_learnt`, success, the solution and the propagation result.
- `cpuTime()` and `maxTime`: floating-point wall-clock readings. They are replaced
  by the oracle's clock readings.
- PolyBoRi's ring and polynomial representation, and `BoolePolynomial::hash`. A
  polynomial is an expression evaluated over GF(2). The hash is an arbitrary
  function, so collisions count as duplicates, as in the code. The ANF's own
  processing of added polynomials is not modelled.
- `cout` output and the verbosity levels. `exit(-1)` becomes an error result: a
  second read in `check_library_in_use`, a file that cannot be opened or an `x` line
  in the DIMACS reader.
- `stoi` and `istringstream`: a clause line is a clean list of integers. A line that
  starts with any other character becomes a `NotANumber` error, which stands for the
  exception `stoi` throws. Out-of-range tokens are not modelled. Neither is the
  following quirk of `src/dimacscache.cpp:85-89`. On a non-empty line with only
  whitespace, such as the `"\r"` of a CRLF blank line, `iss >> x` fails and leaves
  `x` holding the previous line's last token, usually `0`. The code then appends an
  empty clause, which makes the problem unsatisfiable. If no clause line came
  before, `stoi("")` throws instead. The model's `Numbers([])` line adds nothing in
  either case. The model also does not re-read the last token when a line ends in
  whitespace.
- The early return when the same file name pointer is passed again
  (`src/dimacscache.cpp:58-59`): every construction is a fresh read.
- Dimacs.DimacsCache.AddLits: does not model the 32-bit truncation of
  `std::max<uint32_t>` on `maxVar` (nor do `AddClause` and `Open`); variables and
  `maxVar` are unbounded naturals.
- Scheduler.Simplify: `numIters` (`uint32_t`) and `subIters` (`unsigned char`) are
  unbounded naturals. `subIters` never exceeds 2, and a wrap of `numIters` needs
  2^32 rounds.
- Chunking.ChunkClause: `maxVar` is a `size_t` in the source and an unbounded
  natural here, so running out of variable indices is not modelled.
