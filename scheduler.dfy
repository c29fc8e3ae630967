/**
 * The iterative simplification driver `Library::simplify`. Three strategies
 * (XL, ElimLin and SAT) take turns round-robin; a strategy that learns
 * nothing is backed off for a number of its own turns taken from a
 * Fibonacci-like table, and the loop runs while time remains, the ANF is
 * consistent, no solution is known and some strategy is still productive (or
 * fewer than `minIter` rounds have passed).
 *
 * The strategies, the propagation and the clock are outside the model: an
 * `Oracle` supplies, turn by turn, what the invoked strategy reports, what the
 * propagation after a productive turn returns and whether the time limit has
 * passed. The oracle's turn list is finite and the clock is past the limit
 * after its last turn, which models the finite time budget.
 */
module Scheduler {
  import opened Deduplication

  /** The `ret` of the source's `Solution`: undetermined, satisfiable or unsatisfiable. */
  datatype Solution = Undetermined | Satisfiable | Unsatisfiable

  /** The switches that enable each strategy, and the minimum number of rounds. */
  datatype Config = Config(doXL: bool, doEL: bool, doSAT: bool, minIter: nat)

  /**
   * What a strategy reports when it runs: the facts it appends to the learnt
   * list, how many of them the ANF took in (`num_learnt`), whether it succeeded
   * and, for SAT, the solution it found.
   */
  datatype Report<P> = Report(learnt: seq<P>, numLearnt: int, engineOk: bool, solution: Solution)

  /** The environment of one turn: the strategy's report, the propagation result, the clock at the end. */
  datatype Turn<P> = Turn(report: Report<P>, propagateOk: bool, timedOut: bool)

  /**
   * The environment of the whole run: the clock before learning, the result of
   * the initial propagation, the clock after it, and the turns.
   */
  datatype Oracle<P> = Oracle(timedOutAtStart: bool, initialOk: bool, timedOutAfterPropagate: bool, turns: seq<Turn<P>>)

  /** The back-off table. */
  const Series: seq<nat> := [0, 1, 1, 2, 3, 5, 8, 13, 21, 34, 55, 89]

  /** The countdown given to a strategy after `waits` unproductive restarts; the table's last entry repeats. */
  function Wait(waits: nat): nat
  {
    Series[if waits < |Series| - 1 then waits else |Series| - 1]
  }

  /** One strategy's scheduling state: its `changes` flag, `waits` and `countdowns` entries. */
  datatype Backoff = Backoff(changes: bool, waits: nat, countdown: nat)

  /** The scheduling update at the end of a turn. */
  function Reschedule(b: Backoff, productive: bool): Backoff
  {
    if productive then Backoff(true, 0, b.countdown)
    else if b.countdown > 0 then Backoff(false, b.waits, b.countdown - 1)
    else Backoff(false, b.waits + 1, Wait(b.waits))
  }

  /** The loop's variables: the three scheduling arrays, the counters, the ANF's ok flag, the solution, the learnt facts and the clock. */
  datatype State<P> = State(
    changes: seq<bool>, waits: seq<nat>, countdowns: seq<nat>,
    subIters: nat, numIters: nat, turn: nat,
    ok: bool, solution: Solution, learnt: seq<P>, timedOut: bool)

  predicate WellFormed<P>(st: State<P>, o: Oracle<P>)
  {
    && |st.changes| == 3 && |st.waits| == 3 && |st.countdowns| == 3
    && st.subIters < 3
    && (!st.timedOut ==> st.turn < |o.turns|)
  }

  /** The loop guard. */
  predicate Continues<P>(config: Config, st: State<P>)
    requires |st.changes| == 3
  {
    !st.timedOut && st.ok && st.solution == Undetermined &&
    (st.changes[0] || st.changes[1] || st.changes[2] || st.numIters < config.minIter)
  }

  predicate Enabled(config: Config, strategy: nat)
  {
    if strategy == 0 then config.doXL else if strategy == 1 then config.doEL else config.doSAT
  }

  /** What a turn does to the ANF's ok flag, `num_learnt`, the learnt facts and the solution. */
  datatype Effect<P> = Effect(ok: bool, numLearnt: int, learnt: seq<P>, solution: Solution)

  /**
   * A turn whose countdown is zero: a disabled strategy does nothing; XL and
   * ElimLin make the ANF inconsistent when they fail and report `num_learnt`
   * otherwise; SAT reports `num_learnt` and its solution.
   */
  function Invoke<P>(config: Config, strategy: nat, r: Report<P>, ok: bool, learnt: seq<P>, solution: Solution): Effect<P>
  {
    if !Enabled(config, strategy) then Effect(ok, 0, learnt, solution)
    else if strategy < 2 then
      if r.engineOk then Effect(ok, r.numLearnt, learnt + r.learnt, solution)
      else Effect(false, 0, learnt + r.learnt, solution)
    else Effect(ok && r.engineOk, r.numLearnt, learnt + r.learnt, r.solution)
  }

  /** The effect of the current turn: nothing when the strategy is still waiting. */
  function TurnEffect<P>(config: Config, o: Oracle<P>, st: State<P>): Effect<P>
    requires WellFormed(st, o) && !st.timedOut
  {
    if st.countdowns[st.subIters] > 0 then Effect(st.ok, 0, st.learnt, st.solution)
    else Invoke(config, st.subIters, o.turns[st.turn].report, st.ok, st.learnt, st.solution)
  }

  function StrategyOf<P>(st: State<P>, s: nat): Backoff
    requires |st.changes| == 3 && |st.waits| == 3 && |st.countdowns| == 3 && s < 3
  {
    Backoff(st.changes[s], st.waits[s], st.countdowns[s])
  }

  /** One iteration of the loop body. */
  function Step<P>(config: Config, o: Oracle<P>, hash: P -> int, st: State<P>): State<P>
    requires WellFormed(st, o) && !st.timedOut
  {
    var s := st.subIters;
    var t := o.turns[st.turn];
    var e := TurnEffect(config, o, st);
    var productive := e.numLearnt > 0;
    var b := Reschedule(StrategyOf(st, s), productive);
    var wrap := s == 2;
    State(
      st.changes[s := b.changes], st.waits[s := b.waits], st.countdowns[s := b.countdown],
      if wrap then 0 else s + 1, if wrap then st.numIters + 1 else st.numIters, st.turn + 1,
      if productive then e.ok && t.propagateOk else e.ok, e.solution,
      if wrap then Dedup(e.learnt, hash) else e.learnt,
      t.timedOut || st.turn + 1 == |o.turns|)
  }

  lemma StepWellFormed<P>(config: Config, o: Oracle<P>, hash: P -> int, st: State<P>)
    requires WellFormed(st, o) && !st.timedOut
    ensures WellFormed(Step(config, o, hash, st), o)
  {
  }

  /** The loop, from a given state until the guard fails. */
  function Run<P>(config: Config, o: Oracle<P>, hash: P -> int, st: State<P>): (r: State<P>)
    requires WellFormed(st, o)
    ensures WellFormed(r, o) && !Continues(config, r)
    decreases |o.turns| - st.turn
  {
    if Continues(config, st) then
      StepWellFormed(config, o, hash, st);
      Run(config, o, hash, Step(config, o, hash, st))
    else st
  }

  /**
   * The state on entering the loop: every strategy marked as changed and not
   * waiting; the ANF stays consistent only if it was on entry and the initial
   * propagation found no contradiction.
   */
  function Start<P>(o: Oracle<P>, learnt: seq<P>, anfOk: bool): State<P>
  {
    State([true, true, true], [0, 0, 0], [0, 0, 0], 0, 0, 0,
      anfOk && o.initialOk, Undetermined, learnt, o.timedOutAfterPropagate || |o.turns| == 0)
  }

  /** The whole of `simplify`: nothing happens when time is already up, otherwise propagate and loop. */
  function Simplified<P>(config: Config, o: Oracle<P>, hash: P -> int, learnt: seq<P>, anfOk: bool): State<P>
  {
    if o.timedOutAtStart then State([true, true, true], [0, 0, 0], [0, 0, 0], 0, 0, 0, anfOk, Undetermined, learnt, true)
    else Run(config, o, hash, Start(o, learnt, anfOk))
  }

  /** The `switch` on `subIters`: run the strategy unless it is disabled. */
  method InvokeStrategy<P>(config: Config, strategy: nat, r: Report<P>, ok0: bool, learnt0: seq<P>, solution0: Solution)
    returns (ok: bool, numLearnt: int, learnt: seq<P>, solution: Solution)
    requires strategy < 3
    ensures Effect(ok, numLearnt, learnt, solution) == Invoke(config, strategy, r, ok0, learnt0, solution0)
    ensures numLearnt > 0 ==> Enabled(config, strategy)
  {
    ok, numLearnt, learnt, solution := ok0, 0, learnt0, solution0;
    if strategy == 0 {
      if config.doXL {
        learnt := learnt + r.learnt;
        if !r.engineOk {
          ok := false;
        } else {
          numLearnt := r.numLearnt;
        }
      }
    } else if strategy == 1 {
      if config.doEL {
        learnt := learnt + r.learnt;
        if !r.engineOk {
          ok := false;
        } else {
          numLearnt := r.numLearnt;
        }
      }
    } else {
      if config.doSAT {
        learnt := learnt + r.learnt;
        numLearnt := r.numLearnt;
        ok := ok && r.engineOk;
        solution := r.solution;
      }
    }
  }

  /**
   * The end of a turn on the three arrays: record whether strategy `s` was
   * productive, then the back-off block. `before` is the state the arrays held
   * at the start of the turn.
   */
  method EndTurn<P>(changes: array<bool>, waits: array<nat>, countdowns: array<nat>, s: nat, productive: bool, ghost before: State<P>)
    requires changes.Length == 3 && waits.Length == 3 && countdowns.Length == 3 && s < 3
    requires waits != countdowns
    requires changes[..] == before.changes && waits[..] == before.waits && countdowns[..] == before.countdowns
    modifies changes, waits, countdowns
    ensures var b := Reschedule(StrategyOf(before, s), productive);
      && changes[..] == before.changes[s := b.changes]
      && waits[..] == before.waits[s := b.waits]
      && countdowns[..] == before.countdowns[s := b.countdown]
  {
    changes[s] := productive;
    if changes[s] {
      waits[s] := 0;
    } else {
      if countdowns[s] > 0 {
        countdowns[s] := countdowns[s] - 1;
      } else {
        var w := if waits[s] < |Series| - 1 then waits[s] else |Series| - 1;
        countdowns[s] := Series[w];
        waits[s] := waits[s] + 1;
      }
    }
  }

  /** Variables holding, field by field, what one iteration computes hold the step's result. */
  lemma StepIs<P>(config: Config, o: Oracle<P>, hash: P -> int, st: State<P>, e: Effect<P>, b: Backoff,
                  changes: seq<bool>, waits: seq<nat>, countdowns: seq<nat>, subIters: nat, numIters: nat, turn: nat,
                  ok: bool, solution: Solution, learnt: seq<P>, timedOut: bool)
    requires WellFormed(st, o) && !st.timedOut
    requires e == TurnEffect(config, o, st) && b == Reschedule(StrategyOf(st, st.subIters), e.numLearnt > 0)
    requires changes == st.changes[st.subIters := b.changes]
    requires waits == st.waits[st.subIters := b.waits]
    requires countdowns == st.countdowns[st.subIters := b.countdown]
    requires subIters == (if st.subIters == 2 then 0 else st.subIters + 1)
    requires numIters == (if st.subIters == 2 then st.numIters + 1 else st.numIters)
    requires turn == st.turn + 1
    requires ok == (if e.numLearnt > 0 then e.ok && o.turns[st.turn].propagateOk else e.ok)
    requires solution == e.solution
    requires learnt == (if st.subIters == 2 then Dedup(e.learnt, hash) else e.learnt)
    requires timedOut == (o.turns[st.turn].timedOut || st.turn + 1 == |o.turns|)
    ensures State(changes, waits, countdowns, subIters, numIters, turn, ok, solution, learnt, timedOut) == Step(config, o, hash, st)
  {
  }

  /**
   * The body of the loop: play the strategy whose turn it is, record the
   * outcome, update its back-off and move on to the next strategy.
   */
  method TakeTurn<P>(config: Config, o: Oracle<P>, hash: P -> int,
                     changes: array<bool>, waits: array<nat>, countdowns: array<nat>,
                     subIters0: nat, numIters0: nat, turn: nat, ok0: bool, solution0: Solution, learnt0: seq<P>)
    returns (subIters: nat, numIters: nat, ok: bool, solution: Solution, learnt: seq<P>, timedOut: bool)
    requires changes.Length == 3 && waits.Length == 3 && countdowns.Length == 3 && waits != countdowns
    requires subIters0 < 3 && turn < |o.turns|
    modifies changes, waits, countdowns
    ensures State(changes[..], waits[..], countdowns[..], subIters, numIters, turn + 1, ok, solution, learnt, timedOut)
         == Step(config, o, hash, State(old(changes[..]), old(waits[..]), old(countdowns[..]), subIters0, numIters0, turn, ok0, solution0, learnt0, false))
  {
    ghost var st := State(changes[..], waits[..], countdowns[..], subIters0, numIters0, turn, ok0, solution0, learnt0, false);
    ghost var e := TurnEffect(config, o, st);
    var t := o.turns[turn];
    var numLearnt := 0;
    ok, solution, learnt := ok0, solution0, learnt0;
    if countdowns[subIters0] == 0 {
      ok, numLearnt, learnt, solution := InvokeStrategy(config, subIters0, t.report, ok, learnt, solution);
    }
    assert Effect(ok, numLearnt, learnt, solution) == e;
    if numLearnt > 0 {
      ok := ok && t.propagateOk;
    }
    EndTurn(changes, waits, countdowns, subIters0, numLearnt > 0, st);
    subIters, numIters := subIters0, numIters0;
    if subIters < 2 {
      subIters := subIters + 1;
    } else {
      numIters := numIters + 1;
      subIters := 0;
      learnt := Deduplicate(learnt, hash);
    }
    timedOut := t.timedOut || turn + 1 == |o.turns|;
    StepIs(config, o, hash, st, e, Reschedule(StrategyOf(st, st.subIters), e.numLearnt > 0),
      changes[..], waits[..], countdowns[..], subIters, numIters, turn + 1, ok, solution, learnt, timedOut);
  }

  /**
   * `simplify` with the strategies, the propagation and the clock replaced by
   * the oracle; `learnt` is `loop_learnt` and `ok` the ANF's flag on return.
   */
  method Simplify<P>(config: Config, o: Oracle<P>, hash: P -> int, learnt0: seq<P>, anfOk: bool)
    returns (solution: Solution, learnt: seq<P>, ok: bool, numIters: nat, subIters: nat)
    ensures var r := Simplified(config, o, hash, learnt0, anfOk);
      solution == r.solution && learnt == r.learnt && ok == r.ok && numIters == r.numIters && subIters == r.subIters
  {
    if o.timedOutAtStart {
      return Undetermined, learnt0, anfOk, 0, 0;
    }
    ok := anfOk && o.initialOk;
    var timedOut := o.timedOutAfterPropagate || |o.turns| == 0;
    solution := Undetermined;
    learnt := learnt0;
    var changes := new bool[3] [true, true, true];
    var waits := new nat[3] [0, 0, 0];
    var countdowns := new nat[3] [0, 0, 0];
    numIters := 0;
    subIters := 0;
    var turn := 0;
    ghost var start := Start(o, learnt0, anfOk);
    assert State(changes[..], waits[..], countdowns[..], subIters, numIters, turn, ok, solution, learnt, timedOut) == start;

    while !timedOut && ok && solution == Undetermined && (changes[0] || changes[1] || changes[2] || numIters < config.minIter)
      invariant WellFormed(State(changes[..], waits[..], countdowns[..], subIters, numIters, turn, ok, solution, learnt, timedOut), o)
      invariant Run(config, o, hash, start) ==
        Run(config, o, hash, State(changes[..], waits[..], countdowns[..], subIters, numIters, turn, ok, solution, learnt, timedOut))
      decreases |o.turns| - turn
    {
      ghost var st := State(changes[..], waits[..], countdowns[..], subIters, numIters, turn, ok, solution, learnt, timedOut);
      subIters, numIters, ok, solution, learnt, timedOut :=
        TakeTurn(config, o, hash, changes, waits, countdowns, subIters, numIters, turn, ok, solution, learnt);
      turn := turn + 1;
      assert State(changes[..], waits[..], countdowns[..], subIters, numIters, turn, ok, solution, learnt, timedOut)
          == Step(config, o, hash, st);
    }
  }

  /** The table is non-decreasing, never exceeds 89, and each entry from the third on is the sum of the two before it. */
  lemma WaitBounds(w1: nat, w2: nat)
    ensures Wait(w1) <= 89
    ensures w1 <= w2 ==> Wait(w1) <= Wait(w2)
    ensures forall i :: 2 <= i < |Series| ==> Series[i] == Series[i - 1] + Series[i - 2]
  {
  }

  /** What every state of the loop satisfies. */
  predicate Invariant<P>(st: State<P>, o: Oracle<P>)
  {
    && WellFormed(st, o)
    && st.turn == 3 * st.numIters + st.subIters
    && forall s :: 0 <= s < 3 ==> st.countdowns[s] <= 89
  }

  /** An iteration keeps the invariant: turns go round-robin and countdowns stay within the table. */
  lemma StepKeepsInvariant<P>(config: Config, o: Oracle<P>, hash: P -> int, st: State<P>)
    requires Invariant(st, o) && !st.timedOut
    ensures Invariant(Step(config, o, hash, st), o)
  {
    var s := st.subIters;
    WaitBounds(st.waits[s], st.waits[s]);
    var next := Step(config, o, hash, st);
    forall k | 0 <= k < 3
      ensures next.countdowns[k] <= 89
    {
      if k != s {
        assert next.countdowns[k] == st.countdowns[k];
      }
    }
  }

  lemma {:induction false} RunKeepsInvariant<P>(config: Config, o: Oracle<P>, hash: P -> int, st: State<P>)
    requires Invariant(st, o)
    ensures Invariant(Run(config, o, hash, st), o)
    decreases |o.turns| - st.turn
  {
    if Continues(config, st) {
      StepKeepsInvariant(config, o, hash, st);
      RunKeepsInvariant(config, o, hash, Step(config, o, hash, st));
    }
  }

  /**
   * On return, the time is up, the ANF is inconsistent, a solution is known,
   * or no strategy changed anything in its last turn and at least `minIter`
   * rounds have passed; the counters satisfy `turn == 3 * numIters + subIters`
   * and no countdown exceeds 89.
   */
  lemma SimplifiedEnds<P>(config: Config, o: Oracle<P>, hash: P -> int, learnt: seq<P>, anfOk: bool)
    ensures var r := Simplified(config, o, hash, learnt, anfOk);
      && Invariant(r, o)
      && (r.timedOut || !r.ok || r.solution != Undetermined
          || (!r.changes[0] && !r.changes[1] && !r.changes[2] && r.numIters >= config.minIter))
  {
    if !o.timedOutAtStart {
      RunKeepsInvariant(config, o, hash, Start(o, learnt, anfOk));
    }
  }

  /**
   * A strategy whose countdown is positive is not run: its turn is
   * unproductive, its countdown goes down by one, and the ANF, the solution
   * and the learnt facts stay as they are (up to the deduplication at the end
   * of a round).
   */
  lemma WaitingTurn<P>(config: Config, o: Oracle<P>, hash: P -> int, st: State<P>)
    requires WellFormed(st, o) && !st.timedOut && st.countdowns[st.subIters] > 0
    ensures var next := Step(config, o, hash, st);
      var s := st.subIters;
      && !next.changes[s] && next.waits[s] == st.waits[s] && next.countdowns[s] == st.countdowns[s] - 1
      && next.ok == st.ok && next.solution == st.solution
      && next.learnt == (if s == 2 then Dedup(st.learnt, hash) else st.learnt)
  {
  }

  /**
   * A turn is productive only for an enabled strategy that is not waiting, and
   * then its `waits` entry is reset to 0 and its countdown stays 0.
   */
  lemma ProductiveTurn<P>(config: Config, o: Oracle<P>, hash: P -> int, st: State<P>)
    requires WellFormed(st, o) && !st.timedOut
    ensures var next := Step(config, o, hash, st);
      var s := st.subIters;
      next.changes[s] <==>
        (st.countdowns[s] == 0 && Enabled(config, s) && o.turns[st.turn].report.numLearnt > 0
         && (s < 2 ==> o.turns[st.turn].report.engineOk))
    ensures var next := Step(config, o, hash, st);
      var s := st.subIters;
      next.changes[s] ==> next.waits[s] == 0 && next.countdowns[s] == 0
  {
  }

  /** Every third turn ends a round, after which no two learnt facts share a hash value. */
  lemma RoundEndDeduplicates<P>(config: Config, o: Oracle<P>, hash: P -> int, st: State<P>)
    requires WellFormed(st, o) && !st.timedOut && st.subIters == 2
    ensures var next := Step(config, o, hash, st);
      && next.subIters == 0 && next.numIters == st.numIters + 1
      && DistinctHashes(next.learnt, hash)
      && Hashes(next.learnt, hash) == Hashes(TurnEffect(config, o, st).learnt, hash)
  {
    var e := TurnEffect(config, o, st);
    DedupDistinct(e.learnt, hash);
    DedupHashes(e.learnt, hash);
  }

  /** `n` unproductive turns of one strategy. */
  function Idle(b: Backoff, n: nat): Backoff
    decreases n
  {
    if n == 0 then b else Idle(Reschedule(b, false), n - 1)
  }

  lemma {:induction false} IdleCountsDown(w: nat, c: nat, k: nat)
    requires k <= c
    ensures Idle(Backoff(false, w, c), k) == Backoff(false, w, c - k)
  {
    if k > 0 {
      IdleCountsDown(w, c - 1, k - 1);
    }
  }

  /**
   * The back-off of a strategy that keeps learning nothing: run after `w`
   * unproductive restarts, it is skipped on exactly its next `Wait(w)` turns
   * and runs again on the one after, with `waits` one higher.
   */
  lemma BackoffCycle(changes: bool, w: nat)
    ensures forall k :: 1 <= k <= Wait(w) ==> Idle(Backoff(changes, w, 0), k).countdown > 0
    ensures Idle(Backoff(changes, w, 0), Wait(w) + 1) == Backoff(false, w + 1, 0)
  {
    var b := Backoff(changes, w, 0);
    assert Reschedule(b, false) == Backoff(false, w + 1, Wait(w));
    forall k | 1 <= k <= Wait(w)
      ensures Idle(b, k).countdown > 0
    {
      IdleCountsDown(w + 1, Wait(w), k - 1);
    }
    IdleCountsDown(w + 1, Wait(w), Wait(w));
  }

  predicate AllDisabled(config: Config)
  {
    !config.doXL && !config.doEL && !config.doSAT
  }

  /** The rounds a run with every strategy disabled takes: `minIter`, but at least the first. */
  function Rounds(config: Config): nat
  {
    if config.minIter == 0 then 1 else config.minIter
  }

  /** The states of a run with every strategy disabled, before its last turn. */
  predicate DisabledState<P>(config: Config, o: Oracle<P>, st: State<P>)
  {
    && WellFormed(st, o) && !st.timedOut && st.ok && st.solution == Undetermined
    && st.turn == 3 * st.numIters + st.subIters && st.turn < 3 * Rounds(config)
    && forall s :: 0 <= s < 3 ==> st.changes[s] == (st.numIters == 0 && s >= st.subIters)
  }

  lemma {:induction false} DisabledRun<P>(config: Config, o: Oracle<P>, hash: P -> int, st: State<P>)
    requires AllDisabled(config) && DisabledState(config, o, st)
    requires |o.turns| >= 3 * Rounds(config)
    requires forall i :: 0 <= i < 3 * Rounds(config) - 1 ==> !o.turns[i].timedOut
    ensures var r := Run(config, o, hash, st);
      r.turn == 3 * Rounds(config) && r.numIters == Rounds(config) && r.subIters == 0 && r.ok && r.solution == Undetermined
    decreases |o.turns| - st.turn
  {
    assert st.changes[2] == (st.numIters == 0);
    assert Continues(config, st);
    var next := Step(config, o, hash, st);
    StepWellFormed(config, o, hash, st);
    assert next.ok && next.solution == Undetermined;
    if next.turn < 3 * Rounds(config) {
      forall s | 0 <= s < 3
        ensures next.changes[s] == (next.numIters == 0 && s >= next.subIters)
      {
        if s != st.subIters {
          assert next.changes[s] == st.changes[s];
        }
      }
      DisabledRun(config, o, hash, next);
    } else {
      assert !Continues(config, next) by {
        if !next.timedOut {
          forall s | 0 <= s < 3
            ensures !next.changes[s]
          {
            if s != st.subIters {
              assert next.changes[s] == st.changes[s];
            }
          }
        }
      }
    }
  }

  /**
   * With every strategy disabled, the loop (unless the time runs out) stops
   * after `minIter` rounds of three turns, or after one round when `minIter`
   * is 0, with the ANF consistent and no solution; an ANF that is already
   * inconsistent on entry stops it before the first turn.
   */
  lemma AllDisabledStops<P>(config: Config, o: Oracle<P>, hash: P -> int, learnt: seq<P>, anfOk: bool)
    requires AllDisabled(config)
    requires !o.timedOutAtStart && o.initialOk && !o.timedOutAfterPropagate
    requires |o.turns| >= 3 * Rounds(config)
    requires forall i :: 0 <= i < 3 * Rounds(config) - 1 ==> !o.turns[i].timedOut
    ensures var r := Simplified(config, o, hash, learnt, anfOk);
      anfOk ==> r.turn == 3 * Rounds(config) && r.numIters == Rounds(config) && r.subIters == 0 && r.ok && r.solution == Undetermined
    ensures var r := Simplified(config, o, hash, learnt, anfOk);
      !anfOk ==> r.turn == 0 && !r.ok
  {
    if anfOk {
      DisabledRun(config, o, hash, Start(o, learnt, anfOk));
    }
  }
}
