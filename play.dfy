/**
 * Sequences of moves: what holds across any number of calls to the move
 * methods on one game.
 */
module Play {
  import opened Rules
  import opened Lifecycle

  /** How many of the results report a move (`true`). */
  function CountMoved(rs: seq<MoveResult>): nat {
    if rs == [] then 0 else (if rs[0] == Moved then 1 else 0) + CountMoved(rs[1..])
  }

  /**
   * The game after the moves `ds`, one call each, and what each call
   * returned. The counter rises by exactly the number of `true` returns.
   */
  function Run(g: Game, ds: seq<Direction>): (r: (Game, seq<MoveResult>))
    requires WellFormed(g)
    ensures WellFormed(r.0)
    ensures |r.1| == |ds|
    ensures r.0.moves == g.moves + CountMoved(r.1)
    decreases |ds|
  {
    if ds == [] then (g, [])
    else
      var (g1, res) := Step(g, ds[0]);
      var (g2, rest) := Run(g1, ds[1..]);
      assert ([res] + rest)[1..] == rest;
      (g2, [res] + rest)
  }

  /** The game invariant holds after any sequence of moves. */
  lemma {:induction false} RunKeepsInvariant(g: Game, ds: seq<Direction>)
    requires Invariant(g)
    ensures Invariant(Run(g, ds).0)
    decreases |ds|
  {
    if ds != [] {
      StepKeepsInvariant(g, ds[0]);
      RunKeepsInvariant(Step(g, ds[0]).0, ds[1..]);
    }
  }

  /** Once won, every later move is refused and changes nothing. */
  lemma {:induction false} WonIsFinal(g: Game, ds: seq<Direction>)
    requires WellFormed(g) && g.won
    ensures Run(g, ds).0 == g
    ensures forall i :: 0 <= i < |ds| ==> Run(g, ds).1[i] == Refused
    decreases |ds|
  {
    if ds != [] {
      WonIsFinal(g, ds[1..]);
    }
  }

  /** Resetting (as intended) after any play gives back the same game. */
  lemma {:induction false} ResetIntendedForgetsRun(g: Game, ds: seq<Direction>)
    requires WellFormed(g)
    ensures ResetIntended(Run(g, ds).0) == ResetIntended(g)
    decreases |ds|
  {
    if ds != [] {
      ResetIntendedForgetsStep(g, ds[0]);
      ResetIntendedForgetsRun(Step(g, ds[0]).0, ds[1..]);
    }
  }
}
