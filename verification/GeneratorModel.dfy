/**
 The automatic block generator as a step machine: one goroutine that waits on a ticker and on
 its cancellation, with whatever the runtime does to the two in between. The ticker holds at
 most one tick and drops those that fire while it is full. Creating a ticker with a period that is
 not positive is a panic, which ends the whole program.
 */
module GeneratorModel {

  datatype Phase =
    | Launched    // the goroutine has not created its ticker yet
    | Selecting   // it waits in the select
    | Attempting  // its block call is under way
    | Exited
    | Crashed     // the ticker refused its period

  datatype Generator = Generator(
    period: int,
    phase: Phase,
    tick: bool,       // a tick waits in the channel
    cancelled: bool,
    fired: nat,       // ticks fired
    dropped: nat,     // ticks that found the channel full
    started: nat,     // block calls made
    succeeded: nat,
    failed: nat)

  datatype Move =
    | Begin
    | TickFires
    | TakeTick        // the select chooses the ticker
    | CallReturns(ok: bool)
    | TakeDone        // the select chooses the cancellation
    | Cancel

  function Launch(period: int): Generator {
    Generator(period, Launched, false, false, 0, 0, 0, 0, 0)
  }

  /** Whether the select may choose, the call return, or the runtime act. */
  predicate Enabled(g: Generator, m: Move) {
    match m
    case Begin => g.phase == Launched
    case TickFires => g.phase != Launched && g.phase != Crashed
    case TakeTick => g.phase == Selecting && g.tick
    case CallReturns(_) => g.phase == Attempting
    case TakeDone => g.phase == Selecting && g.cancelled
    case Cancel => g.phase != Crashed
  }

  function Step(g: Generator, m: Move): Generator
    requires Enabled(g, m)
  {
    match m
    case Begin => g.(phase := if g.period > 0 then Selecting else Crashed)
    case TickFires =>
      if g.tick then g.(fired := g.fired + 1, dropped := g.dropped + 1)
      else g.(fired := g.fired + 1, tick := true)
    case TakeTick => g.(phase := Attempting, tick := false, started := g.started + 1)
    case CallReturns(ok) =>
      if ok then g.(phase := Selecting, succeeded := g.succeeded + 1)
      else g.(phase := Selecting, failed := g.failed + 1)
    case TakeDone => g.(phase := Exited)
    case Cancel => g.(cancelled := true)
  }

  /** A run: every move is enabled where it is made. */
  predicate Runs(g: Generator, moves: seq<Move>)
    decreases |moves|
  {
    moves == [] || (Enabled(g, moves[0]) && Runs(Step(g, moves[0]), moves[1..]))
  }

  function End(g: Generator, moves: seq<Move>): Generator
    requires Runs(g, moves)
    decreases |moves|
  {
    if moves == [] then g else End(Step(g, moves[0]), moves[1..])
  }

  function One(b: bool): nat {
    if b then 1 else 0
  }

  /** Every tick is waiting, dropped or spent on a block call; every call has returned but the one under way. */
  predicate Conserved(g: Generator) {
    && g.fired == g.started + One(g.tick) + g.dropped
    && g.started == g.succeeded + g.failed + One(g.phase == Attempting)
    && (g.phase == Exited ==> g.cancelled)
    && (g.phase == Launched || g.phase == Crashed ==> g.fired == 0)
    && (g.phase == Crashed ==> g.period <= 0)
    && (g.phase == Launched || g.phase == Crashed || g.period > 0)
  }

  lemma {:induction false} ConservedAlways(g: Generator, moves: seq<Move>)
    requires Conserved(g) && Runs(g, moves)
    ensures Conserved(End(g, moves))
    decreases |moves|
  {
    if moves != [] {
      ConservedAlways(Step(g, moves[0]), moves[1..]);
    }
  }

  function Times(m: Move, moves: seq<Move>): nat
    decreases |moves|
  {
    if moves == [] then 0 else One(moves[0] == m) + Times(m, moves[1..])
  }

  lemma {:induction false} CountersRecordRun(g: Generator, moves: seq<Move>)
    requires Runs(g, moves)
    ensures var h := End(g, moves);
            && h.fired == g.fired + Times(TickFires, moves)
            && h.started == g.started + Times(TakeTick, moves)
            && h.succeeded == g.succeeded + Times(CallReturns(true), moves)
            && h.failed == g.failed + Times(CallReturns(false), moves)
    decreases |moves|
  {
    if moves != [] {
      CountersRecordRun(Step(g, moves[0]), moves[1..]);
    }
  }

  lemma {:induction false} FlagsRecordRun(g: Generator, moves: seq<Move>)
    requires Runs(g, moves)
    ensures var h := End(g, moves);
            && (h.cancelled <==> g.cancelled || Cancel in moves)
            && (h.phase == Exited <==> g.phase == Exited || TakeDone in moves)
            && h.period == g.period
    decreases |moves|
  {
    if moves != [] {
      FlagsRecordRun(Step(g, moves[0]), moves[1..]);
      assert moves == [moves[0]] + moves[1..];
    }
  }

  /** What the state records of a run: the ticks, the calls and what they returned, and whether it was closed. */
  lemma {:induction false} StateRecordsRun(g: Generator, moves: seq<Move>)
    requires Runs(g, moves)
    ensures var h := End(g, moves);
            && h.fired == g.fired + Times(TickFires, moves)
            && h.started == g.started + Times(TakeTick, moves)
            && h.succeeded == g.succeeded + Times(CallReturns(true), moves)
            && h.failed == g.failed + Times(CallReturns(false), moves)
            && (h.cancelled <==> g.cancelled || Cancel in moves)
            && (h.phase == Exited <==> g.phase == Exited || TakeDone in moves)
            && h.period == g.period
  {
    CountersRecordRun(g, moves);
    FlagsRecordRun(g, moves);
  }

  /** The moves made by the goroutine itself. */
  predicate Own(m: Move) {
    m.Begin? || m.TakeTick? || m.CallReturns? || m.TakeDone?
  }

  function OwnMoves(moves: seq<Move>): nat
    decreases |moves|
  {
    if moves == [] then 0 else One(Own(moves[0])) + OwnMoves(moves[1..])
  }

  /** How many more moves of its own the goroutine could make if no further tick fired and it were cancelled. */
  function Potential(g: Generator): nat {
    2 * One(g.tick) +
    match g.phase
    case Exited => 0
    case Crashed => 0
    case Selecting => 1
    case Attempting => 2
    case Launched => if g.period > 0 then 2 else 1
  }

  /**
   Each move of the goroutine spends exactly one unit of potential and each tick that is not
   dropped brings exactly two.
   */
  lemma {:induction false} PotentialIsConserved(g: Generator, moves: seq<Move>)
    requires Runs(g, moves)
    ensures var h := End(g, moves);
            && OwnMoves(moves) + Potential(h) ==
               Potential(g) + 2 * (h.fired - g.fired) - 2 * (h.dropped - g.dropped)
            && g.fired <= h.fired && g.dropped <= h.dropped
    decreases |moves|
  {
    if moves != [] {
      PotentialIsConserved(Step(g, moves[0]), moves[1..]);
    }
  }

  /** Once cancelled and not exited, the goroutine has a move of its own: it is never stuck. */
  lemma {:induction false} CancelledIsNeverStuck(g: Generator)
    requires g.cancelled && g.phase != Exited && g.phase != Crashed
    ensures exists m: Move :: Own(m) && Enabled(g, m)
    ensures g.phase == Selecting ==> Enabled(g, TakeDone) && Step(g, TakeDone).phase == Exited
  {
    match g.phase {
      case Launched => assert Own(Begin) && Enabled(g, Begin);
      case Selecting => assert Own(TakeDone) && Enabled(g, TakeDone);
      case Attempting => assert Own(CallReturns(true)) && Enabled(g, CallReturns(true));
    }
  }

  /**
   As long as it is not closed, a failed block call does not stop it: from any state it can reach, a
   waiting tick is spent on a new call by the second move of the goroutine, whatever happens in
   between, and the goroutine is not stuck before.
   */
  lemma {:induction false} ServesWaitingTick(g: Generator, moves: seq<Move>)
    requires Conserved(g) && g.tick && !g.cancelled
    requires Runs(g, moves) && Cancel !in moves
    ensures var h := End(g, moves);
            h.started > g.started || (OwnMoves(moves) < 2 && exists m: Move :: Own(m) && Enabled(h, m))
  {
    TakesWaitingTick(g, moves);
    var h := End(g, moves);
    if h.started == g.started {
      assert Own(if h.phase == Selecting then TakeTick else CallReturns(true));
    }
  }

  lemma {:induction false} TakesWaitingTick(g: Generator, moves: seq<Move>)
    requires (g.phase == Selecting || g.phase == Attempting) && g.tick && !g.cancelled
    requires Runs(g, moves) && Cancel !in moves
    ensures var h := End(g, moves);
            || h.started > g.started
            || (&& h.started == g.started && h.tick && (h.phase == Selecting || h.phase == Attempting)
                && OwnMoves(moves) + One(h.phase == Attempting) == One(g.phase == Attempting))
    decreases |moves|
  {
    if moves != [] {
      var next := Step(g, moves[0]);
      if moves[0] == TakeTick {
        StartedGrows(next, moves[1..]);
      } else {
        TakesWaitingTick(next, moves[1..]);
      }
    }
  }

  /**
   After Close the goroutine ends: it makes at most four moves of its own and two more for every
   tick that still fires, and it cannot stop making them before it has exited.
   */
  lemma {:induction false} CloseEndsTheGoroutine(g: Generator, moves: seq<Move>)
    requires g.cancelled && Runs(g, moves)
    ensures var h := End(g, moves);
            && OwnMoves(moves) <= 4 + 2 * (h.fired - g.fired)
            && (h.phase != Exited && h.phase != Crashed ==> exists m: Move :: Own(m) && Enabled(h, m))
    decreases |moves|
  {
    PotentialIsConserved(g, moves);
    StaysCancelled(g, moves);
    if End(g, moves).phase != Exited && End(g, moves).phase != Crashed {
      CancelledIsNeverStuck(End(g, moves));
    }
  }

  lemma {:induction false} StaysCancelled(g: Generator, moves: seq<Move>)
    requires g.cancelled && Runs(g, moves)
    ensures End(g, moves).cancelled
    decreases |moves|
  {
    if moves != [] {
      StaysCancelled(Step(g, moves[0]), moves[1..]);
    }
  }

  /** Block calls made after any moment, Close included, are at most the ticks fired after it and one that waited. */
  lemma {:induction false} CallsAfter(g: Generator, moves: seq<Move>)
    requires Conserved(g) && Runs(g, moves)
    ensures var h := End(g, moves);
            && h.started - g.started <= (h.fired - g.fired) + One(g.tick)
            && g.started <= h.started
    decreases |moves|
  {
    ConservedAlways(g, moves);
    PotentialIsConserved(g, moves);
    StartedGrows(g, moves);
  }

  lemma {:induction false} StartedGrows(g: Generator, moves: seq<Move>)
    requires Runs(g, moves)
    ensures g.started <= End(g, moves).started
    decreases |moves|
  {
    if moves != [] {
      StartedGrows(Step(g, moves[0]), moves[1..]);
    }
  }

  /** Nothing is started after the goroutine has exited, however many ticks still fire. */
  lemma {:induction false} NothingAfterExit(g: Generator, moves: seq<Move>)
    requires g.phase == Exited && Runs(g, moves)
    ensures var h := End(g, moves);
            h.phase == Exited && h.started == g.started && h.succeeded == g.succeeded && h.failed == g.failed
    decreases |moves|
  {
    if moves != [] {
      NothingAfterExit(Step(g, moves[0]), moves[1..]);
    }
  }

  /* When a call can still start */

  ghost predicate CanStartCall(g: Generator, ticksAllowed: bool) {
    exists moves :: StartsCall(g, moves) && (TickFires in moves ==> ticksAllowed)
  }

  /** A run in which a block call starts. */
  predicate StartsCall(g: Generator, moves: seq<Move>) {
    Runs(g, moves) && End(g, moves).started > g.started
  }

  lemma {:induction false} RunsCons(g: Generator, m: Move, rest: seq<Move>)
    requires Enabled(g, m) && Runs(Step(g, m), rest)
    ensures Runs(g, [m] + rest) && End(g, [m] + rest) == End(Step(g, m), rest)
  {
    assert ([m] + rest)[1..] == rest;
  }

  /** The ways into the next block call: from the select with a waiting tick, and one move further back. */
  lemma {:induction false} StartFromSelect(g: Generator)
    requires g.phase == Selecting && g.tick
    ensures StartsCall(g, [TakeTick])
  {
    RunsCons(g, TakeTick, []);
  }

  lemma {:induction false} StartsLater(g: Generator, m: Move, rest: seq<Move>)
    requires Enabled(g, m) && StartsCall(Step(g, m), rest) && m != TakeTick
    ensures StartsCall(g, [m] + rest)
  {
    RunsCons(g, m, rest);
  }

  lemma {:induction false} StartFromAnywhere(g: Generator)
    requires g.phase != Exited && g.phase != Crashed && (g.phase == Launched ==> g.period > 0)
    ensures CanStartCall(g, true)
    ensures g.tick ==> CanStartCall(g, false)
  {
    var m := if g.phase == Launched then Begin else CallReturns(true);
    var selecting := if g.phase == Selecting then g else Step(g, m);
    var ticked := Step(selecting, TickFires);
    StartFromSelect(ticked);
    StartsLater(selecting, TickFires, [TakeTick]);
    if g.phase != Selecting {
      StartsLater(g, m, [TickFires] + [TakeTick]);
    }
    if g.tick {
      StartFromSelect(selecting);
      if g.phase != Selecting {
        StartsLater(g, m, [TakeTick]);
        assert TickFires !in [m] + [TakeTick];
      } else {
        assert TickFires !in [TakeTick];
      }
    }
  }

  lemma {:induction false} NoCallWithoutTick(g: Generator, moves: seq<Move>)
    requires !g.tick && Runs(g, moves) && TickFires !in moves
    ensures End(g, moves).started == g.started
    decreases |moves|
  {
    if moves != [] {
      NoCallWithoutTick(Step(g, moves[0]), moves[1..]);
    }
  }

  lemma {:induction false} NothingAfterCrash(g: Generator, moves: seq<Move>)
    requires (g.phase == Launched || g.phase == Crashed) && g.period <= 0 && Runs(g, moves)
    ensures End(g, moves).started == g.started
    decreases |moves|
  {
    if moves != [] {
      NothingAfterCrash(Step(g, moves[0]), moves[1..]);
    }
  }

  /**
   From any state it can reach a block call can still start exactly if the goroutine has not exited
   and its period is one the ticker takes; with no further tick, exactly if moreover a tick waits.
   */
  lemma {:induction false} CallCanStartIff(g: Generator)
    requires Conserved(g)
    ensures CanStartCall(g, true) <==> g.phase != Exited && g.period > 0
    ensures CanStartCall(g, false) <==> g.phase != Exited && g.period > 0 && g.tick
  {
    if g.phase != Exited && g.period > 0 {
      StartFromAnywhere(g);
    }
    forall moves | StartsCall(g, moves)
      ensures g.phase != Exited && g.period > 0
      ensures TickFires !in moves ==> g.tick
    {
      if g.phase == Exited {
        NothingAfterExit(g, moves);
      }
      if g.period <= 0 {
        NothingAfterCrash(g, moves);
      }
      if TickFires !in moves && !g.tick {
        NoCallWithoutTick(g, moves);
      }
    }
  }

  /**
   Close only signals. After it a block call can start exactly if the goroutine has not exited yet
   and its ticker is one that ticks; should no tick fire any more, exactly if moreover a tick
   waited when it was closed.
   */
  lemma {:induction false} CallCanStartAfterClose(g: Generator)
    requires Conserved(g) && Enabled(g, Cancel)
    ensures var closed := Step(g, Cancel);
            && (CanStartCall(closed, true) <==> g.phase != Exited && g.period > 0)
            && (CanStartCall(closed, false) <==> g.phase != Exited && g.period > 0 && g.tick)
  {
    CallCanStartIff(Step(g, Cancel));
  }

  /** A launched generator panics at its first move exactly if its period is not positive. */
  lemma {:induction false} CrashesIff(period: int, moves: seq<Move>)
    requires Runs(Launch(period), moves)
    ensures End(Launch(period), moves).phase == Crashed <==> period <= 0 && Begin in moves
  {
    CrashesWhenBegun(Launch(period), moves);
  }

  lemma {:induction false} CrashesWhenBegun(g: Generator, moves: seq<Move>)
    requires (g.phase == Launched || g.period > 0) && g.phase != Crashed && Runs(g, moves)
    ensures End(g, moves).phase == Crashed <==> g.phase == Launched && g.period <= 0 && Begin in moves
    decreases |moves|
  {
    if moves != [] {
      var next := Step(g, moves[0]);
      if next.phase == Crashed {
        assert moves[1..] == [];
      } else {
        CrashesWhenBegun(next, moves[1..]);
      }
    }
  }
}
