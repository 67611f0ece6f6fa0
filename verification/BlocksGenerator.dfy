/** The block generator of pkg/process: its constructor, its Close, and its goroutine under any schedule. */
module BlocksGenerator {
  import opened Wrappers
  import opened Integers
  import opened ChainModel
  import opened GeneratorModel
  import opened SimulatorFacade
  import System = ConcurrentSystem

  const MIN_BLOCK_TIME_IN_MS := 1
  const MILLISECOND := 1_000_000

  datatype CreateError = NilChainSimulator | InvalidBlockTime(received: uint64)

  /** The ticker period in nanoseconds, in the 64-bit arithmetic of the source. */
  function BlockTime(blockTimeInMs: uint64): int64 {
    ToInt64(ToInt64(blockTimeInMs) * MILLISECOND)
  }

  /** The period is the configured one exactly up to 9223372036854 milliseconds; beyond that it has wrapped. */
  lemma {:induction false} BlockTimeIsExactIff(blockTimeInMs: uint64)
    ensures BlockTime(blockTimeInMs) == blockTimeInMs * MILLISECOND <==> blockTimeInMs <= 9223372036854
    ensures MIN_BLOCK_TIME_IN_MS <= blockTimeInMs <= 9223372036854 ==> BlockTime(blockTimeInMs) > 0
  {}

  lemma {:induction false} RemainderIsUnique(v: int, turns: int, rest: int)
    requires v == turns * TWO_64 + rest && 0 <= rest < TWO_64
    ensures v % TWO_64 == rest
  {}

  /** Wrapping to 64 bits loses whole turns only, and gives a positive number on the lower half of a turn. */
  lemma {:induction false} WrappedIsPositiveIff(v: int)
    ensures exists turns: int :: ToInt64(v) == v - turns * TWO_64
    ensures ToInt64(v) > 0 <==> 0 < v % TWO_64 < 0x8000_0000_0000_0000
  {
    var turns, rest := v / TWO_64, v % TWO_64;
    if rest < 0x8000_0000_0000_0000 {
      RemainderIsUnique(v + 0x8000_0000_0000_0000, turns, rest + 0x8000_0000_0000_0000);
      assert ToInt64(v) == v - turns * TWO_64;
    } else {
      RemainderIsUnique(v + 0x8000_0000_0000_0000, turns + 1, rest - 0x8000_0000_0000_0000);
      assert ToInt64(v) == v - (turns + 1) * TWO_64;
    }
  }

  /**
   Of the block times the constructor accepts, the ticker takes exactly those whose nanoseconds
   leave a remainder by 2^64 that is neither zero nor 2^63 or more.
   */
  lemma {:induction false} PeriodIsPositiveIff(blockTimeInMs: uint64)
    ensures BlockTime(blockTimeInMs) > 0 <==> 0 < blockTimeInMs * MILLISECOND % TWO_64 < 0x8000_0000_0000_0000
  {
    var nanoseconds := blockTimeInMs * MILLISECOND;
    var wrapped: int := ToInt64(blockTimeInMs) * MILLISECOND;
    WrappedIsPositiveIff(blockTimeInMs);
    var turns :| ToInt64(blockTimeInMs) == blockTimeInMs - turns * TWO_64;
    var whole, rest := nanoseconds / TWO_64, nanoseconds % TWO_64;
    assert wrapped == (whole - turns * MILLISECOND) * TWO_64 + rest;
    RemainderIsUnique(wrapped, whole - turns * MILLISECOND, rest);
    WrappedIsPositiveIff(wrapped);
  }

  /** Accepted block times whose period is negative, zero, and positive without being the configured one. */
  lemma {:induction false} AcceptedPeriodCanBeNegative()
    ensures MIN_BLOCK_TIME_IN_MS <= 9223372036855 && BlockTime(9223372036855) < 0
    ensures BlockTime(0x0400_0000_0000_0000) == 0
    ensures BlockTime(18446744073710) == 448384
  {}

  /** The automatic generator can ever start a block exactly for those block times; for all others it panics. */
  lemma {:induction false} GeneratesIff(blockTimeInMs: uint64)
    ensures var remainder := blockTimeInMs * MILLISECOND % TWO_64;
            CanStartCall(Launch(BlockTime(blockTimeInMs)), true) <==> 0 < remainder < 0x8000_0000_0000_0000
  {
    PeriodIsPositiveIff(blockTimeInMs);
    CallCanStartIff(Launch(BlockTime(blockTimeInMs)));
  }

  /**
   What the goroutine does under a schedule of what the runtime does and what the select picks; a
   pick that is not possible is passed over, and a call returns what the chain answers.
   */
  function Play(env: Environment, c: Chain, g: Generator, schedule: seq<Move>): (Chain, Generator)
    decreases |schedule|
  {
    if schedule == [] then (c, g)
    else
      var m := schedule[0];
      if !Enabled(g, m) then Play(env, c, g, schedule[1..])
      else if m.CallReturns? then
        var r := env.generate(c, 1);
        Play(env, r.chain, Step(g, CallReturns(r.err.None?)), schedule[1..])
      else Play(env, c, Step(g, m), schedule[1..])
  }

  class BlocksGenerator {
    const simulator: ChainSimulator
    const blockTime: int64
    var state: Generator

    predicate Valid()
      reads this
    {
      state.period == blockTime
    }

    constructor (simulator: ChainSimulator, blockTime: int64)
      ensures this.simulator == simulator && this.blockTime == blockTime && state == Launch(blockTime)
    {
      this.simulator, this.blockTime, this.state := simulator, blockTime, Launch(blockTime);
    }

    static method New(simulator: ChainSimulator?, blockTimeInMs: uint64)
      returns (generator: BlocksGenerator?, err: Option<CreateError>)
      ensures simulator == null ==> err == Some(NilChainSimulator)
      ensures simulator != null && blockTimeInMs == 0 ==> err == Some(InvalidBlockTime(0))
      ensures err.Some? <==> generator == null
      ensures simulator != null && blockTimeInMs > 0 ==>
        && generator != null && fresh(generator)
        && generator.simulator == simulator && generator.blockTime == BlockTime(blockTimeInMs)
        && generator.state == Launch(generator.blockTime)
    {
      if simulator == null {
        return null, Some(NilChainSimulator);
      }
      if blockTimeInMs < MIN_BLOCK_TIME_IN_MS {
        return null, Some(InvalidBlockTime(blockTimeInMs));
      }
      generator := new BlocksGenerator(simulator, BlockTime(blockTimeInMs));
      err := None;
    }

    /** Nothing of the program runs, or calls this, once the goroutine has panicked. */
    method Close()
      requires state.phase != Crashed
      modifies this
      ensures state == Step(old(state), Cancel) == old(state).(cancelled := true)
    {
      state := state.(cancelled := true);
    }

    method GenerateBlocks(schedule: seq<Move>)
      requires Valid()
      modifies this, simulator
      ensures Valid()
      ensures (simulator.chain, state) == Play(simulator.env, old(simulator.chain), old(state), schedule)
    {
      ghost var env := simulator.env;
      ghost var whole := Play(env, simulator.chain, state, schedule);
      assert schedule[0..] == schedule;
      for i := 0 to |schedule|
        invariant Valid()
        invariant whole == Play(env, simulator.chain, state, schedule[i..])
      {
        assert schedule[i..][0] == schedule[i] && schedule[i..][1..] == schedule[i + 1..];
        match schedule[i] {
          case Begin =>
            if state.phase == Launched {
              state := state.(phase := if blockTime > 0 then Selecting else Crashed);
            }
          case TickFires =>
            if state.phase != Launched && state.phase != Crashed {
              state := state.(fired := state.fired + 1,
                              dropped := if state.tick then state.dropped + 1 else state.dropped,
                              tick := true);
            }
          case TakeTick =>
            if state.phase == Selecting && state.tick {
              state := state.(phase := Attempting, tick := false, started := state.started + 1);
            }
          case CallReturns(_) =>
            if state.phase == Attempting {
              var err := simulator.GenerateBlocks(1);
              if err.Some? {
                state := state.(failed := state.failed + 1);
              } else {
                state := state.(succeeded := state.succeeded + 1);
              }
              state := state.(phase := Selecting);
            }
          case TakeDone =>
            if state.phase == Selecting && state.cancelled {
              state := state.(phase := Exited);
            }
          case Cancel =>
            if state.phase != Crashed {
              state := state.(cancelled := true);
            }
        }
      }
      assert schedule[|schedule|..] == [];
    }
  }

  /**
   Whatever the schedule, what the goroutine does is a run of the system in which only the generator
   moves, so everything proved over all interleavings holds of it.
   */
  lemma {:induction false} PlayIsARun(env: Environment, s: System.State, schedule: seq<Move>)
    returns (actions: seq<System.Action>, moves: seq<Move>)
    ensures var (c, g) := Play(env, s.chain, s.generator, schedule);
            && System.Runs(env, s, actions)
            && System.End(env, s, actions) == s.(chain := c, generator := g)
            && Runs(s.generator, moves) && End(s.generator, moves) == g
    decreases |schedule|
  {
    if schedule == [] {
      actions, moves := [], [];
    } else if !Enabled(s.generator, schedule[0]) {
      actions, moves := PlayIsARun(env, s, schedule[1..]);
    } else {
      var ok := env.generate(s.chain, 1).err.None?;
      var m := if schedule[0].CallReturns? then CallReturns(ok) else schedule[0];
      var a := System.Generator(m);
      var next := System.Next(env, s, a);
      var rest, later := PlayIsARun(env, next, schedule[1..]);
      System.RunsCons(env, s, a, rest);
      actions, moves := [a] + rest, [m] + later;
      assert moves[1..] == later;
    }
  }
}
