/** What ForceChangeOfEpoch computes, for any environment, with or without the promise that epochs rise. */
module EpochLoop {
  import opened Wrappers
  import opened Integers
  import opened ChainModel

  datatype Run = Run(chain: Chain, forced: nat, err: Option<Error>)

  /** The loop, cut off after fuel forced changes; None when it is still going by then. */
  function Loop(env: Environment, c: Chain, target: uint32, fuel: nat): Option<Run>
    decreases fuel
  {
    if c.epoch >= target then Some(Run(c, 0, None))
    else if fuel == 0 then None
    else
      var r := env.force(c);
      if r.err.Some? then Some(Run(r.chain, 1, Lift(r.err)))
      else match Loop(env, r.chain, target, fuel - 1)
        case None => None
        case Some(run) => Some(run.(forced := run.forced + 1))
  }

  function ForceChange(env: Environment, c: Chain, target: uint32, fuel: nat): Option<Run> {
    if target == 0 then Some(Run(env.force(c).chain, 1, Lift(env.force(c).err)))
    else if c.epoch >= target then Some(Run(c, 0, Some(TargetEpochTooLow(c.epoch, target))))
    else Loop(env, c, target, fuel)
  }

  /** It comes to an end. */
  ghost predicate Ends(env: Environment, c: Chain, target: uint32) {
    exists fuel: nat :: ForceChange(env, c, target, fuel).Some?
  }

  /** What it has done when it ends. */
  ghost function Outcome(env: Environment, c: Chain, target: uint32): Run
    requires Ends(env, c, target)
  {
    var fuel: nat :| ForceChange(env, c, target, fuel).Some?;
    ForceChange(env, c, target, fuel).value
  }

  /** The chain after k forced changes, whatever they answered. */
  function After(env: Environment, c: Chain, k: nat): Chain
    decreases k
  {
    if k == 0 then c else After(env, env.force(c).chain, k - 1)
  }

  /** The first k rounds find the epoch below the target and force it with success. */
  ghost predicate Climbs(env: Environment, c: Chain, target: uint32, k: nat) {
    forall j :: 0 <= j < k ==>
      After(env, c, j).epoch < target && env.force(After(env, c, j)).err.None?
  }

  lemma {:induction false} ClimbsStep(env: Environment, c: Chain, target: uint32, k: nat)
    requires k > 0
    ensures Climbs(env, c, target, k) <==>
            && c.epoch < target && env.force(c).err.None?
            && Climbs(env, env.force(c).chain, target, k - 1)
  {
    var d := env.force(c).chain;
    forall j: nat
      ensures After(env, c, j + 1) == After(env, d, j)
    {}
    if Climbs(env, c, target, k) {
      assert After(env, c, 0).epoch < target;
      forall j | 0 <= j < k - 1
        ensures After(env, d, j).epoch < target && env.force(After(env, d, j)).err.None?
      {
        assert After(env, c, j + 1) == After(env, d, j);
      }
    }
    if c.epoch < target && env.force(c).err.None? && Climbs(env, d, target, k - 1) {
      forall j | 0 <= j < k
        ensures After(env, c, j).epoch < target && env.force(After(env, c, j)).err.None?
      {
        assert j > 0 ==> After(env, c, j) == After(env, d, j - 1);
      }
    }
  }

  /** It returns without error after exactly k changes iff k is the first round that sees the target reached. */
  lemma {:induction false} SucceedsExactly(env: Environment, c: Chain, target: uint32, k: nat, fuel: nat)
    requires k <= fuel
    ensures Loop(env, c, target, fuel) == Some(Run(After(env, c, k), k, None)) <==>
            Climbs(env, c, target, k) && After(env, c, k).epoch >= target
    decreases fuel
  {
    if k > 0 {
      ClimbsStep(env, c, target, k);
      if c.epoch < target && env.force(c).err.None? {
        SucceedsExactly(env, env.force(c).chain, target, k - 1, fuel - 1);
      }
    }
  }

  /** It returns the error of its call number k + 1 iff that is the first failing call, made below the target. */
  lemma {:induction false} FailsExactly(
    env: Environment, c: Chain, target: uint32, k: nat, fuel: nat, message: string)
    requires k < fuel
    ensures Loop(env, c, target, fuel) == Some(Run(After(env, c, k + 1), k + 1, Some(External(message)))) <==>
            && Climbs(env, c, target, k) && After(env, c, k).epoch < target
            && env.force(After(env, c, k)).err == Some(message)
    decreases fuel
  {
    if k > 0 {
      ClimbsStep(env, c, target, k);
      if c.epoch < target && env.force(c).err.None? {
        FailsExactly(env, env.force(c).chain, target, k - 1, fuel - 1, message);
      }
    } else if fuel > 0 && c.epoch < target && env.force(c).err.None? {
      AtMostFuel(env, env.force(c).chain, target, fuel - 1);
      assert After(env, c, 1) == env.force(c).chain;
    }
  }

  /** Every finished run is of one of the two kinds above. */
  lemma {:induction false} AtMostFuel(env: Environment, c: Chain, target: uint32, fuel: nat)
    ensures Loop(env, c, target, fuel).Some? ==>
            var run := Loop(env, c, target, fuel).value;
            && run.forced <= fuel && run.chain == After(env, c, run.forced)
            && (run.err.Some? ==> run.forced > 0 && run.err.value.External?)
    decreases fuel
  {
    if fuel > 0 && c.epoch < target && env.force(c).err.None? {
      AtMostFuel(env, env.force(c).chain, target, fuel - 1);
    }
  }

  /** The loop goes on past any number of rounds exactly when every one of them succeeds without reaching the target. */
  lemma {:induction false} StillGoing(env: Environment, c: Chain, target: uint32, fuel: nat)
    ensures Loop(env, c, target, fuel).None? <==>
            Climbs(env, c, target, fuel) && After(env, c, fuel).epoch < target
    decreases fuel
  {
    if fuel > 0 {
      ClimbsStep(env, c, target, fuel);
      if c.epoch < target && env.force(c).err.None? {
        StillGoing(env, env.force(c).chain, target, fuel - 1);
      }
    }
  }

  /** An environment whose forced changes succeed without changing anything. */
  function Idle(): Environment {
    Obedient().(force := (c: Chain) => Reply(c, None))
  }

  /** Without the promise that epochs rise the loop need not end. */
  lemma {:induction false} NeedNotEnd(c: Chain, target: uint32, fuel: nat)
    requires c.epoch < target
    ensures Loop(Idle(), c, target, fuel).None?
    decreases fuel
  {
    if fuel > 0 {
      NeedNotEnd(c, target, fuel - 1);
    }
  }

  /** With it, the distance to the target bounds the forced changes, and success means the target is reached. */
  lemma {:induction false} Terminates(env: Environment, c: Chain, target: uint32, fuel: nat)
    requires ForceRaises(env)
    requires fuel >= target - c.epoch
    ensures Loop(env, c, target, fuel).Some?
    ensures var run := Loop(env, c, target, fuel).value;
            && (c.epoch < target ==> run.forced <= target - c.epoch)
            && (run.err.None? ==> run.chain.epoch >= target)
    decreases fuel
  {
    if c.epoch < target && env.force(c).err.None? {
      Terminates(env, env.force(c).chain, target, fuel - 1);
    }
  }

  /** When each change moves one epoch on, a success ends exactly at the target after exactly the distance. */
  lemma {:induction false} UnitSteps(env: Environment, c: Chain, target: uint32, fuel: nat)
    requires ForceRaisesByOne(env)
    requires c.epoch <= target && fuel >= target - c.epoch
    ensures Loop(env, c, target, fuel).Some?
    ensures var run := Loop(env, c, target, fuel).value;
            run.err.None? ==> run.chain.epoch == target && run.forced == target - c.epoch
    decreases fuel
  {
    if c.epoch < target && env.force(c).err.None? {
      UnitSteps(env, env.force(c).chain, target, fuel - 1);
    }
  }

  /**
   With a target other than zero, every forced change is made while the epoch is below it; when it
   is not below it to begin with, nothing is called and the error says so, and only then.
   */
  lemma {:induction false} ForcesOnlyBelowTarget(env: Environment, c: Chain, target: uint32, fuel: nat)
    requires target > 0 && ForceChange(env, c, target, fuel).Some?
    ensures var run := ForceChange(env, c, target, fuel).value;
            && (forall j :: 0 <= j < run.forced ==> After(env, c, j).epoch < target)
            && (c.epoch >= target <==> run == Run(c, 0, Some(TargetEpochTooLow(c.epoch, target))))
            && (run.err.Some? && run.err.value.TargetEpochTooLow? ==> c.epoch >= target)
  {
    if c.epoch < target {
      AtMostFuel(env, c, target, fuel);
      EpochsBelow(env, c, target, fuel);
    }
  }

  lemma {:induction false} EpochsBelow(env: Environment, c: Chain, target: uint32, fuel: nat)
    requires Loop(env, c, target, fuel).Some?
    ensures forall j :: 0 <= j < Loop(env, c, target, fuel).value.forced ==> After(env, c, j).epoch < target
    decreases fuel
  {
    if c.epoch < target {
      var d := env.force(c).chain;
      if env.force(c).err.None? {
        EpochsBelow(env, d, target, fuel - 1);
      }
      forall j | 0 <= j < Loop(env, c, target, fuel).value.forced
        ensures After(env, c, j).epoch < target
      {
        assert j > 0 ==> After(env, c, j) == After(env, d, j - 1);
      }
    }
  }

  lemma {:induction false} GoesOnIff(env: Environment, c: Chain, target: uint32, fuel: nat)
    requires target > 0 && c.epoch < target
    ensures ForceChange(env, c, target, fuel).None? <==>
            Climbs(env, c, target, fuel) && After(env, c, fuel).epoch < target
  {
    StillGoing(env, c, target, fuel);
  }

  /** The round that ends it: it sees the target reached, or its forced change fails. */
  predicate LastRound(env: Environment, c: Chain, target: uint32, k: nat) {
    After(env, c, k).epoch >= target || env.force(After(env, c, k)).err.Some?
  }

  /** It ends exactly if there is such a round. */
  lemma {:induction false} EndsIff(env: Environment, c: Chain, target: uint32)
    requires target > 0 && c.epoch < target
    ensures Ends(env, c, target) <==> exists k: nat :: LastRound(env, c, target, k)
  {
    if Ends(env, c, target) {
      var fuel: nat :| ForceChange(env, c, target, fuel).Some?;
      GoesOnIff(env, c, target, fuel);
      if Climbs(env, c, target, fuel) {
        assert LastRound(env, c, target, fuel);
      } else {
        var k: nat :| k < fuel && !(After(env, c, k).epoch < target && env.force(After(env, c, k)).err.None?);
        assert LastRound(env, c, target, k);
      }
    }
    if k: nat :| LastRound(env, c, target, k) {
      GoesOnIff(env, c, target, k + 1);
      assert k < k + 1;
      assert ForceChange(env, c, target, k + 1).Some?;
    }
  }

  lemma {:induction false} SameOutcome(env: Environment, c: Chain, target: uint32, fuel: nat, more: nat)
    requires fuel <= more && ForceChange(env, c, target, fuel).Some?
    ensures ForceChange(env, c, target, more) == ForceChange(env, c, target, fuel)
  {
    if target > 0 && c.epoch < target {
      FuelDoesNotMatter(env, c, target, fuel, more);
    }
  }

  lemma {:induction false} OutcomeOf(env: Environment, c: Chain, target: uint32, fuel: nat)
    requires ForceChange(env, c, target, fuel).Some?
    ensures Ends(env, c, target) && ForceChange(env, c, target, fuel) == Some(Outcome(env, c, target))
  {
    var other: nat :| ForceChange(env, c, target, other).Some? &&
                      ForceChange(env, c, target, other).value == Outcome(env, c, target);
    if fuel <= other {
      SameOutcome(env, c, target, fuel, other);
    } else {
      SameOutcome(env, c, target, other, fuel);
    }
  }

  /** Whenever it ends without error a target other than zero is reached, whatever the chain does. */
  lemma {:induction false} SuccessReachesTarget(env: Environment, c: Chain, target: uint32)
    requires Ends(env, c, target)
    ensures var run := Outcome(env, c, target);
            target > 0 && run.err.None? ==> c.epoch < target <= run.chain.epoch
  {
    var fuel: nat :| ForceChange(env, c, target, fuel).Some?;
    OutcomeOf(env, c, target, fuel);
    if target > 0 && c.epoch < target && Outcome(env, c, target).err.None? {
      LoopReachesTarget(env, c, target, fuel);
    }
  }

  lemma {:induction false} LoopReachesTarget(env: Environment, c: Chain, target: uint32, fuel: nat)
    requires Loop(env, c, target, fuel).Some? && Loop(env, c, target, fuel).value.err.None?
    ensures Loop(env, c, target, fuel).value.chain.epoch >= target
    decreases fuel
  {
    if c.epoch < target {
      LoopReachesTarget(env, env.force(c).chain, target, fuel - 1);
    }
  }

  /** When every success raises the epoch it always ends, within the distance to the target. */
  lemma {:induction false} RaisingEnds(env: Environment, c: Chain, target: uint32)
    requires ForceRaises(env)
    ensures Ends(env, c, target)
    ensures var run := Outcome(env, c, target);
            target > 0 ==> run.forced <= if c.epoch < target then target - c.epoch else 0
  {
    if target > 0 && c.epoch < target {
      Terminates(env, c, target, target);
    }
    OutcomeOf(env, c, target, target);
  }

  /** More fuel never changes the outcome of a run that has ended. */
  lemma {:induction false} FuelDoesNotMatter(env: Environment, c: Chain, target: uint32, fuel: nat, more: nat)
    requires fuel <= more && Loop(env, c, target, fuel).Some?
    ensures Loop(env, c, target, more) == Loop(env, c, target, fuel)
    decreases fuel
  {
    if c.epoch < target && env.force(c).err.None? {
      FuelDoesNotMatter(env, env.force(c).chain, target, fuel - 1, more - 1);
    }
  }
}
