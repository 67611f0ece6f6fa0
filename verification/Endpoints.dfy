/** How the endpoints turn request text into the arguments of the facade (pkg/proxy/api). */
module Endpoints {
  import opened Wrappers
  import opened Integers
  import opened ChainModel
  import opened SimulatorFacade
  import Decimal
  import EpochLoop
  import TransactionLoop

  const MAX_NUM_OF_BLOCKS_TO_GENERATE_UNTIL_TX_PROCESSED := 20

  /** What a request comes to: refused before the facade is called, or the facade's answer. */
  datatype Response = BadRequest | Answered(err: Option<Error>)

  /** The targetEpoch parameter; leaving it out is asking for zero. */
  function TargetEpoch(query: string): Option<int64> {
    if query == "" then Some(0) else Decimal.Atoi(query)
  }

  /** The maxNumBlocks parameter; leaving it out, or giving no number, is asking for twenty. */
  function MaxNumBlocks(query: string): int64 {
    match (if query == "" then None else Decimal.Atoi(query))
    case None => MAX_NUM_OF_BLOCKS_TO_GENERATE_UNTIL_TX_PROCESSED
    case Some(value) => value
  }

  /** What an epoch request answers and leaves behind, when the facade's call ends. */
  ghost function EpochRequest(env: Environment, c: Chain, query: string): (Response, Chain)
    requires TargetEpoch(query).Some? ==> EpochLoop.Ends(env, c, ToUint32(TargetEpoch(query).value))
  {
    match TargetEpoch(query)
    case None => (BadRequest, c)
    case Some(v) =>
      var run := EpochLoop.Outcome(env, c, ToUint32(v));
      (Answered(run.err), run.chain)
  }

  class EndpointsProcessor {
    const facade: Facade

    constructor (facade: Facade)
      ensures this.facade == facade
    {
      this.facade := facade;
    }

    method ForceEpochChange(targetEpochQuery: string) returns (response: Response)
      requires TargetEpoch(targetEpochQuery).Some? ==>
        var target := ToUint32(TargetEpoch(targetEpochQuery).value);
        EpochLoop.Ends(facade.simulator.env, facade.simulator.chain, target)
      modifies facade.simulator
      ensures (response, facade.simulator.chain) ==
              EpochRequest(facade.simulator.env, old(facade.simulator.chain), targetEpochQuery)
    {
      var epoch := TargetEpoch(targetEpochQuery);
      if epoch.None? {
        return BadRequest;
      }
      var err := facade.ForceChangeOfEpoch(ToUint32(epoch.value));
      response := Answered(err);
    }

    method GenerateBlocks(num: string) returns (response: Response)
      modifies facade.simulator
      ensures Decimal.Atoi(num).None? ==>
        response == BadRequest && facade.simulator.chain == old(facade.simulator.chain)
      ensures Decimal.Atoi(num).Some? && Decimal.Atoi(num).value <= 0 ==>
        response == Answered(Some(InvalidNumOfBlocks)) && facade.simulator.chain == old(facade.simulator.chain)
      ensures Decimal.Atoi(num).Some? && Decimal.Atoi(num).value > 0 ==>
        var r := facade.simulator.env.generate(old(facade.simulator.chain), Decimal.Atoi(num).value);
        response == Answered(Lift(r.err)) && facade.simulator.chain == r.chain
    {
      if num == "" {
        return BadRequest;
      }
      var n := Decimal.Atoi(num);
      if n.None? {
        return BadRequest;
      }
      var err := facade.GenerateBlocks(n.value);
      response := Answered(err);
    }

    method GenerateBlocksUntilTransactionProcessed(txHash: string, maxNumBlocksQuery: string)
      returns (response: Response)
      modifies facade.simulator
      ensures var run := TransactionLoop.Loop(
                facade.simulator.env, old(facade.simulator.chain), txHash, MaxNumBlocks(maxNumBlocksQuery));
              response == Answered(run.err) && facade.simulator.chain == run.chain
    {
      var err := facade.GenerateBlocksUntilTransactionIsProcessed(txHash, MaxNumBlocks(maxNumBlocksQuery));
      response := Answered(err);
    }
  }

  /** The facade is asked for the number in the request exactly when that is an unsigned 32-bit number. */
  lemma {:induction false} NarrowingKeepsIff(v: int64)
    ensures TargetEpoch(Decimal.Itoa(v)) == Some(v)
    ensures ToUint32(v) == v <==> 0 <= v < TWO_32
  {
    Decimal.AtoiAfterItoa(v);
    Decimal.DigitsRoundTrip(if v < 0 then 0 - v else v);
    assert Decimal.Itoa(v) != "";
  }

  /**
   The request for v runs the facade on the one unsigned 32-bit number that differs from v by whole
   turns of 2^32, be v negative or too large.
   */
  lemma {:induction false} RequestRunsNarrowed(env: Environment, c: Chain, v: int64, t: uint32, turns: int)
    requires v == t + turns * 0x1_0000_0000 && EpochLoop.Ends(env, c, t)
    ensures TargetEpoch(Decimal.Itoa(v)) == Some(v) && ToUint32(v) == t
    ensures var run := EpochLoop.Outcome(env, c, t);
            EpochRequest(env, c, Decimal.Itoa(v)) == (Answered(run.err), run.chain)
  {
    NarrowingKeepsIff(v);
    NarrowedIsUnique(v, t, turns);
  }

  /** A text that is neither empty nor a number changes nothing. */
  lemma {:induction false} BadRequestIff(env: Environment, c: Chain, query: string)
    requires TargetEpoch(query).Some? ==> EpochLoop.Ends(env, c, ToUint32(TargetEpoch(query).value))
    ensures EpochRequest(env, c, query).0 == BadRequest <==> query != "" && Decimal.Atoi(query).None?
    ensures EpochRequest(env, c, query).0 == BadRequest ==> EpochRequest(env, c, query).1 == c
  {}

  /**
   A request that succeeds leaves the chain at or past the epoch it names exactly when that is
   below 2^32; from there on the number is narrowed and the chain stops short of it.
   */
  lemma {:induction false} RequestedEpochReachedIff(env: Environment, c: Chain, query: string)
    requires TargetEpoch(query).Some? && EpochLoop.Ends(env, c, ToUint32(TargetEpoch(query).value))
    ensures var v := TargetEpoch(query).value;
            var run := EpochLoop.Outcome(env, c, ToUint32(v));
            run.err.None? ==> (run.chain.epoch >= v <==> v < TWO_32)
  {
    var v := TargetEpoch(query).value;
    var target := ToUint32(v);
    EpochLoop.SuccessReachesTarget(env, c, target);
    assert 0 <= v < TWO_32 ==> target == v;
  }

  /** Asking for epoch 2^32 is asking for zero: one forced change and success, 2^32 being out of reach. */
  lemma {:induction false} NarrowedToZero(env: Environment, c: Chain)
    requires env.force(c).err.None?
    ensures var v := TWO_32;
            && EpochLoop.Ends(env, c, ToUint32(v))
            && EpochLoop.Outcome(env, c, ToUint32(v)) == EpochLoop.Run(env.force(c).chain, 1, None)
  {
    EpochLoop.OutcomeOf(env, c, 0, 0);
  }

  /** The budget of a request: the number it gives, or twenty; and its target: the number, or zero when left out. */
  lemma {:induction false} ArgumentsOfRequest(query: string, v: int64)
    ensures MaxNumBlocks(Decimal.Itoa(v)) == v && TargetEpoch(Decimal.Itoa(v)) == Some(v)
    ensures Decimal.Atoi(query).None? ==> MaxNumBlocks(query) == 20
    ensures TargetEpoch(query).None? <==> query != "" && Decimal.Atoi(query).None?
    ensures Decimal.Atoi(query).Some? ==> Some(MaxNumBlocks(query)) == TargetEpoch(query) == Decimal.Atoi(query)
    ensures TargetEpoch("") == Some(0)
  {
    NarrowingKeepsIff(v);
    Decimal.AtoiAfterItoa(v);
  }

  /** A transaction request spends at most its budget; by default it is done within twenty blocks. */
  lemma {:induction false} BudgetHolds(env: Environment, c: Chain, hash: string, max: int)
    ensures var run := TransactionLoop.Loop(env, c, hash, max);
            && run.blocks <= (if max < 0 then 0 else max)
            && (run.err.None? ==> run.blocks < max)
    decreases max
  {
    if max > 0 && TransactionLoop.RoundPasses(env, c, hash) {
      BudgetHolds(env, TransactionLoop.Next(env, c, hash), hash, max - 1);
    }
  }
}
