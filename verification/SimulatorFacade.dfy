/**
 The facade behind the simulator's own endpoints (pkg/facade), in the form of its source: methods
 that call a chain they share with everybody else, proved against the specifications of the
 loop modules.
 */
module SimulatorFacade {
  import opened Wrappers
  import opened Integers
  import opened Bytes
  import opened ChainModel
  import opened Text
  import Base16
  import Base64Scanner
  import Decimal
  import KeyCodec
  import EpochLoop
  import ObserverPorts
  import StateOverwrite
  import TransactionLoop

  /** The handle on the chain and on the proxy that answers for it. */
  class ChainSimulator {
    const env: Environment
    const restApiInterfaces: map<uint32, string>
    var chain: Chain
    ghost var log: seq<Call>

    constructor (env: Environment, restApiInterfaces: map<uint32, string>, chain: Chain)
      ensures this.env == env && this.restApiInterfaces == restApiInterfaces
      ensures this.chain == chain && log == []
    {
      this.env, this.restApiInterfaces, this.chain, this.log := env, restApiInterfaces, chain, [];
    }

    method GenerateBlocks(numOfBlocks: int) returns (err: Option<string>)
      modifies this
      ensures Reply(chain, err) == env.generate(old(chain), numOfBlocks)
      ensures log == old(log) + [Generate(numOfBlocks)]
    {
      var r := env.generate(chain, numOfBlocks);
      chain, err, log := r.chain, r.err, log + [Generate(numOfBlocks)];
    }

    method ForceChangeOfEpoch() returns (err: Option<string>)
      modifies this
      ensures Reply(chain, err) == env.force(old(chain))
      ensures log == old(log) + [Force]
    {
      var r := env.force(chain);
      chain, err, log := r.chain, r.err, log + [Force];
    }

    method RemoveAccounts(address: string) returns (err: Option<string>)
      modifies this
      ensures Reply(chain, err) == env.remove(old(chain), [address])
      ensures log == old(log) + [Remove(address)]
    {
      var r := env.remove(chain, [address]);
      chain, err, log := r.chain, r.err, log + [Remove(address)];
    }

    method SetStateMultiple(states: seq<AddressState>) returns (err: Option<string>)
      modifies this
      ensures Reply(chain, err) == env.setState(old(chain), states)
      ensures log == old(log) + [SetState(states)]
    {
      var r := env.setState(chain, states);
      chain, err, log := r.chain, r.err, log + [SetState(states)];
    }

    method AddValidatorKeys(keys: seq<seq<byte>>) returns (err: Option<string>)
      modifies this
      ensures Reply(chain, err) == env.addKeys(old(chain), keys)
      ensures log == old(log) + [AddKeys(keys)]
    {
      var r := env.addKeys(chain, keys);
      chain, err, log := r.chain, r.err, log + [AddKeys(keys)];
    }

    /** A status request; it is not recorded. */
    method GetProcessedTransactionStatus(hash: string) returns (answer: Result<string, string>)
      modifies this
      ensures Poll(chain, answer) == env.poll(old(chain), hash)
      ensures log == old(log)
    {
      var p := env.poll(chain, hash);
      chain, answer := p.chain, p.answer;
    }
  }

  function Repeat(call: Call, n: nat): seq<Call> {
    seq(n, _ => call)
  }

  lemma {:induction false} RepeatStep(call: Call, n: nat)
    ensures [call] + Repeat(call, n) == Repeat(call, n + 1) == Repeat(call, n) + [call]
  {}

  class Facade {
    const simulator: ChainSimulator

    constructor (simulator: ChainSimulator)
      ensures this.simulator == simulator
    {
      this.simulator := simulator;
    }

    method GenerateBlocks(numOfBlocks: int) returns (err: Option<Error>)
      modifies simulator
      ensures numOfBlocks <= 0 ==>
        && err == Some(InvalidNumOfBlocks)
        && simulator.chain == old(simulator.chain) && simulator.log == old(simulator.log)
      ensures numOfBlocks > 0 ==>
        var r := simulator.env.generate(old(simulator.chain), numOfBlocks);
        && err == Lift(r.err) && simulator.chain == r.chain
        && simulator.log == old(simulator.log) + [Generate(numOfBlocks)]
    {
      if numOfBlocks <= 0 {
        return Some(InvalidNumOfBlocks);
      }
      var e := simulator.GenerateBlocks(numOfBlocks);
      err := Lift(e);
    }

    method SetStateMultiple(states: seq<AddressState>, noGenerate: bool) returns (err: Option<Error>)
      modifies simulator
      ensures var run := StateOverwrite.Set(simulator.env, old(simulator.chain), states, noGenerate);
              && err == run.err && simulator.chain == run.chain
              && simulator.log == old(simulator.log) + run.trace
    {
      var e := simulator.SetStateMultiple(states);
      if e.Some? || noGenerate {
        return Lift(e);
      }
      e := simulator.GenerateBlocks(1);
      assert old(simulator.log) + [SetState(states)] + [Generate(1)] ==
             old(simulator.log) + [SetState(states), Generate(1)];
      err := Lift(e);
    }

    method SetStateMultipleOverwrite(states: seq<AddressState>, noGenerate: bool) returns (err: Option<Error>)
      modifies simulator
      ensures var run := StateOverwrite.Overwrite(simulator.env, old(simulator.chain), states, noGenerate);
              && err == run.err && simulator.chain == run.chain
              && simulator.log == old(simulator.log) + run.trace
    {
      ghost var env, whole := simulator.env, StateOverwrite.RemoveAll(simulator.env, simulator.chain, states);
      ghost var start, done: seq<Call> := simulator.log, [];
      StateOverwrite.ResumedEnds(env, simulator.chain, states, done);
      for i := 0 to |states|
        invariant simulator.log == start + done
        invariant whole == StateOverwrite.Resumed(env, simulator.chain, states, i, done)
      {
        StateOverwrite.ResumedStep(env, simulator.chain, states, i, done);
        var e := simulator.RemoveAccounts(states[i].address);
        done := done + [Remove(states[i].address)];
        assert simulator.log == start + done;
        if e.Some? && !Contains(e.value, ACCOUNT_NOT_FOUND) {
          return Lift(e);
        }
      }
      StateOverwrite.ResumedEnds(env, simulator.chain, states, done);
      ghost var setting := StateOverwrite.Set(env, simulator.chain, states, noGenerate);
      assert start + done + setting.trace == start + (done + setting.trace);
      var e := simulator.SetStateMultiple(states);
      if e.Some? || noGenerate {
        return Lift(e);
      }
      assert [SetState(states), Generate(1)] == [SetState(states)] + [Generate(1)];
      assert start + done + [SetState(states)] + [Generate(1)] == start + done + setting.trace;
      e := simulator.GenerateBlocks(1);
      err := Lift(e);
    }

    /**
     The keys reach the simulator, in one call, exactly when all the entries decode; otherwise it is
     not called and the error is that of the first entry that does not.
     */
    method AddValidatorKeys(privateKeysBase64: seq<seq<byte>>) returns (err: Option<Error>)
      modifies simulator
      ensures KeyCodec.DecodeKeys(privateKeysBase64).Err? ==>
        && err == Some(BadKey(KeyCodec.DecodeKeys(privateKeysBase64).error))
        && simulator.chain == old(simulator.chain) && simulator.log == old(simulator.log)
      ensures KeyCodec.DecodeKeys(privateKeysBase64).Ok? ==>
        var keys := KeyCodec.DecodeKeys(privateKeysBase64).value;
        var r := simulator.env.addKeys(old(simulator.chain), keys);
        err == Lift(r.err) && simulator.chain == r.chain && simulator.log == old(simulator.log) + [AddKeys(keys)]
    {
      var validatorsPrivateKeys: seq<seq<byte>> := [];
      for idx := 0 to |privateKeysBase64|
        invariant simulator.chain == old(simulator.chain) && simulator.log == old(simulator.log)
        invariant |validatorsPrivateKeys| == idx
        invariant forall i :: 0 <= i < idx ==>
          KeyCodec.DecodeKey(privateKeysBase64[i]) == Ok(validatorsPrivateKeys[i])
      {
        var privateKeyHexBytes := Base64Scanner.DecodeString(privateKeysBase64[idx]);
        if privateKeyHexBytes.None? {
          var bad := KeyCodec.BadEntry(idx, KeyCodec.NotBase64);
          KeyCodec.FirstBadEntry(privateKeysBase64, bad);
          return Some(BadKey(bad));
        }
        var privateKeyBytes := Base16.Decode(privateKeyHexBytes.value);
        if privateKeyBytes.Err? {
          var bad := KeyCodec.BadEntry(idx, KeyCodec.NotHex(privateKeyBytes.error));
          KeyCodec.FirstBadEntry(privateKeysBase64, bad);
          return Some(BadKey(bad));
        }
        validatorsPrivateKeys := validatorsPrivateKeys + [privateKeyBytes.value];
      }
      KeyCodec.KeysPointwise(privateKeysBase64, validatorsPrivateKeys);
      var e := simulator.AddValidatorKeys(validatorsPrivateKeys);
      err := Lift(e);
    }

    /** All that is asked is that the loop ends; when it does is EpochLoop.EndsIff. */
    method ForceChangeOfEpoch(targetEpoch: uint32) returns (err: Option<Error>)
      requires EpochLoop.Ends(simulator.env, simulator.chain, targetEpoch)
      modifies simulator
      ensures var run := EpochLoop.Outcome(simulator.env, old(simulator.chain), targetEpoch);
              && err == run.err && simulator.chain == run.chain
              && simulator.log == old(simulator.log) + Repeat(Force, run.forced)
    {
      ghost var env := simulator.env;
      ghost var fuel: nat :| EpochLoop.ForceChange(env, simulator.chain, targetEpoch, fuel).Some?;
      EpochLoop.OutcomeOf(env, simulator.chain, targetEpoch, fuel);
      if targetEpoch == 0 {
        var e := simulator.ForceChangeOfEpoch();
        RepeatStep(Force, 0);
        assert Repeat(Force, 1) == [Force];
        return Lift(e);
      }
      var currentEpoch := simulator.chain.epoch;
      if currentEpoch >= targetEpoch {
        assert simulator.log == old(simulator.log) + Repeat(Force, 0);
        return Some(TargetEpochTooLow(currentEpoch, targetEpoch));
      }
      ghost var n := 0;
      ghost var whole := EpochLoop.Loop(env, simulator.chain, targetEpoch, fuel).value;
      assert simulator.log == old(simulator.log) + Repeat(Force, 0);
      while currentEpoch < targetEpoch
        invariant currentEpoch == simulator.chain.epoch && 0 <= n <= fuel
        invariant var rest := EpochLoop.Loop(env, simulator.chain, targetEpoch, fuel - n);
                  rest.Some? && whole == rest.value.(forced := n + rest.value.forced)
        invariant simulator.log == old(simulator.log) + Repeat(Force, n)
        decreases fuel - n
      {
        var e := simulator.ForceChangeOfEpoch();
        RepeatStep(Force, n);
        n := n + 1;
        assert simulator.log == old(simulator.log) + Repeat(Force, n);
        if e.Some? {
          return Lift(e);
        }
        currentEpoch := simulator.chain.epoch;
      }
      err := None;
    }

    method GenerateBlocksUntilTransactionIsProcessed(txHash: string, maxNumOfBlocksToGenerate: int)
      returns (err: Option<Error>)
      modifies simulator
      ensures var run := TransactionLoop.Loop(simulator.env, old(simulator.chain), txHash, maxNumOfBlocksToGenerate);
              && err == run.err && simulator.chain == run.chain
              && simulator.log == old(simulator.log) +
                   Repeat(Generate(1), TransactionLoop.BlockCalls(simulator.env, old(simulator.chain), txHash, run))
    {
      ghost var env := simulator.env;
      ghost var whole := TransactionLoop.Loop(env, simulator.chain, txHash, maxNumOfBlocksToGenerate);
      var i := 0;
      while i < maxNumOfBlocksToGenerate
        invariant 0 <= i && simulator.chain == TransactionLoop.After(env, old(simulator.chain), txHash, i)
        invariant var rest := TransactionLoop.Loop(env, simulator.chain, txHash, maxNumOfBlocksToGenerate - i);
                  whole == rest.(blocks := i + rest.blocks)
        invariant simulator.log == old(simulator.log) + Repeat(Generate(1), i)
        decreases maxNumOfBlocksToGenerate - i
      {
        var txStatusInfo := simulator.GetProcessedTransactionStatus(txHash);
        if txStatusInfo.Err? {
          return Some(External(txStatusInfo.error));
        }
        if txStatusInfo.value != PENDING {
          return None;
        }
        var e := GenerateBlocks(1);
        RepeatStep(Generate(1), i);
        TransactionLoop.AfterOneMore(env, old(simulator.chain), txHash, i);
        assert simulator.log == old(simulator.log) + Repeat(Generate(1), i + 1);
        if e.Some? {
          return e;
        }
        i := i + 1;
      }
      return Some(PendingTransaction);
    }

    /** The map is visited in any order: only which of several bad interfaces is reported depends on it. */
    method GetObserversInfo() returns (response: map<uint32, int64>, err: Option<Error>)
      ensures err.None? <==> forall s :: s in simulator.restApiInterfaces ==>
        ObserverPorts.Port(simulator.restApiInterfaces[s]).Ok?
      ensures err.None? ==> ReportsPorts(simulator.restApiInterfaces, response)
      ensures err.Some? ==> response == map[]
      ensures err.Some? ==>
        exists s :: s in simulator.restApiInterfaces &&
          match ObserverPorts.Port(simulator.restApiInterfaces[s])
          case Err(Missing) => err.value == PortMissing(s)
          case Err(NotANumber) => err.value == PortNotANumber(s)
          case Ok(_) => false
    {
      var interfaces := simulator.restApiInterfaces;
      var remaining := interfaces.Keys;
      response := map[];
      while remaining != {}
        invariant remaining <= interfaces.Keys
        invariant response.Keys == interfaces.Keys - remaining
        invariant forall s :: s in response ==> ObserverPorts.Port(interfaces[s]) == Ok(response[s])
        decreases remaining
      {
        var shardID :| shardID in remaining;
        remaining := remaining - {shardID};
        match ObserverPorts.Port(interfaces[shardID]) {
          case Err(Missing) =>
            return map[], Some(PortMissing(shardID));
          case Err(NotANumber) =>
            return map[], Some(PortNotANumber(shardID));
          case Ok(port) =>
            response := response[shardID := port];
        }
      }
      err := None;
    }
  }

  /** What a successful answer says about the interfaces: the same shards, each with its port. */
  ghost predicate ReportsPorts(interfaces: map<uint32, string>, response: map<uint32, int64>) {
    && response.Keys == interfaces.Keys
    && forall s :: s in response ==> ObserverPorts.Port(interfaces[s]) == Ok(response[s])
  }

  /**
   Interfaces printed as "host:port", with hosts that hold no colon, are answered with exactly the
   ports they were printed from.
   */
  lemma {:induction false} PrintedPortsAreReported(
    interfaces: map<uint32, string>, hosts: map<uint32, string>, ports: map<uint32, int64>,
    response: map<uint32, int64>)
    requires interfaces.Keys == hosts.Keys == ports.Keys
    requires forall s :: s in interfaces ==>
      ':' !in hosts[s] && interfaces[s] == hosts[s] + ":" + Decimal.Itoa(ports[s])
    ensures ReportsPorts(interfaces, response) <==> response == ports
  {
    forall s | s in interfaces
      ensures ObserverPorts.Port(interfaces[s]) == Ok(ports[s])
    {
      ObserverPorts.PortRoundTrip(hosts[s], ports[s]);
    }
  }
}
