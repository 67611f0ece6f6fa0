/** What SetStateMultiple and SetStateMultipleOverwrite compute, and with which calls on the chain. */
module StateOverwrite {
  import opened Wrappers
  import opened ChainModel

  /** trace lists the calls made on the chain, in order. */
  datatype Run = Run(chain: Chain, trace: seq<Call>, err: Option<Error>)

  function Set(env: Environment, c: Chain, states: seq<AddressState>, noGenerate: bool): Run {
    var r := env.setState(c, states);
    if r.err.Some? then Run(r.chain, [SetState(states)], Lift(r.err))
    else if noGenerate then Run(r.chain, [SetState(states)], None)
    else
      var g := env.generate(r.chain, 1);
      Run(g.chain, [SetState(states), Generate(1)], Lift(g.err))
  }

  /** The removal loop: one call per element, stopped by the first error that is not "account was not found". */
  function RemoveAll(env: Environment, c: Chain, states: seq<AddressState>): Run
    decreases |states|
  {
    if states == [] then Run(c, [], None)
    else
      var r := env.remove(c, [states[0].address]);
      if !Passed(r.err) then Run(r.chain, [Remove(states[0].address)], Lift(r.err))
      else
        var run := RemoveAll(env, r.chain, states[1..]);
        run.(trace := [Remove(states[0].address)] + run.trace)
  }

  function Overwrite(env: Environment, c: Chain, states: seq<AddressState>, noGenerate: bool): Run {
    var removed := RemoveAll(env, c, states);
    if removed.err.Some? then removed
    else
      var run := Set(env, removed.chain, states, noGenerate);
      run.(trace := removed.trace + run.trace)
  }

  /** The run of a removal loop that has already made the calls done and still has states[i..] to go through. */
  function Resumed(env: Environment, c: Chain, states: seq<AddressState>, i: nat, done: seq<Call>): Run
    requires i <= |states|
  {
    var rest := RemoveAll(env, c, states[i..]);
    rest.(trace := done + rest.trace)
  }

  lemma {:induction false} ResumedStep(env: Environment, c: Chain, states: seq<AddressState>, i: nat, done: seq<Call>)
    requires i < |states|
    ensures var r := env.remove(c, [states[i].address]);
            Resumed(env, c, states, i, done) ==
            if Passed(r.err) then Resumed(env, r.chain, states, i + 1, done + [Remove(states[i].address)])
            else Run(r.chain, done + [Remove(states[i].address)], Lift(r.err))
  {
    var r := env.remove(c, [states[i].address]);
    assert states[i..][1..] == states[i + 1..];
    var tail := RemoveAll(env, r.chain, states[i + 1..]).trace;
    assert done + ([Remove(states[i].address)] + tail) == done + [Remove(states[i].address)] + tail;
  }

  lemma {:induction false} ResumedEnds(env: Environment, c: Chain, states: seq<AddressState>, done: seq<Call>)
    ensures Resumed(env, c, states, 0, []) == RemoveAll(env, c, states)
    ensures Resumed(env, c, states, |states|, done) == Run(c, done, None)
  {
    assert states[0..] == states && states[|states|..] == [];
    assert [] + RemoveAll(env, c, states).trace == RemoveAll(env, c, states).trace;
    assert done + [] == done;
  }

  function Removals(states: seq<AddressState>): (r: seq<Call>)
    ensures |r| == |states| && forall i :: 0 <= i < |states| ==> r[i] == Remove(states[i].address)
  {
    seq(|states|, i requires 0 <= i < |states| => Remove(states[i].address))
  }

  /** The chain after the removal calls for the first k elements, whatever they answered. */
  function After(env: Environment, c: Chain, states: seq<AddressState>, k: nat): Chain
    requires k <= |states|
    decreases k
  {
    if k == 0 then c
    else After(env, env.remove(c, [states[0].address]).chain, states[1..], k - 1)
  }

  /** What the removal call for element k answers. */
  function Answer(env: Environment, c: Chain, states: seq<AddressState>, k: nat): Option<string>
    requires k < |states|
  {
    env.remove(After(env, c, states, k), [states[k].address]).err
  }

  ghost predicate AllPassed(env: Environment, c: Chain, states: seq<AddressState>, k: nat)
    requires k <= |states|
  {
    forall j :: 0 <= j < k ==> Passed(Answer(env, c, states, j))
  }

  lemma {:induction false} AllPassedStep(env: Environment, c: Chain, states: seq<AddressState>, k: nat)
    requires 0 < k <= |states|
    ensures var d := env.remove(c, [states[0].address]).chain;
            AllPassed(env, c, states, k) <==>
            Passed(env.remove(c, [states[0].address]).err) && AllPassed(env, d, states[1..], k - 1)
  {
    var d := env.remove(c, [states[0].address]).chain;
    forall j | 0 < j < k
      ensures Answer(env, c, states, j) == Answer(env, d, states[1..], j - 1)
    {}
    assert Answer(env, c, states, 0) == env.remove(c, [states[0].address]).err;
    if AllPassed(env, c, states, k) {
      forall j | 0 <= j < k - 1
        ensures Passed(Answer(env, d, states[1..], j))
      {
        assert Answer(env, c, states, j + 1) == Answer(env, d, states[1..], j);
      }
    }
  }

  /** The removal phase passes iff no call answered an error other than not-found; it then made every call. */
  lemma {:induction false} RemovalPassesExactly(env: Environment, c: Chain, states: seq<AddressState>)
    ensures RemoveAll(env, c, states).err.None? <==> AllPassed(env, c, states, |states|)
    ensures RemoveAll(env, c, states).err.None? ==>
            RemoveAll(env, c, states) == Run(After(env, c, states, |states|), Removals(states), None)
    decreases |states|
  {
    if states != [] {
      AllPassedStep(env, c, states, |states|);
      RemovalPassesExactly(env, env.remove(c, [states[0].address]).chain, states[1..]);
      assert Removals(states) == [Remove(states[0].address)] + Removals(states[1..]);
    }
  }

  lemma {:induction false} RemoveAllFailsExactly(
    env: Environment, c: Chain, states: seq<AddressState>, k: nat, message: string)
    requires k < |states|
    ensures RemoveAll(env, c, states) ==
              Run(After(env, c, states, k + 1), Removals(states[..k + 1]), Some(External(message))) <==>
            AllPassed(env, c, states, k) && Answer(env, c, states, k) == Some(message) && !Passed(Some(message))
    decreases |states|
  {
    var r := env.remove(c, [states[0].address]);
    assert Removals(states[..k + 1]) == [Remove(states[0].address)] + Removals(states[1..][..k]);
    if k > 0 {
      AllPassedStep(env, c, states, k);
      if Passed(r.err) {
        RemoveAllFailsExactly(env, r.chain, states[1..], k - 1, message);
        RemovalTrace(env, r.chain, states[1..]);
      }
    } else if Passed(r.err) {
      RemovalTrace(env, r.chain, states[1..]);
      assert After(env, c, states, 1) == r.chain;
    }
  }

  /**
   The call fails in its removal phase at element k iff that is the first element answered by an
   error whose message does not hold the text; the calls made are then exactly the removals up
   to it: nothing has been set and no block generated.
   */
  lemma {:induction false} RemovalFailsExactly(
    env: Environment, c: Chain, states: seq<AddressState>, noGenerate: bool, k: nat, message: string)
    requires k < |states|
    ensures Overwrite(env, c, states, noGenerate) ==
              Run(After(env, c, states, k + 1), Removals(states[..k + 1]), Some(External(message))) <==>
            && AllPassed(env, c, states, k) && Answer(env, c, states, k) == Some(message)
            && forall i: nat :: i + 21 <= |message| ==> message[i..][..21] != "account was not found"
  {
    RemoveAllFailsExactly(env, c, states, k, message);
    RemovalPassesExactly(env, c, states);
    PassedIff(message);
  }

  /** The whole call succeeds iff every removal passes, the set succeeds and, unless switched off, the block. */
  lemma {:induction false} OverwriteSucceedsExactly(
    env: Environment, c: Chain, states: seq<AddressState>, noGenerate: bool)
    ensures var run := Overwrite(env, c, states, noGenerate);
            var reply := env.setState(After(env, c, states, |states|), states);
            run.err.None? <==>
            && AllPassed(env, c, states, |states|) && reply.err.None?
            && (noGenerate || env.generate(reply.chain, 1).err.None?)
    ensures var run := Overwrite(env, c, states, noGenerate);
            run.err.None? ==>
            run.trace == Removals(states) + [SetState(states)] + (if noGenerate then [] else [Generate(1)])
  {
    RemovalPassesExactly(env, c, states);
    assert Removals(states) + [SetState(states)] + [Generate(1)] == Removals(states) + [SetState(states), Generate(1)];
    assert Removals(states) + [SetState(states)] + [] == Removals(states) + [SetState(states)];
  }

  /** It passes on the error of its set iff all removals passed and the set failed so; no block is then generated. */
  lemma {:induction false} SettingFailsExactly(
    env: Environment, c: Chain, states: seq<AddressState>, noGenerate: bool, message: string)
    ensures var reply := env.setState(After(env, c, states, |states|), states);
            Overwrite(env, c, states, noGenerate) ==
              Run(reply.chain, Removals(states) + [SetState(states)], Some(External(message))) <==>
            AllPassed(env, c, states, |states|) && reply.err == Some(message)
  {
    RemovalPassesExactly(env, c, states);
    RemovalTrace(env, c, states);
    var removed, run := RemoveAll(env, c, states), Overwrite(env, c, states, noGenerate);
    if removed.err.Some? {
      assert |run.trace| <= |states|;
    } else {
      var setting := Set(env, removed.chain, states, noGenerate);
      assert run.trace == Removals(states) + setting.trace;
      assert |run.trace| == |states| + |setting.trace|;
    }
  }

  lemma {:induction false} RemovalTrace(env: Environment, c: Chain, states: seq<AddressState>)
    ensures var run := RemoveAll(env, c, states);
            && (run.err.Some? ==> |run.trace| > 0 && run.err.value.External?)
            && |run.trace| <= |states|
            && run.trace == Removals(states[..|run.trace|])
            && run.chain == After(env, c, states, |run.trace|)
    decreases |states|
  {
    if states != [] {
      var r := env.remove(c, [states[0].address]);
      RemovalTrace(env, r.chain, states[1..]);
      var n := |RemoveAll(env, r.chain, states[1..]).trace|;
      assert Removals(states[..n + 1]) == [Remove(states[0].address)] + Removals(states[1..][..n]);
      assert Removals(states[..1]) == [Remove(states[0].address)];
    }
  }

  /* What the calls do to the accounts, given the contract KeepsAccounts. */

  lemma {:induction false} ApplyTouchesListed(accounts: map<string, Account>, states: seq<AddressState>, a: string)
    requires a !in Addresses(states)
    ensures a in ApplyAll(accounts, states) <==> a in accounts
    ensures a in accounts ==> ApplyAll(accounts, states)[a] == accounts[a]
    decreases |states|
  {
    if states != [] {
      assert states[0] in states && forall st :: st in states[1..] ==> st in states;
      ApplyTouchesListed(Apply(accounts, states[0]), states[1..], a);
    }
  }

  lemma {:induction false} ApplyKeepsOthers(accounts: map<string, Account>, states: seq<AddressState>)
    ensures ApplyAll(accounts, states) - Addresses(states) == accounts - Addresses(states)
  {
    forall a | a !in Addresses(states)
      ensures a in ApplyAll(accounts, states) <==> a in accounts
      ensures a in accounts ==> ApplyAll(accounts, states)[a] == accounts[a]
    {
      ApplyTouchesListed(accounts, states, a);
    }
  }

  /** A removal phase that passes erases the listed accounts and no other. */
  lemma {:induction false} RemovalErases(env: Environment, c: Chain, states: seq<AddressState>)
    requires KeepsAccounts(env)
    ensures var run := RemoveAll(env, c, states);
            run.err.None? ==> run.chain.accounts == c.accounts - Addresses(states)
    decreases |states|
  {
    if states == [] {
      assert c.accounts - Addresses(states) == c.accounts;
    } else {
      var a := states[0].address;
      var r := env.remove(c, [a]);
      RemovalErases(env, r.chain, states[1..]);
      assert states == [states[0]] + states[1..];
      assert Addresses(states) == {a} + Addresses(states[1..]);
      assert (c.accounts - {a}) - Addresses(states[1..]) == c.accounts - Addresses(states);
    }
  }

  /** All removals come before all sets: the accounts are the listed states applied to what is left of the others. */
  lemma {:induction false} OverwriteAccounts(env: Environment, c: Chain, states: seq<AddressState>)
    requires KeepsAccounts(env)
    ensures var run := Overwrite(env, c, states, true);
            run.err.None? ==> run.chain.accounts == ApplyAll(c.accounts - Addresses(states), states)
  {
    RemovalErases(env, c, states);
  }

  /** The accounts afterwards do not depend on what the listed accounts held before. */
  lemma {:induction false} OverwriteForgetsThePast(env: Environment, c: Chain, d: Chain, states: seq<AddressState>)
    requires KeepsAccounts(env)
    requires c.accounts - Addresses(states) == d.accounts - Addresses(states)
    ensures var x, y := Overwrite(env, c, states, true), Overwrite(env, d, states, true);
            x.err.None? && y.err.None? ==> x.chain.accounts == y.chain.accounts
  {
    OverwriteAccounts(env, c, states);
    OverwriteAccounts(env, d, states);
  }

  /** Overwriting is setting on the chain with every listed account erased. */
  lemma {:induction false} OverwriteIsSetOnErased(env: Environment, c: Chain, states: seq<AddressState>)
    requires KeepsAccounts(env)
    ensures var x := Overwrite(env, c, states, true);
            var y := Set(env, c.(accounts := c.accounts - Addresses(states)), states, true);
            x.err.None? && y.err.None? ==> x.chain.accounts == y.chain.accounts
  {
    OverwriteAccounts(env, c, states);
  }

  /** Accounts that are not listed keep their value. */
  lemma {:induction false} OverwriteKeepsOthers(env: Environment, c: Chain, states: seq<AddressState>)
    requires KeepsAccounts(env)
    ensures var run := Overwrite(env, c, states, true);
            run.err.None? ==> run.chain.accounts - Addresses(states) == c.accounts - Addresses(states)
  {
    OverwriteAccounts(env, c, states);
    ApplyKeepsOthers(c.accounts - Addresses(states), states);
    assert (c.accounts - Addresses(states)) - Addresses(states) == c.accounts - Addresses(states);
  }

  /** A second identical call leaves the accounts as the first one did. */
  lemma {:induction false} OverwriteIsIdempotent(env: Environment, c: Chain, states: seq<AddressState>)
    requires KeepsAccounts(env)
    ensures var once := Overwrite(env, c, states, true);
            var twice := Overwrite(env, once.chain, states, true);
            once.err.None? && twice.err.None? ==> twice.chain.accounts == once.chain.accounts
  {
    OverwriteKeepsOthers(env, c, states);
    var once := Overwrite(env, c, states, true);
    if once.err.None? {
      OverwriteForgetsThePast(env, once.chain, c, states);
    }
  }

  /** The generating call is the noGenerate call followed, when that succeeded, by one block. */
  lemma {:induction false} GenerateComesLast(env: Environment, c: Chain, states: seq<AddressState>)
    ensures var deferred := Overwrite(env, c, states, true);
            Overwrite(env, c, states, false) ==
            if deferred.err.Some? then deferred
            else
              var g := env.generate(deferred.chain, 1);
              Run(g.chain, deferred.trace + [Generate(1)], Lift(g.err))
  {
    var removed := RemoveAll(env, c, states);
    if removed.err.None? {
      assert removed.trace + [SetState(states)] + [Generate(1)] ==
             removed.trace + [SetState(states), Generate(1)];
    }
  }

  /** Without the removals, old keys survive: plain setting depends on the past where overwriting does not. */
  lemma {:induction false} SetRemembersThePast(env: Environment, c: Chain, st: AddressState, k: string)
    requires KeepsAccounts(env) && Set(env, c, [st], true).err.None?
    requires st.address in c.accounts && k in c.accounts[st.address].keys && k !in st.keys
    ensures st.address in Set(env, c, [st], true).chain.accounts
    ensures k in Set(env, c, [st], true).chain.accounts[st.address].keys
  {
    assert ApplyAll(Apply(c.accounts, st), [st][1..]) == Apply(c.accounts, st);
  }
}
