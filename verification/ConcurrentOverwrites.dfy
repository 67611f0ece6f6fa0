/**
 What overwriting means on a chain that others use at the same time: the removals and the set are
 separate calls, and what comes back between them survives.
 */
module ConcurrentOverwrites {
  import opened Wrappers
  import opened ChainModel
  import opened ConcurrentSystem
  import G = GeneratorModel
  import StateOverwrite

  /* The request on its own */

  lemma {:induction false} AloneSets(env: Environment, c: Chain, t: Thread) returns (n: nat)
    requires t.request.Overwrite? && t.at == Setting
    ensures var run := StateOverwrite.Set(env, c, t.request.states, t.request.noGenerate);
            Alone(env, c, t, n).0 == run.chain && Alone(env, c, t, n).1.at == Done(run.err)
  {
    var (d, u) := AdvanceThread(env, c, t);
    if u.at == AddingBlock {
      n := 2;
      var (e, v) := AdvanceThread(env, d, u);
      assert Alone(env, d, u, 1) == Alone(env, e, v, 0);
    } else {
      n := 1;
      assert Alone(env, c, t, 1) == Alone(env, d, u, 0);
    }
  }

  lemma {:induction false} AloneFrom(env: Environment, c: Chain, t: Thread) returns (n: nat)
    requires t.request.Overwrite? && t.at == Removing && t.rounds <= |t.request.states|
    ensures var states, noGenerate := t.request.states, t.request.noGenerate;
            var removed := StateOverwrite.RemoveAll(env, c, states[t.rounds..]);
            var run := if removed.err.Some? then removed
                       else StateOverwrite.Set(env, removed.chain, states, noGenerate);
            Alone(env, c, t, n).0 == run.chain && Alone(env, c, t, n).1.at == Done(run.err)
    decreases |t.request.states| - t.rounds
  {
    var states := t.request.states;
    var (d, u) := AdvanceThread(env, c, t);
    if u.at == Setting {
      assert states[t.rounds..] == [];
      var m := AloneSets(env, d, u);
      n := m + 1;
    } else {
      assert states[t.rounds..][0] == states[t.rounds] && states[t.rounds..][1..] == states[t.rounds + 1..];
      if u.at == Removing {
        var m := AloneFrom(env, d, u);
        n := m + 1;
      } else {
        n := 1;
        assert Alone(env, c, t, 1) == Alone(env, d, u, 0);
      }
    }
  }

  /** Left alone, the small steps compute what SetStateMultipleOverwrite of the facade is specified to compute. */
  lemma {:induction false} AloneOverwrites(env: Environment, c: Chain, states: seq<AddressState>, noGenerate: bool)
    returns (n: nat)
    ensures var run := StateOverwrite.Overwrite(env, c, states, noGenerate);
            var (d, t) := Alone(env, c, Begin(Request.Overwrite(states, noGenerate)), n);
            d == run.chain && t.at == Done(run.err)
  {
    assert states[0..] == states;
    n := AloneFrom(env, c, Begin(Request.Overwrite(states, noGenerate)));
  }

  /* What a set leaves of what was there */

  function Merge(under: Account, over: Account): Account {
    Account(under.fields + over.fields, under.keys + over.keys)
  }

  const NOTHING := Account(map[], map[])

  function Held(accounts: map<string, Account>, address: string): Account {
    if address in accounts then accounts[address] else NOTHING
  }

  /** What the listed states alone make of an address. */
  function Listed(states: seq<AddressState>, address: string): Account {
    Held(ApplyAll(map[], states), address)
  }

  /** With no address listed twice, that is just the state given for it. */
  lemma {:induction false} ListedOfDistinct(states: seq<AddressState>, i: nat)
    requires i < |states|
    requires forall j :: 0 <= j < |states| && j != i ==> states[j].address != states[i].address
    ensures Listed(states, states[i].address) == Account(states[i].fields, states[i].keys)
  {
    LastOneDecides(map[], states, i);
  }

  lemma {:induction false} LastOneDecides(accounts: map<string, Account>, states: seq<AddressState>, i: nat)
    requires i < |states| && states[i].address !in accounts
    requires forall j :: 0 <= j < |states| && j != i ==> states[j].address != states[i].address
    ensures Held(ApplyAll(accounts, states), states[i].address) == Account(states[i].fields, states[i].keys)
    decreases |states|
  {
    var st, rest := states[0], states[1..];
    assert forall j :: 0 <= j < |rest| ==> rest[j] == states[j + 1];
    if i > 0 {
      LastOneDecides(Apply(accounts, st), rest, i - 1);
    } else {
      assert st.address !in Addresses(rest);
      StateOverwrite.ApplyTouchesListed(Apply(accounts, st), rest, st.address);
      assert map[] + st.fields == st.fields && map[] + st.keys == st.keys;
    }
  }

  /** Every listed account is there and is what the list alone makes of it. */
  ghost predicate IsOverwritten(accounts: map<string, Account>, states: seq<AddressState>) {
    forall a :: a in Addresses(states) ==> a in accounts && accounts[a] == Listed(states, a)
  }

  /** The list gives a value to everything the account holds. */
  predicate Covered(held: Account, listed: Account) {
    held.fields.Keys <= listed.fields.Keys && held.keys.Keys <= listed.keys.Keys
  }

  lemma {:induction false} MergeAssociates(x: Account, y: Account, z: Account)
    ensures Merge(Merge(x, y), z) == Merge(x, Merge(y, z))
    ensures Merge(NOTHING, x) == x && Merge(x, NOTHING) == x
  {
    assert (x.fields + y.fields) + z.fields == x.fields + (y.fields + z.fields);
    assert (x.keys + y.keys) + z.keys == x.keys + (y.keys + z.keys);
    assert map[] + x.fields == x.fields && map[] + x.keys == x.keys;
    assert x.fields + map[] == x.fields && x.keys + map[] == x.keys;
  }

  /** Setting states lays them over what was there. */
  lemma {:induction false} ApplyAllMerges(accounts: map<string, Account>, states: seq<AddressState>, a: string)
    ensures Held(ApplyAll(accounts, states), a) == Merge(Held(accounts, a), Listed(states, a))
    ensures a in Addresses(states) ==> a in ApplyAll(accounts, states)
    ensures a in accounts ==> a in ApplyAll(accounts, states)
    decreases |states|
  {
    MergeAssociates(Held(accounts, a), NOTHING, NOTHING);
    if states != [] {
      var st, rest := states[0], states[1..];
      var given := if st.address == a then Account(st.fields, st.keys) else NOTHING;
      ApplyAllMerges(Apply(accounts, st), rest, a);
      ApplyAllMerges(Apply(map[], st), rest, a);
      MergeAssociates(given, NOTHING, NOTHING);
      MergeAssociates(Held(accounts, a), NOTHING, NOTHING);
      assert Held(Apply(accounts, st), a) == Merge(Held(accounts, a), given);
      assert Held(Apply(map[], st), a) == given;
      MergeAssociates(Held(accounts, a), given, Listed(rest, a));
      assert states == [st] + rest;
    }
  }

  lemma {:induction false} CoveredIff(held: Account, listed: Account)
    ensures Merge(held, listed) == listed <==> Covered(held, listed)
  {
    assert (held.fields + listed.fields).Keys == held.fields.Keys + listed.fields.Keys;
    assert (held.keys + listed.keys).Keys == held.keys.Keys + listed.keys.Keys;
    if Covered(held, listed) {
      assert held.fields + listed.fields == listed.fields;
      assert held.keys + listed.keys == listed.keys;
    }
  }

  /**
   The set of a request leaves exactly the listed states exactly if the list covers whatever the
   listed accounts hold when it is made, whether the removals left it or it has come back since.
   */
  lemma {:induction false} SetOverwritesIff(env: Environment, c: Chain, states: seq<AddressState>)
    requires KeepsAccounts(env) && env.setState(c, states).err.None?
    ensures IsOverwritten(env.setState(c, states).chain.accounts, states) <==>
            forall a :: a in Addresses(states) ==> Covered(Held(c.accounts, a), Listed(states, a))
  {
    forall a | a in Addresses(states)
      ensures a in ApplyAll(c.accounts, states)
      ensures ApplyAll(c.accounts, states)[a] == Listed(states, a) <==>
              Covered(Held(c.accounts, a), Listed(states, a))
    {
      ApplyAllMerges(c.accounts, states, a);
      CoveredIff(Held(c.accounts, a), Listed(states, a));
    }
  }

  /* Undisturbed requests overwrite */

  /** The addresses a request has removed and not set yet. */
  function Removed(t: Thread): set<string> {
    if t.request.Overwrite? && (t.at.Removing? || t.at.Setting?) && t.rounds <= |t.request.states|
    then Addresses(t.request.states[..t.rounds])
    else {}
  }

  /** No step of anybody else brings back an account between its removal and the set. */
  ghost predicate Undisturbed(env: Environment, s: State, actions: seq<Action>, id: nat)
    requires Runs(env, s, actions) && id in s.threads
    decreases |actions|
  {
    actions == [] ||
    var next := Next(env, s, actions[0]);
    && (actions[0] != Advance(id) ==> forall a :: a in Removed(s.threads[id]) && a in next.chain.accounts ==>
          a in s.chain.accounts)
    && Undisturbed(env, next, actions[1..], id)
  }

  /** What has been removed is not there, and before the set everything has been. */
  ghost predicate StaysRemoved(s: State, id: nat) {
    && id in s.threads && s.threads[id].request.Overwrite?
    && var t := s.threads[id];
       && (t.at == Removing ==> t.rounds <= |t.request.states|)
       && (t.at == Setting ==> t.rounds == |t.request.states|)
       && forall a :: a in Removed(t) ==> a !in s.chain.accounts
  }

  lemma {:induction false} RemovalsAdvance(env: Environment, s: State, id: nat)
    requires KeepsAccounts(env) && Enabled(env, s, Advance(id)) && StaysRemoved(s, id)
    ensures StaysRemoved(Next(env, s, Advance(id)), id)
  {
    var t := s.threads[id];
    var states := t.request.states;
    if t.at == Removing && t.rounds < |states| {
      var i := t.rounds;
      assert states[..i + 1] == states[..i] + [states[i]];
      assert Addresses(states[..i + 1]) == Addresses(states[..i]) + {states[i].address};
    }
  }

  lemma {:induction false} RemovalsStay(env: Environment, s: State, actions: seq<Action>, id: nat)
    requires KeepsAccounts(env) && Runs(env, s, actions) && StaysRemoved(s, id) && Undisturbed(env, s, actions, id)
    ensures StaysRemoved(End(env, s, actions), id)
    decreases |actions|
  {
    if actions != [] {
      if actions[0] == Advance(id) {
        RemovalsAdvance(env, s, id);
      }
      RemovalsStay(env, Next(env, s, actions[0]), actions[1..], id);
    }
  }

  lemma {:induction false} SetOverwritesRemoved(env: Environment, s: State, id: nat)
    requires KeepsAccounts(env) && Enabled(env, s, Advance(id)) && StaysRemoved(s, id)
    requires s.threads[id].at == Setting && env.setState(s.chain, s.threads[id].request.states).err.None?
    ensures IsOverwritten(Next(env, s, Advance(id)).chain.accounts, s.threads[id].request.states)
  {
    var states := s.threads[id].request.states;
    assert states[..|states|] == states;
    SetOverwritesIff(env, s.chain, states);
  }

  /**
   Over every interleaving in which nobody brings back a listed account between its removal and the
   set, a set that succeeds leaves exactly the listed states, whatever was there before.
   */
  lemma {:induction false} UndisturbedOverwrites(
    env: Environment, s: State, id: nat, states: seq<AddressState>, noGenerate: bool, actions: seq<Action>)
    requires KeepsAccounts(env) && Enabled(env, s, Arrive(id, Request.Overwrite(states, noGenerate)))
    requires var arrived := Next(env, s, Arrive(id, Request.Overwrite(states, noGenerate)));
             Runs(env, arrived, actions) && Undisturbed(env, arrived, actions, id)
    ensures var end := End(env, Next(env, s, Arrive(id, Request.Overwrite(states, noGenerate))), actions);
            && id in end.threads
            && (end.threads[id].at == Setting && Enabled(env, end, Advance(id)) &&
                env.setState(end.chain, states).err.None? ==>
                IsOverwritten(Next(env, end, Advance(id)).chain.accounts, states))
  {
    var arrived := Next(env, s, Arrive(id, Request.Overwrite(states, noGenerate)));
    var end := End(env, arrived, actions);
    assert Removed(arrived.threads[id]) == {};
    RemovalsStay(env, arrived, actions, id);
    ThreadsStay(env, arrived, actions, id);
    if end.threads[id].at == Setting && Enabled(env, end, Advance(id)) && env.setState(end.chain, states).err.None? {
      SetOverwritesRemoved(env, end, id);
    }
  }

  /* Overlapping requests merge */

  function Ready(t: Thread): Thread
    requires t.request.Overwrite?
  {
    t.(at := Setting, rounds := |t.request.states|)
  }

  lemma {:induction false} RemovalStep(env: Environment, c: Chain, t: Thread)
    requires KeepsAccounts(env) && NeverRefuses(env)
    requires t.request.Overwrite? && t.at == Removing && t.rounds < |t.request.states|
    ensures var (d, u) := AdvanceThread(env, c, t);
            u == t.(rounds := t.rounds + 1) && d.accounts == c.accounts - {t.request.states[t.rounds].address}
  {
    assert Passed(env.remove(c, [t.request.states[t.rounds].address]).err);
  }

  lemma {:induction false} OneRemoval(env: Environment, s: State, id: nat)
    requires KeepsAccounts(env) && NeverRefuses(env) && Enabled(env, s, Advance(id))
    requires s.threads[id].request.Overwrite? && s.threads[id].at == Removing
    requires s.threads[id].rounds < |s.threads[id].request.states|
    ensures var t, next := s.threads[id], Next(env, s, Advance(id));
            && next.generator == s.generator && next.threads == s.threads[id := t.(rounds := t.rounds + 1)]
            && next.chain.accounts == s.chain.accounts - {t.request.states[t.rounds].address}
  {
    RemovalStep(env, s.chain, s.threads[id]);
  }

  lemma {:induction false} RemoveOneMore(accounts: map<string, Account>, states: seq<AddressState>, i: nat)
    requires i < |states|
    ensures (accounts - {states[i].address}) - Addresses(states[i + 1..]) == accounts - Addresses(states[i..])
  {
    assert states[i..] == [states[i]] + states[i + 1..];
    assert Addresses(states[i..]) == {states[i].address} + Addresses(states[i + 1..]);
  }

  /** The request makes all its removals in a row. */
  lemma {:induction false} RemovesInARow(env: Environment, s: State, id: nat) returns (actions: seq<Action>)
    requires KeepsAccounts(env) && NeverRefuses(env) && s.generator.phase != G.Crashed
    requires id in s.threads && s.threads[id].request.Overwrite?
    requires s.threads[id].at == Removing && s.threads[id].rounds <= |s.threads[id].request.states|
    ensures Runs(env, s, actions)
    ensures var t, end := s.threads[id], End(env, s, actions);
            && end.generator == s.generator && end.threads == s.threads[id := Ready(t)]
            && end.chain.accounts == s.chain.accounts - Addresses(t.request.states[t.rounds..])
    decreases |s.threads[id].request.states| - s.threads[id].rounds
  {
    var t := s.threads[id];
    var states, i := t.request.states, t.rounds;
    if i < |states| {
      OneRemoval(env, s, id);
      RemoveOneMore(s.chain.accounts, states, i);
      var rest := RemovesInARow(env, Next(env, s, Advance(id)), id);
      RunsCons(env, s, Advance(id), rest);
      actions := [Advance(id)] + rest;
    } else {
      RunsCons(env, s, Advance(id), []);
      actions := [Advance(id)] + [];
      assert states[i..] == [];
      assert s.chain.accounts - {} == s.chain.accounts;
    }
  }

  /** Both make their removals, one after the other. */
  lemma {:induction false} BothRemove(env: Environment, s: State, i: nat, j: nat) returns (actions: seq<Action>)
    requires KeepsAccounts(env) && NeverRefuses(env) && s.generator.phase != G.Crashed
    requires i in s.threads && s.threads[i].request.Overwrite? && s.threads[i] == Begin(s.threads[i].request)
    requires j in s.threads && s.threads[j].request.Overwrite? && s.threads[j] == Begin(s.threads[j].request)
    requires i != j
    ensures Runs(env, s, actions)
    ensures var x, y, end := s.threads[i], s.threads[j], End(env, s, actions);
            && end.generator == s.generator && end.threads == s.threads[i := Ready(x)][j := Ready(y)]
            && end.chain.accounts ==
               s.chain.accounts - Addresses(x.request.states) - Addresses(y.request.states)
  {
    var x, y := s.threads[i].request.states, s.threads[j].request.states;
    assert x[0..] == x && y[0..] == y;
    var first := RemovesInARow(env, s, i);
    var later := RemovesInARow(env, End(env, s, first), j);
    RunsConcat(env, s, first, later);
    actions := first + later;
  }

  /** Then both make their sets: the second state lies over the first. */
  lemma {:induction false} BothSet(env: Environment, s: State, i: nat, j: nat) returns (actions: seq<Action>)
    requires KeepsAccounts(env) && NeverRefuses(env) && s.generator.phase != G.Crashed && i != j
    requires i in s.threads && s.threads[i].request.Overwrite? && s.threads[i].request.noGenerate
    requires j in s.threads && s.threads[j].request.Overwrite? && s.threads[j].request.noGenerate
    requires s.threads[i].at == Setting && s.threads[j].at == Setting
    requires forall a :: a in Addresses(s.threads[j].request.states) ==> a !in s.chain.accounts
    ensures Runs(env, s, actions)
    ensures var x, y, end := s.threads[i].request.states, s.threads[j].request.states, End(env, s, actions);
            && end.threads == s.threads[i := s.threads[i].(at := Done(None))][j := s.threads[j].(at := Done(None))]
            && IsMerged(end.chain.accounts, x, y)
            && (IsOverwritten(end.chain.accounts, y) <==>
                forall a :: a in Addresses(y) ==> Covered(Listed(x, a), Listed(y, a)))
  {
    var x, y := s.threads[i].request.states, s.threads[j].request.states;
    var mid := Next(env, s, Advance(i));
    RunsCons(env, mid, Advance(j), []);
    RunsCons(env, s, Advance(i), [Advance(j)] + []);
    actions := [Advance(i)] + ([Advance(j)] + []);
    forall a | a in Addresses(y)
      ensures Held(mid.chain.accounts, a) == Listed(x, a)
      ensures a in ApplyAll(mid.chain.accounts, y)
      ensures Held(ApplyAll(mid.chain.accounts, y), a) == Merge(Listed(x, a), Listed(y, a))
    {
      ApplyAllMerges(s.chain.accounts, x, a);
      MergeAssociates(Listed(x, a), NOTHING, NOTHING);
      ApplyAllMerges(mid.chain.accounts, y, a);
    }
    SetOverwritesIff(env, mid.chain, y);
  }

  /** Every account of the second list is that state laid over what the first list says of it. */
  ghost predicate IsMerged(accounts: map<string, Account>, x: seq<AddressState>, y: seq<AddressState>) {
    forall a :: a in Addresses(y) ==> a in accounts && accounts[a] == Merge(Listed(x, a), Listed(y, a))
  }

  /**
   Two overlapping requests on a chain that refuses nothing: when both have made their removals before
   either makes its set, both succeed and the second list ends up laid over the first. It has
   then overwritten its accounts exactly if it covers all that the first gives them.
   */
  lemma {:induction false} OverlappingOverwritesMerge(
    env: Environment, s: State, i: nat, j: nat, x: seq<AddressState>, y: seq<AddressState>)
    returns (actions: seq<Action>)
    requires KeepsAccounts(env) && NeverRefuses(env) && s.generator.phase != G.Crashed
    requires i !in s.threads && j !in s.threads && i != j
    ensures Runs(env, s, actions)
    ensures var end := End(env, s, actions);
            && i in end.threads && end.threads[i].request == Request.Overwrite(x, true)
            && j in end.threads && end.threads[j].request == Request.Overwrite(y, true)
            && end.threads[i].at == Done(None) && end.threads[j].at == Done(None)
            && IsMerged(end.chain.accounts, x, y)
            && (IsOverwritten(end.chain.accounts, y) <==>
                forall a :: a in Addresses(y) ==> Covered(Listed(x, a), Listed(y, a)))
  {
    var first, second := Arrive(i, Request.Overwrite(x, true)), Arrive(j, Request.Overwrite(y, true));
    var one := Next(env, s, first);
    var two := Next(env, one, second);
    var removing := BothRemove(env, two, i, j);
    var setting := BothSet(env, End(env, two, removing), i, j);
    RunsConcat(env, two, removing, setting);
    RunsCons(env, one, second, removing + setting);
    RunsCons(env, s, first, [second] + (removing + setting));
    actions := [first] + ([second] + (removing + setting));
  }
}
