/**
 The simulated chain as the facade sees it. The chain itself lives in another repository; here
 it is a value, and every call on it is an arbitrary function of that value, so a statement
 about all environments is a statement about every way the calls may answer or fail. What the
 documentation promises about the calls is written down as the contract predicates at the end,
 and each theorem names the contracts it needs.
 */
module ChainModel {
  import opened Wrappers
  import opened Integers
  import opened Bytes
  import opened KeyCodec
  import opened Text

  datatype Account = Account(fields: map<string, string>, keys: map<string, string>)

  /** One element of a set-state request: the fields and storage keys given for an address. */
  datatype AddressState = AddressState(address: string, fields: map<string, string>, keys: map<string, string>)

  /**
   settled holds the transactions whose status is no longer pending; clock is free for an
   environment to count with, so that it can fail at a call of its choice.
   */
  datatype Chain = Chain(
    height: nat,
    epoch: uint32,
    accounts: map<string, Account>,
    settled: set<string>,
    clock: nat)

  datatype Reply = Reply(chain: Chain, err: Option<string>)
  datatype Poll = Poll(chain: Chain, answer: Result<string, string>)

  datatype Environment = Environment(
    generate: (Chain, int) -> Reply,
    force: Chain -> Reply,
    remove: (Chain, seq<string>) -> Reply,
    setState: (Chain, seq<AddressState>) -> Reply,
    addKeys: (Chain, seq<seq<byte>>) -> Reply,
    poll: (Chain, string) -> Poll)

  /** The calls that can change the chain, as the simulator records them. */
  datatype Call =
    | Generate(blocks: int)
    | Force
    | Remove(address: string)
    | SetState(states: seq<AddressState>)
    | AddKeys(keys: seq<seq<byte>>)

  const PENDING := "pending"
  const ACCOUNT_NOT_FOUND := "account was not found"

  /** The errors of the facade: those of the chain passed on, and its own. */
  datatype Error =
    | External(message: string)
    | InvalidNumOfBlocks
    | PendingTransaction
    | TargetEpochTooLow(current: uint32, target: uint32)
    | BadKey(bad: BadEntry)
    | PortMissing(shard: uint32)
    | PortNotANumber(shard: uint32)

  function Lift(err: Option<string>): Option<Error> {
    if err.Some? then Some(External(err.value)) else None
  }

  /** Merges the given fields and keys into the account, creating it when it does not exist. */
  function Apply(accounts: map<string, Account>, st: AddressState): map<string, Account> {
    var before := if st.address in accounts then accounts[st.address] else Account(map[], map[]);
    accounts[st.address := Account(before.fields + st.fields, before.keys + st.keys)]
  }

  function ApplyAll(accounts: map<string, Account>, states: seq<AddressState>): map<string, Account>
    decreases |states|
  {
    if states == [] then accounts else ApplyAll(Apply(accounts, states[0]), states[1..])
  }

  function Addresses(states: seq<AddressState>): set<string> {
    set st | st in states :: st.address
  }

  /* Contracts */

  /** A forced change of epoch that succeeds moves the chain to a later epoch. */
  ghost predicate ForceRaises(env: Environment) {
    forall c: Chain :: env.force(c).err.None? ==> c.epoch < env.force(c).chain.epoch
  }

  /** A forced change of epoch that succeeds moves the chain to the next epoch. */
  ghost predicate ForceRaisesByOne(env: Environment) {
    forall c: Chain :: env.force(c).err.None? ==> env.force(c).chain.epoch == c.epoch + 1
  }

  /** Generating n blocks adds n to the height, and asking for a status adds none. */
  ghost predicate CountsBlocks(env: Environment) {
    && (forall c: Chain, n: int :: n > 0 && env.generate(c, n).err.None? ==>
          env.generate(c, n).chain.height == c.height + n)
    && (forall c: Chain, h: string :: env.poll(c, h).chain.height == c.height)
  }

  /** An answered status is pending exactly for the transactions that are not settled. */
  ghost predicate TruthfulPolls(env: Environment) {
    forall c: Chain, h: string :: env.poll(c, h).answer.Ok? ==>
      (env.poll(c, h).answer.value != "pending" <==> h in env.poll(c, h).chain.settled)
  }

  /** No epoch goes down and no settled transaction becomes pending again. */
  predicate Forward(before: Chain, after: Chain) {
    before.epoch <= after.epoch && before.settled <= after.settled
  }

  ghost predicate NeverRegresses(env: Environment) {
    && (forall c: Chain, n: int :: Forward(c, env.generate(c, n).chain))
    && (forall c: Chain :: Forward(c, env.force(c).chain))
    && (forall c: Chain, h: string :: Forward(c, env.poll(c, h).chain))
    && (forall c: Chain, l: seq<string> :: Forward(c, env.remove(c, l).chain))
    && (forall c: Chain, l: seq<AddressState> :: Forward(c, env.setState(c, l).chain))
  }

  /**
   Removing one account takes it away and touches no other, also when the answer is that it was
   not found; setting states merges what is given, in the order of the list.
   */
  ghost predicate KeepsAccounts(env: Environment) {
    && (forall c: Chain, a: string :: Passed(env.remove(c, [a]).err) ==>
          env.remove(c, [a]).chain.accounts == c.accounts - {a})
    && (forall c: Chain, l: seq<AddressState> :: env.setState(c, l).err.None? ==>
          env.setState(c, l).chain.accounts == ApplyAll(c.accounts, l))
  }

  /** Polls and single blocks that succeed. */
  ghost predicate NeverFails(env: Environment) {
    && (forall c: Chain, h: string :: env.poll(c, h).answer.Ok?)
    && (forall c: Chain :: env.generate(c, 1).err.None?)
  }

  /** Removals that pass and sets that succeed. */
  ghost predicate NeverRefuses(env: Environment) {
    && (forall c: Chain, a: string :: Passed(env.remove(c, [a]).err))
    && (forall c: Chain, l: seq<AddressState> :: env.setState(c, l).err.None?)
  }

  /** Asking for a status settles nothing. */
  ghost predicate PollsOnlyLook(env: Environment) {
    forall c: Chain, h: string :: env.poll(c, h).chain.settled == c.settled
  }

  /** Neither polls nor single blocks are what settles the transaction. */
  ghost predicate LeavesToOthers(env: Environment, hash: string) {
    && (forall c: Chain :: hash in env.poll(c, hash).chain.settled ==> hash in c.settled)
    && (forall c: Chain :: hash in env.generate(c, 1).chain.settled ==> hash in c.settled)
  }

  /** The outcome of a removal the overwrite loop carries on after. */
  predicate Passed(err: Option<string>) {
    err.None? || Contains(err.value, ACCOUNT_NOT_FOUND)
  }

  /** The errors carried on after are exactly those whose message holds the text. */
  lemma {:induction false} PassedIff(message: string)
    ensures Passed(None)
    ensures Passed(Some(message)) <==>
            exists i: nat :: i + 21 <= |message| && message[i..][..21] == "account was not found"
  {
    ContainsIff(message, "account was not found");
    assert |"account was not found"| == 21;
  }

  /** An environment that meets every contract, so that no theorem below is about nothing. */
  function Obedient(): Environment {
    Environment(
      (c: Chain, n: int) =>
        if n <= 0 then Reply(c, Some("invalid")) else Reply(c.(height := c.height + n), None),
      (c: Chain) =>
        if c.epoch == TWO_32 - 1 then Reply(c, Some("last epoch")) else Reply(c.(epoch := c.epoch + 1), None),
      (c: Chain, l: seq<string>) =>
        Reply(c.(accounts := c.accounts - (set a | a in l)),
          if forall a :: a in l ==> a in c.accounts then None else Some(ACCOUNT_NOT_FOUND)),
      (c: Chain, l: seq<AddressState>) => Reply(c.(accounts := ApplyAll(c.accounts, l)), None),
      (c: Chain, keys: seq<seq<byte>>) => Reply(c, None),
      (c: Chain, h: string) => Poll(c, Ok(if h in c.settled then "success" else PENDING)))
  }

  lemma {:induction false} ObedientKeepsAccounts()
    ensures KeepsAccounts(Obedient()) && NeverRefuses(Obedient())
  {
    forall c: Chain, a: string
      ensures Obedient().remove(c, [a]).chain.accounts == c.accounts - {a}
    {
      assert (set x | x in [a]) == {a};
    }
    assert Passed(Some(ACCOUNT_NOT_FOUND)) by {
      ContainsMiddle("", ACCOUNT_NOT_FOUND, "");
      assert "" + ACCOUNT_NOT_FOUND + "" == ACCOUNT_NOT_FOUND;
    }
  }

  lemma {:induction false} ContractsAreSatisfiable()
    ensures var env := Obedient();
            && ForceRaises(env) && ForceRaisesByOne(env) && CountsBlocks(env)
            && TruthfulPolls(env) && NeverRegresses(env) && KeepsAccounts(env)
            && NeverFails(env) && NeverRefuses(env) && PollsOnlyLook(env) && forall hash :: LeavesToOthers(env, hash)
  {
    ObedientKeepsAccounts();
  }
}
