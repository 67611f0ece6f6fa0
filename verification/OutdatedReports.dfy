/**
 When a transaction request is told that its transaction is still pending although it is not. The
 loop does not poll after its last block, and other traffic may settle the transaction meanwhile.
 */
module OutdatedReports {
  import opened Wrappers
  import opened ChainModel
  import opened ConcurrentSystem
  import TransactionLoop

  /** The next step of the request is to report the transaction as pending although it is not. */
  ghost predicate ReportsOutdated(env: Environment, s: State, id: nat) {
    && Enabled(env, s, Advance(id)) && s.threads[id].request.AwaitTransaction?
    && Next(env, s, Advance(id)).threads[id].at == Done(Some(PendingTransaction))
    && s.threads[id].request.hash in s.chain.settled
  }

  ghost predicate EndsOutdated(env: Environment, s: State, actions: seq<Action>, id: nat) {
    Runs(env, s, actions) && ReportsOutdated(env, End(env, s, actions), id)
  }

  /* What the chain must do */

  /** The poll of d answers pending, and the chain e that comes of it takes a block. */
  predicate RoundGoes(env: Environment, c: Chain, hash: string, d: Chain, e: Chain) {
    && Forward(c, d) && env.poll(d, hash).answer == Ok(PENDING)
    && BlockGoes(env, env.poll(d, hash).chain, e)
  }

  predicate BlockGoes(env: Environment, c: Chain, e: Chain) {
    Forward(c, e) && env.generate(e, 1).err.None?
  }

  /**
   The chain can be kept from answering for n more rounds: with some help from the other traffic
   before its poll and before its block, each of them polls pending and generates.
   */
  ghost predicate HoldsOut(env: Environment, c: Chain, hash: string, n: nat)
    decreases n
  {
    n == 0 || exists d, e :: RoundGoes(env, c, hash, d, e) && HoldsOut(env, env.generate(e, 1).chain, hash, n - 1)
  }

  /** The same in the middle of a round: a block and n rounds are still to come. */
  ghost predicate HoldsOutWithBlock(env: Environment, c: Chain, hash: string, n: nat) {
    exists e :: BlockGoes(env, c, e) && HoldsOut(env, env.generate(e, 1).chain, hash, n)
  }

  /** The rounds it has the budget for, not counting the one whose block is still to come. */
  function RoundsLeft(t: Thread): nat
    requires t.request.AwaitTransaction?
  {
    NatMinus(t.request.max, if t.at == Generating then t.rounds + 1 else t.rounds)
  }

  ghost predicate CanHoldOut(env: Environment, s: State, id: nat)
    requires id in s.threads
  {
    var t := s.threads[id];
    t.request.AwaitTransaction? &&
    match t.at
    case Polling => HoldsOut(env, s.chain, t.request.hash, RoundsLeft(t))
    case Generating => HoldsOutWithBlock(env, s.chain, t.request.hash, RoundsLeft(t))
    case _ => false
  }

  lemma {:induction false} HoldsOutEarlier(env: Environment, c: Chain, d: Chain, hash: string, n: nat)
    requires Forward(c, d)
    ensures HoldsOut(env, d, hash, n) ==> HoldsOut(env, c, hash, n)
    ensures HoldsOutWithBlock(env, d, hash, n) ==> HoldsOutWithBlock(env, c, hash, n)
  {
    if n > 0 && HoldsOut(env, d, hash, n) {
      var x, y :| RoundGoes(env, d, hash, x, y) && HoldsOut(env, env.generate(y, 1).chain, hash, n - 1);
      assert RoundGoes(env, c, hash, x, y);
    }
    if HoldsOutWithBlock(env, d, hash, n) {
      var y :| BlockGoes(env, d, y) && HoldsOut(env, env.generate(y, 1).chain, hash, n);
      assert BlockGoes(env, c, y);
    }
  }

  /* The chain holds out if the report is outdated */

  lemma {:induction false} DoneReportsNothing(env: Environment, s: State, actions: seq<Action>, id: nat)
    requires Runs(env, s, actions) && id in s.threads && s.threads[id].at.Done?
    ensures !EndsOutdated(env, s, actions, id)
  {
    DoneStays(env, s, actions, id);
  }

  /** One action back: the chain could hold out before it if it can after it. */
  lemma {:induction false} HoldsOutBefore(env: Environment, s: State, a: Action, id: nat)
    requires NeverRegresses(env) && Enabled(env, s, a) && id in s.threads
    requires InItsLoop(s.threads[id]) && id in Next(env, s, a).threads
    requires CanHoldOut(env, Next(env, s, a), id)
    ensures CanHoldOut(env, s, id)
  {
    var t, s' := s.threads[id], Next(env, s, a);
    if a != Advance(id) {
      NextIsForward(env, s, a);
      HoldsOutEarlier(env, s.chain, s'.chain, t.request.hash, RoundsLeft(t));
    } else if t.at == Polling {
      var n := RoundsLeft(s'.threads[id]);
      var e :| BlockGoes(env, s'.chain, e) && HoldsOut(env, env.generate(e, 1).chain, t.request.hash, n);
      assert RoundGoes(env, s.chain, t.request.hash, s.chain, e);
    } else {
      assert BlockGoes(env, s.chain, s.chain);
    }
  }

  lemma {:induction false} OutdatedHoldsOut(env: Environment, s: State, actions: seq<Action>, id: nat)
    requires NeverRegresses(env) && id in s.threads && InItsLoop(s.threads[id])
    requires EndsOutdated(env, s, actions, id)
    ensures CanHoldOut(env, s, id)
    decreases |actions|
  {
    if actions != [] {
      var next := Next(env, s, actions[0]);
      if s.threads[id].at.Done? {
        DoneReportsNothing(env, s, actions, id);
      } else {
        ThreadsStay(env, s, actions, id);
        StaysInItsLoop(env, s, actions[0], id);
        OutdatedHoldsOut(env, next, actions[1..], id);
        HoldsOutBefore(env, s, actions[0], id);
      }
    }
  }

  lemma {:induction false} StaysInItsLoop(env: Environment, s: State, a: Action, id: nat)
    requires Enabled(env, s, a) && id in s.threads && InItsLoop(s.threads[id])
    ensures id in Next(env, s, a).threads && InItsLoop(Next(env, s, a).threads[id])
  {}

  /* The report can be outdated if the chain holds out */

  function Settle(c: Chain, hash: string): Chain {
    c.(settled := c.settled + {hash})
  }

  lemma {:induction false} EndsLater(env: Environment, s: State, a: Action, rest: seq<Action>, id: nat)
    requires Enabled(env, s, a) && EndsOutdated(env, Next(env, s, a), rest, id)
    ensures EndsOutdated(env, s, [a] + rest, id)
  {
    RunsCons(env, s, a, rest);
  }

  /** A run that holds out to the end and settles the transaction between the last block and the report. */
  lemma {:induction false} PendingCanBeOutdated(env: Environment, s: State, id: nat) returns (actions: seq<Action>)
    requires s.generator.phase != G.Crashed && id in s.threads && CanHoldOut(env, s, id)
    ensures EndsOutdated(env, s, actions, id)
    decreases RoundsLeft(s.threads[id]), if s.threads[id].at == Generating then 1 else 0
  {
    var t := s.threads[id];
    var n := RoundsLeft(t);
    if t.at == Generating {
      var e :| BlockGoes(env, s.chain, e) &&
               HoldsOut(env, env.generate(e, 1).chain, t.request.hash, n);
      var ready := Next(env, s, Elsewhere(e));
      var rest := PendingCanBeOutdated(env, Next(env, ready, Advance(id)), id);
      EndsLater(env, ready, Advance(id), rest, id);
      EndsLater(env, s, Elsewhere(e), [Advance(id)] + rest, id);
      actions := [Elsewhere(e)] + ([Advance(id)] + rest);
    } else if n == 0 {
      var a := Elsewhere(Settle(s.chain, t.request.hash));
      assert EndsOutdated(env, Next(env, s, a), [], id);
      EndsLater(env, s, a, [], id);
      actions := [a] + [];
    } else {
      var d, e :| RoundGoes(env, s.chain, t.request.hash, d, e) &&
                  HoldsOut(env, env.generate(e, 1).chain, t.request.hash, n - 1);
      var ready := Next(env, s, Elsewhere(d));
      var rest := PendingCanBeOutdated(env, Next(env, ready, Advance(id)), id);
      EndsLater(env, ready, Advance(id), rest, id);
      EndsLater(env, s, Elsewhere(d), [Advance(id)] + rest, id);
      actions := [Elsewhere(d)] + ([Advance(id)] + rest);
    }
  }

  /**
   When a request can be told that its transaction is pending although it is not: exactly when the
   chain can be kept from answering for as many rounds as it has budget.
   */
  lemma {:induction false} PendingCanBeOutdatedIff(env: Environment, s: State, id: nat, hash: string, max: int)
    requires NeverRegresses(env) && Enabled(env, s, Arrive(id, AwaitTransaction(hash, max)))
    ensures var arrived := Next(env, s, Arrive(id, AwaitTransaction(hash, max)));
            (exists actions :: EndsOutdated(env, arrived, actions, id)) <==>
            HoldsOut(env, s.chain, hash, NatMinus(max, 0))
  {
    var arrived := Next(env, s, Arrive(id, AwaitTransaction(hash, max)));
    if HoldsOut(env, s.chain, hash, NatMinus(max, 0)) {
      var actions := PendingCanBeOutdated(env, arrived, id);
      assert EndsOutdated(env, arrived, actions, id);
    }
    forall actions | EndsOutdated(env, arrived, actions, id)
      ensures HoldsOut(env, s.chain, hash, NatMinus(max, 0))
    {
      OutdatedHoldsOut(env, arrived, actions, id);
    }
  }

  /* Which chains hold out */

  /** Rounds that pass with nobody else about are enough, whatever the chain promises. */
  lemma {:induction false} AllPassHoldsOut(env: Environment, c: Chain, hash: string, n: nat)
    requires TransactionLoop.AllPass(env, c, hash, n)
    ensures HoldsOut(env, c, hash, n)
    decreases n
  {
    if n > 0 {
      TransactionLoop.AllPassStep(env, c, hash, n);
      AllPassHoldsOut(env, TransactionLoop.Next(env, c, hash), hash, n - 1);
      assert RoundGoes(env, c, hash, c, env.poll(c, hash).chain);
    }
  }

  /** A settled transaction is seen at the first poll. */
  lemma {:induction false} SettledDoesNotHoldOut(env: Environment, c: Chain, hash: string, n: nat)
    requires NeverRegresses(env) && TruthfulPolls(env) && hash in c.settled && n > 0
    ensures !HoldsOut(env, c, hash, n)
  {
    forall d, e
      ensures !RoundGoes(env, c, hash, d, e)
    {
      if Forward(c, d) {
        assert Forward(d, env.poll(d, hash).chain);
      }
    }
  }

  /** With a budget of one block, exactly when the transaction was not settled, wherever blocks settle it. */
  lemma {:induction false} OutdatedOfOneIff(env: Environment, s: State, id: nat, hash: string)
    requires NeverRegresses(env) && TruthfulPolls(env) && NeverFails(env) && PollsOnlyLook(env)
    requires Enabled(env, s, Arrive(id, AwaitTransaction(hash, 1)))
    ensures var arrived := Next(env, s, Arrive(id, AwaitTransaction(hash, 1)));
            (exists actions :: EndsOutdated(env, arrived, actions, id)) <==> hash !in s.chain.settled
  {
    PendingCanBeOutdatedIff(env, s, id, hash, 1);
    if hash in s.chain.settled {
      SettledDoesNotHoldOut(env, s.chain, hash, 1);
    } else {
      TransactionLoop.PassesIffUnsettled(env, s.chain, hash);
      assert TransactionLoop.After(env, s.chain, hash, 0) == s.chain;
      AllPassHoldsOut(env, s.chain, hash, 1);
    }
  }

  lemma {:induction false} LeavingHoldsOut(env: Environment, c: Chain, hash: string, n: nat)
    requires TruthfulPolls(env) && NeverFails(env) && LeavesToOthers(env, hash) && hash !in c.settled
    ensures HoldsOut(env, c, hash, n)
    decreases n
  {
    if n > 0 {
      var d := env.poll(c, hash).chain;
      assert env.poll(c, hash).answer.Ok? && hash !in d.settled;
      LeavingHoldsOut(env, env.generate(d, 1).chain, hash, n - 1);
      assert RoundGoes(env, c, hash, c, d);
    }
  }

  /** With any budget, exactly the same where neither polls nor blocks are what settles it. */
  lemma {:induction false} OutdatedByOthersIff(env: Environment, s: State, id: nat, hash: string, max: int)
    requires NeverRegresses(env) && TruthfulPolls(env) && NeverFails(env) && LeavesToOthers(env, hash)
    requires Enabled(env, s, Arrive(id, AwaitTransaction(hash, max)))
    ensures var arrived := Next(env, s, Arrive(id, AwaitTransaction(hash, max)));
            (exists actions :: EndsOutdated(env, arrived, actions, id)) <==> max <= 0 || hash !in s.chain.settled
  {
    PendingCanBeOutdatedIff(env, s, id, hash, max);
    if hash !in s.chain.settled {
      LeavingHoldsOut(env, s.chain, hash, NatMinus(max, 0));
    } else if max > 0 {
      SettledDoesNotHoldOut(env, s.chain, hash, max);
    }
  }

  /** Asked with a budget about a transaction that is settled already, a request never looks past its first poll. */
  predicate SeesItSettled(s: State, id: nat, hash: string) {
    && id in s.threads && s.threads[id].request.AwaitTransaction?
    && s.threads[id].request.hash == hash && hash in s.chain.settled
    && match s.threads[id].at
       case Polling => s.threads[id].rounds < s.threads[id].request.max
       case Done(err) => err != Some(PendingTransaction)
       case _ => false
  }

  lemma {:induction false} SettledIsSeen(env: Environment, s: State, actions: seq<Action>, id: nat, hash: string)
    requires NeverRegresses(env) && TruthfulPolls(env)
    requires SeesItSettled(s, id, hash) && Runs(env, s, actions)
    ensures SeesItSettled(End(env, s, actions), id, hash)
    decreases |actions|
  {
    if actions != [] {
      NextIsForward(env, s, actions[0]);
      SettledIsSeen(env, Next(env, s, actions[0]), actions[1..], id, hash);
    }
  }

  /** A pending report is never outdated when the request came with a budget and found the transaction settled. */
  lemma {:induction false} SettledIsNeverReportedPending(
    env: Environment, s: State, id: nat, hash: string, max: int, actions: seq<Action>)
    requires NeverRegresses(env) && TruthfulPolls(env)
    requires max > 0 && hash in s.chain.settled
    requires Enabled(env, s, Arrive(id, AwaitTransaction(hash, max)))
    requires Runs(env, Next(env, s, Arrive(id, AwaitTransaction(hash, max))), actions)
    ensures var end := End(env, Next(env, s, Arrive(id, AwaitTransaction(hash, max))), actions);
            && id in end.threads && end.threads[id].at != Done(Some(PendingTransaction))
            && !ReportsOutdated(env, end, id)
  {
    var arrived := Next(env, s, Arrive(id, AwaitTransaction(hash, max)));
    SettledIsSeen(env, arrived, actions, id, hash);
    var end := End(env, arrived, actions);
    if Enabled(env, end, Advance(id)) {
      SettledIsSeen(env, end, [Advance(id)], id, hash);
      RunsCons(env, end, Advance(id), []);
      assert [Advance(id)] + [] == [Advance(id)];
    }
  }
}
