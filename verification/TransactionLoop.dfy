/** What GenerateBlocksUntilTransactionIsProcessed computes, for any environment. */
module TransactionLoop {
  import opened Wrappers
  import opened ChainModel

  /** blocks counts the single-block generations that succeeded. */
  datatype Run = Run(chain: Chain, blocks: nat, err: Option<Error>)

  function Loop(env: Environment, c: Chain, hash: string, max: int): Run
    decreases max
  {
    if max <= 0 then Run(c, 0, Some(PendingTransaction))
    else
      var p := env.poll(c, hash);
      if p.answer.Err? then Run(p.chain, 0, Some(External(p.answer.error)))
      else if p.answer.value != PENDING then Run(p.chain, 0, None)
      else
        var g := env.generate(p.chain, 1);
        if g.err.Some? then Run(g.chain, 0, Lift(g.err))
        else
          var run := Loop(env, g.chain, hash, max - 1);
          run.(blocks := run.blocks + 1)
  }

  /** The chain after k rounds of one poll and one block each, whatever they answered. */
  function After(env: Environment, c: Chain, hash: string, k: nat): Chain
    decreases k
  {
    if k == 0 then c else After(env, env.generate(env.poll(c, hash).chain, 1).chain, hash, k - 1)
  }

  /** The poll of a round answers pending. */
  predicate SeesPending(env: Environment, c: Chain, hash: string) {
    env.poll(c, hash).answer == Ok("pending")
  }

  predicate SeesFinal(env: Environment, c: Chain, hash: string) {
    var answer := env.poll(c, hash).answer;
    answer.Ok? && answer.value != "pending"
  }

  predicate RoundPasses(env: Environment, c: Chain, hash: string) {
    SeesPending(env, c, hash) && env.generate(env.poll(c, hash).chain, 1).err.None?
  }

  ghost predicate AllPass(env: Environment, c: Chain, hash: string, k: nat) {
    forall j :: 0 <= j < k ==> RoundPasses(env, After(env, c, hash, j), hash)
  }

  function Next(env: Environment, c: Chain, hash: string): Chain {
    env.generate(env.poll(c, hash).chain, 1).chain
  }

  lemma {:induction false} AllPassStep(env: Environment, c: Chain, hash: string, k: nat)
    requires k > 0
    ensures AllPass(env, c, hash, k) <==>
            RoundPasses(env, c, hash) && AllPass(env, Next(env, c, hash), hash, k - 1)
  {
    var d := Next(env, c, hash);
    if AllPass(env, c, hash, k) {
      assert RoundPasses(env, After(env, c, hash, 0), hash);
      forall j | 0 <= j < k - 1
        ensures RoundPasses(env, After(env, d, hash, j), hash)
      {
        assert After(env, c, hash, j + 1) == After(env, d, hash, j);
      }
    }
    if RoundPasses(env, c, hash) && AllPass(env, d, hash, k - 1) {
      forall j | 0 <= j < k
        ensures RoundPasses(env, After(env, c, hash, j), hash)
      {
        assert j > 0 ==> After(env, c, hash, j) == After(env, d, hash, j - 1);
      }
    }
  }

  /**
   It returns nil after exactly k blocks iff k is below the budget, round k is the first to see a
   final status, and every round before it polled and generated without error.
   */
  lemma {:induction false} SucceedsExactly(env: Environment, c: Chain, hash: string, max: int, k: nat)
    ensures var run := Loop(env, c, hash, max);
            run.err.None? && run.blocks == k <==>
            k < max && AllPass(env, c, hash, k) && SeesFinal(env, After(env, c, hash, k), hash)
    ensures var run := Loop(env, c, hash, max);
            run.err.None? && run.blocks == k ==>
            run.chain == env.poll(After(env, c, hash, k), hash).chain
    decreases k
  {
    if max > 0 {
      if k > 0 {
        AllPassStep(env, c, hash, k);
        if RoundPasses(env, c, hash) {
          SucceedsExactly(env, Next(env, c, hash), hash, max - 1, k - 1);
        }
      }
    }
  }

  /** It reports a pending transaction iff the whole budget was spent on rounds that all saw it pending. */
  lemma {:induction false} PendingExactly(env: Environment, c: Chain, hash: string, max: int)
    ensures var run := Loop(env, c, hash, max);
            var budget := if max < 0 then 0 else max;
            run.err == Some(PendingTransaction) <==> AllPass(env, c, hash, budget)
    ensures var run := Loop(env, c, hash, max);
            var budget := if max < 0 then 0 else max;
            run.err == Some(PendingTransaction) ==>
            run.blocks == budget && run.chain == After(env, c, hash, budget)
    decreases max
  {
    if max > 0 {
      AllPassStep(env, c, hash, max);
      if RoundPasses(env, c, hash) {
        PendingExactly(env, Next(env, c, hash), hash, max - 1);
      }
    }
  }

  /** The error a round ends the loop with: that of its poll, or of its block when the poll saw it pending. */
  function RoundError(env: Environment, c: Chain, hash: string): Option<string> {
    var p := env.poll(c, hash);
    match p.answer
    case Err(e) => Some(e)
    case Ok(s) => if s != PENDING then None else env.generate(p.chain, 1).err
  }

  /** It passes on an error after k blocks iff round k is the first that does not pass and it failed so. */
  lemma {:induction false} FailsExactly(
    env: Environment, c: Chain, hash: string, max: int, k: nat, message: string)
    ensures var run := Loop(env, c, hash, max);
            run.err == Some(External(message)) && run.blocks == k <==>
            && k < max && AllPass(env, c, hash, k)
            && RoundError(env, After(env, c, hash, k), hash) == Some(message)
    decreases k
  {
    if max > 0 && k > 0 {
      AllPassStep(env, c, hash, k);
      if RoundPasses(env, c, hash) {
        FailsExactly(env, Next(env, c, hash), hash, max - 1, k - 1, message);
      }
    }
  }

  /**
   A budget may be spent in two goes: running with n + m is running with n and, only if that ends
   with the transaction still pending, carrying on with m.
   */
  lemma {:induction false} BudgetSplits(env: Environment, c: Chain, hash: string, n: nat, m: nat)
    ensures var first := Loop(env, c, hash, n);
            Loop(env, c, hash, n + m) ==
            if first.err != Some(PendingTransaction) then first
            else
              var second := Loop(env, first.chain, hash, m);
              second.(blocks := first.blocks + second.blocks)
    decreases n
  {
    if n > 0 && RoundPasses(env, c, hash) {
      BudgetSplits(env, Next(env, c, hash), hash, n - 1, m);
    }
  }

  /** A larger budget does not change a success: same blocks, same chain. */
  lemma {:induction false} LargerBudget(env: Environment, c: Chain, hash: string, max: int, more: int)
    requires max <= more && Loop(env, c, hash, max).err.None?
    ensures Loop(env, c, hash, more) == Loop(env, c, hash, max)
  {
    BudgetSplits(env, c, hash, max, more - max);
  }

  /** The height grows by exactly the blocks counted, whenever no generation failed. */
  lemma {:induction false} HeightGrows(env: Environment, c: Chain, hash: string, max: int)
    requires CountsBlocks(env)
    ensures var run := Loop(env, c, hash, max);
            run.err.None? || run.err == Some(PendingTransaction) ==> run.chain.height == c.height + run.blocks
    decreases max
  {
    if max > 0 && RoundPasses(env, c, hash) {
      HeightGrows(env, Next(env, c, hash), hash, max - 1);
    }
  }

  /** A nil return means the transaction is settled in the chain it leaves. */
  lemma {:induction false} SuccessMeansSettled(env: Environment, c: Chain, hash: string, max: int)
    requires TruthfulPolls(env)
    ensures var run := Loop(env, c, hash, max);
            run.err.None? ==> hash in run.chain.settled
  {
    SucceedsExactly(env, c, hash, max, Loop(env, c, hash, max).blocks);
  }

  /* When "still pending" is said of a settled transaction */

  /**
   Whatever the environment does: the pending report is stale exactly when every round of the budget
   saw the transaction pending and it is settled in the chain these rounds led to.
   */
  lemma {:induction false} StaleExactly(env: Environment, c: Chain, hash: string, max: int)
    ensures var run := Loop(env, c, hash, max);
            var budget := if max < 0 then 0 else max;
            run.err == Some(PendingTransaction) && hash in run.chain.settled <==>
            AllPass(env, c, hash, budget) && hash in After(env, c, hash, budget).settled
  {
    PendingExactly(env, c, hash, max);
  }

  /** Round k is the first whose chain has the transaction settled. */
  ghost predicate SettlesAt(env: Environment, c: Chain, hash: string, k: nat) {
    && hash in After(env, c, hash, k).settled
    && forall j :: 0 <= j < k ==> hash !in After(env, c, hash, j).settled
  }

  lemma {:induction false} PassesIffUnsettled(env: Environment, c: Chain, hash: string)
    requires TruthfulPolls(env) && NeverFails(env) && PollsOnlyLook(env)
    ensures RoundPasses(env, c, hash) <==> hash !in c.settled
    ensures SeesFinal(env, c, hash) <==> hash in c.settled
  {
    assert env.poll(c, hash).answer.Ok? && env.poll(c, hash).chain.settled == c.settled;
  }

  /** Polls that never fail, tell the truth and settle nothing pass exactly on the unsettled chains. */
  lemma {:induction false} AllPassIffUnsettled(env: Environment, c: Chain, hash: string, k: nat)
    requires TruthfulPolls(env) && NeverFails(env) && PollsOnlyLook(env)
    ensures AllPass(env, c, hash, k) <==> forall j :: 0 <= j < k ==> hash !in After(env, c, hash, j).settled
  {
    forall j | 0 <= j < k
      ensures RoundPasses(env, After(env, c, hash, j), hash) <==> hash !in After(env, c, hash, j).settled
    {
      PassesIffUnsettled(env, After(env, c, hash, j), hash);
    }
    if AllPass(env, c, hash, k) {
      assert forall j :: 0 <= j < k ==> RoundPasses(env, After(env, c, hash, j), hash);
    } else {
      var j :| 0 <= j < k && !RoundPasses(env, After(env, c, hash, j), hash);
      assert hash in After(env, c, hash, j).settled;
    }
  }

  /** On such a chain the report is stale exactly when the budget ends with the very block that settles it. */
  lemma {:induction false} StaleIffBudgetSettles(env: Environment, c: Chain, hash: string, max: int)
    requires TruthfulPolls(env) && NeverFails(env) && PollsOnlyLook(env)
    ensures var run := Loop(env, c, hash, max);
            run.err == Some(PendingTransaction) && hash in run.chain.settled <==>
            SettlesAt(env, c, hash, if max < 0 then 0 else max)
  {
    StaleExactly(env, c, hash, max);
    AllPassIffUnsettled(env, c, hash, if max < 0 then 0 else max);
  }

  /**
   All the answers of a chain on which block k is the one that settles the transaction: a budget above
   k gives nil after k blocks, any other gives the pending report, which is wrong for k itself only.
   */
  lemma {:induction false} AnswerByBudget(env: Environment, c: Chain, hash: string, max: int, k: nat)
    requires TruthfulPolls(env) && NeverFails(env) && PollsOnlyLook(env)
    requires SettlesAt(env, c, hash, k)
    ensures var run := Loop(env, c, hash, max);
            var budget := if max < 0 then 0 else max;
            && (budget > k <==> run.err.None?) && (budget > k ==> run.blocks == k)
            && (budget <= k <==> run.err == Some(PendingTransaction))
            && (budget <= k ==> run.blocks == budget && (hash in run.chain.settled <==> budget == k))
  {
    var budget := if max < 0 then 0 else max;
    AllPassIffUnsettled(env, c, hash, k);
    AllPassIffUnsettled(env, c, hash, budget);
    PendingExactly(env, c, hash, max);
    if budget > k {
      PassesIffUnsettled(env, After(env, c, hash, k), hash);
      SucceedsExactly(env, c, hash, max, k);
    }
  }

  /** An environment in which the block of the given height settles the transaction. */
  function Settling(hash: string, height: nat): Environment {
    Obedient().(generate := (c: Chain, n: int) =>
      var settled := if c.height + 1 == height then c.settled + {hash} else c.settled;
      Reply(c.(height := c.height + 1, settled := settled), None))
  }

  /** For every transaction that is not settled and every budget there is a chain that makes the report stale. */
  lemma {:induction false} PendingMayBeStale(c: Chain, hash: string, max: int)
    requires hash !in c.settled && max > 0
    ensures var run := Loop(Settling(hash, c.height + max), c, hash, max);
            run.err == Some(PendingTransaction) && hash in run.chain.settled
    decreases max
  {
    var env := Settling(hash, c.height + max);
    var next := env.generate(c, 1).chain;
    if max == 1 {
      assert Loop(env, next, hash, 0).chain == next;
    } else {
      assert Settling(hash, next.height + (max - 1)) == env;
      PendingMayBeStale(next, hash, max - 1);
    }
  }

  /* The calls made */

  lemma {:induction false} AfterOneMore(env: Environment, c: Chain, hash: string, k: nat)
    ensures After(env, c, hash, k + 1) == Next(env, After(env, c, hash, k), hash)
    decreases k
  {
    if k > 0 {
      AfterOneMore(env, Next(env, c, hash), hash, k - 1);
    }
  }

  /** The single-block calls a run has made: those that succeeded, and the one that failed if a block is what failed. */
  function BlockCalls(env: Environment, c: Chain, hash: string, run: Run): nat {
    if run.err.Some? && run.err.value.External? && SeesPending(env, After(env, c, hash, run.blocks), hash)
    then run.blocks + 1
    else run.blocks
  }
}
