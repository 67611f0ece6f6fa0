/**
 Everything that runs on one chain at the same time: the generator's goroutine, any number of
 requests inside the facade's loops, and all other traffic. Nothing in the program locks the
 chain, so the steps interleave freely; a call is under way between the step that decides to make
 it and the step in which it takes effect and returns.
 */
module ConcurrentSystem {
  import opened Wrappers
  import opened Integers
  import opened ChainModel
  import G = GeneratorModel
  import EpochLoop
  import TransactionLoop

  datatype Request =
    | ForceEpoch(target: uint32)
    | AwaitTransaction(hash: string, max: int)
    | Overwrite(states: seq<AddressState>, noGenerate: bool)

  /** Where a request is in the code of its loop. */
  datatype Point =
    | Entry
    | ForcingOnce
    | Forcing
    | Reading
    | Polling
    | Generating
    | Removing
    | Setting
    | AddingBlock
    | Done(err: Option<Error>)

  /** rounds counts the forced changes, the blocks, or the removals the request has got back. */
  datatype Thread = Thread(request: Request, at: Point, rounds: nat, entryEpoch: uint32)

  datatype State = State(chain: Chain, generator: G.Generator, threads: map<nat, Thread>)

  datatype Action =
    | Generator(move: G.Move)
    | Arrive(id: nat, request: Request)
    | Advance(id: nat)
    | Elsewhere(chain: Chain)

  function Begin(request: Request): Thread {
    var entry :=
      match request
      case ForceEpoch(_) => Entry
      case AwaitTransaction(_, _) => Polling
      case Overwrite(_, _) => Removing;
    Thread(request, entry, 0, 0)
  }

  /** A point belongs to the loop of its request. */
  predicate InItsLoop(t: Thread) {
    match t.request
    case ForceEpoch(target) =>
      t.at.Entry? || (t.at.ForcingOnce? && target == 0) || t.at.Forcing? || t.at.Reading? || t.at.Done?
    case AwaitTransaction(_, _) => t.at.Polling? || t.at.Generating? || t.at.Done?
    case Overwrite(_, _) => t.at.Removing? || t.at.Setting? || t.at.AddingBlock? || t.at.Done?
  }

  /** One step of a request: what it does to the chain and where it goes. */
  function AdvanceThread(env: Environment, c: Chain, t: Thread): (Chain, Thread) {
    match (t.request, t.at)
    case (ForceEpoch(target), Entry) =>
      if target == 0 then (c, t.(at := ForcingOnce))
      else if c.epoch >= target then (c, t.(at := Done(Some(TargetEpochTooLow(c.epoch, target)))))
      else (c, t.(at := Forcing, entryEpoch := c.epoch))
    case (ForceEpoch(_), ForcingOnce) =>
      var r := env.force(c);
      (r.chain, t.(at := Done(Lift(r.err)), rounds := t.rounds + 1))
    case (ForceEpoch(_), Forcing) =>
      var r := env.force(c);
      (r.chain, t.(at := if r.err.Some? then Done(Lift(r.err)) else Reading, rounds := t.rounds + 1))
    case (ForceEpoch(target), Reading) =>
      (c, t.(at := if c.epoch < target then Forcing else Done(None)))
    case (AwaitTransaction(hash, max), Polling) =>
      if t.rounds >= max then (c, t.(at := Done(Some(PendingTransaction))))
      else
        var p := env.poll(c, hash);
        (p.chain, t.(at :=
          match p.answer
          case Err(e) => Done(Some(External(e)))
          case Ok(status) => if status != PENDING then Done(None) else Generating))
    case (AwaitTransaction(_, _), Generating) =>
      var g := env.generate(c, 1);
      if g.err.Some? then (g.chain, t.(at := Done(Lift(g.err))))
      else (g.chain, t.(at := Polling, rounds := t.rounds + 1))
    case (Overwrite(states, _), Removing) =>
      if t.rounds >= |states| then (c, t.(at := Setting))
      else
        var r := env.remove(c, [states[t.rounds].address]);
        (r.chain, if Passed(r.err) then t.(rounds := t.rounds + 1) else t.(at := Done(Lift(r.err))))
    case (Overwrite(states, noGenerate), Setting) =>
      var r := env.setState(c, states);
      (r.chain, t.(at := if r.err.Some? || noGenerate then Done(Lift(r.err)) else AddingBlock))
    case (Overwrite(_, _), AddingBlock) =>
      var g := env.generate(c, 1);
      (g.chain, t.(at := Done(Lift(g.err))))
    case _ => (c, t)
  }

  /** A panic of the generator's goroutine ends the program: nothing is enabled after it. */
  ghost predicate Enabled(env: Environment, s: State, a: Action) {
    && s.generator.phase != G.Crashed
    && match a
       case Generator(m) =>
         G.Enabled(s.generator, m) && (m.CallReturns? ==> m.ok == env.generate(s.chain, 1).err.None?)
       case Arrive(id, _) => id !in s.threads
       case Advance(id) => id in s.threads && !s.threads[id].at.Done?
       case Elsewhere(c) => Forward(s.chain, c)
  }

  ghost function Next(env: Environment, s: State, a: Action): State
    requires Enabled(env, s, a)
  {
    match a
    case Generator(m) =>
      State(
        if m.CallReturns? then env.generate(s.chain, 1).chain else s.chain,
        G.Step(s.generator, m),
        s.threads)
    case Arrive(id, request) => s.(threads := s.threads[id := Begin(request)])
    case Advance(id) =>
      var (c, t) := AdvanceThread(env, s.chain, s.threads[id]);
      s.(chain := c, threads := s.threads[id := t])
    case Elsewhere(c) => s.(chain := c)
  }

  /** A run: every action is enabled where it is taken. */
  ghost predicate Runs(env: Environment, s: State, actions: seq<Action>)
    decreases |actions|
  {
    actions == [] || (Enabled(env, s, actions[0]) && Runs(env, Next(env, s, actions[0]), actions[1..]))
  }

  ghost function End(env: Environment, s: State, actions: seq<Action>): State
    requires Runs(env, s, actions)
    decreases |actions|
  {
    if actions == [] then s else End(env, Next(env, s, actions[0]), actions[1..])
  }

  ghost predicate Initial(s: State) {
    s.generator == G.Launch(s.generator.period) && s.threads == map[]
  }

  /* Safety */

  /** What the return of a request says about the chain. */
  predicate TrueOf(c: Chain, request: Request, err: Option<Error>) {
    match request
    case ForceEpoch(target) =>
      (target > 0 && err == None) || (err.Some? && err.value.TargetEpochTooLow?) ==> c.epoch >= target
    case AwaitTransaction(hash, _) => err == None ==> hash in c.settled
    case Overwrite(_, _) => true
  }

  predicate Truthful(c: Chain, t: Thread) {
    t.at.Done? ==> TrueOf(c, t.request, t.at.err)
  }

  predicate Safe(s: State) {
    && G.Conserved(s.generator)
    && forall id :: id in s.threads ==> InItsLoop(s.threads[id]) && Truthful(s.chain, s.threads[id])
  }

  lemma {:induction false} AdvanceIsForward(env: Environment, c: Chain, t: Thread)
    requires NeverRegresses(env)
    ensures Forward(c, AdvanceThread(env, c, t).0)
  {}

  lemma {:induction false} AdvanceIsTruthful(env: Environment, c: Chain, t: Thread)
    requires NeverRegresses(env) && TruthfulPolls(env) && InItsLoop(t) && !t.at.Done?
    ensures InItsLoop(AdvanceThread(env, c, t).1)
    ensures Truthful(AdvanceThread(env, c, t).0, AdvanceThread(env, c, t).1)
  {}

  lemma {:induction false} TruthSurvives(c: Chain, d: Chain, t: Thread)
    requires Forward(c, d) && Truthful(c, t)
    ensures Truthful(d, t)
  {}

  lemma {:induction false} NextIsForward(env: Environment, s: State, a: Action)
    requires NeverRegresses(env) && Enabled(env, s, a)
    ensures Forward(s.chain, Next(env, s, a).chain)
  {
    if a.Advance? {
      AdvanceIsForward(env, s.chain, s.threads[a.id]);
    }
  }

  lemma {:induction false} NextIsSafe(env: Environment, s: State, a: Action)
    requires NeverRegresses(env) && TruthfulPolls(env)
    requires Safe(s) && Enabled(env, s, a)
    ensures Safe(Next(env, s, a))
  {
    var s' := Next(env, s, a);
    NextIsForward(env, s, a);
    forall id | id in s'.threads
      ensures InItsLoop(s'.threads[id]) && Truthful(s'.chain, s'.threads[id])
    {
      if a == Advance(id) {
        AdvanceIsTruthful(env, s.chain, s.threads[id]);
      } else if id in s.threads {
        TruthSurvives(s.chain, s'.chain, s.threads[id]);
      }
    }
  }

  lemma {:induction false} SafeAlways(env: Environment, s: State, actions: seq<Action>)
    requires NeverRegresses(env) && TruthfulPolls(env)
    requires Safe(s) && Runs(env, s, actions)
    ensures Safe(End(env, s, actions))
    decreases |actions|
  {
    if actions != [] {
      NextIsSafe(env, s, actions[0]);
      SafeAlways(env, Next(env, s, actions[0]), actions[1..]);
    }
  }

  /** A returned request stays as it is. */
  lemma {:induction false} DoneStays(env: Environment, s: State, actions: seq<Action>, id: nat)
    requires Runs(env, s, actions) && id in s.threads && s.threads[id].at.Done?
    ensures id in End(env, s, actions).threads && End(env, s, actions).threads[id] == s.threads[id]
    decreases |actions|
  {
    if actions != [] {
      DoneStays(env, Next(env, s, actions[0]), actions[1..], id);
    }
  }

  lemma {:induction false} TrueEverAfter(env: Environment, s: State, later: seq<Action>, id: nat)
    requires NeverRegresses(env) && TruthfulPolls(env)
    requires Safe(s) && Runs(env, s, later) && id in s.threads && s.threads[id].at.Done?
    ensures TrueOf(End(env, s, later).chain, s.threads[id].request, s.threads[id].at.err)
  {
    SafeAlways(env, s, later);
    DoneStays(env, s, later, id);
  }

  /**
   Over every interleaving: from the moment a request to reach an epoch returns without error the
   chain is at that epoch or later, and stays so; the same when it returns that the target is
   too low; and from the moment a transaction request returns without error the transaction is
   settled, and stays so.
   */
  lemma {:induction false} ReturnsAreTrueEverAfter(
    env: Environment, s: State, first: seq<Action>, later: seq<Action>, id: nat)
    requires NeverRegresses(env) && TruthfulPolls(env) && Initial(s)
    requires Runs(env, s, first) && Runs(env, End(env, s, first), later)
    requires id in End(env, s, first).threads && End(env, s, first).threads[id].at.Done?
    ensures var mid := End(env, s, first);
            TrueOf(End(env, mid, later).chain, mid.threads[id].request, mid.threads[id].at.err)
  {
    assert Safe(s);
    SafeAlways(env, s, first);
    TrueEverAfter(env, End(env, s, first), later, id);
  }

  /* Bounds and termination */

  /** The forced changes of a request are paid for by the epochs the chain has gained since it entered. */
  predicate PaidFor(c: Chain, t: Thread) {
    match t.request
    case ForceEpoch(target) =>
      match t.at {
        case Forcing => t.entryEpoch + t.rounds <= c.epoch && t.entryEpoch + t.rounds < target
        case Reading => t.entryEpoch + t.rounds <= c.epoch && t.entryEpoch + t.rounds <= target
        case Done(_) => t.rounds > 0 ==> if target == 0 then t.rounds == 1 else t.entryEpoch + t.rounds <= target
        case _ => t.rounds == 0
      }
    case AwaitTransaction(_, max) =>
      match t.at {
        case Generating => t.rounds < max
        case _ => t.rounds == 0 || t.rounds <= max
      }
    case Overwrite(states, _) => t.rounds <= |states|
  }

  /** What a bound on a request needs of the chain: only forced epochs need anything. */
  ghost predicate BoundsHold(env: Environment, request: Request) {
    request.ForceEpoch? ==> NeverRegresses(env) && ForceRaises(env)
  }

  /** An upper bound on the steps a request still has to make. */
  function Remaining(t: Thread): nat {
    match (t.request, t.at)
    case (_, Done(_)) => 0
    case (ForceEpoch(target), Entry) => 2 * target + 2
    case (ForceEpoch(target), Forcing) => 2 * NatMinus(target, t.entryEpoch + t.rounds)
    case (ForceEpoch(target), Reading) => 2 * NatMinus(target, t.entryEpoch + t.rounds) + 1
    case (ForceEpoch(_), _) => 1
    case (AwaitTransaction(_, max), Generating) => 2 * NatMinus(max, t.rounds)
    case (AwaitTransaction(_, max), _) => 2 * NatMinus(max, t.rounds) + 1
    case (Overwrite(states, _), Removing) => NatMinus(|states|, t.rounds) + 3
    case (Overwrite(_, _), Setting) => 2
    case (Overwrite(_, _), _) => 1
  }

  function NatMinus(a: int, b: int): nat {
    if a > b then a - b else 0
  }

  lemma {:induction false} ForcingIsPaid(env: Environment, c: Chain, t: Thread)
    requires NeverRegresses(env) && ForceRaises(env)
    requires t.request.ForceEpoch? && InItsLoop(t) && PaidFor(c, t) && !t.at.Done?
    ensures var (d, u) := AdvanceThread(env, c, t);
            u.request == t.request && InItsLoop(u) && PaidFor(d, u) && Remaining(u) < Remaining(t)
  {
    var r := env.force(c);
    assert Forward(c, r.chain) && (r.err.None? ==> c.epoch < r.chain.epoch);
  }

  lemma {:induction false} AdvanceIsPaid(env: Environment, c: Chain, t: Thread)
    requires BoundsHold(env, t.request)
    requires InItsLoop(t) && PaidFor(c, t) && !t.at.Done?
    ensures var (d, u) := AdvanceThread(env, c, t);
            u.request == t.request && InItsLoop(u) && PaidFor(d, u) && Remaining(u) < Remaining(t)
  {
    if t.request.ForceEpoch? {
      ForcingIsPaid(env, c, t);
    }
  }

  lemma {:induction false} PaidSurvives(c: Chain, d: Chain, t: Thread)
    requires PaidFor(c, t) && (t.request.ForceEpoch? ==> Forward(c, d))
    ensures PaidFor(d, t)
  {}

  /** The thread after an action: its own step, or nothing. */
  lemma {:induction false} NextIsPaid(env: Environment, s: State, a: Action, id: nat)
    requires Enabled(env, s, a) && id in s.threads && BoundsHold(env, s.threads[id].request)
    requires InItsLoop(s.threads[id]) && PaidFor(s.chain, s.threads[id])
    ensures id in Next(env, s, a).threads
    ensures var s' := Next(env, s, a);
            var t, u := s.threads[id], s'.threads[id];
            && u.request == t.request && InItsLoop(u) && PaidFor(s'.chain, u)
            && Remaining(u) + (if a == Advance(id) then 1 else 0) <= Remaining(t)
  {
    if a == Advance(id) {
      AdvanceIsPaid(env, s.chain, s.threads[id]);
    } else {
      if s.threads[id].request.ForceEpoch? {
        NextIsForward(env, s, a);
      }
      PaidSurvives(s.chain, Next(env, s, a).chain, s.threads[id]);
    }
  }

  function Advances(actions: seq<Action>, id: nat): nat
    decreases |actions|
  {
    if actions == [] then 0
    else (if actions[0] == Advance(id) then 1 else 0) + Advances(actions[1..], id)
  }

  /** From any moment on, the steps a request makes come off what it still had to make. */
  lemma {:induction false} StepsComeOff(env: Environment, s: State, actions: seq<Action>, id: nat)
    requires Runs(env, s, actions) && id in s.threads && BoundsHold(env, s.threads[id].request)
    requires InItsLoop(s.threads[id]) && PaidFor(s.chain, s.threads[id])
    ensures id in End(env, s, actions).threads
    ensures var end := End(env, s, actions);
            && end.threads[id].request == s.threads[id].request && PaidFor(end.chain, end.threads[id])
            && Advances(actions, id) + Remaining(end.threads[id]) <= Remaining(s.threads[id])
    decreases |actions|
  {
    if actions != [] {
      NextIsPaid(env, s, actions[0], id);
      StepsComeOff(env, Next(env, s, actions[0]), actions[1..], id);
    }
  }

  lemma {:induction false} ThreadsStay(env: Environment, s: State, actions: seq<Action>, id: nat)
    requires Runs(env, s, actions) && id in s.threads
    ensures id in End(env, s, actions).threads
    ensures End(env, s, actions).threads[id].request == s.threads[id].request
    decreases |actions|
  {
    if actions != [] {
      ThreadsStay(env, Next(env, s, actions[0]), actions[1..], id);
    }
  }

  /**
   However the others interleave, a request makes at most 2 * target + 2 steps to reach an epoch,
   2 * max + 1 to await a transaction and three more than it has states to overwrite them: no
   request waits for another. Only the first kind needs a chain whose forced epochs rise.
   */
  lemma {:induction false} RequestsTerminate(env: Environment, s: State, actions: seq<Action>, id: nat)
    requires Runs(env, s, actions) && id !in s.threads && id in End(env, s, actions).threads
    requires BoundsHold(env, End(env, s, actions).threads[id].request)
    ensures var end := End(env, s, actions);
            && PaidFor(end.chain, end.threads[id])
            && Advances(actions, id) + Remaining(end.threads[id]) <=
               match end.threads[id].request
               case ForceEpoch(target) => 2 * target + 2
               case AwaitTransaction(_, max) => 2 * NatMinus(max, 0) + 1
               case Overwrite(states, _) => |states| + 3
    decreases |actions|
  {
    if actions != [] {
      var next := Next(env, s, actions[0]);
      if id in next.threads {
        ThreadsStay(env, next, actions[1..], id);
        StepsComeOff(env, next, actions[1..], id);
      } else {
        RequestsTerminate(env, next, actions[1..], id);
      }
    }
  }

  /**
   Over every interleaving a request forces the epoch at most as often as its target lay above
   the epoch it first read, a transaction request generates at most its budget, and an
   overwriting one removes at most its states.
   */
  lemma {:induction false} CallsAreBounded(env: Environment, s: State, actions: seq<Action>, id: nat)
    requires Runs(env, s, actions) && id !in s.threads && id in End(env, s, actions).threads
    requires BoundsHold(env, End(env, s, actions).threads[id].request)
    ensures var t := End(env, s, actions).threads[id];
            t.rounds > 0 ==>
              match t.request
              case ForceEpoch(target) => if target == 0 then t.rounds == 1 else t.rounds <= target - t.entryEpoch
              case AwaitTransaction(_, max) => t.rounds <= max
              case Overwrite(states, _) => t.rounds <= |states|
  {
    RequestsTerminate(env, s, actions, id);
  }

  /* The loops on their own */

  /** The request taking n steps in a row with nobody else about. */
  function Alone(env: Environment, c: Chain, t: Thread, n: nat): (Chain, Thread)
    decreases n
  {
    if n == 0 then (c, t)
    else
      var (d, u) := AdvanceThread(env, c, t);
      Alone(env, d, u, n - 1)
  }

  /** Left alone, a transaction request computes what the loop of the facade is specified to compute. */
  lemma {:induction false} AloneAwaits(env: Environment, c: Chain, t: Thread) returns (n: nat)
    requires t.request.AwaitTransaction? && t.at == Polling
    ensures var run := TransactionLoop.Loop(env, c, t.request.hash, t.request.max - t.rounds);
            Alone(env, c, t, n) == (run.chain, t.(at := Done(run.err), rounds := t.rounds + run.blocks))
    decreases NatMinus(t.request.max, t.rounds)
  {
    var (d, u) := AdvanceThread(env, c, t);
    if u.at == Generating {
      var (e, v) := AdvanceThread(env, d, u);
      if v.at == Polling {
        var m := AloneAwaits(env, e, v);
        n := m + 2;
        assert Alone(env, d, u, m + 1) == Alone(env, e, v, m);
      } else {
        n := 2;
        assert Alone(env, d, u, 1) == Alone(env, e, v, 0);
      }
    } else {
      n := 1;
      assert Alone(env, c, t, 1) == Alone(env, d, u, 0);
    }
  }

  lemma {:induction false} AloneForces(env: Environment, c: Chain, t: Thread, fuel: nat) returns (n: nat)
    requires t.request.ForceEpoch? && t.at == Reading
    requires EpochLoop.Loop(env, c, t.request.target, fuel).Some?
    ensures var run := EpochLoop.Loop(env, c, t.request.target, fuel).value;
            Alone(env, c, t, n) == (run.chain, t.(at := Done(run.err), rounds := t.rounds + run.forced))
    decreases fuel
  {
    var (d, u) := AdvanceThread(env, c, t);
    if u.at == Forcing {
      var (e, v) := AdvanceThread(env, d, u);
      if v.at == Reading {
        var m := AloneForces(env, e, v, fuel - 1);
        n := m + 2;
        assert Alone(env, d, u, m + 1) == Alone(env, e, v, m);
      } else {
        n := 2;
        assert Alone(env, d, u, 1) == Alone(env, e, v, 0);
      }
    } else {
      n := 1;
      assert Alone(env, c, t, 1) == Alone(env, d, u, 0);
    }
  }

  /** Left alone, an epoch request computes what ForceChangeOfEpoch of the facade is specified to compute. */
  lemma {:induction false} AloneForceChange(env: Environment, c: Chain, target: uint32, fuel: nat) returns (n: nat)
    requires EpochLoop.ForceChange(env, c, target, fuel).Some?
    ensures var run := EpochLoop.ForceChange(env, c, target, fuel).value;
            && Alone(env, c, Begin(ForceEpoch(target)), n).0 == run.chain
            && Alone(env, c, Begin(ForceEpoch(target)), n).1.at == Done(run.err)
            && Alone(env, c, Begin(ForceEpoch(target)), n).1.rounds == run.forced
  {
    var t := Begin(ForceEpoch(target));
    var (d, u) := AdvanceThread(env, c, t);
    if u.at.Done? {
      n := 1;
      assert Alone(env, c, t, 1) == Alone(env, d, u, 0);
    } else if u.at == ForcingOnce {
      n := 2;
      var (e, v) := AdvanceThread(env, d, u);
      assert Alone(env, d, u, 1) == Alone(env, e, v, 0);
    } else {
      var reading := u.(at := Reading);
      assert AdvanceThread(env, d, reading) == (d, u);
      var m := AloneForces(env, d, reading, fuel);
      n := m;
      assert Alone(env, d, reading, m) == Alone(env, d, u, m - 1);
      assert Alone(env, c, t, m) == Alone(env, d, u, m - 1);
    }
  }

  /* What interference can do */

  lemma {:induction false} RunsCons(env: Environment, s: State, a: Action, rest: seq<Action>)
    requires Enabled(env, s, a) && Runs(env, Next(env, s, a), rest)
    ensures Runs(env, s, [a] + rest) && End(env, s, [a] + rest) == End(env, Next(env, s, a), rest)
  {
    assert ([a] + rest)[1..] == rest;
  }

  lemma {:induction false} RunsConcat(env: Environment, s: State, first: seq<Action>, later: seq<Action>)
    requires Runs(env, s, first) && Runs(env, End(env, s, first), later)
    ensures Runs(env, s, first + later) && End(env, s, first + later) == End(env, End(env, s, first), later)
    decreases |first|
  {
    if first == [] {
      assert [] + later == later;
    } else {
      RunsConcat(env, Next(env, s, first[0]), first[1..], later);
      assert (first + later)[1..] == first[1..] + later;
    }
  }

  /* The generator inside the system */

  /** The moves of the generator in a run. */
  function GeneratorMoves(actions: seq<Action>): seq<G.Move>
    decreases |actions|
  {
    if actions == [] then []
    else if actions[0].Generator? then [actions[0].move] + GeneratorMoves(actions[1..])
    else GeneratorMoves(actions[1..])
  }

  /** Whatever interleaves with them, they are a run of the generator by itself. */
  lemma {:induction false} GeneratorRunsInside(env: Environment, s: State, actions: seq<Action>)
    requires Runs(env, s, actions)
    ensures G.Runs(s.generator, GeneratorMoves(actions))
    ensures G.End(s.generator, GeneratorMoves(actions)) == End(env, s, actions).generator
    decreases |actions|
  {
    if actions != [] {
      var next := Next(env, s, actions[0]);
      GeneratorRunsInside(env, next, actions[1..]);
      if actions[0].Generator? {
        G.RunsCons(s.generator, actions[0].move, GeneratorMoves(actions[1..]));
      }
    }
  }

  /**
   Over every interleaving, once the generator is closed: its block calls are at most the ticks that
   still fire and one that waited, its moves at most four and two for each such tick, and until
   it has exited, or panicked, it has a move to make.
   */
  lemma {:induction false} CloseEndsInEveryRun(env: Environment, s: State, actions: seq<Action>)
    requires G.Conserved(s.generator) && s.generator.cancelled && Runs(env, s, actions)
    ensures var g, h := s.generator, End(env, s, actions).generator;
            && h.started - g.started <= (h.fired - g.fired) + G.One(g.tick)
            && G.OwnMoves(GeneratorMoves(actions)) <= 4 + 2 * (h.fired - g.fired)
            && (h.phase == G.Exited || h.phase == G.Crashed ||
                exists m: G.Move :: G.Own(m) && Enabled(env, End(env, s, actions), Generator(m)))
  {
    var moves := GeneratorMoves(actions);
    GeneratorRunsInside(env, s, actions);
    G.CallsAfter(s.generator, moves);
    G.CloseEndsTheGoroutine(s.generator, moves);
    G.StaysCancelled(s.generator, moves);
    var end := End(env, s, actions);
    match end.generator.phase
    case Launched => assert G.Own(G.Begin) && Enabled(env, end, Generator(G.Begin));
    case Selecting => assert G.Own(G.TakeDone) && Enabled(env, end, Generator(G.TakeDone));
    case Attempting =>
      var m := G.CallReturns(env.generate(end.chain, 1).err.None?);
      assert G.Own(m) && Enabled(env, end, Generator(m));
    case _ =>
  }

  ghost predicate StartsCall(env: Environment, s: State, actions: seq<Action>) {
    Runs(env, s, actions) && End(env, s, actions).generator.started > s.generator.started
  }

  ghost predicate CanStartCall(env: Environment, s: State, ticksAllowed: bool) {
    exists actions :: StartsCall(env, s, actions) && (Generator(G.TickFires) in actions ==> ticksAllowed)
  }

  lemma {:induction false} StartsLater(env: Environment, s: State, a: Action, rest: seq<Action>)
    requires Enabled(env, s, a) && StartsCall(env, Next(env, s, a), rest) && a != Generator(G.TakeTick)
    ensures StartsCall(env, s, [a] + rest)
  {
    RunsCons(env, s, a, rest);
  }

  /** The way to the next call, whatever the chain answers to the one that may be under way. */
  lemma {:induction false} StartFromAnywhere(env: Environment, s: State)
    requires s.generator.phase != G.Exited && s.generator.phase != G.Crashed && s.generator.period > 0
    ensures CanStartCall(env, s, true)
    ensures s.generator.tick ==> CanStartCall(env, s, false)
  {
    var back := Generator(
      if s.generator.phase == G.Launched then G.Begin
      else G.CallReturns(env.generate(s.chain, 1).err.None?));
    var fire, take := Generator(G.TickFires), Generator(G.TakeTick);
    var selecting := if s.generator.phase == G.Selecting then s else Next(env, s, back);
    RunsCons(env, Next(env, selecting, fire), take, []);
    assert [take] + [] == [take];
    StartsLater(env, selecting, fire, [take]);
    if s.generator.phase != G.Selecting {
      StartsLater(env, s, back, [fire] + [take]);
    }
    if s.generator.tick {
      RunsCons(env, selecting, take, []);
      if s.generator.phase != G.Selecting {
        StartsLater(env, s, back, [take]);
        assert fire !in [back] + [take];
      } else {
        assert fire !in [take];
      }
    }
  }

  lemma {:induction false} TicksOfGenerator(actions: seq<Action>)
    ensures G.TickFires in GeneratorMoves(actions) <==> Generator(G.TickFires) in actions
    decreases |actions|
  {
    if actions != [] {
      TicksOfGenerator(actions[1..]);
      assert actions == [actions[0]] + actions[1..];
    }
  }

  /**
   Some interleaving starts another block call exactly if the goroutine has not exited and its ticker
   takes its period; with no further tick, exactly if moreover a tick waits. Being closed makes
   no difference.
   */
  lemma {:induction false} CallCanStartIff(env: Environment, s: State)
    requires G.Conserved(s.generator)
    ensures CanStartCall(env, s, true) <==> s.generator.phase != G.Exited && s.generator.period > 0
    ensures CanStartCall(env, s, false) <==>
            s.generator.phase != G.Exited && s.generator.period > 0 && s.generator.tick
  {
    var g := s.generator;
    if g.phase != G.Exited && g.period > 0 {
      StartFromAnywhere(env, s);
    }
    forall actions | StartsCall(env, s, actions)
      ensures g.phase != G.Exited && g.period > 0
      ensures Generator(G.TickFires) !in actions ==> g.tick
    {
      var moves := GeneratorMoves(actions);
      GeneratorRunsInside(env, s, actions);
      TicksOfGenerator(actions);
      assert G.StartsCall(g, moves);
      assert G.CanStartCall(g, true);
      assert Generator(G.TickFires) !in actions ==> G.CanStartCall(g, false);
      G.CallCanStartIff(g);
    }
  }
}
