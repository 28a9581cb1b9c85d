/**
 Termination, deadlock and the final outcome of the guessing game.
 */
module GuessLiveness {
  import opened GuessModel
  import opened GuessInvariant
  import opened GuessSteps
  import opened GuessTheorems

  // ----- A measure that falls on every step -----

  /** `cost` steps for every round a thread may still have to make after `posts` rounds. */
  function Budget(posts: nat, cost: nat): nat
    decreases MAX_ROUNDS - posts
  {
    if posts >= MAX_ROUNDS then 0 else cost + Budget(posts + 1, cost)
  }

  lemma {:induction false} BudgetIsProduct(posts: nat, cost: nat)
    requires posts <= MAX_ROUNDS
    ensures Budget(posts, cost) == (MAX_ROUNDS - posts) * cost
    decreases MAX_ROUNDS - posts
  {
    if posts == MAX_ROUNDS {
    } else {
      BudgetIsProduct(posts + 1, cost);
      assert (MAX_ROUNDS - posts) * cost == (MAX_ROUNDS - posts - 1) * cost + cost;
    }
  }

  /** An upper bound on the steps client thread `c` still has to make. */
  function ClientFuel(cfg: Config, c: Thread): int
    requires cfg.m >= 1
  {
    var l, hi := Share(cfg), High(cfg, c.slot);
    var base := Budget(c.posts, 3 * l + 4);
    match c.pc
    case Lock => base + l + 6
    case Take => base + l + 5
    case Bump => base + l + 4
    case Unlock => base + l + 3
    case Fill(k) => base + (hi - k) + 1
    case Offer => base
    case Await => base + 3 * l + 3
    case Test(k, _) => base + 3 * (hi - k) + 2
    case Load(k) => base + 3 * (hi - k) + 1
    case Store(k, _) => base + 3 * (hi - k)
    case _ => 0
  }

  /** An upper bound on the steps server thread `v` still has to make. */
  function ServerFuel(cfg: Config, v: Thread): int
    requires cfg.m >= 1
  {
    var l, hi := Share(cfg), High(cfg, v.slot);
    var base, next := Budget(v.posts, 3 * l + 5), Budget(v.posts + 1, 3 * l + 5);
    match v.pc
    case Lock => base + l + 5
    case Take => base + l + 4
    case Bump => base + l + 3
    case Unlock => base + l + 2
    case Scan(k) => base + (hi - k) + 1
    case Receive => base
    case Compare(k) => next + l + 4 + 2 * (hi - k)
    case Judge(k, _) => next + l + 3 + 2 * (hi - k)
    case Reply => next + l + 3
    case _ => 0
  }

  function Fuel(cfg: Config, role: Role, th: Thread): int
    requires cfg.m >= 1
  {
    if role.Client? then ClientFuel(cfg, th) else ServerFuel(cfg, th)
  }

  function SideFuel(cfg: Config, role: Role, threads: seq<Thread>): int
    requires cfg.m >= 1
  {
    if threads == [] then 0
    else SideFuel(cfg, role, threads[..|threads| - 1]) + Fuel(cfg, role, threads[|threads| - 1])
  }

  function TotalFuel(cfg: Config, s: State): int
    requires cfg.m >= 1
  {
    SideFuel(cfg, Client, s.client.threads) + SideFuel(cfg, Server, s.server.threads)
  }

  lemma {:induction false} SideFuelUpdate(cfg: Config, role: Role, threads: seq<Thread>, t: nat, th: Thread)
    requires cfg.m >= 1 && t < |threads|
    ensures SideFuel(cfg, role, threads[t := th])
         == SideFuel(cfg, role, threads) - Fuel(cfg, role, threads[t]) + Fuel(cfg, role, th)
  {
    var n := |threads| - 1;
    if t < n {
      assert threads[t := th][..n] == threads[..n][t := th];
      SideFuelUpdate(cfg, role, threads[..n], t, th);
    } else {
      assert threads[t := th][..n] == threads[..n];
    }
  }

  lemma BudgetStep(posts: nat, cost: nat)
    ensures posts < MAX_ROUNDS ==> Budget(posts, cost) == cost + Budget(posts + 1, cost)
  {
  }

  lemma ClientFuelFalls(cfg: Config, s: State, t: nat, i: nat)
    requires SlotInv(cfg, s, i) && Holds(s.client, t, i) && !InPrologue(s.client.threads[t].pc) && ClientStep(cfg, s, t).Moved?
    ensures t < |ClientStep(cfg, s, t).next.client.threads|
    ensures ClientFuel(cfg, ClientStep(cfg, s, t).next.client.threads[t]) < ClientFuel(cfg, s.client.threads[t])
  {
    hide SliceInv, Handshake, ServerOk, Rounds, Need, ServerFuel, Low, High, Share, Budget;
    SliceBounds(cfg, i);
    RoundsBound(cfg, i);
    BudgetStep(s.client.threads[t].posts, 3 * Share(cfg) + 4);
  }

  lemma ServerFuelFalls(cfg: Config, s: State, t: nat, i: nat)
    requires SlotInv(cfg, s, i) && Holds(s.server, t, i) && !InPrologue(s.server.threads[t].pc) && ServerStep(cfg, s, t).Moved?
    ensures t < |ServerStep(cfg, s, t).next.server.threads|
    ensures ServerFuel(cfg, ServerStep(cfg, s, t).next.server.threads[t]) < ServerFuel(cfg, s.server.threads[t])
  {
    hide SliceInv, Handshake, ClientOk, Rounds, Need, ClientFuel, Low, High, Share, Budget;
    SliceBounds(cfg, i);
    RoundsBound(cfg, i);
    BudgetStep(s.server.threads[t].posts, 3 * Share(cfg) + 5);
  }

  lemma GrabFuelFalls(cfg: Config, role: Role, side: Side, t: nat)
    requires cfg.m >= 1 && SideInv(cfg, side) && t < cfg.m && InPrologue(side.threads[t].pc)
    requires GrabStep(cfg, role, side, t).Moved?
    ensures
      var side' := GrabStep(cfg, role, side, t).next;
      && |side'.threads| == cfg.m && side'.threads == side.threads[t := side'.threads[t]]
      && Fuel(cfg, role, side'.threads[t]) < Fuel(cfg, role, side.threads[t])
  {
    SliceBounds(cfg, 0);
    assert High(cfg, side.threads[t].slot) - Low(cfg, side.threads[t].slot) == Share(cfg) by {
      assert (side.threads[t].slot + 1) * Share(cfg) == side.threads[t].slot * Share(cfg) + Share(cfg);
    }
  }

  lemma ActorBurnsFuel(cfg: Config, s: State, a: Actor)
    requires Inv(cfg, s) && Step(cfg, s, a).Moved?
    ensures
      var side, side' := SideOf(s, a.role), SideOf(Step(cfg, s, a).next, a.role);
      var other := if a.role.Client? then Server else Client;
      && a.t < |side.threads| == |side'.threads| && side'.threads == side.threads[a.t := side'.threads[a.t]]
      && SideOf(Step(cfg, s, a).next, other) == SideOf(s, other)
      && Fuel(cfg, a.role, side'.threads[a.t]) < Fuel(cfg, a.role, side.threads[a.t])
  {
    var side := SideOf(s, a.role);
    if InPrologue(side.threads[a.t].pc) {
      GrabFuelFalls(cfg, a.role, side, a.t);
    } else {
      ThreadSlotInv(cfg, s, a.role, a.t);
      if a.role.Client? {
        ClientStepMoves(cfg, s, a.t, side.threads[a.t].slot);
        ClientFuelFalls(cfg, s, a.t, side.threads[a.t].slot);
      } else {
        ServerStepMoves(cfg, s, a.t, side.threads[a.t].slot);
        ServerFuelFalls(cfg, s, a.t, side.threads[a.t].slot);
      }
    }
  }

  lemma StepBurnsFuel(cfg: Config, s: State, a: Actor)
    requires Inv(cfg, s) && Step(cfg, s, a).Moved?
    ensures TotalFuel(cfg, Step(cfg, s, a).next) < TotalFuel(cfg, s)
  {
    hide Step, Fuel, SideInv, PairInv, SliceInv;
    ActorBurnsFuel(cfg, s, a);
    SideFuelUpdate(cfg, a.role, SideOf(s, a.role).threads, a.t, SideOf(Step(cfg, s, a).next, a.role).threads[a.t]);
  }

  lemma ClientFuelNonNegative(cfg: Config, s: State, t: nat, i: nat)
    requires SlotInv(cfg, s, i) && Holds(s.client, t, i)
    ensures ClientFuel(cfg, s.client.threads[t]) >= 0
  {
  }

  lemma ServerFuelNonNegative(cfg: Config, s: State, t: nat, i: nat)
    requires SlotInv(cfg, s, i) && Holds(s.server, t, i)
    ensures ServerFuel(cfg, s.server.threads[t]) >= 0
  {
  }

  lemma {:induction false} SideFuelNonNegative(cfg: Config, role: Role, threads: seq<Thread>)
    requires cfg.m >= 1
    requires forall t :: 0 <= t < |threads| ==> Fuel(cfg, role, threads[t]) >= 0
    ensures SideFuel(cfg, role, threads) >= 0
  {
    if threads == [] {
    } else {
      SideFuelNonNegative(cfg, role, threads[..|threads| - 1]);
    }
  }

  lemma FuelNonNegative(cfg: Config, s: State)
    requires Inv(cfg, s)
    ensures TotalFuel(cfg, s) >= 0
  {
    forall t | 0 <= t < cfg.m
      ensures Fuel(cfg, Client, s.client.threads[t]) >= 0 && Fuel(cfg, Server, s.server.threads[t]) >= 0
    {
      if !InPrologue(s.client.threads[t].pc) {
        ThreadSlotInv(cfg, s, Client, t);
        ClientFuelNonNegative(cfg, s, t, s.client.threads[t].slot);
      }
      if !InPrologue(s.server.threads[t].pc) {
        ThreadSlotInv(cfg, s, Server, t);
        ServerFuelNonNegative(cfg, s, t, s.server.threads[t].slot);
      }
    }
    SideFuelNonNegative(cfg, Client, s.client.threads);
    SideFuelNonNegative(cfg, Server, s.server.threads);
  }

  /** The longest any run of the two processes together can be. */
  function LongestRun(cfg: Config): nat
    requires cfg.m >= 1
  {
    cfg.m * Fuel(cfg, Client, FRESH) + cfg.m * Fuel(cfg, Server, FRESH)
  }

  lemma StartingFuel(cfg: Config, th: Thread)
    requires cfg.m >= 1 && th.pc.Lock? && th.posts <= MAX_ROUNDS
    ensures ClientFuel(cfg, th) == (MAX_ROUNDS - th.posts) * (3 * Share(cfg) + 4) + Share(cfg) + 6
    ensures ServerFuel(cfg, th) == (MAX_ROUNDS - th.posts) * (3 * Share(cfg) + 5) + Share(cfg) + 5
  {
    BudgetIsProduct(th.posts, 3 * Share(cfg) + 4);
    BudgetIsProduct(th.posts, 3 * Share(cfg) + 5);
  }

  /** In terms of the letters per thread, and of the at most 58 rounds. */
  lemma LongestRunIs(cfg: Config)
    requires cfg.m >= 1
    ensures LongestRun(cfg) == cfg.m * (58 * (3 * (cfg.n / cfg.m) + 4) + cfg.n / cfg.m + 6)
                             + cfg.m * (58 * (3 * (cfg.n / cfg.m) + 5) + cfg.n / cfg.m + 5)
  {
    hide ClientFuel, ServerFuel;
    StartingFuel(cfg, FRESH);
  }

  lemma {:induction false} FreshFuel(cfg: Config, role: Role, m: nat)
    requires cfg.m >= 1
    ensures SideFuel(cfg, role, seq(m, i => FRESH)) == m * Fuel(cfg, role, FRESH)
  {
    hide Fuel;
    if m == 0 {
    } else {
      FreshFuel(cfg, role, m - 1);
      assert seq(m, i => FRESH)[..m - 1] == seq(m - 1, i => FRESH);
      assert m * Fuel(cfg, role, FRESH) == (m - 1) * Fuel(cfg, role, FRESH) + Fuel(cfg, role, FRESH);
    }
  }

  lemma InitFuel(cfg: Config)
    requires ValidConfig(cfg)
    ensures TotalFuel(cfg, Init(cfg)) == LongestRun(cfg)
  {
    FreshFuel(cfg, Client, cfg.m);
    FreshFuel(cfg, Server, cfg.m);
  }

  lemma {:induction false} RunFuel(cfg: Config, sched: seq<Actor>)
    requires ValidConfig(cfg) && Run(cfg, sched).Some?
    ensures |sched| + TotalFuel(cfg, Run(cfg, sched).value) <= LongestRun(cfg)
  {
    if sched == [] {
      InitFuel(cfg);
    } else {
      var n := |sched| - 1;
      RunFuel(cfg, sched[..n]);
      RunInv(cfg, sched[..n]);
      StepBurnsFuel(cfg, Run(cfg, sched[..n]).value, sched[n]);
    }
  }

  /** Every run ends: no schedule, fair or not, is longer than `LongestRun`. */
  lemma EveryRunIsFinite(cfg: Config, sched: seq<Actor>)
    requires ValidConfig(cfg) && Run(cfg, sched).Some?
    ensures |sched| <= LongestRun(cfg)
  {
    RunFuel(cfg, sched);
    RunInv(cfg, sched);
    FuelNonNegative(cfg, Run(cfg, sched).value);
  }

  // ----- Deadlock -----

  /** While some thread of a side is still before or inside its critical section, that side can move. */
  lemma PrologueMoves(cfg: Config, s: State, role: Role, t: nat) returns (a: Actor)
    requires Inv(cfg, s) && t < cfg.m && InPrologue(SideOf(s, role).threads[t].pc)
    ensures Step(cfg, s, a).Moved?
  {
    var side := SideOf(s, role);
    a := Actor(role, if side.holder.Some? then side.holder.value else t);
    assert HolderOk(side, t) && HolderOk(side, a.t);
  }

  /** The pair of slot `i` can move unless both of its threads are done. */
  lemma PairMoves(cfg: Config, s: State, i: nat, t: nat, u: nat) returns (a: Actor)
    requires SlotInv(cfg, s, i) && cfg.m <= cfg.n && Holds(s.client, t, i) && Holds(s.server, u, i)
    requires !InPrologue(s.client.threads[t].pc) && !InPrologue(s.server.threads[u].pc)
    requires !s.client.threads[t].pc.Done? || !s.server.threads[u].pc.Done?
    ensures Step(cfg, s, a).Moved?
  {
    SliceBounds(cfg, i);
    ShareIsZeroIff(cfg);
    ClientStepMoves(cfg, s, t, i);
    ServerStepMoves(cfg, s, u, i);
    var c := s.client.threads[t];
    a := if c.pc.Done? || (c.pc.Await? && s.sem[i + cfg.m] == 0) then Actor(Server, u) else Actor(Client, t);
  }

  /** With at most as many threads as letters, some thread can move until all have exited. */
  lemma Progress(cfg: Config, s: State)
    requires Inv(cfg, s) && cfg.m <= cfg.n && !AllDone(s)
    ensures !Stuck(cfg, s)
  {
    if t :| 0 <= t < cfg.m && InPrologue(s.client.threads[t].pc) {
      var a := PrologueMoves(cfg, s, Client, t);
    } else if t :| 0 <= t < cfg.m && InPrologue(s.server.threads[t].pc) {
      var a := PrologueMoves(cfg, s, Server, t);
    } else {
      SlotsArePermutation(cfg, s.client);
      SlotsArePermutation(cfg, s.server);
      var i: nat;
      if t :| 0 <= t < cfg.m && !s.client.threads[t].pc.Done? {
        ThreadSlotInv(cfg, s, Client, t);
        i := s.client.threads[t].slot;
      } else {
        var u :| 0 <= u < cfg.m && !s.server.threads[u].pc.Done?;
        ThreadSlotInv(cfg, s, Server, u);
        i := s.server.threads[u].slot;
      }
      var a := PairMoves(cfg, s, i, s.client.order[i], s.server.order[i]);
    }
  }

  lemma EmptySliceBlocksClient(cfg: Config, s: State, t: nat, i: nat)
    requires SlotInv(cfg, s, i) && cfg.m > cfg.n && Holds(s.client, t, i)
    ensures !s.client.threads[t].pc.Done?
    ensures s.client.threads[t].pc.Await? ==> !ClientStep(cfg, s, t).Moved? && s.client.threads[t].posts == 1
  {
    ShareIsZeroIff(cfg);
    RoundsBound(cfg, i);
    SliceBounds(cfg, i);
  }

  /** With more threads than letters, a client thread never gets past its first sem_wait. */
  lemma EmptySlicesBlockClients(cfg: Config, s: State, t: nat)
    requires Inv(cfg, s) && cfg.m > cfg.n && t < cfg.m
    ensures !s.client.threads[t].pc.Done?
    ensures s.client.threads[t].pc.Await? ==> !Step(cfg, s, Actor(Client, t)).Moved?
  {
    if !InPrologue(s.client.threads[t].pc) {
      ThreadSlotInv(cfg, s, Client, t);
      EmptySliceBlocksClient(cfg, s, t, s.client.threads[t].slot);
    }
  }

  /** Any run can be continued until no thread can move. */
  lemma RunToTheEnd(cfg: Config, sched: seq<Actor>) returns (more: seq<Actor>)
    requires ValidConfig(cfg) && Run(cfg, sched).Some?
    ensures Run(cfg, sched + more).Some? && Stuck(cfg, Run(cfg, sched + more).value)
  {
    hide Step;
    more := [];
    assert sched + more == sched;
    while !Stuck(cfg, Run(cfg, sched + more).value)
      invariant Run(cfg, sched + more).Some?
      decreases LongestRun(cfg) - |more|
    {
      var s := Run(cfg, sched + more).value;
      var a :| Step(cfg, s, a).Moved?;
      assert (sched + (more + [a]))[..|sched + more|] == sched + more;
      more := more + [a];
      EveryRunIsFinite(cfg, sched + more);
    }
  }

  /** The game is free of deadlock, under every schedule, exactly when there are at most as many threads as letters. */
  lemma DeadlockFreeIff(cfg: Config)
    requires ValidConfig(cfg)
    ensures (forall sched :: Run(cfg, sched).Some? && Stuck(cfg, Run(cfg, sched).value) ==> AllDone(Run(cfg, sched).value))
       <==> cfg.m <= cfg.n
  {
    if cfg.m <= cfg.n {
      forall sched | Run(cfg, sched).Some? && Stuck(cfg, Run(cfg, sched).value)
        ensures AllDone(Run(cfg, sched).value)
      {
        RunInv(cfg, sched);
        if !AllDone(Run(cfg, sched).value) {
          Progress(cfg, Run(cfg, sched).value);
        }
      }
    } else {
      var sched := RunToTheEnd(cfg, []);
      RunInv(cfg, [] + sched);
      EmptySlicesBlockClients(cfg, Run(cfg, [] + sched).value, 0);
    }
  }

  lemma StuckClient(cfg: Config, s: State, t: nat)
    requires Inv(cfg, s) && cfg.m > cfg.n && t < cfg.m
    requires !InPrologue(s.client.threads[t].pc) && !ClientStep(cfg, s, t).Moved?
    ensures s.client.threads[t].pc.Await? && s.client.threads[t].posts == 1
  {
    var i := s.client.threads[t].slot;
    ThreadSlotInv(cfg, s, Client, t);
    EmptySliceBlocksClient(cfg, s, t, i);
    ClientStepMoves(cfg, s, t, i);
  }

  lemma StuckServer(cfg: Config, s: State, t: nat)
    requires Inv(cfg, s) && cfg.m > cfg.n && t < cfg.m
    requires !InPrologue(s.server.threads[t].pc) && !ServerStep(cfg, s, t).Moved?
    ensures s.server.threads[t].pc.Done? && s.server.threads[t].posts == 0
  {
    var i := s.server.threads[t].slot;
    ThreadSlotInv(cfg, s, Server, t);
    ShareIsZeroIff(cfg);
    SliceBounds(cfg, i);
    ServerStepMoves(cfg, s, t, i);
  }

  lemma TooManyThreadsOne(cfg: Config, s: State, t: nat)
    requires Inv(cfg, s) && cfg.m > cfg.n && t < cfg.m && Stuck(cfg, s)
    ensures s.client.threads[t].pc.Await? && s.client.threads[t].posts == 1
    ensures s.server.threads[t].pc.Done? && s.server.threads[t].posts == 0
  {
    assert !Step(cfg, s, Actor(Client, t)).Moved? && !Step(cfg, s, Actor(Server, t)).Moved?;
    if InPrologue(s.client.threads[t].pc) {
      var a := PrologueMoves(cfg, s, Client, t);
    } else if InPrologue(s.server.threads[t].pc) {
      var a := PrologueMoves(cfg, s, Server, t);
    } else {
      EmptySlicesBlockClients(cfg, s, t);
      StuckClient(cfg, s, t);
      StuckServer(cfg, s, t);
    }
  }

  /** How a session with more threads than letters ends, whatever the schedule: every server thread has
      left, every client thread has posted once and waits for ever, and nothing has been guessed. */
  lemma TooManyThreads(cfg: Config, sched: seq<Actor>)
    requires ValidConfig(cfg) && cfg.m > cfg.n && Run(cfg, sched).Some? && Stuck(cfg, Run(cfg, sched).value)
    ensures
      var s := Run(cfg, sched).value;
      && |s.client.threads| == |s.server.threads| == cfg.m
      && (forall t :: 0 <= t < cfg.m ==> s.client.threads[t].pc.Await? && s.client.threads[t].posts == 1)
      && (forall t :: 0 <= t < cfg.m ==> s.server.threads[t].pc.Done? && s.server.threads[t].posts == 0)
      && |s.shm1| == |s.shm2| == cfg.n && forall k :: 0 <= k < cfg.n ==> s.shm1[k] == 48 && s.shm2[k] == 0
  {
    RunInv(cfg, sched);
    var s := Run(cfg, sched).value;
    ShareIsZeroIff(cfg);
    assert cfg.m * Share(cfg) == 0;
    forall t | 0 <= t < cfg.m
      ensures s.client.threads[t].pc.Await? && s.client.threads[t].posts == 1
      ensures s.server.threads[t].pc.Done? && s.server.threads[t].posts == 0
    {
      TooManyThreadsOne(cfg, s, t);
    }
  }
}
