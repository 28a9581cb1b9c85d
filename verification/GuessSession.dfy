/**
 The guessing game as it changes memory: two processes whose threads update shared arrays in place.
 Every method is tied to the step relation of `GuessModel`, so what is proved of every run holds of
 the arrays.
 */
module GuessSession {
  import opened Prelude
  import opened GuessModel
  import opened GuessInvariant
  import opened GuessSteps
  import opened GuessTheorems
  import opened GuessLiveness
  import opened GuessOutcome

  /** A process: the local variables of its threads, its mutex, and its global thread_no. */
  class Process {
    const threads: array<Thread>
    var holder: Option<nat>
    var threadNo: nat
    ghost var order: seq<nat>

    ghost function Abs(): Side
      reads this, threads
    {
      Side(threads[..], holder, threadNo, order)
    }

    constructor (m: nat, threadNo: nat)
      ensures fresh(this) && fresh(threads) && threads.Length == m
      ensures Abs() == InitSide(m).(threadNo := threadNo)
    {
      this.threads := new Thread[m](_ => FRESH);
      this.holder := None;
      this.threadNo := threadNo;
      this.order := [];
    }

    /** One action of the slot grab of thread `t`. */
    method Grab(cfg: Config, role: Role, t: nat) returns (moved: bool)
      requires cfg.m >= 1 && t < threads.Length && InPrologue(threads[t].pc)
      modifies this, threads
      ensures moved == GrabStep(cfg, role, old(Abs()), t).Moved?
      ensures Abs() == if moved then GrabStep(cfg, role, old(Abs()), t).next else old(Abs())
    {
      var th := threads[t];
      moved := true;
      match th.pc
      case Lock =>
        if holder.Some? {
          return false;
        }
        holder := Some(t);
        threads[t] := th.(pc := Take);
      case Take =>
        threads[t] := th.(pc := Bump, slot := threadNo);
        order := order + [t];
      case Bump =>
        threadNo := th.slot + 1;
        threads[t] := th.(pc := Unlock);
      case Unlock =>
        holder := None;
        threads[t] := th.(pc := if role.Client? then Fill(Low(cfg, th.slot)) else Scan(Low(cfg, th.slot)));
    }
  }

  class Session {
    const cfg: Config
    const client: Process
    const server: Process
    const shm1: array<int>
    const shm2: array<int>
    const sem: array<nat>

    ghost function Repr(): set<object> {
      {client, client.threads, server, server.threads, shm1, shm2, sem}
    }

    ghost function Abs(): State
      reads Repr()
    {
      State(client.Abs(), server.Abs(), shm1[..], shm2[..], sem[..])
    }

    ghost predicate Separate() {
      && client != server && client.threads != server.threads
      && shm1 != shm2 && shm1 as object != sem && shm2 as object != sem
    }

    ghost predicate Valid()
      reads Repr()
    {
      Separate() && Inv(cfg, Abs())
    }

    /** The three shared segments with their initial values, and `m` new threads on each side. */
    constructor (cfg: Config, serverThreadNo: nat)
      requires ValidConfig(cfg)
      ensures this.cfg == cfg && Separate() && fresh(Repr())
      ensures Abs() == Init(cfg).(server := InitSide(cfg.m).(threadNo := serverThreadNo))
    {
      this.cfg := cfg;
      var c := new Process(cfg.m, 0);
      var s := new Process(cfg.m, serverThreadNo);
      client, server := c, s;
      shm1 := new int[cfg.n](_ => CHAR_ZERO);
      shm2 := new int[cfg.n](_ => 0);
      sem := new nat[2 * cfg.m](_ => 0);
      new;
      assert shm1[..] == Init(cfg).shm1 && shm2[..] == Init(cfg).shm2 && sem[..] == Init(cfg).sem;
    }

    /** sem_post and sem_wait of a client thread. */
    method ClientHandshake(t: nat) returns (moved: bool)
      requires Valid() && t < cfg.m && (client.threads[t].pc.Offer? || client.threads[t].pc.Await?)
      modifies client.threads, sem
      ensures moved == ClientStep(cfg, old(Abs()), t).Moved?
      ensures Abs() == if moved then ClientStep(cfg, old(Abs()), t).next else old(Abs())
    {
      ClientStepKeepsInv(cfg, Abs(), t);
      hide Inv, Low, High;
      var c := client.threads[t];
      moved := true;
      if c.pc.Offer? {
        sem[c.slot] := sem[c.slot] + 1;
        client.threads[t] := c.(pc := Await, posts := c.posts + 1);
      } else {
        if sem[c.slot + cfg.m] == 0 {
          return false;
        }
        sem[c.slot + cfg.m] := sem[c.slot + cfg.m] - 1;
        client.threads[t] := c.(pc := Test(Low(cfg, c.slot), false));
      }
    }

    /** The steps of a client thread between its semaphore operations, which never block. */
    method ClientLetter(t: nat)
      requires Valid() && t < cfg.m
      requires client.threads[t].pc.Fill? || client.threads[t].pc.Test? || client.threads[t].pc.Load? || client.threads[t].pc.Store?
      modifies client.threads, shm1
      ensures ClientStep(cfg, old(Abs()), t).Moved? && Abs() == ClientStep(cfg, old(Abs()), t).next
    {
      ClientStepKeepsInv(cfg, Abs(), t);
      hide Inv, Low, High;
      var c := client.threads[t];
      var hi := High(cfg, c.slot);
      match c.pc
      case Fill(k) =>
        if k < hi {
          shm1[k] := CHAR_A;
          client.threads[t] := c.(pc := Fill(k + 1));
        } else {
          client.threads[t] := c.(pc := Offer);
        }
      case Test(k, flag) =>
        if k < hi {
          client.threads[t] := c.(pc := if shm2[k] == 0 then Load(k) else Test(k + 1, flag));
        } else {
          client.threads[t] := c.(pc := if flag then Offer else Done);
        }
      case Load(k) =>
        client.threads[t] := c.(pc := Store(k, shm1[k]));
      case Store(k, guess) =>
        shm1[k] := CharSucc(guess);
        client.threads[t] := c.(pc := Test(k + 1, true));
    }

    /** One atomic action of client thread `t` past its slot grab, on the shared arrays. */
    method ClientTurn(t: nat) returns (moved: bool)
      requires Valid() && t < cfg.m && !InPrologue(client.threads[t].pc)
      modifies client.threads, shm1, sem
      ensures moved == ClientStep(cfg, old(Abs()), t).Moved?
      ensures Abs() == if moved then ClientStep(cfg, old(Abs()), t).next else old(Abs())
    {
      ClientStepKeepsInv(cfg, Abs(), t);
      hide Inv;
      if client.threads[t].pc.Offer? || client.threads[t].pc.Await? {
        moved := ClientHandshake(t);
      } else if client.threads[t].pc.Done? {
        moved := false;
      } else {
        ClientLetter(t);
        moved := true;
      }
    }

    /** sem_wait and sem_post of a server thread. */
    method ServerHandshake(t: nat) returns (moved: bool)
      requires Valid() && t < cfg.m && (server.threads[t].pc.Receive? || server.threads[t].pc.Reply?)
      modifies server.threads, sem
      ensures moved == ServerStep(cfg, old(Abs()), t).Moved?
      ensures Abs() == if moved then ServerStep(cfg, old(Abs()), t).next else old(Abs())
    {
      ServerStepKeepsInv(cfg, Abs(), t);
      hide Inv, Low, High;
      var v := server.threads[t];
      moved := true;
      if v.pc.Receive? {
        if sem[v.slot] == 0 {
          return false;
        }
        sem[v.slot] := sem[v.slot] - 1;
        server.threads[t] := v.(pc := Compare(Low(cfg, v.slot)));
      } else {
        sem[v.slot + cfg.m] := sem[v.slot + cfg.m] + 1;
        server.threads[t] := v.(pc := Scan(Low(cfg, v.slot)), posts := v.posts + 1);
      }
    }

    /** The steps of a server thread between its semaphore operations, which never block. */
    method ServerLetter(t: nat)
      requires Valid() && t < cfg.m
      requires server.threads[t].pc.Scan? || server.threads[t].pc.Compare? || server.threads[t].pc.Judge?
      modifies server.threads, shm2
      ensures ServerStep(cfg, old(Abs()), t).Moved? && Abs() == ServerStep(cfg, old(Abs()), t).next
    {
      ServerStepKeepsInv(cfg, Abs(), t);
      hide Inv, Low, High;
      var v := server.threads[t];
      var hi := High(cfg, v.slot);
      match v.pc
      case Scan(k) =>
        if k < hi {
          server.threads[t] := v.(pc := if shm2[k] == 0 then Receive else Scan(k + 1));
        } else {
          server.threads[t] := v.(pc := Done);
        }
      case Compare(k) =>
        if k < hi {
          server.threads[t] := v.(pc := Judge(k, shm1[k] == cfg.secret[k]));
        } else {
          server.threads[t] := v.(pc := Reply);
        }
      case Judge(k, hit) =>
        shm2[k] := if hit then 1 else 0;
        server.threads[t] := v.(pc := Compare(k + 1));
    }

    /** One atomic action of server thread `t` past its slot grab, on the shared arrays. */
    method ServerTurn(t: nat) returns (moved: bool)
      requires Valid() && t < cfg.m && !InPrologue(server.threads[t].pc)
      modifies server.threads, shm2, sem
      ensures moved == ServerStep(cfg, old(Abs()), t).Moved?
      ensures Abs() == if moved then ServerStep(cfg, old(Abs()), t).next else old(Abs())
    {
      ServerStepKeepsInv(cfg, Abs(), t);
      hide Inv;
      if server.threads[t].pc.Receive? || server.threads[t].pc.Reply? {
        moved := ServerHandshake(t);
      } else if server.threads[t].pc.Done? {
        moved := false;
      } else {
        ServerLetter(t);
        moved := true;
      }
    }

    /** One atomic action of any thread. */
    method Turn(a: Actor) returns (moved: bool)
      requires Valid() && a.t < cfg.m
      modifies Repr()
      ensures Valid()
      ensures moved == Step(cfg, old(Abs()), a).Moved?
      ensures Abs() == if moved then Step(cfg, old(Abs()), a).next else old(Abs())
    {
      StepKeepsInv(cfg, Abs(), a);
      var p := if a.role.Client? then client else server;
      if InPrologue(p.threads[a.t].pc) {
        moved := p.Grab(cfg, a.role, a.t);
      } else if a.role.Client? {
        moved := ClientTurn(a.t);
      } else {
        moved := ServerTurn(a.t);
      }
    }

    /** The memory is where `run` leads. */
    ghost predicate At(run: seq<Actor>)
      reads Repr()
    {
      Separate() && ValidConfig(cfg) && Run(cfg, run) == Some(Abs())
    }

    /** One turn, and the run so far with that turn added if it was taken. */
    method TakeTurn(a: Actor, ghost run: seq<Actor>) returns (moved: bool, ghost run': seq<Actor>)
      requires At(run) && a.t < cfg.m
      modifies Repr()
      ensures At(run')
      ensures moved == Step(cfg, old(Abs()), a).Moved?
      ensures if moved then run' == run + [a] else run' == run && Abs() == old(Abs())
    {
      hide Run, Step, Inv;
      RunInv(cfg, run);
      ghost var s := Abs();
      moved := Turn(a);
      run' := run;
      if moved {
        RunStep(cfg, run, a);
        run' := run + [a];
      }
    }

    function Nth(j: nat): Actor {
      if j < cfg.m then Actor(Client, j) else Actor(Server, j - cfg.m)
    }

    /** None of the first `j` threads can move. */
    ghost predicate IdleUpTo(s: State, j: nat)
      requires cfg.m >= 1
    {
      forall i :: 0 <= i < j ==> !Step(cfg, s, Nth(i)).Moved?
    }

    /** If none of the `2 * m` threads can move, nobody can. */
    lemma NobodyElse(s: State)
      requires Inv(cfg, s) && IdleUpTo(s, 2 * cfg.m)
      ensures Stuck(cfg, s)
    {
      forall a: Actor
        ensures !Step(cfg, s, a).Moved?
      {
        if a.t < cfg.m {
          assert a == Nth(if a.role.Client? then a.t else a.t + cfg.m);
        }
      }
    }

    /** Offers thread `j` a turn. */
    method SweepOne(j: nat, progress: bool, ghost run: seq<Actor>) returns (progress': bool, ghost run': seq<Actor>)
      requires At(run) && j < 2 * cfg.m && (progress || IdleUpTo(Abs(), j))
      modifies Repr()
      ensures At(run') && (progress ==> progress')
      ensures if progress' then |run| <= |run'| && (progress || |run| < |run'|) else run' == run && IdleUpTo(Abs(), j + 1)
    {
      var moved, r := TakeTurn(Nth(j), run);
      progress', run' := progress || moved, r;
    }

    /** Offers every thread one turn. */
    method Sweep(ghost run: seq<Actor>) returns (progress: bool, ghost run': seq<Actor>)
      requires At(run)
      modifies Repr()
      ensures At(run')
      ensures if progress then |run'| > |run| else run' == run && Stuck(cfg, Abs())
    {
      progress, run' := false, run;
      for j := 0 to 2 * cfg.m
        invariant At(run')
        invariant if progress then |run'| > |run| else run' == run && IdleUpTo(Abs(), j)
      {
        progress, run' := SweepOne(j, progress, run');
      }
      if !progress {
        RunInv(cfg, run');
        NobodyElse(Abs());
      }
    }

    /** Lets the threads take turns, first as `schedule` says (a thread that cannot move loses its
        turn) and then round robin, until nobody can move. */
    method Play(schedule: seq<Actor>) returns (ghost run: seq<Actor>)
      requires Separate() && ValidConfig(cfg) && Abs() == Init(cfg)
      requires forall j :: 0 <= j < |schedule| ==> schedule[j].t < cfg.m
      modifies Repr()
      ensures At(run) && Stuck(cfg, Abs())
    {
      run := [];
      for j := 0 to |schedule|
        invariant At(run)
      {
        var _, r := TakeTurn(schedule[j], run);
        run := r;
      }
      var progress := true;
      EveryRunIsFinite(cfg, run);
      while progress
        invariant At(run) && |run| <= LongestRun(cfg)
        invariant !progress ==> Stuck(cfg, Abs())
        decreases LongestRun(cfg) - |run|, progress
      {
        progress, run := Sweep(run);
        EveryRunIsFinite(cfg, run);
      }
    }
  }

  /** The server's joins always return: in a state nobody can leave, all server threads have exited,
      having counted thread_no up to `m`. */
  lemma ServerThreadsLeave(cfg: Config, run: seq<Actor>)
    requires ValidConfig(cfg) && Run(cfg, run).Some? && Stuck(cfg, Run(cfg, run).value)
    ensures
      var server := Run(cfg, run).value.server;
      && |server.threads| == server.threadNo == cfg.m
      && forall t :: 0 <= t < cfg.m ==> server.threads[t].pc.Done?
  {
    RunInv(cfg, run);
    if cfg.m <= cfg.n {
      CompleteRunsAgree(cfg, run);
    } else {
      TooManyThreads(cfg, run);
    }
    var server := Run(cfg, run).value.server;
    SlotsArePermutation(cfg, server);
    if server.holder.Some? {
      assert HolderOk(server, server.holder.value);
    }
  }

  /** What one session leaves behind: the two arrays, and the client's threads. */
  datatype Result = Result(guesses: seq<int>, verdicts: seq<int>, client: seq<Thread>)

  /** With at most as many threads as letters, all letters are found but the last `n % m`, and all client
      threads have left; with more, nothing is found, and all of them wait for ever after one post. */
  predicate Played(cfg: Config, r: Result)
    requires ValidConfig(cfg)
  {
    var found := if cfg.m <= cfg.n then cfg.n - cfg.n % cfg.m else 0;
    && |r.guesses| == |r.verdicts| == cfg.n && |r.client| == cfg.m
    && (forall k :: 0 <= k < found ==> r.guesses[k] == cfg.secret[k] && r.verdicts[k] == 1)
    && (forall k :: found <= k < cfg.n ==> r.guesses[k] == 48 && r.verdicts[k] == 0)
    && forall t :: 0 <= t < cfg.m ==>
         if cfg.m <= cfg.n then r.client[t].pc.Done? else r.client[t].pc.Await? && r.client[t].posts == 1
  }

  lemma StuckIsPlayed(cfg: Config, run: seq<Actor>)
    requires ValidConfig(cfg) && Run(cfg, run).Some? && Stuck(cfg, Run(cfg, run).value)
    ensures
      var s := Run(cfg, run).value;
      Played(cfg, Result(s.shm1, s.shm2, s.client.threads))
  {
    RunInv(cfg, run);
    if cfg.m <= cfg.n {
      CompleteRunsAgree(cfg, run);
    } else {
      TooManyThreads(cfg, run);
    }
  }

  /** The server's accept loop: thread_no is global, so each session starts from what the last one left. */
  class GuessServer {
    var threadNo: nat

    constructor ()
      ensures threadNo == 0
    {
      threadNo := 0;
    }

    /** One connection.  The server process joins its own threads only, and then resets thread_no. */
    method Serve(cfg: Config, schedule: seq<Actor>) returns (r: Result)
      requires ValidConfig(cfg) && threadNo == 0
      requires forall j :: 0 <= j < |schedule| ==> schedule[j].t < cfg.m
      modifies this
      ensures threadNo == 0 && Played(cfg, r)
    {
      hide Inv, Stuck, Played;
      var session := new Session(cfg, threadNo);
      ghost var run := session.Play(schedule);
      threadNo := session.server.threadNo;
      ServerThreadsLeave(cfg, run);
      assert threadNo == cfg.m;
      StuckIsPlayed(cfg, run);
      r := Result(session.shm1[..], session.shm2[..], session.client.threads[..]);
      threadNo := 0;
    }

    /** Any number of sessions, with any numbers of threads and letters and under any schedules, one after
        the other. */
    method ServeAll(requests: seq<Config>, schedules: seq<seq<Actor>>) returns (results: seq<Result>)
      requires threadNo == 0 && |schedules| == |requests|
      requires forall r :: 0 <= r < |requests| ==> ValidConfig(requests[r])
      requires forall r, j :: 0 <= r < |requests| && 0 <= j < |schedules[r]| ==> schedules[r][j].t < requests[r].m
      modifies this
      ensures threadNo == 0 && |results| == |requests|
      ensures forall r :: 0 <= r < |requests| ==> Played(requests[r], results[r])
    {
      hide Played;
      results := [];
      for r := 0 to |requests|
        invariant threadNo == 0 && |results| == r
        invariant forall q :: 0 <= q < r ==> Played(requests[q], results[q])
      {
        var result := Serve(requests[r], schedules[r]);
        results := results + [result];
      }
    }
  }
}
