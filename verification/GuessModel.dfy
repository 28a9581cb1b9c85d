/**
 The guessing game of Assignment2: a server and a client each start `m` threads over two shared
 arrays (`shm1`, the guesses; `shm2`, the verdicts) and `2 * m` counting semaphores.

 A state holds a program counter for every one of the `2 * m` threads.  One step is one thread taking
 one atomic action: one array access, one semaphore operation, or one action under the mutex.  A run
 is any schedule of such steps, so a statement about every run covers every interleaving.
 */
module GuessModel {

  import opened Prelude

  // ----- Configuration of one session -----

  /** `n` letters to guess, `m` threads on each side, and the secret as character codes. */
  datatype Config = Config(n: nat, m: nat, secret: seq<int>)

  const CHAR_ZERO := 48  // '0', the initial guess
  const CHAR_A := 65     // 'A', the first letter tried
  const MAX_ROUNDS := 58 // 'z' - 'A' + 1

  /** The 52 letters a secret is drawn from. */
  predicate IsLetter(c: int) {
    65 <= c <= 90 || 97 <= c <= 122
  }

  predicate ValidConfig(cfg: Config) {
    && cfg.n >= 1
    && cfg.m >= 1
    && |cfg.secret| == cfg.n
    && forall k :: 0 <= k < cfg.n ==> IsLetter(cfg.secret[k])
  }

  /** Every secret over these letters is covered. */
  lemma AllLettersAreCovered(n: nat, m: nat, secret: string)
    requires n == |secret| && n >= 1 && m >= 1
    requires forall k :: 0 <= k < n ==> 'A' <= secret[k] <= 'Z' || 'a' <= secret[k] <= 'z'
    ensures ValidConfig(Config(n, m, seq(n, k requires 0 <= k < n => secret[k] as int)))
  {
  }

  /** Letters per thread, `N / M`. */
  function Share(cfg: Config): nat
    requires cfg.m >= 1
  {
    cfg.n / cfg.m
  }

  function Low(cfg: Config, slot: nat): nat
    requires cfg.m >= 1
  {
    slot * Share(cfg)
  }

  function High(cfg: Config, slot: nat): nat
    requires cfg.m >= 1
  {
    (slot + 1) * Share(cfg)
  }

  // ----- Threads -----

  datatype Role = Client | Server

  /** Where a thread stands.  `k` is always the absolute index of the cell it handles next. */
  datatype Pc =
    // both sides: pthread_mutex_lock, the read and the write of thread_no++, pthread_mutex_unlock
    | Lock | Take | Bump | Unlock
    // client: fill with 'A', sem_post, sem_wait, test a verdict, the read and the write of shm1[k]++
    | Fill(k: nat) | Offer | Await | Test(k: nat, flag: bool) | Load(k: nat) | Store(k: nat, guess: int)
    // server: found(), sem_wait, read a guess, write its verdict, sem_post
    | Scan(k: nat) | Receive | Compare(k: nat) | Judge(k: nat, hit: bool) | Reply
    | Done

  /** `posts` counts the sem_post calls this thread has made: a history variable no step reads. */
  datatype Thread = Thread(pc: Pc, slot: nat, posts: nat)

  /** One process: its threads, its mutex (`None` when free), its thread_no, and, as a history
      variable, its threads in the order in which they took their slots. */
  datatype Side = Side(threads: seq<Thread>, holder: Option<nat>, threadNo: nat, order: seq<nat>)

  datatype State = State(client: Side, server: Side, shm1: seq<int>, shm2: seq<int>, sem: seq<nat>)

  datatype Actor = Actor(role: Role, t: nat)

  /** `Fault` is an access outside a shared segment. */
  datatype Outcome<+T> = Moved(next: T) | Blocked | Exited | Fault

  const FRESH: Thread := Thread(Lock, 0, 0)

  function InitSide(m: nat): Side {
    Side(seq(m, i => FRESH), None, 0, [])
  }

  function Init(cfg: Config): State {
    State(InitSide(cfg.m), InitSide(cfg.m), seq(cfg.n, i => CHAR_ZERO), seq(cfg.n, i => 0), seq(2 * cfg.m, i => 0))
  }

  // ----- Steps -----

  function WithThread(side: Side, t: nat, th: Thread): Side
    requires t < |side.threads|
  {
    side.(threads := side.threads[t := th])
  }

  predicate InPrologue(pc: Pc) {
    pc.Lock? || pc.Take? || pc.Bump? || pc.Unlock?
  }

  /** The mutex-protected slot grab, the same text on both sides. */
  function GrabStep(cfg: Config, role: Role, side: Side, t: nat): Outcome<Side>
    requires cfg.m >= 1 && t < |side.threads| && InPrologue(side.threads[t].pc)
  {
    var th := side.threads[t];
    match th.pc
    case Lock =>
      if side.holder == None then Moved(WithThread(side, t, th.(pc := Take)).(holder := Some(t))) else Blocked
    case Take =>
      Moved(WithThread(side, t, th.(pc := Bump, slot := side.threadNo)).(order := side.order + [t]))
    case Bump =>
      Moved(WithThread(side, t, th.(pc := Unlock)).(threadNo := th.slot + 1))
    case Unlock =>
      var start := if role.Client? then Fill(Low(cfg, th.slot)) else Scan(Low(cfg, th.slot));
      Moved(WithThread(side, t, th.(pc := start)).(holder := None))
  }

  /** `shm1[k]++` on a signed 8-bit char. */
  function CharSucc(c: int): int {
    if c == 127 then -128 else c + 1
  }

  /** One action of client thread `t` after its slot grab. */
  function ClientStep(cfg: Config, s: State, t: nat): Outcome<State>
    requires cfg.m >= 1 && t < |s.client.threads|
  {
    var c := s.client.threads[t];
    var hi := High(cfg, c.slot);
    match c.pc
    case Fill(k) =>
      if k >= hi then Moved(s.(client := WithThread(s.client, t, c.(pc := Offer))))
      else if k < |s.shm1| then
        Moved(s.(client := WithThread(s.client, t, c.(pc := Fill(k + 1))), shm1 := s.shm1[k := CHAR_A]))
      else Fault
    case Offer =>
      if c.slot < |s.sem| then
        Moved(s.(client := WithThread(s.client, t, c.(pc := Await, posts := c.posts + 1)),
                 sem := s.sem[c.slot := s.sem[c.slot] + 1]))
      else Fault
    case Await =>
      var j := c.slot + cfg.m;
      if j >= |s.sem| then Fault
      else if s.sem[j] == 0 then Blocked
      else
        Moved(s.(client := WithThread(s.client, t, c.(pc := Test(Low(cfg, c.slot), false))),
                 sem := s.sem[j := s.sem[j] - 1]))
    case Test(k, flag) =>
      if k >= hi then Moved(s.(client := WithThread(s.client, t, c.(pc := if flag then Offer else Done))))
      else if k >= |s.shm2| then Fault
      else
        Moved(s.(client := WithThread(s.client, t, c.(pc := if s.shm2[k] == 0 then Load(k) else Test(k + 1, flag)))))
    case Load(k) =>
      if k < |s.shm1| then Moved(s.(client := WithThread(s.client, t, c.(pc := Store(k, s.shm1[k]))))) else Fault
    case Store(k, guess) =>
      if k < |s.shm1| then
        Moved(s.(client := WithThread(s.client, t, c.(pc := Test(k + 1, true))), shm1 := s.shm1[k := CharSucc(guess)]))
      else Fault
    case Done => Exited
    case _ => Fault
  }

  /** One action of server thread `t` after its slot grab. */
  function ServerStep(cfg: Config, s: State, t: nat): Outcome<State>
    requires cfg.m >= 1 && t < |s.server.threads|
  {
    var v := s.server.threads[t];
    var hi := High(cfg, v.slot);
    match v.pc
    case Scan(k) =>
      if k >= hi then Moved(s.(server := WithThread(s.server, t, v.(pc := Done))))
      else if k >= |s.shm2| then Fault
      else Moved(s.(server := WithThread(s.server, t, v.(pc := if s.shm2[k] == 0 then Receive else Scan(k + 1)))))
    case Receive =>
      if v.slot >= |s.sem| then Fault
      else if s.sem[v.slot] == 0 then Blocked
      else
        Moved(s.(server := WithThread(s.server, t, v.(pc := Compare(Low(cfg, v.slot)))),
                 sem := s.sem[v.slot := s.sem[v.slot] - 1]))
    case Compare(k) =>
      if k >= hi then Moved(s.(server := WithThread(s.server, t, v.(pc := Reply))))
      else if k < |s.shm1| && k < |cfg.secret| then
        Moved(s.(server := WithThread(s.server, t, v.(pc := Judge(k, s.shm1[k] == cfg.secret[k])))))
      else Fault
    case Judge(k, hit) =>
      if k < |s.shm2| then
        Moved(s.(server := WithThread(s.server, t, v.(pc := Compare(k + 1))), shm2 := s.shm2[k := if hit then 1 else 0]))
      else Fault
    case Reply =>
      var j := v.slot + cfg.m;
      if j < |s.sem| then
        Moved(s.(server := WithThread(s.server, t, v.(pc := Scan(Low(cfg, v.slot)), posts := v.posts + 1)),
                 sem := s.sem[j := s.sem[j] + 1]))
      else Fault
    case Done => Exited
    case _ => Fault
  }

  function OnClient(s: State, r: Outcome<Side>): Outcome<State> {
    match r
    case Moved(side) => Moved(s.(client := side))
    case Blocked => Blocked
    case Exited => Exited
    case Fault => Fault
  }

  function OnServer(s: State, r: Outcome<Side>): Outcome<State> {
    match r
    case Moved(side) => Moved(s.(server := side))
    case Blocked => Blocked
    case Exited => Exited
    case Fault => Fault
  }

  function SideOf(s: State, role: Role): Side {
    if role.Client? then s.client else s.server
  }

  /** One atomic action of one thread of either process. */
  function Step(cfg: Config, s: State, a: Actor): Outcome<State>
    requires cfg.m >= 1
  {
    if a.t >= |SideOf(s, a.role).threads| then Exited
    else if InPrologue(SideOf(s, a.role).threads[a.t].pc) then
      if a.role.Client? then OnClient(s, GrabStep(cfg, Client, s.client, a.t))
      else OnServer(s, GrabStep(cfg, Server, s.server, a.t))
    else if a.role.Client? then ClientStep(cfg, s, a.t)
    else ServerStep(cfg, s, a.t)
  }

  /** The state a schedule leads to, if every step of it can be taken. */
  function Run(cfg: Config, sched: seq<Actor>): Option<State>
    requires cfg.m >= 1
  {
    if sched == [] then Some(Init(cfg))
    else
      match Run(cfg, sched[..|sched| - 1])
      case None => None
      case Some(s) =>
        match Step(cfg, s, sched[|sched| - 1])
        case Moved(s') => Some(s')
        case _ => None
  }

  predicate AllDone(s: State) {
    && (forall t :: 0 <= t < |s.client.threads| ==> s.client.threads[t].pc.Done?)
    && (forall t :: 0 <= t < |s.server.threads| ==> s.server.threads[t].pc.Done?)
  }

  /** No thread of either process can take a step. */
  ghost predicate Stuck(cfg: Config, s: State)
    requires cfg.m >= 1
  {
    forall a: Actor :: !Step(cfg, s, a).Moved?
  }

  // ----- Slices -----

  lemma {:induction false} ScaleIsMonotone(a: nat, b: nat, l: nat)
    requires a <= b
    ensures a * l <= b * l
  {
    if a == b {
    } else {
      ScaleIsMonotone(a, b - 1, l);
      assert b * l == (b - 1) * l + l;
    }
  }

  lemma SliceBounds(cfg: Config, i: nat)
    requires cfg.m >= 1 && i < cfg.m
    ensures Low(cfg, i) <= High(cfg, i) == Low(cfg, i) + Share(cfg)
    ensures High(cfg, i) <= cfg.m * Share(cfg) <= cfg.n
  {
    ScaleIsMonotone(i + 1, cfg.m, Share(cfg));
    assert (i + 1) * Share(cfg) == i * Share(cfg) + Share(cfg);
    assert cfg.n == cfg.m * Share(cfg) + cfg.n % cfg.m;
  }

  lemma SlicesOrdered(cfg: Config, i: nat, j: nat)
    requires cfg.m >= 1 && i < j
    ensures High(cfg, i) <= Low(cfg, j)
  {
    ScaleIsMonotone(i + 1, j, Share(cfg));
  }

  /** Different slots own disjoint slices. */
  lemma SlicesDisjoint(cfg: Config, i: nat, j: nat, k: nat)
    requires cfg.m >= 1
    requires i * (cfg.n / cfg.m) <= k < (i + 1) * (cfg.n / cfg.m) && j * (cfg.n / cfg.m) <= k < (j + 1) * (cfg.n / cfg.m)
    ensures i == j
  {
    if i < j {
      SlicesOrdered(cfg, i, j);
    } else if j < i {
      SlicesOrdered(cfg, j, i);
    }
  }

  /** The slices leave out the last `n % m` positions. */
  lemma LeftoverIs(cfg: Config)
    requires cfg.m >= 1
    ensures cfg.m * Share(cfg) == cfg.n - cfg.n % cfg.m
  {
  }

  /** Every position but the last `n % m` lies in the slice of some slot. */
  lemma SliceOwner(cfg: Config, k: nat) returns (i: nat)
    requires cfg.m >= 1 && k < cfg.n - cfg.n % cfg.m
    ensures i < cfg.m && i * (cfg.n / cfg.m) <= k < (i + 1) * (cfg.n / cfg.m)
    ensures Low(cfg, i) <= k < High(cfg, i)
  {
    LeftoverIs(cfg);
    i := 0;
    while High(cfg, i) <= k
      invariant i < cfg.m && Low(cfg, i) <= k
      decreases cfg.m - i
    {
      i := i + 1;
    }
  }

  /** The slices are empty exactly when there are more threads than letters. */
  lemma ShareIsZeroIff(cfg: Config)
    requires cfg.m >= 1
    ensures Share(cfg) == 0 <==> cfg.m > cfg.n
  {
    assert cfg.n == Share(cfg) * cfg.m + cfg.n % cfg.m;
    assert Share(cfg) == 0 ==> Share(cfg) * cfg.m == 0;
    assert Share(cfg) >= 1 ==> Share(cfg) * cfg.m >= cfg.m;
  }
}
