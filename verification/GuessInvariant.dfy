/**
 The inductive invariant of the guessing game and its preservation by every atomic step.

 A slot `i` joins one client thread and one server thread, chosen independently by the two mutexes.
 The invariant looks at the game slot by slot: `View` finds the thread that holds a slot, and the
 contents of a slot's slice of `shm1` (`shm2`) are a function of the secret letter and of the local
 state of the client (server) thread that holds it.
 */
module GuessInvariant {
  import opened Prelude
  import opened GuessModel

  function Min(a: int, b: int): int {
    if a <= b then a else b
  }

  function Max(a: int, b: int): int {
    if a >= b then a else b
  }

  /** What the client shows for letter `x` in round `r`, counted from 0. */
  function Guess(x: int, r: int): int {
    Min(CHAR_A + r, x)
  }

  /** The verdict on letter `x` after `q` rounds. */
  function Hit(x: int, q: int): int {
    if x - CHAR_A < q then 1 else 0
  }

  /** Rounds needed to find the letters of positions `lo` to `k - 1`: one more than the greatest distance from 'A'. */
  function Need(cfg: Config, lo: nat, k: nat): nat
    requires ValidConfig(cfg) && k <= cfg.n
  {
    if k <= lo then 1 else Max(Need(cfg, lo, k - 1), cfg.secret[k - 1] - CHAR_A + 1)
  }

  function Rounds(cfg: Config, i: nat): nat
    requires ValidConfig(cfg) && i < cfg.m
  {
    SliceBounds(cfg, i);
    Need(cfg, Low(cfg, i), High(cfg, i))
  }

  /** `Need` is the least bound, at least 1, on the rounds of the single letters. */
  lemma {:induction false} NeedIsLeast(cfg: Config, lo: nat, k: nat, bound: int)
    requires ValidConfig(cfg) && k <= cfg.n
    ensures 1 <= Need(cfg, lo, k) <= MAX_ROUNDS
    ensures Need(cfg, lo, k) <= bound <==> 1 <= bound && forall j :: lo <= j < k ==> Hit(cfg.secret[j], bound) == 1
  {
    if k <= lo {
    } else {
      NeedIsLeast(cfg, lo, k - 1, bound);
      assert IsLetter(cfg.secret[k - 1]);
    }
  }

  lemma {:induction false} NeedGrows(cfg: Config, lo: nat, j: nat, k: nat)
    requires ValidConfig(cfg) && j <= k <= cfg.n
    ensures Need(cfg, lo, j) <= Need(cfg, lo, k)
    decreases k
  {
    if k <= lo || j == k {
    } else {
      NeedGrows(cfg, lo, j, k - 1);
    }
  }

  // ----- Who holds a slot -----

  /** The thread that holds slot `i`, or a fresh one while nobody does. */
  function View(side: Side, i: nat): Thread {
    if i < |side.order| && side.order[i] < |side.threads| then side.threads[side.order[i]] else FRESH
  }

  predicate Waiting(pc: Pc) {
    pc.Lock? || pc.Take?
  }

  predicate Critical(pc: Pc) {
    pc.Take? || pc.Bump? || pc.Unlock?
  }

  /** Slot `i` was handed to thread `order[i]`. */
  predicate Granted(side: Side, i: nat)
    requires i < |side.order|
  {
    var t := side.order[i];
    t < |side.threads| && side.threads[t].slot == i && !Waiting(side.threads[t].pc)
  }

  /** Thread `t` has no slot yet, or it holds the one recorded for it. */
  predicate Placed(side: Side, t: nat)
    requires t < |side.threads|
  {
    var th := side.threads[t];
    if Waiting(th.pc) then th.posts == 0 else th.slot < |side.order| && side.order[th.slot] == t
  }

  predicate HolderOk(side: Side, t: nat)
    requires t < |side.threads|
  {
    Critical(side.threads[t].pc) <==> side.holder == Some(t)
  }

  /** Slots are handed out in the order 0, 1, 2, ...; the mutex has at most one holder, the thread in
      the critical section; thread_no lags behind only between its read and its write. */
  ghost predicate SideInv(cfg: Config, side: Side) {
    && |side.threads| == cfg.m
    && |side.order| <= cfg.m
    && (forall i :: 0 <= i < |side.order| ==> Granted(side, i))
    && (forall t :: 0 <= t < cfg.m ==> Placed(side, t))
    && (forall t :: 0 <= t < cfg.m ==> HolderOk(side, t))
    && (side.holder.Some? ==> side.holder.value < cfg.m)
    && if side.holder.Some? && side.threads[side.holder.value].pc.Bump?
       then side.threads[side.holder.value].slot == side.threadNo == |side.order| - 1
       else side.threadNo == |side.order|
  }

  // ----- Contents of the cells -----

  function GuessCell(x: int, c: Thread, k: nat): int {
    match c.pc
    case Fill(j) => if k < j then CHAR_A else CHAR_ZERO
    case Offer => Guess(x, c.posts)
    case Await => Guess(x, c.posts - 1)
    case Test(j, _) => Guess(x, if k < j then c.posts else c.posts - 1)
    case Load(j) => Guess(x, if k < j then c.posts else c.posts - 1)
    case Store(j, _) => Guess(x, if k < j then c.posts else c.posts - 1)
    case Done => Guess(x, c.posts - 1)
    case _ => CHAR_ZERO
  }

  function VerdictCell(x: int, v: Thread, k: nat): int {
    match v.pc
    case Compare(j) => Hit(x, if k < j then v.posts + 1 else v.posts)
    case Judge(j, _) => Hit(x, if k < j then v.posts + 1 else v.posts)
    case Reply => Hit(x, v.posts + 1)
    case _ => Hit(x, v.posts)
  }

  // ----- One pair of threads -----

  predicate ClientOk(cfg: Config, i: nat, c: Thread)
    requires ValidConfig(cfg) && i < cfg.m
  {
    SliceBounds(cfg, i);
    var lo, hi, r := Low(cfg, i), High(cfg, i), Rounds(cfg, i);
    match c.pc
    case Lock => c.posts == 0
    case Take => c.posts == 0
    case Bump => c.posts == 0
    case Unlock => c.posts == 0
    case Fill(k) => c.posts == 0 && lo <= k <= hi
    case Offer => c.posts < r
    case Await => 1 <= c.posts <= r
    case Test(k, flag) => 1 <= c.posts <= r && lo <= k <= hi && (flag <==> Need(cfg, lo, k) > c.posts)
    case Load(k) => 1 <= c.posts <= r && lo <= k < hi && Hit(cfg.secret[k], c.posts) == 0
    case Store(k, guess) =>
      && 1 <= c.posts <= r && lo <= k < hi && Hit(cfg.secret[k], c.posts) == 0
      && guess == Guess(cfg.secret[k], c.posts - 1)
    case Done => c.posts == r
    case _ => false
  }

  predicate ServerOk(cfg: Config, i: nat, v: Thread)
    requires ValidConfig(cfg) && i < cfg.m
  {
    SliceBounds(cfg, i);
    var lo, hi, r := Low(cfg, i), High(cfg, i), Rounds(cfg, i);
    && v.posts <= r
    && (lo == hi ==> v.posts == 0)
    && match v.pc
       case Lock => v.posts == 0
       case Take => v.posts == 0
       case Bump => v.posts == 0
       case Unlock => v.posts == 0
       case Scan(k) => lo <= k <= hi && (lo < k ==> Need(cfg, lo, k) <= v.posts)
       case Receive => lo < hi && v.posts < r
       case Compare(k) => lo <= k <= hi && lo < hi && v.posts < r
       case Judge(k, hit) => lo <= k < hi && v.posts < r && (hit <==> Hit(cfg.secret[k], v.posts + 1) == 1)
       case Reply => lo < hi && v.posts < r
       case Done => lo < hi ==> v.posts == r
       case _ => false
  }

  /** The client owns its slice whenever it is not waiting for an answer. */
  function ClientOwns(c: Thread): nat {
    if c.pc.Await? then 0 else 1
  }

  /** The server owns the slice between its sem_wait and its sem_post. */
  function ServerOwns(v: Thread): nat {
    if v.pc.Compare? || v.pc.Judge? || v.pc.Reply? then 1 else 0
  }

  /** There is one token, and it says how many posts each side has made. */
  predicate Handshake(c: Thread, v: Thread, a: nat, b: nat) {
    && a + b + ClientOwns(c) + ServerOwns(v) == 1
    && c.posts == v.posts + a + ServerOwns(v)
  }

  predicate PairInv(cfg: Config, s: State, i: nat)
    requires ValidConfig(cfg) && i < cfg.m && |s.sem| == 2 * cfg.m
  {
    var c, v := View(s.client, i), View(s.server, i);
    && ClientOk(cfg, i, c)
    && ServerOk(cfg, i, v)
    && Handshake(c, v, s.sem[i], s.sem[i + cfg.m])
  }

  predicate CellsOk(cfg: Config, s: State, i: nat, k: nat)
    requires ValidConfig(cfg) && k < cfg.n == |s.shm1| == |s.shm2|
  {
    && s.shm1[k] == GuessCell(cfg.secret[k], View(s.client, i), k)
    && s.shm2[k] == VerdictCell(cfg.secret[k], View(s.server, i), k)
  }

  predicate Shape(cfg: Config, s: State) {
    |s.shm1| == cfg.n && |s.shm2| == cfg.n && |s.sem| == 2 * cfg.m
  }

  ghost predicate SliceInv(cfg: Config, s: State, i: nat)
    requires ValidConfig(cfg) && Shape(cfg, s) && i < cfg.m
  {
    SliceBounds(cfg, i);
    forall k :: Low(cfg, i) <= k < High(cfg, i) ==> CellsOk(cfg, s, i, k)
  }

  /** The last `n % m` positions belong to no thread. */
  ghost predicate LeftoverInv(cfg: Config, s: State)
    requires ValidConfig(cfg) && Shape(cfg, s)
  {
    forall k :: cfg.m * Share(cfg) <= k < cfg.n ==> s.shm1[k] == CHAR_ZERO && s.shm2[k] == 0
  }

  ghost predicate Inv(cfg: Config, s: State) {
    && ValidConfig(cfg)
    && Shape(cfg, s)
    && SideInv(cfg, s.client)
    && SideInv(cfg, s.server)
    && (forall i :: 0 <= i < cfg.m ==> PairInv(cfg, s, i))
    && (forall i :: 0 <= i < cfg.m ==> SliceInv(cfg, s, i))
    && LeftoverInv(cfg, s)
  }

  lemma InitInv(cfg: Config)
    requires ValidConfig(cfg)
    ensures Inv(cfg, Init(cfg))
  {
    var s := Init(cfg);
    forall i | 0 <= i < cfg.m
      ensures PairInv(cfg, s, i) && SliceInv(cfg, s, i)
    {
      SliceBounds(cfg, i);
      NeedIsLeast(cfg, Low(cfg, i), High(cfg, i), 0);
      forall k | Low(cfg, i) <= k < High(cfg, i)
        ensures CellsOk(cfg, s, i, k)
      {
        assert IsLetter(cfg.secret[k]);
      }
    }
  }

  // ----- The slot grab -----

  /** Distinct members of `pool` are no more than `pool` has. */
  lemma {:induction false} Pigeonhole(order: seq<nat>, pool: set<nat>)
    requires forall i :: 0 <= i < |order| ==> order[i] in pool
    requires forall i, j :: 0 <= i < j < |order| ==> order[i] != order[j]
    ensures |order| <= |pool|
  {
    if order == [] {
    } else {
      var n := |order| - 1;
      Pigeonhole(order[..n], pool - {order[n]});
    }
  }

  /** A thread that still waits for the mutex or reads thread_no leaves a slot free. */
  lemma RoomForWaiting(cfg: Config, side: Side, t: nat)
    requires SideInv(cfg, side) && t < cfg.m && Waiting(side.threads[t].pc)
    ensures |side.order| < cfg.m
  {
    forall i, j | 0 <= i < j < |side.order|
      ensures side.order[i] != side.order[j]
    {
      assert Granted(side, i) && Granted(side, j);
    }
    forall i | 0 <= i < |side.order|
      ensures side.order[i] < cfg.m && side.order[i] != t
    {
      assert Granted(side, i);
    }
    Pigeonhole(side.order, Below(cfg.m) - {t});
  }

  /** The slot grab keeps the invariant of its side, and no pair notices it: the thread a slot shows
      is the same up to its position in the prologue. */
  lemma GrabKeepsSide(cfg: Config, role: Role, side: Side, t: nat)
    requires cfg.m >= 1 && SideInv(cfg, side) && t < cfg.m && InPrologue(side.threads[t].pc)
    requires GrabStep(cfg, role, side, t).Moved?
    ensures SideInv(cfg, GrabStep(cfg, role, side, t).next)
  {
    var th := side.threads[t];
    var side' := GrabStep(cfg, role, side, t).next;
    assert Placed(side, t) && HolderOk(side, t);
    if th.pc.Take? {
      RoomForWaiting(cfg, side, t);
    }
    forall i | 0 <= i < |side'.order|
      ensures Granted(side', i)
    {
      if i < |side.order| {
        assert Granted(side, i);
      }
    }
    forall u | 0 <= u < cfg.m
      ensures Placed(side', u) && HolderOk(side', u)
    {
      assert Placed(side, u) && HolderOk(side, u);
    }
  }

  /** `th'` is `th`, or both are in the prologue, or `th` is and `th'` has just left it. */
  predicate Enters(cfg: Config, role: Role, i: nat, th: Thread, th': Thread)
    requires cfg.m >= 1
  {
    || th' == th
    || (&& InPrologue(th.pc) && th'.posts == th.posts
        && (InPrologue(th'.pc) || th'.pc == if role.Client? then Fill(Low(cfg, i)) else Scan(Low(cfg, i))))
  }

  lemma GrabKeepsViews(cfg: Config, role: Role, side: Side, t: nat, i: nat)
    requires cfg.m >= 1 && SideInv(cfg, side) && t < cfg.m && InPrologue(side.threads[t].pc) && i < cfg.m
    requires GrabStep(cfg, role, side, t).Moved?
    ensures Enters(cfg, role, i, View(side, i), View(GrabStep(cfg, role, side, t).next, i))
  {
    var side' := GrabStep(cfg, role, side, t).next;
    assert Placed(side, t);
    if i < |side.order| {
      assert Granted(side, i);
    }
  }
}
