/**
 What a complete run of the guessing game leaves behind, whatever the schedule and whatever slots the
 two sides handed out.
 */
module GuessOutcome {
  import opened GuessModel
  import opened GuessInvariant
  import opened GuessSteps
  import opened GuessTheorems
  import opened GuessLiveness

  /** The guesses of a complete session: the secret, but for the last `n % m` letters. */
  function FinalGuesses(cfg: Config): seq<int>
    requires ValidConfig(cfg)
  {
    seq(cfg.n, k requires 0 <= k < cfg.n => if k < cfg.m * Share(cfg) then cfg.secret[k] else CHAR_ZERO)
  }

  function FinalVerdicts(cfg: Config): seq<int>
    requires ValidConfig(cfg)
  {
    seq(cfg.n, k => if k < cfg.m * Share(cfg) then 1 else 0)
  }

  /** `rounds` is one more than the greatest distance of one of the letters of slot `i` from 'A'. */
  ghost predicate IsGreatest(cfg: Config, i: nat, rounds: int)
    requires cfg.m >= 1
  {
    var l := cfg.n / cfg.m;
    && i < cfg.m && (i + 1) * l <= |cfg.secret|
    && (forall k :: 0 <= k < |cfg.secret| && i * l <= k < (i + 1) * l ==> 1 + (cfg.secret[k] - 65) <= rounds)
    && (exists k :: 0 <= k < |cfg.secret| && i * l <= k < (i + 1) * l && 1 + (cfg.secret[k] - 65) == rounds)
  }

  /** One more than the greatest distance of a letter of the slice from 'A'. */
  lemma RoundsIsGreatest(cfg: Config, i: nat)
    requires ValidConfig(cfg) && i < cfg.m <= cfg.n
    ensures 1 <= Rounds(cfg, i) <= 58 && IsGreatest(cfg, i, Rounds(cfg, i))
  {
    SliceBounds(cfg, i);
    ShareIsZeroIff(cfg);
    var lo, hi, r := Low(cfg, i), High(cfg, i), Rounds(cfg, i);
    NeedIsLeast(cfg, lo, hi, r);
    forall k | lo <= k < hi
      ensures 1 + (cfg.secret[k] - CHAR_A) <= r
    {
      assert Hit(cfg.secret[k], r) == 1;
    }
    NeedIsLeast(cfg, lo, hi, r - 1);
    if r == 1 {
      assert IsLetter(cfg.secret[lo]);
      assert 1 + (cfg.secret[lo] - CHAR_A) == r;
    } else {
      var k :| lo <= k < hi && Hit(cfg.secret[k], r - 1) != 1;
      assert 1 + (cfg.secret[k] - CHAR_A) == r;
    }
  }

  lemma FinalPairLocal(cfg: Config, s: State, i: nat)
    requires SlotInv(cfg, s, i) && cfg.m <= cfg.n && View(s.client, i).pc.Done? && View(s.server, i).pc.Done?
    ensures View(s.client, i).posts == View(s.server, i).posts == Rounds(cfg, i)
    ensures s.sem[i] == s.sem[i + cfg.m] == 0
  {
    SliceBounds(cfg, i);
    ShareIsZeroIff(cfg);
  }

  lemma FinalPair(cfg: Config, s: State, i: nat)
    requires Inv(cfg, s) && AllDone(s) && i < cfg.m
    ensures cfg.m <= cfg.n
    ensures View(s.client, i).pc.Done? && View(s.client, i).posts == Rounds(cfg, i)
    ensures View(s.server, i).pc.Done? && View(s.server, i).posts == Rounds(cfg, i)
    ensures s.sem[i] == s.sem[i + cfg.m] == 0
  {
    if cfg.m > cfg.n {
      EmptySlicesBlockClients(cfg, s, 0);
    }
    SlotsArePermutation(cfg, s.client);
    SlotsArePermutation(cfg, s.server);
    assert Granted(s.client, i) && Granted(s.server, i);
    assert PairInv(cfg, s, i) && SliceInv(cfg, s, i);
    FinalPairLocal(cfg, s, i);
  }

  lemma FinalCell(cfg: Config, s: State, k: nat)
    requires Inv(cfg, s) && AllDone(s) && k < cfg.n
    ensures s.shm1[k] == FinalGuesses(cfg)[k] && s.shm2[k] == FinalVerdicts(cfg)[k]
  {
    LeftoverIs(cfg);
    if k < cfg.n - cfg.n % cfg.m {
      var i := SliceOwner(cfg, k);
      FinalPair(cfg, s, i);
      assert PairInv(cfg, s, i) && SliceInv(cfg, s, i);
      SliceCells(cfg, s, i);
      NeedIsLeast(cfg, Low(cfg, i), High(cfg, i), Rounds(cfg, i));
      assert Hit(cfg.secret[k], Rounds(cfg, i)) == 1;
    }
  }

  lemma FinalSemaphore(cfg: Config, s: State, j: nat)
    requires Inv(cfg, s) && AllDone(s) && j < 2 * cfg.m
    ensures s.sem[j] == 0
  {
    FinalPair(cfg, s, if j < cfg.m then j else j - cfg.m);
  }

  lemma FinalThread(cfg: Config, s: State, role: Role, t: nat)
    requires Inv(cfg, s) && AllDone(s) && t < cfg.m
    ensures SideOf(s, role).threads[t].slot < cfg.m
    ensures SideOf(s, role).threads[t].posts == Rounds(cfg, SideOf(s, role).threads[t].slot)
  {
    HoldsItsSlot(cfg, SideOf(s, role), t);
    FinalPair(cfg, s, SideOf(s, role).threads[t].slot);
  }

  /** The state in which all threads have exited is fixed by the configuration, up to which thread took which slot. */
  lemma FinalState(cfg: Config, s: State)
    requires Inv(cfg, s) && AllDone(s)
    ensures cfg.m <= cfg.n
    ensures s.shm1 == FinalGuesses(cfg) && s.shm2 == FinalVerdicts(cfg)
    ensures s.sem == Init(cfg).sem
    ensures forall k :: 0 <= k < cfg.n - cfg.n % cfg.m ==> s.shm1[k] == cfg.secret[k] && s.shm2[k] == 1
    ensures forall k :: cfg.n - cfg.n % cfg.m <= k < cfg.n ==> s.shm1[k] == 48 && s.shm2[k] == 0
  {
    LeftoverIs(cfg);
    FinalPair(cfg, s, 0);
    forall j | 0 <= j < 2 * cfg.m
      ensures s.sem[j] == 0
    {
      FinalSemaphore(cfg, s, j);
    }
    forall k | 0 <= k < cfg.n
      ensures s.shm1[k] == FinalGuesses(cfg)[k] && s.shm2[k] == FinalVerdicts(cfg)[k]
    {
      FinalCell(cfg, s, k);
    }
  }

  /** Every maximal run with `m <= n` ends with all threads gone and the same arrays and semaphores: all
      letters are found but the last `n % m`, which nobody has touched. */
  lemma CompleteRunsAgree(cfg: Config, sched: seq<Actor>)
    requires ValidConfig(cfg) && cfg.m <= cfg.n && Run(cfg, sched).Some? && Stuck(cfg, Run(cfg, sched).value)
    ensures
      var s := Run(cfg, sched).value;
      && AllDone(s)
      && |s.shm1| == |s.shm2| == cfg.n
      && (forall k :: 0 <= k < cfg.n - cfg.n % cfg.m ==> s.shm1[k] == cfg.secret[k] && s.shm2[k] == 1)
      && (forall k :: cfg.n - cfg.n % cfg.m <= k < cfg.n ==> s.shm1[k] == 48 && s.shm2[k] == 0)
      && s.sem == seq(2 * cfg.m, j => 0)
  {
    RunInv(cfg, sched);
    DeadlockFreeIff(cfg);
    FinalState(cfg, Run(cfg, sched).value);
  }

  /** Client and server thread of a pair have made the same number of rounds: one more than the greatest
      distance of a letter of their slice from 'A', hence at most 58. */
  lemma RoundsTaken(cfg: Config, sched: seq<Actor>, t: nat, u: nat)
    requires ValidConfig(cfg) && Run(cfg, sched).Some? && AllDone(Run(cfg, sched).value) && t < cfg.m && u < cfg.m
    requires |Run(cfg, sched).value.client.threads| == |Run(cfg, sched).value.server.threads| == cfg.m
    requires Run(cfg, sched).value.client.threads[t].slot == Run(cfg, sched).value.server.threads[u].slot
    ensures
      var c, v := Run(cfg, sched).value.client.threads[t], Run(cfg, sched).value.server.threads[u];
      && c.posts == v.posts <= 58
      && IsGreatest(cfg, c.slot, c.posts)
  {
    hide Run, Step, PairInv, SliceInv, SideInv, LeftoverInv, AllDone, Share, Rounds, IsGreatest;
    RunInv(cfg, sched);
    var s := Run(cfg, sched).value;
    FinalState(cfg, s);
    FinalThread(cfg, s, Client, t);
    FinalThread(cfg, s, Server, u);
    RoundsIsGreatest(cfg, s.client.threads[t].slot);
  }

  lemma DividesIffNoLeftover(cfg: Config)
    requires cfg.m >= 1
    ensures cfg.m * Share(cfg) <= cfg.n
    ensures cfg.n % cfg.m == 0 <==> cfg.m * Share(cfg) == cfg.n
  {
    assert cfg.n == cfg.m * Share(cfg) + cfg.n % cfg.m;
  }

  /** A complete session has found the whole secret exactly when the thread count divides the length. */
  lemma WholeSecretIff(cfg: Config, sched: seq<Actor>)
    requires ValidConfig(cfg) && Run(cfg, sched).Some? && AllDone(Run(cfg, sched).value)
    ensures Run(cfg, sched).value.shm1 == cfg.secret <==> cfg.n % cfg.m == 0
  {
    RunInv(cfg, sched);
    FinalState(cfg, Run(cfg, sched).value);
    DividesIffNoLeftover(cfg);
    if cfg.m * Share(cfg) == cfg.n {
      assert FinalGuesses(cfg) == cfg.secret;
    } else {
      assert IsLetter(cfg.secret[cfg.n - 1]);
      assert FinalGuesses(cfg)[cfg.n - 1] != cfg.secret[cfg.n - 1];
    }
  }
}
