/**
 What holds of the guessing game in every reachable state, under every schedule: the single token of a
 pair, the contents of the arrays, agreement on stopping, the slots handed out, and freedom from races.
 */
module GuessTheorems {
  import opened Prelude
  import opened GuessModel
  import opened GuessInvariant
  import opened GuessSteps

  // ----- Safety of every run -----

  lemma {:induction false} RunInv(cfg: Config, sched: seq<Actor>)
    requires ValidConfig(cfg) && Run(cfg, sched).Some?
    ensures Inv(cfg, Run(cfg, sched).value)
  {
    if sched == [] {
      InitInv(cfg);
    } else {
      var n := |sched| - 1;
      RunInv(cfg, sched[..n]);
      StepKeepsInv(cfg, Run(cfg, sched[..n]).value, sched[n]);
    }
  }

  lemma RunStep(cfg: Config, sched: seq<Actor>, a: Actor)
    requires cfg.m >= 1 && Run(cfg, sched).Some? && Step(cfg, Run(cfg, sched).value, a).Moved?
    ensures Run(cfg, sched + [a]) == Some(Step(cfg, Run(cfg, sched).value, a).next)
  {
    hide Step;
    assert (sched + [a])[..|sched|] == sched;
  }

  lemma RunSlot(cfg: Config, sched: seq<Actor>, i: nat)
    requires ValidConfig(cfg) && Run(cfg, sched).Some? && i < cfg.m
    ensures SlotInv(cfg, Run(cfg, sched).value, i)
  {
    RunInv(cfg, sched);
    assert PairInv(cfg, Run(cfg, sched).value, i) && SliceInv(cfg, Run(cfg, sched).value, i);
  }

  /** No schedule ever reaches an access outside the three shared segments. */
  lemma NoFault(cfg: Config, sched: seq<Actor>, a: Actor)
    requires ValidConfig(cfg) && Run(cfg, sched).Some?
    ensures !Step(cfg, Run(cfg, sched).value, a).Fault?
  {
    RunInv(cfg, sched);
    StepKeepsInv(cfg, Run(cfg, sched).value, a);
  }

  /** Each pair of threads passes one token back and forth: it is in one of the two semaphores, with
      the client, or with the server.  The client is one post ahead while its post waits or is answered. */
  lemma SingleToken(cfg: Config, sched: seq<Actor>, i: nat)
    requires ValidConfig(cfg) && Run(cfg, sched).Some? && i < cfg.m
    ensures
      var s := Run(cfg, sched).value;
      && |s.sem| == 2 * cfg.m
      && var c, v := View(s.client, i).pc, View(s.server, i).pc;
      && s.sem[i] + s.sem[i + cfg.m] + (if c.Await? then 0 else 1) + (if v.Compare? || v.Judge? || v.Reply? then 1 else 0) == 1
      && View(s.client, i).posts == View(s.server, i).posts + s.sem[i] + (if v.Compare? || v.Judge? || v.Reply? then 1 else 0)
  {
    hide Run, Step, View, SliceInv, ClientOk, ServerOk;
    RunSlot(cfg, sched, i);
  }

  lemma GuessInSlice(cfg: Config, s: State, i: nat, k: nat)
    requires SlotInv(cfg, s, i) && Low(cfg, i) <= k < High(cfg, i)
    ensures k < cfg.n && (s.shm1[k] == CHAR_ZERO || CHAR_A <= s.shm1[k] <= cfg.secret[k])
  {
    SliceCells(cfg, s, i);
  }

  /** A guess is '0' before its slice is filled, and from then on between 'A' and its secret letter,
      even halfway through the increment loop. */
  lemma GuessNeverPasses(cfg: Config, sched: seq<Actor>, k: nat)
    requires ValidConfig(cfg) && Run(cfg, sched).Some? && k < cfg.n
    ensures
      var s := Run(cfg, sched).value;
      |s.shm1| == cfg.n && (s.shm1[k] == 48 || 65 <= s.shm1[k] <= cfg.secret[k])
  {
    LeftoverIs(cfg);
    if k < cfg.n - cfg.n % cfg.m {
      var i := SliceOwner(cfg, k);
      RunSlot(cfg, sched, i);
      GuessInSlice(cfg, Run(cfg, sched).value, i, k);
    } else {
      RunInv(cfg, sched);
    }
  }

  lemma OfferInSlice(cfg: Config, s: State, i: nat, k: nat)
    requires SlotInv(cfg, s, i) && Low(cfg, i) <= k < High(cfg, i) && View(s.client, i).pc.Await?
    ensures 0 <= View(s.client, i).posts - 1 < Rounds(cfg, i)
    ensures k < cfg.n && s.shm1[k] == Min(CHAR_A + View(s.client, i).posts - 1, cfg.secret[k])
  {
    SliceCells(cfg, s, i);
  }

  /** While the offer of round `r` (counted from 0) is with the semaphore or the server, every guess of
      the slice is the `r`-th letter after 'A', or its secret letter if that comes first. */
  lemma OfferOfRound(cfg: Config, sched: seq<Actor>, i: nat, k: nat)
    requires ValidConfig(cfg) && Run(cfg, sched).Some? && i < cfg.m
    requires i * (cfg.n / cfg.m) <= k < (i + 1) * (cfg.n / cfg.m)
    requires View(Run(cfg, sched).value.client, i).pc.Await?
    ensures
      var s := Run(cfg, sched).value;
      var r := View(s.client, i).posts - 1;
      && 0 <= r < Rounds(cfg, i)
      && k < cfg.n == |s.shm1| && s.shm1[k] == if 65 + r <= cfg.secret[k] then 65 + r else cfg.secret[k]
  {
    hide Run, Step, PairInv, SliceInv;
    RunSlot(cfg, sched, i);
    OfferInSlice(cfg, Run(cfg, sched).value, i, k);
  }

  /** The verdict on position `k` is the server's answer and has not been tested yet: the client still has
      to take the answer, or is at `k` or before it in its loop, which includes its increments. */
  predicate Answered(cfg: Config, s: State, i: nat, k: nat)
    requires |s.sem| == 2 * cfg.m && i < cfg.m
  {
    var c := View(s.client, i);
    (c.pc.Await? && s.sem[i + cfg.m] == 1) || ((c.pc.Test? || c.pc.Load? || c.pc.Store?) && c.pc.k <= k)
  }

  lemma AnswerInSlice(cfg: Config, s: State, i: nat, k: nat)
    requires SlotInv(cfg, s, i) && Low(cfg, i) <= k < High(cfg, i) && Answered(cfg, s, i, k)
    ensures k < cfg.n && s.shm2[k] == if s.shm1[k] == cfg.secret[k] then 1 else 0
  {
    SliceCells(cfg, s, i);
  }

  /** From the moment the server hands the token back until the client has dealt with a position, its
      verdict is 1 exactly if the guess it stands for is right. */
  lemma AnswerIsRight(cfg: Config, sched: seq<Actor>, i: nat, k: nat)
    requires ValidConfig(cfg) && Run(cfg, sched).Some? && i < cfg.m
    requires i * (cfg.n / cfg.m) <= k < (i + 1) * (cfg.n / cfg.m)
    requires |Run(cfg, sched).value.sem| == 2 * cfg.m && Answered(cfg, Run(cfg, sched).value, i, k)
    ensures
      var s := Run(cfg, sched).value;
      && k < cfg.n == |s.shm1| == |s.shm2|
      && s.shm2[k] == if s.shm1[k] == cfg.secret[k] then 1 else 0
  {
    hide Run, Step;
    RunSlot(cfg, sched, i);
    AnswerInSlice(cfg, Run(cfg, sched).value, i, k);
  }

  /** Neither side waits for a partner that has gone: once one thread of a pair has left, the other
      has made as many rounds and finds its semaphore posted if it still has to pass it. */
  lemma AgreementOnStopping(cfg: Config, sched: seq<Actor>, i: nat)
    requires ValidConfig(cfg) && cfg.m <= cfg.n && Run(cfg, sched).Some? && i < cfg.m
    ensures
      var s := Run(cfg, sched).value;
      var c, v := View(s.client, i), View(s.server, i);
      && (c.pc.Done? ==> c.posts == v.posts == Rounds(cfg, i) && (v.pc.Scan? || v.pc.Done?))
      && (v.pc.Done? ==> c.posts == v.posts == Rounds(cfg, i) && !c.pc.Offer?)
      && (v.pc.Done? && c.pc.Await? ==> i + cfg.m < |s.sem| && s.sem[i + cfg.m] == 1)
  {
    hide Run, Step, View, SliceInv;
    RunSlot(cfg, sched, i);
    SliceBounds(cfg, i);
    ShareIsZeroIff(cfg);
  }

  // ----- Slots -----

  /** Once every thread of a side has its slot, the slots are a permutation of 0..m-1. */
  lemma SlotsArePermutation(cfg: Config, side: Side)
    requires cfg.m >= 1 && SideInv(cfg, side)
    requires forall t :: 0 <= t < cfg.m ==> !Waiting(side.threads[t].pc)
    ensures |side.order| == cfg.m
    ensures forall t, u :: 0 <= t < u < cfg.m ==> side.threads[t].slot != side.threads[u].slot
    ensures forall i :: 0 <= i < cfg.m ==> side.order[i] < cfg.m && side.threads[side.order[i]].slot == i
  {
    var slots := seq(cfg.m, t requires 0 <= t < cfg.m => side.threads[t].slot);
    forall t | 0 <= t < cfg.m
      ensures slots[t] in Below(|side.order|) && side.order[slots[t]] == t
    {
      assert Placed(side, t);
    }
    Pigeonhole(slots, Below(|side.order|));
    forall t, u | 0 <= t < u < cfg.m
      ensures side.threads[t].slot != side.threads[u].slot
    {
      assert side.order[slots[t]] == t && side.order[slots[u]] == u;
    }
    forall i | 0 <= i < cfg.m
      ensures side.order[i] < cfg.m && side.threads[side.order[i]].slot == i
    {
      assert Granted(side, i);
    }
  }

  lemma OneThreadOfSide(cfg: Config, side: Side, k: nat) returns (t: nat)
    requires cfg.m >= 1 && SideInv(cfg, side) && k < cfg.n - cfg.n % cfg.m
    requires forall u :: 0 <= u < cfg.m ==> !Waiting(side.threads[u].pc)
    ensures t < cfg.m
    ensures forall u :: 0 <= u < cfg.m ==>
              (side.threads[u].slot * (cfg.n / cfg.m) <= k < (side.threads[u].slot + 1) * (cfg.n / cfg.m) <==> u == t)
  {
    SlotsArePermutation(cfg, side);
    var i := SliceOwner(cfg, k);
    t := side.order[i];
    assert Granted(side, i);
    hide SideInv, Share, Granted;
    forall u | 0 <= u < cfg.m
      ensures side.threads[u].slot * (cfg.n / cfg.m) <= k < (side.threads[u].slot + 1) * (cfg.n / cfg.m) <==> u == t
    {
      if side.threads[u].slot * (cfg.n / cfg.m) <= k < (side.threads[u].slot + 1) * (cfg.n / cfg.m) {
        SlicesDisjoint(cfg, i, side.threads[u].slot, k);
      }
    }
  }

  /** In every reachable state, on either side: a slot in use is below `m` and used once, both of its
      semaphore indices are inside the segment, and its slice is inside the arrays and meets no other slice in use. */
  lemma SlotsAreExclusive(cfg: Config, sched: seq<Actor>, role: Role, t: nat, u: nat)
    requires ValidConfig(cfg) && Run(cfg, sched).Some? && t < cfg.m && u < cfg.m && t != u
    requires |SideOf(Run(cfg, sched).value, role).threads| == cfg.m
    requires !Waiting(SideOf(Run(cfg, sched).value, role).threads[t].pc)
    ensures
      var threads := SideOf(Run(cfg, sched).value, role).threads;
      && threads[t].slot + cfg.m < 2 * cfg.m
      && (threads[t].slot + 1) * (cfg.n / cfg.m) <= cfg.n - cfg.n % cfg.m
      && (!Waiting(threads[u].pc) ==>
            || (threads[t].slot + 1) * (cfg.n / cfg.m) <= threads[u].slot * (cfg.n / cfg.m)
            || (threads[u].slot + 1) * (cfg.n / cfg.m) <= threads[t].slot * (cfg.n / cfg.m))
  {
    hide Run, Step, PairInv, SliceInv;
    RunInv(cfg, sched);
    var side := SideOf(Run(cfg, sched).value, role);
    assert Placed(side, t) && Placed(side, u);
    var i, j := side.threads[t].slot, side.threads[u].slot;
    SliceBounds(cfg, i);
    LeftoverIs(cfg);
    if i < j {
      SlicesOrdered(cfg, i, j);
    } else if j < i {
      SlicesOrdered(cfg, j, i);
    }
  }

  /** Once every thread of a side has its slot, every position but the last `n % m` is in the slice
      of exactly one of its threads. */
  lemma EveryPositionHasOneThread(cfg: Config, sched: seq<Actor>, role: Role, k: nat) returns (t: nat)
    requires ValidConfig(cfg) && Run(cfg, sched).Some? && k < cfg.n - cfg.n % cfg.m
    requires forall u :: 0 <= u < |SideOf(Run(cfg, sched).value, role).threads| ==> !Waiting(SideOf(Run(cfg, sched).value, role).threads[u].pc)
    ensures
      var threads := SideOf(Run(cfg, sched).value, role).threads;
      && t < |threads| == cfg.m
      && forall u :: 0 <= u < cfg.m ==>
           (threads[u].slot * (cfg.n / cfg.m) <= k < (threads[u].slot + 1) * (cfg.n / cfg.m) <==> u == t)
  {
    hide Run, Step, PairInv, SliceInv, Share;
    RunInv(cfg, sched);
    t := OneThreadOfSide(cfg, SideOf(Run(cfg, sched).value, role), k);
  }

  // ----- No data race -----

  /** A shared cell: a letter, a verdict, or the thread_no of one process. */
  datatype Cell = GuessAt(k: nat) | VerdictAt(k: nat) | ThreadNo(role: Role)

  datatype Access = Nothing | Read(cell: Cell) | Write(cell: Cell)

  /** The cell the next step of a thread touches. */
  function AccessOf(cfg: Config, s: State, a: Actor): Access
    requires cfg.m >= 1
  {
    if a.t >= |SideOf(s, a.role).threads| then Nothing
    else
      var th := SideOf(s, a.role).threads[a.t];
      match th.pc
      case Take => Read(ThreadNo(a.role))
      case Bump => Write(ThreadNo(a.role))
      case Fill(k) => if k < High(cfg, th.slot) then Write(GuessAt(k)) else Nothing
      case Test(k, _) => if k < High(cfg, th.slot) then Read(VerdictAt(k)) else Nothing
      case Load(k) => Read(GuessAt(k))
      case Store(k, _) => Write(GuessAt(k))
      case Scan(k) => if k < High(cfg, th.slot) then Read(VerdictAt(k)) else Nothing
      case Compare(k) => if k < High(cfg, th.slot) then Read(GuessAt(k)) else Nothing
      case Judge(k, _) => Write(VerdictAt(k))
      case _ => Nothing
  }

  /** `s` and `u` are the same but for cells other than the one `acc` touches. */
  predicate AgreeOn(s: State, u: State, acc: Access) {
    && u.client == s.client && u.server == s.server && u.sem == s.sem
    && |u.shm1| == |s.shm1| && |u.shm2| == |s.shm2|
    && (!acc.Nothing? && acc.cell.GuessAt? && acc.cell.k < |s.shm1| ==> u.shm1[acc.cell.k] == s.shm1[acc.cell.k])
    && (!acc.Nothing? && acc.cell.VerdictAt? && acc.cell.k < |s.shm2| ==> u.shm2[acc.cell.k] == s.shm2[acc.cell.k])
  }

  /** What `AccessOf` promises of the step of `a` from `s`, seen from another state `u`. */
  ghost predicate Respects(s: State, u: State, acc: Access, s': State, u': State) {
    && AgreeOn(s', u', acc)
    && (forall k :: 0 <= k < |s.shm1| && acc != Write(GuessAt(k)) ==> k < |s'.shm1| && s'.shm1[k] == s.shm1[k])
    && (forall k :: 0 <= k < |s.shm2| && acc != Write(VerdictAt(k)) ==> k < |s'.shm2| && s'.shm2[k] == s.shm2[k])
    && (forall role :: acc != Write(ThreadNo(role)) ==> SideOf(s', role).threadNo == SideOf(s, role).threadNo)
  }

  lemma ClientAccessIsComplete(cfg: Config, s: State, u: State, t: nat)
    requires cfg.m >= 1 && t < |s.client.threads| && !InPrologue(s.client.threads[t].pc)
    requires AgreeOn(s, u, AccessOf(cfg, s, Actor(Client, t))) && ClientStep(cfg, s, t).Moved?
    ensures ClientStep(cfg, u, t).Moved?
    ensures Respects(s, u, AccessOf(cfg, s, Actor(Client, t)), ClientStep(cfg, s, t).next, ClientStep(cfg, u, t).next)
  {
    hide Low, High;
    match s.client.threads[t].pc
    case Fill(k) => if k < High(cfg, s.client.threads[t].slot) {}
    case Offer =>
    case Await =>
    case Test(k, _) => if k < High(cfg, s.client.threads[t].slot) {}
    case Load(_) =>
    case Store(_, _) =>
    case _ =>
  }

  lemma ServerAccessIsComplete(cfg: Config, s: State, u: State, t: nat)
    requires cfg.m >= 1 && t < |s.server.threads| && !InPrologue(s.server.threads[t].pc)
    requires AgreeOn(s, u, AccessOf(cfg, s, Actor(Server, t))) && ServerStep(cfg, s, t).Moved?
    ensures ServerStep(cfg, u, t).Moved?
    ensures Respects(s, u, AccessOf(cfg, s, Actor(Server, t)), ServerStep(cfg, s, t).next, ServerStep(cfg, u, t).next)
  {
    hide Low, High;
    match s.server.threads[t].pc
    case Scan(k) => if k < High(cfg, s.server.threads[t].slot) {}
    case Receive =>
    case Compare(k) => if k < High(cfg, s.server.threads[t].slot) {}
    case Judge(_, _) =>
    case Reply =>
    case _ =>
  }

  /** `AccessOf` names every array cell a step reads or writes: what a step does to threads, semaphores
      and the cell it touches does not depend on any other cell, and it changes no cell it does not write. */
  lemma AccessIsComplete(cfg: Config, s: State, u: State, a: Actor)
    requires cfg.m >= 1 && AgreeOn(s, u, AccessOf(cfg, s, a)) && Step(cfg, s, a).Moved?
    ensures Step(cfg, u, a).Moved?
    ensures Respects(s, u, AccessOf(cfg, s, a), Step(cfg, s, a).next, Step(cfg, u, a).next)
  {
    hide Low, High;
    if !InPrologue(SideOf(s, a.role).threads[a.t].pc) {
      if a.role.Client? {
        ClientAccessIsComplete(cfg, s, u, a.t);
      } else {
        ServerAccessIsComplete(cfg, s, u, a.t);
      }
    }
  }

  lemma ThreadAccess(cfg: Config, s: State, a: Actor)
    requires Inv(cfg, s) && !AccessOf(cfg, s, a).Nothing? && !AccessOf(cfg, s, a).cell.ThreadNo?
    ensures a.t < cfg.m && !InPrologue(SideOf(s, a.role).threads[a.t].pc)
  {
  }

  lemma AccessNeedsToken(cfg: Config, s: State, a: Actor, i: nat)
    requires SlotInv(cfg, s, i) && Holds(SideOf(s, a.role), a.t, i)
    requires !AccessOf(cfg, s, a).Nothing? && !AccessOf(cfg, s, a).cell.ThreadNo?
    ensures
      var th, acc := SideOf(s, a.role).threads[a.t], AccessOf(cfg, s, a);
      && Low(cfg, i) <= acc.cell.k < High(cfg, i)
      && (a.role.Client? ==> ClientOwns(th) == 1 && (acc.Write? ==> acc.cell.GuessAt?))
      && (a.role.Server? ==> ServerOwns(th) == 1 || (acc.Read? && acc.cell.VerdictAt?))
  {
    SliceBounds(cfg, i);
  }

  /** A thread that touches an array cell holds the slot whose slice the cell is in; a client thread
      then has the token, and so has a server thread unless it only reads a verdict. */
  lemma AccessIsInSlice(cfg: Config, s: State, a: Actor)
    requires Inv(cfg, s) && !AccessOf(cfg, s, a).Nothing? && !AccessOf(cfg, s, a).cell.ThreadNo?
    ensures a.t < cfg.m
    ensures
      var th, acc := SideOf(s, a.role).threads[a.t], AccessOf(cfg, s, a);
      && th.slot < cfg.m && View(SideOf(s, a.role), th.slot) == th
      && Low(cfg, th.slot) <= acc.cell.k < High(cfg, th.slot)
      && (a.role.Client? ==> ClientOwns(th) == 1 && (acc.Write? ==> acc.cell.GuessAt?))
      && (a.role.Server? ==> ServerOwns(th) == 1 || (acc.Read? && acc.cell.VerdictAt?))
  {
    ThreadAccess(cfg, s, a);
    ThreadSlotInv(cfg, s, a.role, a.t);
    AccessNeedsToken(cfg, s, a, SideOf(s, a.role).threads[a.t].slot);
  }

  lemma NoDataRaceOnCells(cfg: Config, s: State, a: Actor, b: Actor)
    requires Inv(cfg, s) && a != b
    requires AccessOf(cfg, s, a).Write? && !AccessOf(cfg, s, b).Nothing? && !AccessOf(cfg, s, a).cell.ThreadNo?
    ensures AccessOf(cfg, s, b).cell != AccessOf(cfg, s, a).cell
  {
    if !AccessOf(cfg, s, b).cell.ThreadNo? {
      AccessIsInSlice(cfg, s, a);
      AccessIsInSlice(cfg, s, b);
      var sa, sb := SideOf(s, a.role), SideOf(s, b.role);
      var i, j := sa.threads[a.t].slot, sb.threads[b.t].slot;
      assert Placed(sa, a.t) && Placed(sb, b.t);
      assert PairInv(cfg, s, i);
      if AccessOf(cfg, s, b).cell == AccessOf(cfg, s, a).cell {
        SlicesDisjoint(cfg, i, j, AccessOf(cfg, s, a).cell.k);
      }
    }
  }

  /** In no reachable state do two threads touch the same cell when one of them writes it. */
  lemma NoDataRace(cfg: Config, sched: seq<Actor>, a: Actor, b: Actor)
    requires ValidConfig(cfg) && Run(cfg, sched).Some? && a != b
    requires AccessOf(cfg, Run(cfg, sched).value, a).Write? && !AccessOf(cfg, Run(cfg, sched).value, b).Nothing?
    ensures AccessOf(cfg, Run(cfg, sched).value, b).cell != AccessOf(cfg, Run(cfg, sched).value, a).cell
  {
    RunInv(cfg, sched);
    var s := Run(cfg, sched).value;
    if AccessOf(cfg, s, a).cell.ThreadNo? {
      assert a.t < cfg.m && HolderOk(SideOf(s, a.role), a.t);
      assert b.t < cfg.m && HolderOk(SideOf(s, b.role), b.t);
    } else {
      NoDataRaceOnCells(cfg, s, a, b);
    }
  }
}
