/**
 Every step of every thread keeps the invariant, and no step leaves the shared segments.
 */
module GuessSteps {
  import opened GuessModel
  import opened GuessInvariant

  lemma EnteringKeepsPair(cfg: Config, s: State, s': State, i: nat)
    requires ValidConfig(cfg) && i < cfg.m && |s.sem| == 2 * cfg.m && PairInv(cfg, s, i)
    requires s'.sem == s.sem
    requires Enters(cfg, Client, i, View(s.client, i), View(s'.client, i))
    requires Enters(cfg, Server, i, View(s.server, i), View(s'.server, i))
    ensures PairInv(cfg, s', i)
  {
    SliceBounds(cfg, i);
  }

  lemma EnteringKeepsSlice(cfg: Config, s: State, s': State, i: nat)
    requires ValidConfig(cfg) && Shape(cfg, s) && i < cfg.m && PairInv(cfg, s, i) && SliceInv(cfg, s, i)
    requires s'.shm1 == s.shm1 && s'.shm2 == s.shm2 && s'.sem == s.sem
    requires Enters(cfg, Client, i, View(s.client, i), View(s'.client, i))
    requires Enters(cfg, Server, i, View(s.server, i), View(s'.server, i))
    ensures SliceInv(cfg, s', i)
  {
    SliceBounds(cfg, i);
    forall k | Low(cfg, i) <= k < High(cfg, i)
      ensures CellsOk(cfg, s', i, k)
    {
      assert CellsOk(cfg, s, i, k);
    }
  }

  lemma SideSize(cfg: Config, side: Side)
    requires SideInv(cfg, side)
    ensures |side.threads| == cfg.m
  {
  }

  /** The slot grab changes no cell, no semaphore and no pair. */
  lemma GrabKeepsInv(cfg: Config, s: State, a: Actor)
    requires Inv(cfg, s) && a.t < cfg.m && InPrologue(SideOf(s, a.role).threads[a.t].pc)
    requires Step(cfg, s, a).Moved?
    ensures Inv(cfg, Step(cfg, s, a).next)
  {
    hide SideInv, PairInv, SliceInv, View;
    var s' := Step(cfg, s, a).next;
    var side := SideOf(s, a.role);
    assert |side.threads| == cfg.m by {
      SideSize(cfg, side);
    }
    GrabKeepsSide(cfg, a.role, side, a.t);
    forall i | 0 <= i < cfg.m
      ensures PairInv(cfg, s', i) && SliceInv(cfg, s', i)
    {
      GrabKeepsViews(cfg, a.role, side, a.t, i);
      EnteringKeepsPair(cfg, s, s', i);
      EnteringKeepsSlice(cfg, s, s', i);
    }
  }

  /** A thread past its slot grab holds the slot it says it holds. */
  lemma HoldsItsSlot(cfg: Config, side: Side, t: nat)
    requires SideInv(cfg, side) && t < cfg.m && !Waiting(side.threads[t].pc)
    ensures side.threads[t].slot < |side.order| <= cfg.m && View(side, side.threads[t].slot) == side.threads[t]
  {
    assert Placed(side, t);
  }

  /** Changing a thread that is past its slot grab changes the view of its own slot only. */
  lemma ThreadChangeKeepsSide(cfg: Config, side: Side, t: nat, th: Thread)
    requires SideInv(cfg, side) && t < cfg.m
    requires !InPrologue(side.threads[t].pc) && !InPrologue(th.pc) && th.slot == side.threads[t].slot
    ensures SideInv(cfg, WithThread(side, t, th))
    ensures View(WithThread(side, t, th), th.slot) == th
    ensures forall j: nat :: j != th.slot ==> View(WithThread(side, t, th), j) == View(side, j)
  {
    var side' := WithThread(side, t, th);
    assert Placed(side, t) && HolderOk(side, t);
    forall i | 0 <= i < |side'.order|
      ensures Granted(side', i)
    {
      assert Granted(side, i);
    }
    forall u | 0 <= u < cfg.m
      ensures Placed(side', u) && HolderOk(side', u)
    {
      assert Placed(side, u) && HolderOk(side, u);
    }
    forall j: nat | j != th.slot
      ensures View(side', j) == View(side, j)
    {
      assert j < |side.order| ==> Granted(side, j);
    }
  }

  // ----- One slot at a time -----

  /** The part of the invariant that concerns slot `i`. */
  ghost predicate SlotInv(cfg: Config, s: State, i: nat) {
    ValidConfig(cfg) && Shape(cfg, s) && i < cfg.m && PairInv(cfg, s, i) && SliceInv(cfg, s, i)
  }

  /** Thread `t` holds slot `i`. */
  predicate Holds(side: Side, t: nat, i: nat) {
    t < |side.threads| && side.threads[t].slot == i && View(side, i) == side.threads[t]
  }

  lemma ThreadSlotInv(cfg: Config, s: State, role: Role, t: nat)
    requires Inv(cfg, s) && t < cfg.m && !InPrologue(SideOf(s, role).threads[t].pc)
    ensures SlotInv(cfg, s, SideOf(s, role).threads[t].slot)
    ensures Holds(SideOf(s, role), t, SideOf(s, role).threads[t].slot)
  {
    HoldsItsSlot(cfg, SideOf(s, role), t);
  }

  /** The cells of a slice, as the invariant describes them. */
  lemma SliceCells(cfg: Config, s: State, i: nat)
    requires SlotInv(cfg, s, i)
    ensures Low(cfg, i) <= High(cfg, i) == Low(cfg, i) + Share(cfg) && High(cfg, i) <= cfg.n
    ensures forall k :: Low(cfg, i) <= k < High(cfg, i) ==>
      && s.shm1[k] == GuessCell(cfg.secret[k], View(s.client, i), k)
      && s.shm2[k] == VerdictCell(cfg.secret[k], View(s.server, i), k)
      && IsLetter(cfg.secret[k])
  {
    SliceBounds(cfg, i);
    forall k | Low(cfg, i) <= k < High(cfg, i)
      ensures s.shm1[k] == GuessCell(cfg.secret[k], View(s.client, i), k)
      ensures s.shm2[k] == VerdictCell(cfg.secret[k], View(s.server, i), k)
    {
      assert CellsOk(cfg, s, i, k);
    }
  }

  lemma RoundsBound(cfg: Config, i: nat)
    requires ValidConfig(cfg) && i < cfg.m
    ensures 1 <= Rounds(cfg, i) <= MAX_ROUNDS
    ensures Low(cfg, i) == High(cfg, i) ==> Rounds(cfg, i) == 1
  {
    SliceBounds(cfg, i);
    NeedIsLeast(cfg, Low(cfg, i), High(cfg, i), 0);
  }

  /** Only the semaphores of slot `i` may differ. */
  ghost predicate SameOtherSems(cfg: Config, s: State, s': State, i: nat)
    requires |s.sem| == |s'.sem|
  {
    forall j :: 0 <= j < |s.sem| && j != i && j != i + cfg.m ==> s'.sem[j] == s.sem[j]
  }

  /** `s'` is `s` after a step of client thread `t`, which holds slot `i`, to local state `c'`. */
  ghost predicate ClientMove(cfg: Config, s: State, t: nat, i: nat, s': State, c': Thread)
    requires SlotInv(cfg, s, i) && t < |s.client.threads|
  {
    && Shape(cfg, s')
    && c'.slot == i && !InPrologue(c'.pc)
    && s'.client == WithThread(s.client, t, c') && s'.server == s.server && s'.shm2 == s.shm2
    && SameOtherSems(cfg, s, s', i)
    && ClientOk(cfg, i, c')
    && Handshake(c', View(s.server, i), s'.sem[i], s'.sem[i + cfg.m])
    && (forall k :: 0 <= k < cfg.n ==>
          s'.shm1[k] == if Low(cfg, i) <= k < High(cfg, i) then GuessCell(cfg.secret[k], c', k) else s.shm1[k])
  }

  /** `s'` is `s` after a step of server thread `t`, which holds slot `i`, to local state `v'`. */
  ghost predicate ServerMove(cfg: Config, s: State, t: nat, i: nat, s': State, v': Thread)
    requires SlotInv(cfg, s, i) && t < |s.server.threads|
  {
    && Shape(cfg, s')
    && v'.slot == i && !InPrologue(v'.pc)
    && s'.server == WithThread(s.server, t, v') && s'.client == s.client && s'.shm1 == s.shm1
    && SameOtherSems(cfg, s, s', i)
    && ServerOk(cfg, i, v')
    && Handshake(View(s.client, i), v', s'.sem[i], s'.sem[i + cfg.m])
    && (forall k :: 0 <= k < cfg.n ==>
          s'.shm2[k] == if Low(cfg, i) <= k < High(cfg, i) then VerdictCell(cfg.secret[k], v', k) else s.shm2[k])
  }

  lemma OtherSlice(cfg: Config, s: State, s': State, i: nat, j: nat)
    requires SlotInv(cfg, s, j) && Shape(cfg, s') && i < cfg.m && j != i
    requires View(s'.client, j) == View(s.client, j) && View(s'.server, j) == View(s.server, j)
    requires forall k :: 0 <= k < cfg.n && !(Low(cfg, i) <= k < High(cfg, i)) ==> s'.shm1[k] == s.shm1[k] && s'.shm2[k] == s.shm2[k]
    ensures SliceInv(cfg, s', j)
  {
    SliceBounds(cfg, j);
    forall k | Low(cfg, j) <= k < High(cfg, j)
      ensures CellsOk(cfg, s', j, k)
    {
      assert CellsOk(cfg, s, j, k);
      if Low(cfg, i) <= k < High(cfg, i) {
        SlicesDisjoint(cfg, i, j, k);
      }
    }
  }

  /** A change confined to the slice and the semaphores of slot `i` keeps the invariant if it keeps it for `i`. */
  lemma LocalChange(cfg: Config, s: State, s': State, i: nat)
    requires Inv(cfg, s) && Shape(cfg, s') && i < cfg.m
    requires SideInv(cfg, s'.client) && SideInv(cfg, s'.server)
    requires forall j: nat :: j != i ==> View(s'.client, j) == View(s.client, j) && View(s'.server, j) == View(s.server, j)
    requires SameOtherSems(cfg, s, s', i)
    requires forall k :: 0 <= k < cfg.n && !(Low(cfg, i) <= k < High(cfg, i)) ==> s'.shm1[k] == s.shm1[k] && s'.shm2[k] == s.shm2[k]
    requires PairInv(cfg, s', i) && SliceInv(cfg, s', i)
    ensures Inv(cfg, s')
  {
    SliceBounds(cfg, i);
    forall j | 0 <= j < cfg.m
      ensures PairInv(cfg, s', j) && SliceInv(cfg, s', j)
    {
      if j != i {
        assert PairInv(cfg, s, j) && SliceInv(cfg, s, j);
        OtherSlice(cfg, s, s', i, j);
      }
    }
  }

  lemma ClientMoveKeepsSlot(cfg: Config, s: State, t: nat, i: nat, s': State, c': Thread)
    requires SlotInv(cfg, s, i) && t < |s.client.threads| && ClientMove(cfg, s, t, i, s', c')
    requires View(s'.client, i) == c'
    ensures PairInv(cfg, s', i) && SliceInv(cfg, s', i)
  {
    SliceCells(cfg, s, i);
    forall k | Low(cfg, i) <= k < High(cfg, i)
      ensures CellsOk(cfg, s', i, k)
    {
    }
  }

  lemma ServerMoveKeepsSlot(cfg: Config, s: State, t: nat, i: nat, s': State, v': Thread)
    requires SlotInv(cfg, s, i) && t < |s.server.threads| && ServerMove(cfg, s, t, i, s', v')
    requires View(s'.server, i) == v'
    ensures PairInv(cfg, s', i) && SliceInv(cfg, s', i)
  {
    SliceCells(cfg, s, i);
    forall k | Low(cfg, i) <= k < High(cfg, i)
      ensures CellsOk(cfg, s', i, k)
    {
    }
  }

  lemma ClientMoveKeepsInv(cfg: Config, s: State, t: nat, i: nat, s': State, c': Thread)
    requires Inv(cfg, s) && SlotInv(cfg, s, i) && t < cfg.m && !InPrologue(s.client.threads[t].pc) && s.client.threads[t].slot == i
    requires ClientMove(cfg, s, t, i, s', c')
    ensures Inv(cfg, s')
  {
    ThreadChangeKeepsSide(cfg, s.client, t, c');
    ClientMoveKeepsSlot(cfg, s, t, i, s', c');
    LocalChange(cfg, s, s', i);
  }

  lemma ServerMoveKeepsInv(cfg: Config, s: State, t: nat, i: nat, s': State, v': Thread)
    requires Inv(cfg, s) && SlotInv(cfg, s, i) && t < cfg.m && !InPrologue(s.server.threads[t].pc) && s.server.threads[t].slot == i
    requires ServerMove(cfg, s, t, i, s', v')
    ensures Inv(cfg, s')
  {
    ThreadChangeKeepsSide(cfg, s.server, t, v');
    ServerMoveKeepsSlot(cfg, s, t, i, s', v');
    LocalChange(cfg, s, s', i);
  }

  // ----- The steps of the client -----

  /** Semaphore operations of the client: the token is handed over, or taken back. */
  lemma ClientSemaphore(cfg: Config, s: State, t: nat, i: nat)
    requires SlotInv(cfg, s, i) && Holds(s.client, t, i) && (s.client.threads[t].pc.Offer? || s.client.threads[t].pc.Await?)
    ensures !ClientStep(cfg, s, t).Fault?
    ensures ClientStep(cfg, s, t).Moved? ==>
      var s' := ClientStep(cfg, s, t).next; ClientMove(cfg, s, t, i, s', s'.client.threads[t])
  {
    SliceCells(cfg, s, i);
    RoundsBound(cfg, i);
  }

  /** Filling the slice with 'A'. */
  lemma ClientFill(cfg: Config, s: State, t: nat, i: nat)
    requires SlotInv(cfg, s, i) && Holds(s.client, t, i) && s.client.threads[t].pc.Fill?
    ensures ClientStep(cfg, s, t).Moved?
    ensures var s' := ClientStep(cfg, s, t).next; ClientMove(cfg, s, t, i, s', s'.client.threads[t])
  {
    SliceCells(cfg, s, i);
    RoundsBound(cfg, i);
  }

  /** Testing a verdict: the flag records whether some letter tested so far still misses. */
  lemma ClientTest(cfg: Config, s: State, t: nat, i: nat)
    requires SlotInv(cfg, s, i) && Holds(s.client, t, i) && s.client.threads[t].pc.Test?
    requires s.client.threads[t].pc.k < High(cfg, i)
    ensures ClientStep(cfg, s, t).Moved?
    ensures var s' := ClientStep(cfg, s, t).next; ClientMove(cfg, s, t, i, s', s'.client.threads[t])
  {
    SliceCells(cfg, s, i);
  }

  /** The end of a round: the client stops exactly when every letter of its slice is found. */
  lemma ClientRoundEnd(cfg: Config, s: State, t: nat, i: nat)
    requires SlotInv(cfg, s, i) && Holds(s.client, t, i) && s.client.threads[t].pc.Test?
    requires s.client.threads[t].pc.k >= High(cfg, i)
    ensures ClientStep(cfg, s, t).Moved?
    ensures var s' := ClientStep(cfg, s, t).next; ClientMove(cfg, s, t, i, s', s'.client.threads[t])
  {
    SliceCells(cfg, s, i);
    NeedIsLeast(cfg, Low(cfg, i), High(cfg, i), s.client.threads[t].posts);
  }

  /** The read of `shm1[k]++`. */
  lemma ClientLoad(cfg: Config, s: State, t: nat, i: nat)
    requires SlotInv(cfg, s, i) && Holds(s.client, t, i) && s.client.threads[t].pc.Load?
    ensures ClientStep(cfg, s, t).Moved?
    ensures var s' := ClientStep(cfg, s, t).next; ClientMove(cfg, s, t, i, s', s'.client.threads[t])
  {
    SliceCells(cfg, s, i);
  }

  /** The write of `shm1[k]++`: a guess that misses moves on by one letter. */
  lemma ClientStore(cfg: Config, s: State, t: nat, i: nat)
    requires SlotInv(cfg, s, i) && Holds(s.client, t, i) && s.client.threads[t].pc.Store?
    ensures ClientStep(cfg, s, t).Moved?
    ensures var s' := ClientStep(cfg, s, t).next; ClientMove(cfg, s, t, i, s', s'.client.threads[t])
  {
    SliceCells(cfg, s, i);
  }

  // ----- The steps of the server -----

  /** Scanning for a verdict of 0 inside the slice. */
  lemma ServerScanInside(cfg: Config, s: State, t: nat, i: nat)
    requires SlotInv(cfg, s, i) && Holds(s.server, t, i) && s.server.threads[t].pc.Scan?
    requires s.server.threads[t].pc.k < High(cfg, i)
    ensures ServerStep(cfg, s, t).Moved?
    ensures var s' := ServerStep(cfg, s, t).next; ServerMove(cfg, s, t, i, s', s'.server.threads[t])
  {
    hide SliceInv;
    SliceCells(cfg, s, i);
    NeedGrows(cfg, Low(cfg, i), s.server.threads[t].pc.k + 1, High(cfg, i));
  }

  /** The server leaves its loop exactly when every letter of its slice is found. */
  lemma ServerScanEnd(cfg: Config, s: State, t: nat, i: nat)
    requires SlotInv(cfg, s, i) && Holds(s.server, t, i) && s.server.threads[t].pc.Scan?
    requires s.server.threads[t].pc.k >= High(cfg, i)
    ensures ServerStep(cfg, s, t).Moved?
    ensures var s' := ServerStep(cfg, s, t).next; ServerMove(cfg, s, t, i, s', s'.server.threads[t])
  {
    SliceCells(cfg, s, i);
  }

  /** The server's found(): it waits for another round exactly if it meets a verdict of 0, and leaves
      exactly if there is none in its slice. */
  lemma ServerScan(cfg: Config, s: State, t: nat, i: nat)
    requires SlotInv(cfg, s, i) && Holds(s.server, t, i) && s.server.threads[t].pc.Scan?
    ensures ServerStep(cfg, s, t).Moved?
    ensures var s' := ServerStep(cfg, s, t).next; ServerMove(cfg, s, t, i, s', s'.server.threads[t])
  {
    if s.server.threads[t].pc.k < High(cfg, i) {
      ServerScanInside(cfg, s, t, i);
    } else {
      ServerScanEnd(cfg, s, t, i);
    }
  }

  /** Semaphore operations of the server: the token is taken, or handed back. */
  lemma ServerSemaphore(cfg: Config, s: State, t: nat, i: nat)
    requires SlotInv(cfg, s, i) && Holds(s.server, t, i) && (s.server.threads[t].pc.Receive? || s.server.threads[t].pc.Reply?)
    ensures !ServerStep(cfg, s, t).Fault?
    ensures ServerStep(cfg, s, t).Moved? ==>
      var s' := ServerStep(cfg, s, t).next; ServerMove(cfg, s, t, i, s', s'.server.threads[t])
  {
    SliceCells(cfg, s, i);
    RoundsBound(cfg, i);
  }

  /** Reading a guess and comparing it with the secret. */
  lemma ServerCompare(cfg: Config, s: State, t: nat, i: nat)
    requires SlotInv(cfg, s, i) && Holds(s.server, t, i) && s.server.threads[t].pc.Compare?
    ensures ServerStep(cfg, s, t).Moved?
    ensures var s' := ServerStep(cfg, s, t).next; ServerMove(cfg, s, t, i, s', s'.server.threads[t])
  {
    SliceCells(cfg, s, i);
  }

  /** Writing the verdict. */
  lemma ServerJudge(cfg: Config, s: State, t: nat, i: nat)
    requires SlotInv(cfg, s, i) && Holds(s.server, t, i) && s.server.threads[t].pc.Judge?
    ensures ServerStep(cfg, s, t).Moved?
    ensures var s' := ServerStep(cfg, s, t).next; ServerMove(cfg, s, t, i, s', s'.server.threads[t])
  {
    SliceCells(cfg, s, i);
  }

  // ----- All steps -----

  lemma ClientStepMoves(cfg: Config, s: State, t: nat, i: nat)
    requires SlotInv(cfg, s, i) && Holds(s.client, t, i) && !InPrologue(s.client.threads[t].pc)
    ensures !ClientStep(cfg, s, t).Fault?
    ensures ClientStep(cfg, s, t).Blocked? ==> s.client.threads[t].pc.Await? && s.sem[i + cfg.m] == 0
    ensures ClientStep(cfg, s, t).Exited? ==> s.client.threads[t].pc.Done?
    ensures ClientStep(cfg, s, t).Moved? ==>
      var s' := ClientStep(cfg, s, t).next; ClientMove(cfg, s, t, i, s', s'.client.threads[t])
  {
    match s.client.threads[t].pc {
      case Fill(_) => ClientFill(cfg, s, t, i);
      case Offer => ClientSemaphore(cfg, s, t, i);
      case Await => ClientSemaphore(cfg, s, t, i);
      case Test(k, _) => if k < High(cfg, i) { ClientTest(cfg, s, t, i); } else { ClientRoundEnd(cfg, s, t, i); }
      case Load(_) => ClientLoad(cfg, s, t, i);
      case Store(_, _) => ClientStore(cfg, s, t, i);
      case _ =>
    }
  }

  lemma ServerStepMoves(cfg: Config, s: State, t: nat, i: nat)
    requires SlotInv(cfg, s, i) && Holds(s.server, t, i) && !InPrologue(s.server.threads[t].pc)
    ensures !ServerStep(cfg, s, t).Fault?
    ensures ServerStep(cfg, s, t).Blocked? ==> s.server.threads[t].pc.Receive? && s.sem[i] == 0
    ensures ServerStep(cfg, s, t).Exited? ==> s.server.threads[t].pc.Done?
    ensures ServerStep(cfg, s, t).Moved? ==>
      var s' := ServerStep(cfg, s, t).next; ServerMove(cfg, s, t, i, s', s'.server.threads[t])
  {
    match s.server.threads[t].pc {
      case Scan(_) => ServerScan(cfg, s, t, i);
      case Receive => ServerSemaphore(cfg, s, t, i);
      case Compare(_) => ServerCompare(cfg, s, t, i);
      case Judge(_, _) => ServerJudge(cfg, s, t, i);
      case Reply => ServerSemaphore(cfg, s, t, i);
      case _ =>
    }
  }

  lemma ClientStepKeepsInv(cfg: Config, s: State, t: nat)
    requires Inv(cfg, s) && t < cfg.m && !InPrologue(s.client.threads[t].pc)
    ensures !ClientStep(cfg, s, t).Fault?
    ensures ClientStep(cfg, s, t).Moved? ==> Inv(cfg, ClientStep(cfg, s, t).next)
  {
    var i := s.client.threads[t].slot;
    ThreadSlotInv(cfg, s, Client, t);
    ClientStepMoves(cfg, s, t, i);
    if ClientStep(cfg, s, t).Moved? {
      var s' := ClientStep(cfg, s, t).next;
      ClientMoveKeepsInv(cfg, s, t, i, s', s'.client.threads[t]);
    }
  }

  lemma ServerStepKeepsInv(cfg: Config, s: State, t: nat)
    requires Inv(cfg, s) && t < cfg.m && !InPrologue(s.server.threads[t].pc)
    ensures !ServerStep(cfg, s, t).Fault?
    ensures ServerStep(cfg, s, t).Moved? ==> Inv(cfg, ServerStep(cfg, s, t).next)
  {
    var i := s.server.threads[t].slot;
    ThreadSlotInv(cfg, s, Server, t);
    ServerStepMoves(cfg, s, t, i);
    if ServerStep(cfg, s, t).Moved? {
      var s' := ServerStep(cfg, s, t).next;
      ServerMoveKeepsInv(cfg, s, t, i, s', s'.server.threads[t]);
    }
  }

  /** No step faults, and every step keeps the invariant. */
  lemma StepKeepsInv(cfg: Config, s: State, a: Actor)
    requires Inv(cfg, s)
    ensures !Step(cfg, s, a).Fault?
    ensures Step(cfg, s, a).Moved? ==> Inv(cfg, Step(cfg, s, a).next)
  {
    if a.t < cfg.m {
      if InPrologue(SideOf(s, a.role).threads[a.t].pc) {
        if Step(cfg, s, a).Moved? {
          GrabKeepsInv(cfg, s, a);
        }
      } else if a.role.Client? {
        ClientStepKeepsInv(cfg, s, a.t);
      } else {
        ServerStepKeepsInv(cfg, s, a.t);
      }
    }
  }
}
