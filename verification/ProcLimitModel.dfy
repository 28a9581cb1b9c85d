/**
 The two system calls of Assignment3 on values.

 Tasks are numbered in the order in which they were forked.  Task 0 is init_task; `parents` is the
 process tree; the ring that for_each_process walks is tasks 1, 2, 3, ... in this order, since a fork
 links its child at the end of the ring and the walk skips init_task.
 */
module ProcLimitModel {

  import opened Prelude

  const EINVAL := 22
  const EFAULT := 14
  const ULONG: nat := 0x1_0000_0000 // unsigned long on the configured 32-bit x86

  /** The three fields the assignment adds to task_struct. */
  datatype Family = Family(rootPid: int, timeLimit: int, timeInterval: int)

  const NO_FAMILY := Family(-1, -1, -1)

  /** `stime` and `utime` are the values cputime_to_usecs gives, both 32-bit. */
  datatype Task = Task(pid: int, family: Family, stime: nat, utime: nat)

  datatype World = World(parents: seq<nat>, tasks: seq<Task>)

  // ----- The process tree -----

  predicate Tree(parents: seq<nat>) {
    parents != [] && forall i :: 0 < i < |parents| ==> parents[i] < i
  }

  /** `a` is `j` or one of its ancestors. */
  predicate Under(parents: seq<nat>, a: nat, j: nat)
    requires Tree(parents) && j < |parents|
  {
    j == a || (0 < j && Under(parents, a, parents[j]))
  }

  predicate WellFormed(w: World) {
    && Tree(w.parents)
    && |w.tasks| == |w.parents|
    && w.tasks[0].pid == 0
    && (forall i, j :: 0 <= i < j < |w.tasks| ==> w.tasks[i].pid != w.tasks[j].pid)
    && (forall i :: 0 <= i < |w.tasks| ==> 0 <= w.tasks[i].pid)
  }

  // ----- setproclimit -----

  /** Gives every task below `a`, and `a`, the family `f`. */
  function Paint(w: World, a: nat, f: Family): (w': World)
    requires Tree(w.parents) && |w.tasks| == |w.parents|
    ensures |w'.tasks| == |w.tasks| && forall j :: 0 <= j < |w.tasks| ==> w'.tasks[j] == w.tasks[j].(family := w'.tasks[j].family)
  {
    w.(tasks := seq(|w.tasks|, j requires 0 <= j < |w.tasks| =>
         if Under(w.parents, a, j) then w.tasks[j].(family := f) else w.tasks[j]))
  }

  /** The first task of the ring, from position `i` on, with this pid. */
  function FindFrom(tasks: seq<Task>, pid: int, i: nat): (r: Option<nat>)
    requires i <= |tasks|
    ensures r.Some? ==> i <= r.value < |tasks| && tasks[r.value].pid == pid
    ensures r.Some? ==> forall j :: i <= j < r.value ==> tasks[j].pid != pid
    ensures r.None? ==> forall j :: i <= j < |tasks| ==> tasks[j].pid != pid
    decreases |tasks| - i
  {
    if i == |tasks| then None
    else if tasks[i].pid == pid then Some(i)
    else FindFrom(tasks, pid, i + 1)
  }

  /** The task a call is about, when called by task `caller`. */
  function Target(w: World, caller: nat, pid: int): Option<nat>
    requires |w.tasks| >= 1 && caller < |w.tasks|
  {
    if pid == -1 then Some(caller)
    else if pid > -1 then FindFrom(w.tasks, pid, 1)
    else None
  }

  /** Return code and new state of setproclimit(pid, limit, interval). */
  function SetProcLimit(w: World, caller: nat, pid: int, limit: int, interval: int): (int, World)
    requires WellFormed(w) && caller < |w.tasks|
  {
    if limit > interval then (-EINVAL, w)
    else
      match Target(w, caller, pid)
      case None => (-EINVAL, w)
      case Some(a) => (0, Paint(w, a, Family(w.tasks[a].pid, limit, interval)))
  }

  // ----- getproclimit -----

  /** What the caller's pointer turns out to be: NULL, or a pointer that passes access_ok,
      copy_from_user and copy_to_user or not. */
  datatype UserPtr = NullPtr | UserPtr(accessOk: bool, readOk: bool, writeOk: bool)

  datatype ProcLimit = ProcLimit(family: Family, totalCpuTime: nat, maxCpuTime: nat, minCpuTime: nat)

  /** Wrap-around of an unsigned long. */
  function ToLong(x: nat): nat {
    x % ULONG
  }

  function CpuTime(t: Task): nat {
    ToLong(t.stime + t.utime)
  }

  /** The times of the tasks of the ring before position `n` that carry this root pid, in ring order. */
  function FamilyTimes(tasks: seq<Task>, rootPid: int, n: nat): seq<nat>
    requires n <= |tasks|
  {
    if n <= 1 then []
    else if tasks[n - 1].family.rootPid == rootPid then FamilyTimes(tasks, rootPid, n - 1) + [CpuTime(tasks[n - 1])]
    else FamilyTimes(tasks, rootPid, n - 1)
  }

  function Sum(times: seq<nat>): nat {
    if times == [] then 0 else Sum(times[..|times| - 1]) + times[|times| - 1]
  }

  function Smallest(first: nat, times: seq<nat>): nat {
    if times == [] then first
    else
      var s := Smallest(first, times[..|times| - 1]);
      if times[|times| - 1] < s then times[|times| - 1] else s
  }

  function Largest(first: nat, times: seq<nat>): nat {
    if times == [] then first
    else
      var l := Largest(first, times[..|times| - 1]);
      if times[|times| - 1] > l then times[|times| - 1] else l
  }

  /** The struct filled for task `i`.  The code compares the wrong way round: the field for the largest
      time gets the smallest, and the other way about. */
  function Report(w: World, i: nat): ProcLimit
    requires |w.tasks| >= 1 && i < |w.tasks|
  {
    var f := w.tasks[i].family;
    if f.rootPid == -1 then ProcLimit(f, ULONG - 1, ULONG - 1, ULONG - 1)
    else
      var times := FamilyTimes(w.tasks, f.rootPid, |w.tasks|);
      var first := CpuTime(w.tasks[i]);
      ProcLimit(f, ToLong(Sum(times)), Smallest(first, times), Largest(first, times))
  }

  /** The end of both branches: check and read the user's struct, then write the report to it. */
  function Deliver(r: ProcLimit, ptr: UserPtr): (int, Option<ProcLimit>)
    requires ptr.UserPtr?
  {
    if !ptr.accessOk then (-EFAULT, None)
    else if !ptr.readOk || !ptr.writeOk then (-EINVAL, None)
    else (0, Some(r))
  }

  /** Return code of getproclimit(pid, ptr), and what it writes through the pointer. */
  function GetProcLimit(w: World, caller: nat, pid: int, ptr: UserPtr): (int, Option<ProcLimit>)
    requires WellFormed(w) && caller < |w.tasks|
  {
    if ptr.NullPtr? then (-EINVAL, None)
    else
      match Target(w, caller, pid)
      case None => (-EINVAL, None)
      case Some(a) => Deliver(Report(w, a), ptr)
  }

  // ----- Runs -----

  /** setproclimit(pid, limit, interval), called by task `caller`. */
  datatype Call = Call(caller: nat, pid: int, limit: int, interval: int)

  /** A set call, or a step of the environment: a fork, or the clock setting a task's times. */
  datatype Op =
    | Set(call: Call)
    | Fork(parent: nat, childPid: int)
    | Tick(task: nat, stime: nat, utime: nat)

  predicate Legal(w: World, op: Op) {
    match op
    case Set(c) => c.caller < |w.tasks|
    case Fork(parent, pid) => parent < |w.tasks| && pid > 0 && forall i :: 0 <= i < |w.tasks| ==> w.tasks[i].pid != pid
    case Tick(task, s, u) => task < |w.tasks|
  }

  function Apply(w: World, op: Op): World
    requires WellFormed(w) && Legal(w, op)
  {
    match op
    case Set(c) => SetProcLimit(w, c.caller, c.pid, c.limit, c.interval).1
    case Fork(parent, pid) => World(w.parents + [parent], w.tasks + [Task(pid, w.tasks[parent].family, 0, 0)])
    case Tick(task, s, u) => w.(tasks := w.tasks[task := w.tasks[task].(stime := s, utime := u)])
  }

  const BOOT := World([0], [Task(0, NO_FAMILY, 0, 0)])

  lemma ApplyKeepsWellFormed(w: World, op: Op)
    requires WellFormed(w)
    ensures Legal(w, op) ==> WellFormed(Apply(w, op))
  {
  }

  /** The state a sequence of operations leads to, if all of them are legal where they happen. */
  function Run(ops: seq<Op>): (r: Option<World>)
    ensures r.Some? ==> WellFormed(r.value)
  {
    if ops == [] then Some(BOOT)
    else
      match Run(ops[..|ops| - 1])
      case None => None
      case Some(w) =>
        var op := ops[|ops| - 1];
        ApplyKeepsWellFormed(w, op);
        if Legal(w, op) then Some(Apply(w, op)) else None
  }
}
