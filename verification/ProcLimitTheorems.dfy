/**
 What setproclimit and getproclimit keep and report: over every run of calls, forks and clock ticks,
 and over every sequence of calls on a fixed tree.
 */
module ProcLimitTheorems {
  import opened Prelude
  import opened ProcLimitModel

  // ----- Ancestors -----

  lemma {:induction false} UnderIsOrdered(parents: seq<nat>, a: nat, j: nat)
    requires Tree(parents) && j < |parents| && Under(parents, a, j)
    ensures a <= j
    decreases j
  {
    if j == a {
    } else {
      UnderIsOrdered(parents, a, parents[j]);
    }
  }

  lemma {:induction false} UnderIsTransitive(parents: seq<nat>, a: nat, b: nat, j: nat)
    requires Tree(parents) && b < |parents| && j < |parents| && Under(parents, a, b) && Under(parents, b, j)
    ensures Under(parents, a, j)
    decreases j
  {
    if j == b {
    } else {
      UnderIsTransitive(parents, a, b, parents[j]);
    }
  }

  /** The ancestors of a task form a chain. */
  lemma {:induction false} UnderIsAChain(parents: seq<nat>, a: nat, b: nat, j: nat)
    requires Tree(parents) && j < |parents| && a <= b && Under(parents, a, j) && Under(parents, b, j)
    ensures b < |parents| && Under(parents, a, b)
    decreases j
  {
    UnderIsOrdered(parents, b, j);
    if j == b {
    } else {
      if j == a {
        UnderIsOrdered(parents, b, j);
      } else {
        UnderIsAChain(parents, a, b, parents[j]);
      }
    }
  }

  // ----- Runs -----

  lemma RunOneMore(ops: seq<Op>, op: Op)
    requires Run(ops).Some? && Legal(Run(ops).value, op)
    ensures Run(ops + [op]) == Some(Apply(Run(ops).value, op))
  {
    hide Apply;
    assert (ops + [op])[..|ops|] == ops;
  }

  // ----- Family shape -----

  /** A task heads a family of its own, or carries what its parent carries. */
  predicate Inherits(w: World, j: nat)
    requires Tree(w.parents) && |w.tasks| == |w.parents| && 0 < j < |w.tasks|
  {
    || w.tasks[j].family.rootPid == w.tasks[j].pid
    || w.tasks[j].family == w.tasks[w.parents[j]].family
  }

  ghost predicate FamilyShape(w: World) {
    && WellFormed(w)
    && (forall j :: 0 < j < |w.tasks| ==> Inherits(w, j))
    && (w.tasks[0].family == NO_FAMILY || w.tasks[0].family.rootPid == 0)
    && (forall j :: 0 <= j < |w.tasks| ==> w.tasks[j].family.timeLimit <= w.tasks[j].family.timeInterval)
    && (forall j :: 0 <= j < |w.tasks| && w.tasks[j].family.rootPid == -1 ==> w.tasks[j].family == NO_FAMILY)
  }

  lemma SetKeepsShape(w: World, caller: nat, pid: int, limit: int, interval: int)
    requires FamilyShape(w) && caller < |w.tasks|
    ensures FamilyShape(SetProcLimit(w, caller, pid, limit, interval).1)
  {
    var w' := SetProcLimit(w, caller, pid, limit, interval).1;
    forall j | 0 < j < |w'.tasks|
      ensures Inherits(w', j)
    {
      assert Inherits(w, j);
    }
  }

  lemma ForkKeepsShape(w: World, parent: nat, pid: int)
    requires FamilyShape(w) && Legal(w, Fork(parent, pid))
    ensures FamilyShape(Apply(w, Fork(parent, pid)))
  {
    var w' := Apply(w, Fork(parent, pid));
    forall j | 0 < j < |w'.tasks|
      ensures Inherits(w', j)
    {
      assert j < |w.tasks| ==> Inherits(w, j);
    }
  }

  lemma TickKeepsShape(w: World, task: nat, s: nat, u: nat)
    requires FamilyShape(w) && task < |w.tasks|
    ensures FamilyShape(Apply(w, Tick(task, s, u)))
  {
    var w' := Apply(w, Tick(task, s, u));
    forall j | 0 < j < |w'.tasks|
      ensures Inherits(w', j)
    {
      assert Inherits(w, j);
    }
  }

  /** The shape of families holds after every run of set calls, forks and ticks. */
  lemma {:induction false} RunHasShape(ops: seq<Op>)
    requires Run(ops).Some?
    ensures FamilyShape(Run(ops).value)
  {
    if ops == [] {
    } else {
      var n := |ops| - 1;
      RunHasShape(ops[..n]);
      var w := Run(ops[..n]).value;
      match ops[n]
      case Set(c) => SetKeepsShape(w, c.caller, c.pid, c.limit, c.interval);
      case Fork(parent, pid) => ForkKeepsShape(w, parent, pid);
      case Tick(task, s, u) => TickKeepsShape(w, task, s, u);
    }
  }

  /** A family is a connected part of the tree: a member has an ancestor, or is itself, the task whose
      pid is the root pid, and every task on the path between them carries the same three values. */
  lemma {:induction false} FamilyTop(w: World, j: nat) returns (top: nat)
    requires FamilyShape(w) && j < |w.tasks| && w.tasks[j].family.rootPid != -1
    ensures top < |w.tasks| && w.tasks[top].pid == w.tasks[j].family.rootPid && Under(w.parents, top, j)
    ensures forall b :: 0 <= b < |w.tasks| && Under(w.parents, top, b) && Under(w.parents, b, j)
              ==> w.tasks[b].family == w.tasks[j].family
    decreases j
  {
    if w.tasks[j].pid == w.tasks[j].family.rootPid {
      top := j;
      forall b | 0 <= b < |w.tasks| && Under(w.parents, top, b) && Under(w.parents, b, j)
        ensures b == j
      {
        UnderIsOrdered(w.parents, top, b);
        UnderIsOrdered(w.parents, b, j);
      }
    } else {
      assert Inherits(w, j);
      top := FamilyTop(w, w.parents[j]);
    }
  }

  /** Tasks with the same root pid are in one subtree and have the same limit and interval. */
  lemma FamiliesAgree(w: World, j: nat, k: nat)
    requires FamilyShape(w) && j < |w.tasks| && k < |w.tasks|
    requires w.tasks[j].family.rootPid == w.tasks[k].family.rootPid
    ensures w.tasks[j].family == w.tasks[k].family
  {
    if w.tasks[j].family.rootPid != -1 {
      var a := FamilyTop(w, j);
      var b := FamilyTop(w, k);
      assert a == b;
      assert Under(w.parents, a, a);
    }
  }

  // ----- What the calls come to, in terms of pids and fields -----

  /** The task with pid `pid` stands at position `q` of the ring, or `pid` is -1 and `q` is the caller. */
  predicate Names(w: World, caller: nat, pid: int, q: nat) {
    if pid == -1 then q == caller else pid > -1 && 1 <= q < |w.tasks| && w.tasks[q].pid == pid
  }

  lemma TargetIffNames(w: World, caller: nat, pid: int, q: nat)
    requires WellFormed(w) && caller < |w.tasks|
    ensures Target(w, caller, pid) == Some(q) <==> Names(w, caller, pid, q)
    ensures Target(w, caller, pid).Some? <==>
            pid == -1 || (pid > -1 && exists i :: 1 <= i < |w.tasks| && w.tasks[i].pid == pid)
  {
    if pid > -1 {
      var r := FindFrom(w.tasks, pid, 1);
    }
  }

  /** setproclimit succeeds exactly if the limit is no greater than the interval and the pid is -1 or that
      of a task of the ring; otherwise it returns -EINVAL and changes nothing. */
  lemma SetCode(w: World, caller: nat, pid: int, limit: int, interval: int)
    requires WellFormed(w) && caller < |w.tasks|
    ensures
      var (code, w') := SetProcLimit(w, caller, pid, limit, interval);
      if limit <= interval && (pid == -1 || (pid > -1 && exists i :: 1 <= i < |w.tasks| && w.tasks[i].pid == pid))
      then code == 0
      else code == -22 && w' == w
  {
    hide FindFrom;
    TargetIffNames(w, caller, pid, 0);
  }

  /** When it succeeds, exactly the tasks below the named one, and that task itself, get its pid and the two
      numbers; nothing else changes. */
  lemma SetEffect(w: World, caller: nat, pid: int, limit: int, interval: int, a: nat, j: nat)
    requires WellFormed(w) && caller < |w.tasks| && limit <= interval && Names(w, caller, pid, a) && j < |w.tasks|
    ensures
      var w' := SetProcLimit(w, caller, pid, limit, interval).1;
      && w'.parents == w.parents && |w'.tasks| == |w.tasks| && a < |w.tasks|
      && w'.tasks[j].pid == w.tasks[j].pid && w'.tasks[j].stime == w.tasks[j].stime && w'.tasks[j].utime == w.tasks[j].utime
      && var f := w'.tasks[j].family;
         if Under(w.parents, a, j)
         then f.rootPid == w.tasks[a].pid && f.timeLimit == limit && f.timeInterval == interval
         else f == w.tasks[j].family
  {
    hide FindFrom, Under;
    TargetIffNames(w, caller, pid, a);
  }

  predicate IsPath(parents: seq<nat>, path: seq<nat>, j: nat, a: nat) {
    && path != [] && path[0] == j && path[|path| - 1] == a
    && forall k :: 0 <= k < |path| - 1 ==> 0 < path[k] < |parents| && path[k + 1] == parents[path[k]]
  }

  /** A task is below another exactly if some chain of parents leads up to it. */
  lemma {:induction false} UnderIffPath(parents: seq<nat>, a: nat, j: nat)
    requires Tree(parents) && j < |parents|
    ensures Under(parents, a, j) <==> exists path: seq<nat> :: IsPath(parents, path, j, a)
    decreases j
  {
    if j == a {
      assert IsPath(parents, [j], j, a);
    } else if j == 0 {
      assert forall path: seq<nat> :: !IsPath(parents, path, 0, a);
    } else {
      UnderIffPath(parents, a, parents[j]);
      if Under(parents, a, parents[j]) {
        var path: seq<nat> :| IsPath(parents, path, parents[j], a);
        assert IsPath(parents, [j] + path, j, a);
      }
      if path: seq<nat> :| IsPath(parents, path, j, a) {
        assert IsPath(parents, path[1..], parents[j], a);
      }
    }
  }

  /** getproclimit returns -EINVAL for a null pointer and for a pid that no task of the ring has, then
      -EFAULT for an address that is not the user's, then -EINVAL if a copy fails, and else 0; it writes to
      the pointer only then. */
  lemma GetCode(w: World, caller: nat, pid: int, ptr: UserPtr)
    requires WellFormed(w) && caller < |w.tasks|
    ensures
      var (code, written) := GetProcLimit(w, caller, pid, ptr);
      && (code == 0 <==> written.Some?)
      && code == if ptr.NullPtr? then -22
                 else if !(pid == -1 || (pid > -1 && exists i :: 1 <= i < |w.tasks| && w.tasks[i].pid == pid)) then -22
                 else if !ptr.accessOk then -14
                 else if !ptr.readOk || !ptr.writeOk then -22
                 else 0
  {
    hide FindFrom, Report;
    TargetIffNames(w, caller, pid, 0);
  }

  /** What getproclimit writes for a task in no family: -1, which in the unsigned fields is 4294967295. */
  lemma GetInNoFamily(w: World, caller: nat, pid: int, q: nat)
    requires WellFormed(w) && caller < |w.tasks| && Names(w, caller, pid, q) && w.tasks[q].family.rootPid == -1
    ensures GetProcLimit(w, caller, pid, UserPtr(true, true, true))
         == (0, Some(ProcLimit(w.tasks[q].family, 0xFFFF_FFFF, 0xFFFF_FFFF, 0xFFFF_FFFF)))
  {
    hide FindFrom;
    TargetIffNames(w, caller, pid, q);
  }

  // ----- Last writer wins -----

  /** The task a call changes the subtree of, or None if the call fails. */
  function WriteTarget(w: World, c: Call): Option<nat>
    requires WellFormed(w)
  {
    if c.caller >= |w.tasks| || c.limit > c.interval then None else Target(w, c.caller, c.pid)
  }

  /** Calls made one after the other on a fixed tree; nothing happens for a caller that does not exist. */
  function ApplyCalls(w: World, calls: seq<Call>): (w': World)
    requires WellFormed(w)
    ensures WellFormed(w') && w'.parents == w.parents && |w'.tasks| == |w.tasks|
    ensures forall j :: 0 <= j < |w.tasks| ==> w'.tasks[j].pid == w.tasks[j].pid
  {
    if calls == [] then w
    else
      var before := ApplyCalls(w, calls[..|calls| - 1]);
      var c := calls[|calls| - 1];
      if c.caller < |w.tasks| then SetProcLimit(before, c.caller, c.pid, c.limit, c.interval).1 else before
  }

  /** What the last successful call on task `j` or an ancestor of it wrote, else what `j` had before. */
  function LastWrite(w: World, calls: seq<Call>, j: nat): Family
    requires WellFormed(w) && j < |w.tasks|
  {
    if calls == [] then w.tasks[j].family
    else
      var c := calls[|calls| - 1];
      match WriteTarget(w, c)
      case Some(a) =>
        if Under(w.parents, a, j) then Family(w.tasks[a].pid, c.limit, c.interval)
        else LastWrite(w, calls[..|calls| - 1], j)
      case None => LastWrite(w, calls[..|calls| - 1], j)
  }

  lemma {:induction false} FindDependsOnPids(s: seq<Task>, t: seq<Task>, pid: int, i: nat)
    requires |s| == |t| && i <= |s| && forall j :: 0 <= j < |s| ==> s[j].pid == t[j].pid
    ensures FindFrom(s, pid, i) == FindFrom(t, pid, i)
    decreases |s| - i
  {
    if i == |s| {
    } else {
      FindDependsOnPids(s, t, pid, i + 1);
    }
  }

  /** What one more call does to task `j`. */
  lemma OneMoreCall(w: World, before: World, c: Call, j: nat)
    requires WellFormed(w) && WellFormed(before) && j < |w.tasks| == |before.tasks| && before.parents == w.parents
    requires forall i :: 0 <= i < |w.tasks| ==> before.tasks[i].pid == w.tasks[i].pid
    requires c.caller < |w.tasks|
    ensures
      var after := SetProcLimit(before, c.caller, c.pid, c.limit, c.interval).1;
      && |after.tasks| == |w.tasks|
      && after.tasks[j] ==
           match WriteTarget(w, c)
           case Some(a) =>
             if Under(w.parents, a, j) then before.tasks[j].(family := Family(w.tasks[a].pid, c.limit, c.interval)) else before.tasks[j]
           case None => before.tasks[j]
  {
    hide Under;
    FindDependsOnPids(w.tasks, before.tasks, c.pid, 1);
  }

  lemma NoSuchCaller(w: World, c: Call)
    requires WellFormed(w) && c.caller >= |w.tasks|
    ensures WriteTarget(w, c) == None
  {
  }

  /** On a fixed tree, after any sequence of calls, failing ones included, every task holds what the
      last successful call on it or on an ancestor wrote, and its pid and times are untouched. */
  lemma {:induction false} LastWriterWins(w: World, calls: seq<Call>, j: nat)
    requires WellFormed(w) && j < |w.tasks|
    ensures ApplyCalls(w, calls).tasks[j] == w.tasks[j].(family := LastWrite(w, calls, j))
  {
    hide Under, SetProcLimit, WriteTarget;
    if calls == [] {
    } else {
      var n := |calls| - 1;
      LastWriterWins(w, calls[..n], j);
      if calls[n].caller < |w.tasks| {
        OneMoreCall(w, ApplyCalls(w, calls[..n]), calls[n], j);
      } else {
        NoSuchCaller(w, calls[n]);
      }
    }
  }

  lemma SameLastWritesSameWorld(w: World, calls: seq<Call>, calls': seq<Call>)
    requires WellFormed(w)
    requires forall j :: 0 <= j < |w.tasks| ==> LastWrite(w, calls, j) == LastWrite(w, calls', j)
    ensures ApplyCalls(w, calls) == ApplyCalls(w, calls')
  {
    var v, v' := ApplyCalls(w, calls), ApplyCalls(w, calls');
    forall j | 0 <= j < |w.tasks|
      ensures v.tasks[j] == v'.tasks[j]
    {
      LastWriterWins(w, calls, j);
      LastWriterWins(w, calls', j);
      assert LastWrite(w, calls, j) == LastWrite(w, calls', j);
    }
    assert v.tasks == v'.tasks;
  }

  /** What two calls leave in task `j`, the second being looked at first. */
  lemma LastWriteOfTwo(w: World, c: Call, d: Call, j: nat)
    requires WellFormed(w) && j < |w.tasks| && WriteTarget(w, c).Some? && WriteTarget(w, d).Some?
    ensures
      var a, b := WriteTarget(w, c).value, WriteTarget(w, d).value;
      && LastWrite(w, [d], j) == (if Under(w.parents, b, j) then Family(w.tasks[b].pid, d.limit, d.interval) else w.tasks[j].family)
      && LastWrite(w, [c, d], j) == (if Under(w.parents, b, j) then Family(w.tasks[b].pid, d.limit, d.interval)
                                     else if Under(w.parents, a, j) then Family(w.tasks[a].pid, c.limit, c.interval)
                                     else w.tasks[j].family)
  {
    assert [c, d][..1] == [c];
    assert LastWrite(w, [c], j) == if Under(w.parents, WriteTarget(w, c).value, j)
                                   then Family(w.tasks[WriteTarget(w, c).value].pid, c.limit, c.interval) else w.tasks[j].family;
  }

  /** Calls on disjoint subtrees commute. */
  lemma DisjointCallsCommute(w: World, c: Call, d: Call)
    requires WellFormed(w) && WriteTarget(w, c).Some? && WriteTarget(w, d).Some?
    requires !Under(w.parents, WriteTarget(w, c).value, WriteTarget(w, d).value)
    requires !Under(w.parents, WriteTarget(w, d).value, WriteTarget(w, c).value)
    ensures ApplyCalls(w, [c, d]) == ApplyCalls(w, [d, c])
  {
    var a, b := WriteTarget(w, c).value, WriteTarget(w, d).value;
    forall j | 0 <= j < |w.tasks|
      ensures LastWrite(w, [c, d], j) == LastWrite(w, [d, c], j)
    {
      LastWriteOfTwo(w, c, d, j);
      LastWriteOfTwo(w, d, c, j);
      if Under(w.parents, a, j) && Under(w.parents, b, j) {
        UnderIsAChain(w.parents, if a <= b then a else b, if a <= b then b else a, j);
      }
    }
    SameLastWritesSameWorld(w, [c, d], [d, c]);
  }

  /** A call on a task makes an earlier call on it or on a descendant as if it had not been. */
  lemma AncestorAbsorbs(w: World, c: Call, d: Call)
    requires WellFormed(w) && WriteTarget(w, c).Some? && WriteTarget(w, d).Some?
    requires Under(w.parents, WriteTarget(w, d).value, WriteTarget(w, c).value)
    ensures ApplyCalls(w, [c, d]) == ApplyCalls(w, [d])
  {
    var a, b := WriteTarget(w, c).value, WriteTarget(w, d).value;
    forall j | 0 <= j < |w.tasks|
      ensures LastWrite(w, [c, d], j) == LastWrite(w, [d], j)
    {
      LastWriteOfTwo(w, c, d, j);
      if Under(w.parents, a, j) {
        UnderIsTransitive(w.parents, b, a, j);
      }
    }
    SameLastWritesSameWorld(w, [c, d], [d]);
  }

  // ----- Set, then get -----

  /** The time used by the tasks of the ring before position `n` that are `a` or below it. */
  function SubtreeTime(w: World, a: nat, n: nat): nat
    requires Tree(w.parents) && |w.tasks| == |w.parents| && n <= |w.tasks|
  {
    if n <= 1 then 0
    else SubtreeTime(w, a, n - 1) + if Under(w.parents, a, n - 1) then CpuTime(w.tasks[n - 1]) else 0
  }

  /** That time, added up task by task: what every task of the subtree on the ring has used, wrapped at 32 bits. */
  lemma {:induction false} SubtreeTimeAdds(w: World, a: nat, n: nat) returns (sums: seq<nat>)
    requires Tree(w.parents) && |w.tasks| == |w.parents| && 1 <= n <= |w.tasks|
    ensures |sums| == n && sums[0] == 0 && sums[n - 1] == SubtreeTime(w, a, n)
    ensures forall j :: 1 <= j < n ==>
              sums[j] == sums[j - 1] + if Under(w.parents, a, j) then (w.tasks[j].stime + w.tasks[j].utime) % 0x1_0000_0000 else 0
  {
    if n == 1 {
      sums := [0];
    } else {
      var before := SubtreeTimeAdds(w, a, n - 1);
      sums := before + [SubtreeTime(w, a, n)];
    }
  }

  lemma SumOneMore(times: seq<nat>, t: nat)
    ensures Sum(times + [t]) == Sum(times) + t
  {
    assert (times + [t])[..|times|] == times;
  }

  /** What one more task of the ring adds to the times of a family. */
  lemma OneMoreMember(tasks: seq<Task>, rootPid: int, n: nat)
    requires 1 < n <= |tasks|
    ensures
      var before, after, t := FamilyTimes(tasks, rootPid, n - 1), FamilyTimes(tasks, rootPid, n), CpuTime(tasks[n - 1]);
      if tasks[n - 1].family.rootPid == rootPid
      then Sum(after) == Sum(before) + t && forall x :: x in after <==> x in before || x == t
      else after == before
  {
    SumOneMore(FamilyTimes(tasks, rootPid, n - 1), CpuTime(tasks[n - 1]));
  }

  lemma NoMember(w: World, a: nat, rootPid: int, n: nat)
    requires WellFormed(w) && n <= |w.tasks| && n <= 1
    ensures Sum(FamilyTimes(w.tasks, rootPid, n)) == 0 == SubtreeTime(w, a, n)
  {
  }

  lemma OneMoreBelow(w: World, a: nat, n: nat)
    requires WellFormed(w) && 1 < n <= |w.tasks|
    ensures SubtreeTime(w, a, n) == SubtreeTime(w, a, n - 1) + if Under(w.parents, a, n - 1) then CpuTime(w.tasks[n - 1]) else 0
  {
  }

  /** When the tasks that carry a root pid are exactly those of a subtree, the sum over the ring is the sum over the subtree. */
  lemma {:induction false} RingSumIsTreeSum(w: World, a: nat, rootPid: int, n: nat)
    requires WellFormed(w) && n <= |w.tasks|
    requires forall j :: 0 <= j < |w.tasks| ==> (w.tasks[j].family.rootPid == rootPid <==> Under(w.parents, a, j))
    ensures Sum(FamilyTimes(w.tasks, rootPid, n)) == SubtreeTime(w, a, n)
  {
    hide Sum, Under, CpuTime, FamilyTimes, WellFormed, SubtreeTime;
    if n <= 1 {
      NoMember(w, a, rootPid, n);
    } else {
      RingSumIsTreeSum(w, a, rootPid, n - 1);
      OneMoreMember(w.tasks, rootPid, n);
      OneMoreBelow(w, a, n);
    }
  }

  /** After a call that succeeds, the tasks that carry the target's pid as root are exactly its subtree:
      the call leaves no stale member outside. */
  lemma FamilyIsSubtree(w: World, caller: nat, pid: int, limit: int, interval: int, a: nat)
    requires FamilyShape(w) && caller < |w.tasks|
    requires limit <= interval && Target(w, caller, pid) == Some(a)
    ensures
      var w' := SetProcLimit(w, caller, pid, limit, interval).1;
      forall j :: 0 <= j < |w'.tasks| ==> (w'.tasks[j].family.rootPid == w.tasks[a].pid <==> Under(w.parents, a, j))
  {
    var w' := SetProcLimit(w, caller, pid, limit, interval).1;
    SetKeepsShape(w, caller, pid, limit, interval);
    forall j | 0 <= j < |w'.tasks| && w'.tasks[j].family.rootPid == w.tasks[a].pid
      ensures Under(w.parents, a, j)
    {
      var top := FamilyTop(w', j);
      assert top == a;
    }
  }

  lemma PaintFacts(w: World, a: nat, f: Family, q: nat)
    requires WellFormed(w) && q < |w.tasks|
    ensures
      var w' := Paint(w, a, f);
      && w'.parents == w.parents && |w'.tasks| == |w.tasks|
      && w'.tasks[q] == (if Under(w.parents, a, q) then w.tasks[q].(family := f) else w.tasks[q])
      && forall j :: 0 <= j < |w.tasks| ==> CpuTime(w'.tasks[j]) == CpuTime(w.tasks[j])
  {
    hide Under;
  }

  /** Pids are unique, so the ring search for a task's pid finds that task. */
  lemma RingFindsPid(w: World, caller: nat, q: nat)
    requires WellFormed(w) && caller < |w.tasks| && 0 < q < |w.tasks|
    ensures Target(w, caller, w.tasks[q].pid) == Some(q)
  {
    var r := FindFrom(w.tasks, w.tasks[q].pid, 1);
  }

  lemma ReportOf(w: World, reader: nat, q: nat)
    requires WellFormed(w) && reader < |w.tasks| && 0 < q < |w.tasks|
    ensures GetProcLimit(w, reader, w.tasks[q].pid, UserPtr(true, true, true)) == (0, Some(Report(w, q)))
  {
    RingFindsPid(w, reader, q);
  }

  lemma {:induction false} SubtreeTimeUnchanged(w: World, w': World, a: nat, n: nat)
    requires WellFormed(w) && WellFormed(w') && w'.parents == w.parents && n <= |w.tasks|
    requires forall j :: 0 <= j < |w.tasks| ==> CpuTime(w'.tasks[j]) == CpuTime(w.tasks[j])
    ensures SubtreeTime(w', a, n) == SubtreeTime(w, a, n)
  {
    if n <= 1 {
    } else {
      SubtreeTimeUnchanged(w, w', a, n - 1);
    }
  }

  predicate Belongs(w: World, a: nat, f: Family, j: nat)
    requires Tree(w.parents) && |w.tasks| == |w.parents| && j < |w.tasks|
  {
    if Under(w.parents, a, j) then w.tasks[j].family == f else w.tasks[j].family.rootPid != f.rootPid
  }

  /** The family `f` is exactly the subtree of task `a`, and named after it. */
  ghost predicate Owns(w: World, a: nat, f: Family) {
    && FamilyShape(w)
    && a < |w.tasks| && f.rootPid == w.tasks[a].pid
    && forall j :: 0 <= j < |w.tasks| ==> Belongs(w, a, f, j)
  }

  /** A call that succeeds makes the target own its subtree. */
  lemma SetOwns(w: World, c: Call, a: nat)
    requires FamilyShape(w) && WriteTarget(w, c) == Some(a)
    ensures SetProcLimit(w, c.caller, c.pid, c.limit, c.interval) == (0, Paint(w, a, Family(w.tasks[a].pid, c.limit, c.interval)))
    ensures Owns(Paint(w, a, Family(w.tasks[a].pid, c.limit, c.interval)), a, Family(w.tasks[a].pid, c.limit, c.interval))
  {
    var f := Family(w.tasks[a].pid, c.limit, c.interval);
    var w' := Paint(w, a, f);
    hide Under;
    SetKeepsShape(w, c.caller, c.pid, c.limit, c.interval);
    FamilyIsSubtree(w, c.caller, c.pid, c.limit, c.interval, a);
    forall j | 0 <= j < |w'.tasks|
      ensures Belongs(w', a, f, j)
    {
      PaintFacts(w, a, f, j);
    }
  }

  /** What getproclimit reports on a task whose family is a whole subtree, whoever calls it. */
  lemma OwnedReport(w: World, a: nat, f: Family, q: nat, reader: nat)
    requires Owns(w, a, f) && 0 < q < |w.tasks| && reader < |w.tasks| && Under(w.parents, a, q)
    ensures
      var (code, report) := GetProcLimit(w, reader, w.tasks[q].pid, UserPtr(true, true, true));
      && code == 0 && report.Some? && report.value.family == f
      && report.value.totalCpuTime == ToLong(SubtreeTime(w, a, |w.tasks|))
  {
    assert Belongs(w, a, f, q);
    ReportOf(w, reader, q);
    forall j | 0 <= j < |w.tasks|
      ensures w.tasks[j].family.rootPid == f.rootPid <==> Under(w.parents, a, j)
    {
      assert Belongs(w, a, f, j);
    }
    RingSumIsTreeSum(w, a, f.rootPid, |w.tasks|);
  }

  /** In any reachable state, after a setproclimit that succeeds on task `a`, getproclimit on any task
      of the subtree of `a`, called by anyone, reports the values set and the time of exactly that subtree. */
  lemma SetThenGet(ops: seq<Op>, call: Call, a: nat, q: nat, reader: nat)
    requires Run(ops).Some?
    requires WriteTarget(Run(ops).value, call) == Some(a)
    requires 0 < q < |Run(ops).value.tasks| && reader < |Run(ops).value.tasks| && Under(Run(ops).value.parents, a, q)
    ensures
      var w := Run(ops).value;
      var (code, w') := SetProcLimit(w, call.caller, call.pid, call.limit, call.interval);
      var (code', report) := GetProcLimit(w', reader, w.tasks[q].pid, UserPtr(true, true, true));
      && code == 0 && code' == 0 && report.Some? && a < |w.tasks|
      && report.value.family == Family(w.tasks[a].pid, call.limit, call.interval)
      && report.value.totalCpuTime == ToLong(SubtreeTime(w, a, |w.tasks|))
  {
    RunHasShape(ops);
    var w := Run(ops).value;
    var f := Family(w.tasks[a].pid, call.limit, call.interval);
    SetOwns(w, call, a);
    PaintFacts(w, a, f, q);
    OwnedReport(Paint(w, a, f), a, f, q, reader);
    SubtreeTimeUnchanged(w, Paint(w, a, f), a, |w.tasks|);
  }

  // ----- Later operations -----

  /** A call spares the subtree of `a` if it fails, or its target is neither in that subtree nor above it. */
  predicate Spares(w: World, op: Op, a: nat)
    requires WellFormed(w) && a < |w.tasks|
  {
    match op
    case Set(c) =>
      (match WriteTarget(w, c)
       case Some(b) => !Under(w.parents, a, b) && !Under(w.parents, b, a)
       case None => true)
    case Fork(_, _) => true
    case Tick(_, _, _) => true
  }

  lemma SetSpares(w: World, c: Call, a: nat, f: Family)
    requires Owns(w, a, f) && c.caller < |w.tasks| && Spares(w, Set(c), a)
    ensures Owns(SetProcLimit(w, c.caller, c.pid, c.limit, c.interval).1, a, f)
  {
    SetKeepsShape(w, c.caller, c.pid, c.limit, c.interval);
    var w' := SetProcLimit(w, c.caller, c.pid, c.limit, c.interval).1;
    if WriteTarget(w, c).Some? {
      var b := WriteTarget(w, c).value;
      forall j | 0 <= j < |w'.tasks|
        ensures Belongs(w', a, f, j)
      {
        assert Belongs(w, a, f, j);
        if Under(w.parents, a, j) && Under(w.parents, b, j) {
          UnderIsAChain(w.parents, if a <= b then a else b, if a <= b then b else a, j);
        }
      }
    }
  }

  /** A longer tree has the same ancestors for the tasks it had before. */
  lemma {:induction false} UnderInLongerTree(parents: seq<nat>, p: nat, a: nat, j: nat)
    requires Tree(parents) && p < |parents| && j < |parents|
    ensures Tree(parents + [p]) && Under(parents + [p], a, j) == Under(parents, a, j)
    decreases j
  {
    if j == 0 {
    } else {
      UnderInLongerTree(parents, p, a, parents[j]);
    }
  }

  lemma UnderOfNewest(parents: seq<nat>, p: nat, a: nat)
    requires Tree(parents) && p < |parents| && a < |parents|
    ensures Tree(parents + [p]) && Under(parents + [p], a, |parents|) == Under(parents + [p], a, p)
  {
  }

  lemma ForkSpares(w: World, p: nat, pid: int, a: nat, f: Family)
    requires Owns(w, a, f) && Legal(w, Fork(p, pid))
    ensures Owns(Apply(w, Fork(p, pid)), a, f)
  {
    ForkKeepsShape(w, p, pid);
    var w' := Apply(w, Fork(p, pid));
    hide Under, Inherits;
    forall j | 0 <= j < |w'.tasks|
      ensures Belongs(w', a, f, j)
    {
      var i := if j < |w.tasks| then j else p;
      assert Belongs(w, a, f, i);
      UnderInLongerTree(w.parents, p, a, i);
      UnderOfNewest(w.parents, p, a);
    }
  }

  lemma TickSpares(w: World, task: nat, s: nat, u: nat, a: nat, f: Family)
    requires Owns(w, a, f) && task < |w.tasks|
    ensures Owns(Apply(w, Tick(task, s, u)), a, f)
  {
    TickKeepsShape(w, task, s, u);
    forall j | 0 <= j < |w.tasks|
      ensures Belongs(Apply(w, Tick(task, s, u)), a, f, j)
    {
      assert Belongs(w, a, f, j);
    }
  }

  lemma StepSpares(w: World, op: Op, a: nat, f: Family)
    requires Owns(w, a, f) && Legal(w, op) && Spares(w, op, a)
    ensures Owns(Apply(w, op), a, f)
  {
    match op
    case Set(c) => SetSpares(w, c, a, f);
    case Fork(p, pid) => ForkSpares(w, p, pid, a, f);
    case Tick(task, s, u) => TickSpares(w, task, s, u, a, f);
  }

  /** After the run `ops`, the operations `later` can all be made, and spare the subtree of `a`. */
  predicate AllSpare(ops: seq<Op>, later: seq<Op>, a: nat)
  {
    if later == [] then true
    else
      var before := Run(ops + later[..|later| - 1]);
      && AllSpare(ops, later[..|later| - 1], a)
      && before.Some? && a < |before.value.tasks|
      && Legal(before.value, later[|later| - 1]) && Spares(before.value, later[|later| - 1], a)
  }

  /** One more later operation, after a run `before` that keeps the family. */
  lemma OneMoreSpares(before: seq<Op>, op: Op, a: nat, f: Family)
    requires Run(before).Some? && Owns(Run(before).value, a, f) && Legal(Run(before).value, op) && Spares(Run(before).value, op, a)
    ensures Run(before + [op]).Some? && Owns(Run(before + [op]).value, a, f)
  {
    hide Run, Owns, Apply, Spares, Legal;
    RunOneMore(before, op);
    StepSpares(Run(before).value, op, a, f);
  }

  /** Forks, clock ticks, failing calls and calls elsewhere keep a family equal to the subtree of its head. */
  lemma {:induction false} FamilyStaysSubtree(ops: seq<Op>, later: seq<Op>, a: nat, f: Family)
    requires Run(ops).Some? && Owns(Run(ops).value, a, f) && AllSpare(ops, later, a)
    ensures Run(ops + later).Some? && Owns(Run(ops + later).value, a, f)
  {
    hide Run, Owns, Spares, Legal;
    if later == [] {
      assert ops + later == ops;
    } else {
      var n := |later| - 1;
      FamilyStaysSubtree(ops, later[..n], a, f);
      OneMoreSpares(ops + later[..n], later[n], a, f);
      assert ops + later == ops + later[..n] + [later[n]];
    }
  }

  /** So a report still gives what a call has set, and the time of exactly the subtree as it now is, after
      any run of forks, ticks, failing calls and calls elsewhere: tasks forked below the target included. */
  lemma SetThenGetLater(ops: seq<Op>, call: Call, later: seq<Op>, a: nat, q: nat, reader: nat)
    requires Run(ops).Some? && WriteTarget(Run(ops).value, call) == Some(a)
    requires AllSpare(ops + [Set(call)], later, a)
    requires
      var r := Run(ops + [Set(call)] + later);
      r.Some? && 0 < q < |r.value.tasks| && reader < |r.value.tasks| && Under(r.value.parents, a, q)
    ensures
      var r := Run(ops + [Set(call)] + later);
      && a < |Run(ops).value.tasks|
      && var (code, report) := GetProcLimit(r.value, reader, r.value.tasks[q].pid, UserPtr(true, true, true));
      && code == 0 && report.Some?
      && report.value.family == Family(Run(ops).value.tasks[a].pid, call.limit, call.interval)
      && report.value.totalCpuTime == ToLong(SubtreeTime(r.value, a, |r.value.tasks|))
  {
    hide Under, AllSpare, Owns, GetProcLimit;
    var w := Run(ops).value;
    var f := Family(w.tasks[a].pid, call.limit, call.interval);
    RunHasShape(ops);
    SetOwns(w, call, a);
    RunOneMore(ops, Set(call));
    FamilyStaysSubtree(ops + [Set(call)], later, a, f);
    OwnedReport(Run(ops + [Set(call)] + later).value, a, f, q, reader);
  }

  // ----- Tasks in no family -----

  lemma WriteTargetIff(w: World, c: Call, a: nat)
    requires WellFormed(w)
    ensures WriteTarget(w, c) == Some(a) <==> c.caller < |w.tasks| && c.limit <= c.interval && Names(w, c.caller, c.pid, a)
  {
    if c.caller < |w.tasks| {
      hide FindFrom;
      TargetIffNames(w, c.caller, c.pid, a);
    }
  }

  /** The call succeeds, on `j` or an ancestor of it. */
  predicate Changes(w: World, c: Call, parents: seq<nat>, j: nat)
    requires WellFormed(w) && Tree(parents) && j < |parents|
  {
    match WriteTarget(w, c)
    case Some(a) => Under(parents, a, j)
    case None => false
  }

  /** Some call of the run has succeeded on task `j` or on one of its ancestors in the tree `parents`. */
  predicate CalledAbove(ops: seq<Op>, parents: seq<nat>, j: nat)
    requires Tree(parents) && j < |parents|
  {
    if ops == [] then false
    else
      var before, op := Run(ops[..|ops| - 1]), ops[|ops| - 1];
      || CalledAbove(ops[..|ops| - 1], parents, j)
      || (before.Some? && op.Set? && Changes(before.value, op.call, parents, j))
  }

  lemma ForkedTree(parents: seq<nat>, p: nat)
    requires Tree(parents) && p < |parents|
    ensures Tree(parents + [p])
  {
  }

  lemma ChangesBeforeFork(w: World, c: Call, parents: seq<nat>, p: nat, j: nat)
    requires WellFormed(w) && |w.tasks| <= |parents| && Tree(parents) && p < |parents| && j <= |parents|
    ensures Tree(parents + [p])
    ensures Changes(w, c, parents + [p], j) == Changes(w, c, parents, if j == |parents| then p else j)
  {
    var i := if j == |parents| then p else j;
    if WriteTarget(w, c).Some? {
      var a := WriteTarget(w, c).value;
      WriteTargetIff(w, c, a);
      UnderInLongerTree(parents, p, a, i);
      UnderOfNewest(parents, p, a);
    }
  }

  /** A run has a state before its last operation, with no more tasks. */
  lemma RunShrinks(ops: seq<Op>)
    requires ops != [] && Run(ops).Some?
    ensures
      var before, op := Run(ops[..|ops| - 1]), ops[|ops| - 1];
      && before.Some? && WellFormed(before.value) && Legal(before.value, op)
      && Run(ops).value == Apply(before.value, op)
      && |before.value.tasks| <= |Run(ops).value.tasks|
  {
  }

  /** A fork does not change which calls were made above an older task, and what was called above the new one
      was called above its parent. */
  lemma {:induction false} CalledBeforeFork(ops: seq<Op>, parents: seq<nat>, p: nat, j: nat)
    requires Tree(parents) && p < |parents| && j <= |parents|
    requires Run(ops).Some? && |Run(ops).value.tasks| <= |parents|
    ensures Tree(parents + [p])
    ensures CalledAbove(ops, parents + [p], j) == CalledAbove(ops, parents, if j == |parents| then p else j)
  {
    hide Run, Under, WellFormed, Apply, Legal;
    ForkedTree(parents, p);
    if ops == [] {
    } else {
      var n := |ops| - 1;
      RunShrinks(ops);
      CalledBeforeFork(ops[..n], parents, p, j);
      if ops[n].Set? {
        ChangesBeforeFork(Run(ops[..n]).value, ops[n].call, parents, p, j);
      }
    }
  }

  /** What one call does to the root pid of a task. */
  lemma SetNames(w: World, c: Call, j: nat)
    requires WellFormed(w) && c.caller < |w.tasks| && j < |w.tasks|
    ensures
      var w' := SetProcLimit(w, c.caller, c.pid, c.limit, c.interval).1;
      && w'.parents == w.parents && |w'.tasks| == |w.tasks|
      && (w'.tasks[j].family.rootPid == -1 <==> w.tasks[j].family.rootPid == -1 && !Changes(w, c, w.parents, j))
  {
    hide Under, FindFrom;
    if WriteTarget(w, c).Some? {
      WriteTargetIff(w, c, WriteTarget(w, c).value);
    }
  }

  /** A task is in no family exactly if no call has ever succeeded on it or above it. */
  lemma {:induction false} InNoFamilyIff(ops: seq<Op>, j: nat)
    requires Run(ops).Some? && j < |Run(ops).value.tasks|
    ensures WellFormed(Run(ops).value)
    ensures Run(ops).value.tasks[j].family.rootPid == -1 <==> !CalledAbove(ops, Run(ops).value.parents, j)
  {
    if ops == [] {
    } else {
      var n := |ops| - 1;
      RunShrinks(ops);
      var w, w' := Run(ops[..n]).value, Run(ops).value;
      hide Run;
      match ops[n]
      case Set(c) =>
        InNoFamilyIff(ops[..n], j);
        SetNames(w, c, j);
      case Fork(p, pid) =>
        var i := if j == |w.tasks| then p else j;
        InNoFamilyIff(ops[..n], i);
        CalledBeforeFork(ops[..n], w.parents, p, j);
      case Tick(task, s, u) =>
        InNoFamilyIff(ops[..n], j);
    }
  }

  /** So after every run in which no call has succeeded on a task or above it, getproclimit reports -1 for it in
      every field. */
  lemma NeverCalledReport(ops: seq<Op>, caller: nat, pid: int, q: nat)
    requires Run(ops).Some? && caller < |Run(ops).value.tasks| && Names(Run(ops).value, caller, pid, q)
    requires !CalledAbove(ops, Run(ops).value.parents, q)
    ensures GetProcLimit(Run(ops).value, caller, pid, UserPtr(true, true, true))
         == (0, Some(ProcLimit(Family(-1, -1, -1), 0xFFFF_FFFF, 0xFFFF_FFFF, 0xFFFF_FFFF)))
  {
    hide CalledAbove, Run;
    RunHasShape(ops);
    InNoFamilyIff(ops, q);
    GetInNoFamily(Run(ops).value, caller, pid, q);
  }

  // ----- The two branches -----

  /** The branch for pid -1 and the branch for the caller's own pid do the same, when the caller is on the ring. */
  lemma BranchesAgree(w: World, caller: nat, limit: int, interval: int, ptr: UserPtr)
    requires WellFormed(w) && 0 < caller < |w.tasks|
    ensures SetProcLimit(w, caller, -1, limit, interval) == SetProcLimit(w, caller, w.tasks[caller].pid, limit, interval)
    ensures GetProcLimit(w, caller, -1, ptr) == GetProcLimit(w, caller, w.tasks[caller].pid, ptr)
  {
    RingFindsPid(w, caller, caller);
  }

  // ----- The aggregate -----

  lemma {:induction false} SmallestIsLeast(first: nat, times: seq<nat>)
    ensures Smallest(first, times) <= first && forall i :: 0 <= i < |times| ==> Smallest(first, times) <= times[i]
    ensures Smallest(first, times) == first || Smallest(first, times) in times
  {
    if times == [] {
    } else {
      SmallestIsLeast(first, times[..|times| - 1]);
    }
  }

  lemma {:induction false} LargestIsGreatest(first: nat, times: seq<nat>)
    ensures Largest(first, times) >= first && forall i :: 0 <= i < |times| ==> Largest(first, times) >= times[i]
    ensures Largest(first, times) == first || Largest(first, times) in times
  {
    if times == [] {
    } else {
      LargestIsGreatest(first, times[..|times| - 1]);
    }
  }

  /** `n` times `x`, by repeated addition. */
  function Times(n: nat, x: nat): nat {
    if n == 0 then 0 else Times(n - 1, x) + x
  }

  lemma {:induction false} TimesIsProduct(n: nat, x: nat)
    ensures Times(n, x) == n * x
  {
    if n == 0 {
    } else {
      TimesIsProduct(n - 1, x);
      assert n * x == (n - 1) * x + x;
    }
  }

  lemma {:induction false} SumIsBetween(times: seq<nat>, lo: nat, hi: nat)
    requires forall i :: 0 <= i < |times| ==> lo <= times[i] <= hi
    ensures Times(|times|, lo) <= Sum(times) <= Times(|times|, hi)
  {
    if times == [] {
    } else {
      SumIsBetween(times[..|times| - 1], lo, hi);
    }
  }

  /** Started from one of the times, both extremes are attained, and they bound the sum. */
  lemma Extremes(first: nat, times: seq<nat>)
    requires first in times
    ensures Smallest(first, times) in times && forall k :: 0 <= k < |times| ==> Smallest(first, times) <= times[k]
    ensures Largest(first, times) in times && forall k :: 0 <= k < |times| ==> Largest(first, times) >= times[k]
    ensures |times| * Smallest(first, times) <= Sum(times) <= |times| * Largest(first, times)
  {
    SmallestIsLeast(first, times);
    LargestIsGreatest(first, times);
    SumIsBetween(times, Smallest(first, times), Largest(first, times));
    TimesIsProduct(|times|, Smallest(first, times));
    TimesIsProduct(|times|, Largest(first, times));
  }

  /** A task of the ring is a member of its own family. */
  lemma {:induction false} OwnTimeCounts(tasks: seq<Task>, i: nat, n: nat)
    requires 0 < i < n <= |tasks|
    ensures CpuTime(tasks[i]) in FamilyTimes(tasks, tasks[i].family.rootPid, n)
  {
    if i == n - 1 {
    } else {
      OwnTimeCounts(tasks, i, n - 1);
    }
  }

  /** What a report on a task of the ring says: the field meant for the largest time holds the smallest
      and the other way about, both are the time of some member, and they bound the total. */
  lemma ReportIsSwapped(w: World, i: nat)
    requires WellFormed(w) && 0 < i < |w.tasks| && w.tasks[i].family.rootPid != -1
    ensures
      var r := Report(w, i);
      var times := FamilyTimes(w.tasks, w.tasks[i].family.rootPid, |w.tasks|);
      && r.maxCpuTime in times && (forall k :: 0 <= k < |times| ==> r.maxCpuTime <= times[k])
      && r.minCpuTime in times && (forall k :: 0 <= k < |times| ==> r.minCpuTime >= times[k])
      && |times| * r.maxCpuTime <= Sum(times) <= |times| * r.minCpuTime
      && (Sum(times) < ULONG ==> r.totalCpuTime == Sum(times))
  {
    OwnTimeCounts(w.tasks, i, |w.tasks|);
    Extremes(CpuTime(w.tasks[i]), FamilyTimes(w.tasks, w.tasks[i].family.rootPid, |w.tasks|));
  }

  /** The members of a family that an aggregation for task `q` looks at: those on the ring, and `q` itself. */
  predicate Counts(w: World, q: nat, j: int)
    requires q < |w.tasks|
  {
    (j == q || 1 <= j) && j < |w.tasks| && w.tasks[j].family.rootPid == w.tasks[q].family.rootPid
  }

  /** `sums[j]` is the time that the members up to position `j` of the ring have used. */
  predicate AddsUp(w: World, rootPid: int, sums: seq<nat>) {
    && |sums| == |w.tasks| > 0 && sums[0] == 0
    && forall j :: 1 <= j < |sums| ==>
         sums[j] == sums[j - 1] + if w.tasks[j].family.rootPid == rootPid then (w.tasks[j].stime + w.tasks[j].utime) % 0x1_0000_0000 else 0
  }

  lemma NothingYet(tasks: seq<Task>, rootPid: int)
    requires 1 <= |tasks|
    ensures FamilyTimes(tasks, rootPid, 1) == [] && Sum([]) == 0
  {
  }

  lemma {:induction false} TimesAddUp(w: World, rootPid: int, n: nat) returns (sums: seq<nat>)
    requires 1 <= n <= |w.tasks|
    ensures |sums| == n && sums[0] == 0 && sums[n - 1] == Sum(FamilyTimes(w.tasks, rootPid, n))
    ensures forall j :: 1 <= j < n ==>
              sums[j] == sums[j - 1] + if w.tasks[j].family.rootPid == rootPid then (w.tasks[j].stime + w.tasks[j].utime) % 0x1_0000_0000 else 0
  {
    hide Sum, FamilyTimes;
    if n == 1 {
      NothingYet(w.tasks, rootPid);
      sums := [0];
    } else {
      var before := TimesAddUp(w, rootPid, n - 1);
      OneMoreMember(w.tasks, rootPid, n);
      sums := before + [Sum(FamilyTimes(w.tasks, rootPid, n))];
    }
  }

  lemma {:induction false} TimesOfMembers(w: World, rootPid: int, n: nat, t: nat)
    requires 1 <= n <= |w.tasks|
    ensures t in FamilyTimes(w.tasks, rootPid, n) <==>
            exists j :: 1 <= j < n && w.tasks[j].family.rootPid == rootPid && t == (w.tasks[j].stime + w.tasks[j].utime) % 0x1_0000_0000
  {
    hide FamilyTimes;
    if n == 1 {
      NothingYet(w.tasks, rootPid);
    } else {
      TimesOfMembers(w, rootPid, n - 1, t);
      OneMoreMember(w.tasks, rootPid, n);
    }
  }

  /** `lo` and `hi` are the smallest and the largest time of the members. */
  ghost predicate AreExtremes(w: World, q: nat, lo: nat, hi: nat)
    requires q < |w.tasks|
  {
    && (forall j :: Counts(w, q, j) ==> lo <= (w.tasks[j].stime + w.tasks[j].utime) % 0x1_0000_0000 <= hi)
    && (exists j :: Counts(w, q, j) && lo == (w.tasks[j].stime + w.tasks[j].utime) % 0x1_0000_0000)
    && (exists j :: Counts(w, q, j) && hi == (w.tasks[j].stime + w.tasks[j].utime) % 0x1_0000_0000)
  }

  /** `times` holds just the times of the tasks of the ring in the family of task `q`. */
  ghost predicate OfMembers(w: World, q: nat, times: seq<nat>)
    requires q < |w.tasks|
  {
    forall x :: x in times <==> exists j :: 1 <= j < |w.tasks| && w.tasks[j].family.rootPid == w.tasks[q].family.rootPid
                                            && x == (w.tasks[j].stime + w.tasks[j].utime) % 0x1_0000_0000
  }

  lemma ExtremeIsOfMember(w: World, q: nat, t: nat, times: seq<nat>)
    requires q < |w.tasks| && OfMembers(w, q, times) && (t == CpuTime(w.tasks[q]) || t in times)
    ensures exists j :: Counts(w, q, j) && t == (w.tasks[j].stime + w.tasks[j].utime) % 0x1_0000_0000
  {
    if t == CpuTime(w.tasks[q]) {
      assert Counts(w, q, q);
    } else {
      var j :| 1 <= j < |w.tasks| && w.tasks[j].family.rootPid == w.tasks[q].family.rootPid
               && t == (w.tasks[j].stime + w.tasks[j].utime) % 0x1_0000_0000;
      assert Counts(w, q, j);
    }
  }

  lemma MembersAreBetween(w: World, q: nat, lo: nat, hi: nat, times: seq<nat>)
    requires q < |w.tasks| && OfMembers(w, q, times)
    requires lo <= CpuTime(w.tasks[q]) <= hi && forall i :: 0 <= i < |times| ==> lo <= times[i] <= hi
    requires (lo == CpuTime(w.tasks[q]) || lo in times) && (hi == CpuTime(w.tasks[q]) || hi in times)
    ensures AreExtremes(w, q, lo, hi)
  {
    ExtremeIsOfMember(w, q, lo, times);
    ExtremeIsOfMember(w, q, hi, times);
    forall j | Counts(w, q, j)
      ensures lo <= (w.tasks[j].stime + w.tasks[j].utime) % 0x1_0000_0000 <= hi
    {
      if j != q {
        assert (w.tasks[j].stime + w.tasks[j].utime) % 0x1_0000_0000 in times;
      }
    }
  }

  lemma FamilyAddsUp(w: World, q: nat) returns (sums: seq<nat>)
    requires q < |w.tasks|
    ensures
      var rootPid := w.tasks[q].family.rootPid;
      var times := FamilyTimes(w.tasks, rootPid, |w.tasks|);
      AddsUp(w, rootPid, sums) && sums[|sums| - 1] == Sum(times) && OfMembers(w, q, times)
  {
    sums := TimesAddUp(w, w.tasks[q].family.rootPid, |w.tasks|);
    forall t: nat | true
      ensures t in FamilyTimes(w.tasks, w.tasks[q].family.rootPid, |w.tasks|) <==>
              exists j :: 1 <= j < |w.tasks| && w.tasks[j].family.rootPid == w.tasks[q].family.rootPid
                          && t == (w.tasks[j].stime + w.tasks[j].utime) % 0x1_0000_0000
    {
      TimesOfMembers(w, w.tasks[q].family.rootPid, |w.tasks|, t);
    }
  }

  /** What getproclimit writes for a task in a family: its three values, the wrapped sum over the ring, and
      the extremes the wrong way round, each of them the time of a member. */
  lemma GetInFamily(w: World, caller: nat, pid: int, q: nat) returns (r: ProcLimit, sums: seq<nat>)
    requires WellFormed(w) && caller < |w.tasks| && Names(w, caller, pid, q) && w.tasks[q].family.rootPid != -1
    ensures GetProcLimit(w, caller, pid, UserPtr(true, true, true)) == (0, Some(r))
    ensures r.family == w.tasks[q].family
    ensures AddsUp(w, w.tasks[q].family.rootPid, sums) && r.totalCpuTime == sums[|sums| - 1] % 0x1_0000_0000
    ensures AreExtremes(w, q, r.maxCpuTime, r.minCpuTime)
  {
    hide FindFrom, FamilyTimes, Smallest, Largest, Sum, Counts, WellFormed, CpuTime, AreExtremes, OfMembers;
    TargetIffNames(w, caller, pid, q);
    r := Report(w, q);
    var first, times := CpuTime(w.tasks[q]), FamilyTimes(w.tasks, w.tasks[q].family.rootPid, |w.tasks|);
    sums := FamilyAddsUp(w, q);
    SmallestIsLeast(first, times);
    LargestIsGreatest(first, times);
    MembersAreBetween(w, q, r.maxCpuTime, r.minCpuTime, times);
  }

  /** The header's promise, "max cpu time of a process in this family", is met exactly when all members
      have used the same time; likewise for the minimum. */
  lemma MaxIsMaxIff(w: World, i: nat)
    requires WellFormed(w) && 0 < i < |w.tasks| && w.tasks[i].family.rootPid != -1
    ensures
      var r := Report(w, i);
      var times := FamilyTimes(w.tasks, w.tasks[i].family.rootPid, |w.tasks|);
      var allSame := forall k, l :: 0 <= k < l < |times| ==> times[k] == times[l];
      && ((forall k :: 0 <= k < |times| ==> r.maxCpuTime >= times[k]) <==> allSame)
      && ((forall k :: 0 <= k < |times| ==> r.minCpuTime <= times[k]) <==> allSame)
  {
    ReportIsSwapped(w, i);
  }

  /** A parent with 3 microseconds and a child with 5, in one family. */
  const PARENT_AND_CHILD :=
    World([0, 0, 1], [Task(0, NO_FAMILY, 0, 0), Task(1, Family(1, 2, 9), 3, 0), Task(2, Family(1, 2, 9), 5, 0)])

  /** A family on which both fields are wrong ... */
  lemma SwappedExample()
    ensures Report(PARENT_AND_CHILD, 1).maxCpuTime == 3 && Report(PARENT_AND_CHILD, 1).minCpuTime == 5
  {
    var tasks := PARENT_AND_CHILD.tasks;
    assert FamilyTimes(tasks, 1, 1) == [];
    assert FamilyTimes(tasks, 1, 2) == [3];
    assert FamilyTimes(tasks, 1, 3) == [3, 5];
    assert [3, 5][..1] == [3] && [3][..0] == [];
    assert Smallest(3, [3]) == 3 && Largest(3, [3]) == 3;
  }

  lemma EmptyRun()
    ensures Run([]) == Some(BOOT)
  {
  }

  lemma ForkLeads(ops: seq<Op>, w: World, p: nat, pid: int, w': World)
    requires Run(ops) == Some(w) && Legal(w, Fork(p, pid))
    requires w' == World(w.parents + [p], w.tasks + [Task(pid, w.tasks[p].family, 0, 0)])
    ensures Run(ops + [Fork(p, pid)]) == Some(w')
  {
    RunOneMore(ops, Fork(p, pid));
  }

  lemma SetLeads(ops: seq<Op>, w: World, limit: int, interval: int, w': World)
    requires Run(ops) == Some(w) && |w.tasks| == 2 && limit <= interval
    requires w' == World(w.parents, [w.tasks[0], w.tasks[1].(family := Family(w.tasks[1].pid, limit, interval))])
    ensures Run(ops + [Set(Call(1, -1, limit, interval))]) == Some(w')
  {
    RunOneMore(ops, Set(Call(1, -1, limit, interval)));
    assert !Under(w.parents, 1, 0) && Under(w.parents, 1, 1);
    assert Apply(w, Set(Call(1, -1, limit, interval))).tasks == w'.tasks;
  }

  lemma TickLeads(ops: seq<Op>, w: World, task: nat, s: nat, w': World)
    requires Run(ops) == Some(w) && task < |w.tasks|
    requires w' == w.(tasks := w.tasks[task := w.tasks[task].(stime := s, utime := 0)])
    ensures Run(ops + [Tick(task, s, 0)]) == Some(w')
  {
    RunOneMore(ops, Tick(task, s, 0));
  }

  /** ... and a run that leads to it. */
  lemma SwappedIsReachable()
    ensures Run([Fork(0, 1), Set(Call(1, -1, 2, 9)), Fork(1, 2), Tick(1, 3, 0), Tick(2, 5, 0)]) == Some(PARENT_AND_CHILD)
  {
    hide Run, Apply, Legal, WellFormed;
    var none := Family(-1, -1, -1);
    var ops1 := [] + [Fork(0, 1)];
    var ops2 := ops1 + [Set(Call(1, -1, 2, 9))];
    var ops3 := ops2 + [Fork(1, 2)];
    var ops4 := ops3 + [Tick(1, 3, 0)];
    var w1 := World([0, 0], [Task(0, none, 0, 0), Task(1, none, 0, 0)]);
    var w2 := World([0, 0], [Task(0, none, 0, 0), Task(1, Family(1, 2, 9), 0, 0)]);
    var w3 := World([0, 0, 1], [Task(0, none, 0, 0), Task(1, Family(1, 2, 9), 0, 0), Task(2, Family(1, 2, 9), 0, 0)]);
    var w4 := World([0, 0, 1], [Task(0, none, 0, 0), Task(1, Family(1, 2, 9), 3, 0), Task(2, Family(1, 2, 9), 0, 0)]);
    EmptyRun();
    ForkLeads([], BOOT, 0, 1, w1);
    SetLeads(ops1, w1, 2, 9, w2);
    ForkLeads(ops2, w2, 1, 2, w3);
    TickLeads(ops3, w3, 1, 3, w4);
    TickLeads(ops4, w4, 2, 5, PARENT_AND_CHILD);
    assert ops4 + [Tick(2, 5, 0)] == [Fork(0, 1), Set(Call(1, -1, 2, 9)), Fork(1, 2), Tick(1, 3, 0), Tick(2, 5, 0)];
  }
}
