/**
 The two system calls of Assignment3 on the heap: task structs that are updated in place, children
 lists that are walked recursively, and the ring that is walked by a loop.
 */
module ProcLimitKernel {
  import opened Prelude
  import opened ProcLimitModel
  import opened ProcLimitTheorems

  // ----- The order of the recursive walk -----

  /** The children of `i` before task `n`, oldest first, as fork appends them to the children list. */
  function Kids(parents: seq<nat>, i: nat, n: nat): (kids: seq<nat>)
    requires Tree(parents) && n <= |parents|
    ensures forall k :: 0 <= k < |kids| ==> i < kids[k] < n && parents[kids[k]] == i
  {
    if n <= 1 then []
    else if parents[n - 1] == i then Kids(parents, i, n - 1) + [n - 1]
    else Kids(parents, i, n - 1)
  }

  /** Every child is listed. */
  lemma {:induction false} KidIsListed(parents: seq<nat>, i: nat, n: nat, c: nat) returns (k: nat)
    requires Tree(parents) && 0 < c < n <= |parents| && parents[c] == i
    ensures k < |Kids(parents, i, n)| && Kids(parents, i, n)[k] == c
  {
    if c == n - 1 {
      k := |Kids(parents, i, n - 1)|;
    } else {
      k := KidIsListed(parents, i, n - 1, c);
    }
  }

  /** No child is listed twice: the list is ordered. */
  lemma {:induction false} KidsAreOrdered(parents: seq<nat>, i: nat, n: nat, k: nat, l: nat)
    requires Tree(parents) && n <= |parents| && k < l < |Kids(parents, i, n)|
    ensures Kids(parents, i, n)[k] < Kids(parents, i, n)[l]
  {
    if l == |Kids(parents, i, n - 1)| {
    } else {
      KidsAreOrdered(parents, i, n - 1, k, l);
    }
  }

  function AllKids(parents: seq<nat>, i: nat): (kids: seq<nat>)
    requires Tree(parents)
    ensures forall k :: 0 <= k < |kids| ==> i < kids[k] < |parents| && parents[kids[k]] == i
  {
    Kids(parents, i, |parents|)
  }

  /** The order in which the recursion visits the tasks from `i` down. */
  function Visits(parents: seq<nat>, i: nat): seq<nat>
    requires Tree(parents) && i < |parents|
    decreases |parents| - i, 1, 0
  {
    [i] + VisitsOfKids(parents, i, |AllKids(parents, i)|)
  }

  /** The visits made for the first `n` children of `i`. */
  function VisitsOfKids(parents: seq<nat>, i: nat, n: nat): seq<nat>
    requires Tree(parents) && i < |parents| && n <= |AllKids(parents, i)|
    decreases |parents| - i, 0, n
  {
    if n == 0 then []
    else VisitsOfKids(parents, i, n - 1) + Visits(parents, AllKids(parents, i)[n - 1])
  }

  /** A task below `i` is below exactly one child of `i`. */
  lemma {:induction false} ChildOnPath(parents: seq<nat>, i: nat, j: nat) returns (k: nat)
    requires Tree(parents) && i < |parents| && j < |parents| && j != i && Under(parents, i, j)
    ensures k < |AllKids(parents, i)| && Under(parents, AllKids(parents, i)[k], j)
    decreases j
  {
    if parents[j] == i {
      k := KidIsListed(parents, i, |parents|, j);
    } else {
      k := ChildOnPath(parents, i, parents[j]);
    }
  }

  lemma OneChildOnPath(parents: seq<nat>, i: nat, j: nat, k: nat, l: nat)
    requires Tree(parents) && i < |parents| && j < |parents| && k < l < |AllKids(parents, i)|
    ensures !(Under(parents, AllKids(parents, i)[k], j) && Under(parents, AllKids(parents, i)[l], j))
  {
    KidsAreOrdered(parents, i, |parents|, k, l);
    var b, c := AllKids(parents, i)[k], AllKids(parents, i)[l];
    if Under(parents, b, j) && Under(parents, c, j) {
      UnderIsAChain(parents, b, c, j);
      UnderIsOrdered(parents, b, i);
    }
  }

  /** `j` is below one of the first `n` children of `i`. */
  ghost predicate UnderSomeKid(parents: seq<nat>, i: nat, n: nat, j: nat)
    requires Tree(parents) && i < |parents| && n <= |AllKids(parents, i)| && j < |parents|
  {
    exists k :: 0 <= k < n && Under(parents, AllKids(parents, i)[k], j)
  }

  lemma UnderNextKid(parents: seq<nat>, i: nat, n: nat, j: nat)
    requires Tree(parents) && i < |parents| && n < |AllKids(parents, i)| && j < |parents|
    ensures UnderSomeKid(parents, i, n + 1, j) <==> UnderSomeKid(parents, i, n, j) || Under(parents, AllKids(parents, i)[n], j)
    ensures !(UnderSomeKid(parents, i, n, j) && Under(parents, AllKids(parents, i)[n], j))
  {
    if UnderSomeKid(parents, i, n, j) {
      var k :| 0 <= k < n && Under(parents, AllKids(parents, i)[k], j);
      OneChildOnPath(parents, i, j, k, n);
    }
  }

  function Count(visits: seq<nat>, j: nat): nat {
    multiset(visits)[j]
  }

  lemma NoKidVisited(parents: seq<nat>, i: nat, j: nat)
    requires Tree(parents) && i < |parents| && j < |parents|
    ensures Count(VisitsOfKids(parents, i, 0), j) == 0 && !UnderSomeKid(parents, i, 0, j)
  {
  }

  /** What the walk over one more child adds. */
  lemma NextKidCounts(parents: seq<nat>, i: nat, n: nat, j: nat)
    requires Tree(parents) && i < |parents| && n < |AllKids(parents, i)| && j < |parents|
    ensures i < AllKids(parents, i)[n] < |parents|
    ensures Count(VisitsOfKids(parents, i, n + 1), j)
         == Count(VisitsOfKids(parents, i, n), j) + Count(Visits(parents, AllKids(parents, i)[n]), j)
  {
  }

  /** How often `j` occurs in the walk over the first `n` children of `i`. */
  lemma {:induction false} KidsVisitedOnce(parents: seq<nat>, i: nat, n: nat, j: nat)
    requires Tree(parents) && i < |parents| && n <= |AllKids(parents, i)| && j < |parents|
    ensures Count(VisitsOfKids(parents, i, n), j) == if UnderSomeKid(parents, i, n, j) then 1 else 0
    decreases |parents| - i, 0, n
  {
    hide Under, UnderSomeKid, AllKids, Visits, VisitsOfKids, Tree, Count;
    if n == 0 {
      NoKidVisited(parents, i, j);
    } else {
      NextKidCounts(parents, i, n - 1, j);
      KidsVisitedOnce(parents, i, n - 1, j);
      VisitedOnce(parents, AllKids(parents, i)[n - 1], j);
      UnderNextKid(parents, i, n - 1, j);
    }
  }

  /** A task is below a child of `i` exactly when it is below `i` and not `i` itself. */
  lemma UnderKidsIff(parents: seq<nat>, i: nat, j: nat)
    requires Tree(parents) && i < |parents| && j < |parents|
    ensures UnderSomeKid(parents, i, |AllKids(parents, i)|, j) <==> j != i && Under(parents, i, j)
  {
    var kids := AllKids(parents, i);
    if UnderSomeKid(parents, i, |kids|, j) {
      var k :| 0 <= k < |kids| && Under(parents, kids[k], j);
      UnderIsTransitive(parents, i, kids[k], j);
      UnderIsOrdered(parents, kids[k], j);
    }
    if j != i && Under(parents, i, j) {
      var k := ChildOnPath(parents, i, j);
    }
  }

  /** The recursion visits every task of the subtree exactly once, and no other task. */
  lemma {:induction false} VisitedOnce(parents: seq<nat>, i: nat, j: nat)
    requires Tree(parents) && i < |parents| && j < |parents|
    ensures Count(Visits(parents, i), j) == if Under(parents, i, j) then 1 else 0
    decreases |parents| - i, 1, 0
  {
    KidsVisitedOnce(parents, i, |AllKids(parents, i)|, j);
    UnderKidsIff(parents, i, j);
  }

  /** The tasks in the positions visited get family `f`. */
  function PaintVisited(tasks: seq<Task>, visited: seq<nat>, f: Family): seq<Task> {
    seq(|tasks|, j requires 0 <= j < |tasks| => if j in visited then tasks[j].(family := f) else tasks[j])
  }

  lemma VisitsFromKids(parents: seq<nat>, i: nat)
    requires Tree(parents) && i < |parents|
    ensures [i] == [i] + VisitsOfKids(parents, i, 0)
    ensures Visits(parents, i) == [i] + VisitsOfKids(parents, i, |AllKids(parents, i)|)
  {
  }

  /** After the walk over child number `n`, the walk over `n + 1` children is done. */
  lemma PaintNextChild(tasks: seq<Task>, parents: seq<nat>, i: nat, n: nat, f: Family)
    requires Tree(parents) && i < |parents| && n < |AllKids(parents, i)|
    ensures PaintVisited(PaintVisited(tasks, [i] + VisitsOfKids(parents, i, n), f), Visits(parents, AllKids(parents, i)[n]), f)
         == PaintVisited(tasks, [i] + VisitsOfKids(parents, i, n + 1), f)
  {
    var v, v' := VisitsOfKids(parents, i, n), Visits(parents, AllKids(parents, i)[n]);
    assert VisitsOfKids(parents, i, n + 1) == v + v';
    assert [i] + (v + v') == [i] + v + v';
  }

  /** Painting the tasks visited is painting the subtree. */
  lemma VisitsPaintSubtree(w: World, a: nat, f: Family)
    requires WellFormed(w) && a < |w.tasks|
    ensures w.(tasks := PaintVisited(w.tasks, Visits(w.parents, a), f)) == Paint(w, a, f)
    ensures WellFormed(Paint(w, a, f))
  {
    var visited := Visits(w.parents, a);
    forall j | 0 <= j < |w.tasks|
      ensures j in visited <==> Under(w.parents, a, j)
    {
      VisitedOnce(w.parents, a, j);
      assert j in visited <==> j in multiset(visited);
    }
    assert PaintVisited(w.tasks, visited, f) == Paint(w, a, f).tasks;
  }

  lemma {:induction false} KidsInLongerTree(parents: seq<nat>, p: nat, i: nat, n: nat)
    requires Tree(parents) && p < |parents| && n <= |parents| && Tree(parents + [p])
    ensures Kids(parents + [p], i, n) == Kids(parents, i, n)
  {
    if n <= 1 {
    } else {
      KidsInLongerTree(parents, p, i, n - 1);
    }
  }

  lemma {:induction false} NewestHasNoKids(parents: seq<nat>, i: nat, n: nat)
    requires Tree(parents) && n <= |parents| <= i
    ensures Kids(parents, i, n) == []
  {
    if n <= 1 {
    } else {
      NewestHasNoKids(parents, i, n - 1);
    }
  }

  /** A fork adds the newest task to the children of its parent, and to nobody else's. */
  lemma KidsAfterFork(parents: seq<nat>, p: nat, i: nat)
    requires Tree(parents) && p < |parents|
    ensures Tree(parents + [p])
    ensures AllKids(parents + [p], i) == if i == p then AllKids(parents, i) + [|parents|] else AllKids(parents, i)
  {
    assert Tree(parents + [p]);
    KidsInLongerTree(parents, p, i, |parents|);
  }

  /** One more member of a family. */
  lemma OneMoreTime(times: seq<nat>, first: nat, t: nat)
    ensures ToLong(Sum(times + [t])) == ToLong(ToLong(Sum(times)) + t)
    ensures Smallest(first, times + [t]) == if t < Smallest(first, times) then t else Smallest(first, times)
    ensures Largest(first, times + [t]) == if t > Largest(first, times) then t else Largest(first, times)
  {
    assert (times + [t])[..|times|] == times;
  }

  /** What the loop has computed from some times: the wrapped sum, the smallest and the largest. */
  ghost predicate Totals(times: seq<nat>, first: nat, sum: nat, smallest: nat, largest: nat) {
    sum == ToLong(Sum(times)) && smallest == Smallest(first, times) && largest == Largest(first, times)
  }

  lemma TotalsAre(times: seq<nat>, first: nat, sum: nat, smallest: nat, largest: nat)
    requires Totals(times, first, sum, smallest, largest)
    ensures sum == ToLong(Sum(times)) && smallest == Smallest(first, times) && largest == Largest(first, times)
  {
  }

  lemma NoTimes(tasks: seq<Task>, rootPid: int, first: nat)
    requires |tasks| >= 1
    ensures Totals(FamilyTimes(tasks, rootPid, 1), first, 0, first, first)
  {
  }

  /** What the header promises of the three fields. */
  ghost predicate AsPromised(times: seq<nat>, sum: nat, max: nat, min: nat) {
    && max in times && (forall k :: 0 <= k < |times| ==> times[k] <= max)
    && min in times && (forall k :: 0 <= k < |times| ==> min <= times[k])
    && sum == ToLong(Sum(times)) && |times| * min <= Sum(times) <= |times| * max
  }

  lemma TotalsAsPromised(times: seq<nat>, first: nat, sum: nat, max: nat, min: nat)
    requires first in times && Totals(times, first, sum, min, max)
    ensures AsPromised(times, sum, max, min)
  {
    Extremes(first, times);
  }

  /** The next task of the ring. */
  lemma NextTask(tasks: seq<Task>, rootPid: int, n: nat, first: nat, sum: nat, smallest: nat, largest: nat)
    requires 1 <= n < |tasks| && Totals(FamilyTimes(tasks, rootPid, n), first, sum, smallest, largest)
    ensures
      var times, t := FamilyTimes(tasks, rootPid, n + 1), ToLong(tasks[n].stime + tasks[n].utime);
      if tasks[n].family.rootPid == rootPid
      then Totals(times, first, ToLong(sum + t), if t < smallest then t else smallest, if t > largest then t else largest)
      else Totals(times, first, sum, smallest, largest)
  {
    hide Sum, Smallest, Largest, ToLong;
    OneMoreTime(FamilyTimes(tasks, rootPid, n), first, CpuTime(tasks[n]));
    assert CpuTime(tasks[n]) == ToLong(tasks[n].stime + tasks[n].utime);
  }

  /** What the ring search finds is on the ring and has the pid. */
  lemma RingSearch(w: World, pid: int)
    requires WellFormed(w) && FindFrom(w.tasks, pid, 1).Some?
    ensures var i := FindFrom(w.tasks, pid, 1).value; 1 <= i < |w.tasks| && w.tasks[i].pid == pid
  {
  }

  // ----- The heap -----

  class TaskStruct {
    var pid: int
    var rootPid: int
    var timeLimit: int
    var timeInterval: int
    var stime: nat
    var utime: nat
    var children: seq<TaskStruct>

    constructor (pid: int, rootPid: int, timeLimit: int, timeInterval: int)
      ensures this.pid == pid && this.rootPid == rootPid && this.timeLimit == timeLimit && this.timeInterval == timeInterval
      ensures stime == utime == 0 && children == []
    {
      this.pid, this.rootPid, this.timeLimit, this.timeInterval := pid, rootPid, timeLimit, timeInterval;
      stime, utime, children := 0, 0, [];
    }

    ghost function Abs(): Task
      reads this
    {
      Task(pid, Family(rootPid, timeLimit, timeInterval), stime, utime)
    }
  }

  /** A children list holds the tasks of the children of task `i`, oldest first. */
  ghost predicate ListsKids(parents: seq<nat>, tasks: seq<TaskStruct>, i: nat, children: seq<TaskStruct>)
    requires Tree(parents) && |tasks| == |parents|
  {
    var kids := AllKids(parents, i);
    |children| == |kids| && forall k :: 0 <= k < |kids| ==> children[k] == tasks[kids[k]]
  }

  /** After a fork by task `p`, which appends `child` to its children list, the list of task `i` is still
      the one that the longer tree asks for. */
  lemma ForkKeepsList(parents: seq<nat>, p: nat, tasks: seq<TaskStruct>, child: TaskStruct, i: nat, children: seq<TaskStruct>)
    requires Tree(parents) && |tasks| == |parents| && p < |parents| && ListsKids(parents, tasks, i, children)
    ensures Tree(parents + [p])
    ensures ListsKids(parents + [p], tasks + [child], i, if i == p then children + [child] else children)
  {
    KidsAfterFork(parents, p, i);
  }

  /** The new task has no children. */
  lemma ForkedHasNoList(parents: seq<nat>, p: nat, tasks: seq<TaskStruct>, child: TaskStruct)
    requires Tree(parents) && |tasks| == |parents| && p < |parents|
    ensures Tree(parents + [p]) && ListsKids(parents + [p], tasks + [child], |tasks|, [])
  {
    KidsAfterFork(parents, p, |tasks|);
    NewestHasNoKids(parents, |tasks|, |parents|);
  }

  class Kernel {
    /** init_task, and then the ring in the order in which for_each_process walks it. */
    var tasks: seq<TaskStruct>
    ghost var parents: seq<nat>

    ghost function Abs(): World
      reads this, tasks
    {
      World(parents, seq(|tasks|, i requires 0 <= i < |tasks| reads this, tasks => tasks[i].Abs()))
    }

    /** The children lists and the ring hold the same tasks. */
    ghost predicate Linked()
      reads this`tasks, this`parents, tasks`children
    {
      && Tree(parents) && |tasks| == |parents|
      && (forall i, j :: 0 <= i < j < |tasks| ==> tasks[i] != tasks[j])
      && (forall i :: 0 <= i < |tasks| ==> ListsKids(parents, tasks, i, tasks[i].children))
    }

    ghost predicate Valid()
      reads this, tasks
    {
      Linked() && WellFormed(Abs())
    }

    /** The kernel at boot: init_task alone, in no family. */
    constructor ()
      ensures Valid() && Abs() == BOOT && fresh(tasks)
    {
      var init := new TaskStruct(0, -1, -1, -1);
      tasks := [init];
      parents := [0];
    }

    /** The three assignments at the head of the dump. */
    method SetFields(cur: TaskStruct, rootPid: int, limit: int, interval: int, ghost i: nat)
      requires Linked() && i < |tasks| && tasks[i] == cur
      modifies cur`rootPid, cur`timeLimit, cur`timeInterval
      ensures Linked() && |cur.children| == |AllKids(parents, i)|
      ensures Abs().tasks == PaintVisited(old(Abs().tasks), [i], Family(rootPid, limit, interval))
    {
      ghost var before := Abs().tasks;
      cur.rootPid := rootPid;
      cur.timeLimit := limit;
      cur.timeInterval := interval;
      assert forall j :: 0 <= j < |tasks| && j != i ==> Abs().tasks[j] == before[j];
      assert ListsKids(parents, tasks, i, tasks[i].children);
    }

    /** The recursive dump, from the task in position `i`: the tasks it visits, in the order of `Visits`,
        get the three values; every other task, and every other field, stays as it is. */
    method Dump(cur: TaskStruct, rootPid: int, limit: int, interval: int, ghost i: nat)
      requires Linked() && i < |tasks| && tasks[i] == cur
      modifies tasks`rootPid, tasks`timeLimit, tasks`timeInterval
      ensures Linked()
      ensures Abs().tasks == PaintVisited(old(Abs().tasks), Visits(parents, i), Family(rootPid, limit, interval))
      decreases |tasks| - i, 1
    {
      hide *;
      ghost var before := Abs().tasks;
      SetFields(cur, rootPid, limit, interval, i);
      VisitsFromKids(parents, i);
      for n := 0 to |cur.children|
        invariant Linked() && |cur.children| == |AllKids(parents, i)|
        invariant Abs().tasks == PaintVisited(before, [i] + VisitsOfKids(parents, i, n), Family(rootPid, limit, interval))
      {
        DumpChild(cur, n, rootPid, limit, interval, i, before);
      }
    }

    /** The body of the loop over the children list. */
    method DumpChild(cur: TaskStruct, n: nat, rootPid: int, limit: int, interval: int, ghost i: nat, ghost before: seq<Task>)
      requires Linked() && i < |tasks| && tasks[i] == cur && n < |cur.children| == |AllKids(parents, i)|
      requires Abs().tasks == PaintVisited(before, [i] + VisitsOfKids(parents, i, n), Family(rootPid, limit, interval))
      modifies tasks`rootPid, tasks`timeLimit, tasks`timeInterval
      ensures Linked()
      ensures Abs().tasks == PaintVisited(before, [i] + VisitsOfKids(parents, i, n + 1), Family(rootPid, limit, interval))
      decreases |tasks| - i, 0
    {
      PaintNextChild(before, parents, i, n, Family(rootPid, limit, interval));
      assert ListsKids(parents, tasks, i, tasks[i].children);
      Dump(cur.children[n], rootPid, limit, interval, AllKids(parents, i)[n]);
    }

    /** The walk of for_each_process that stops at the first task with this pid. */
    method Find(pid: int) returns (found: TaskStruct?)
      requires Valid()
      ensures found == match FindFrom(Abs().tasks, pid, 1) case None => null case Some(i) => tasks[i]
    {
      for n := 1 to |tasks|
        invariant FindFrom(Abs().tasks, pid, 1) == FindFrom(Abs().tasks, pid, n)
      {
        if tasks[n].pid == pid {
          return tasks[n];
        }
      }
      found := null;
    }

    /** The fields of the task structs are those of the tasks of the model. */
    lemma AbsAt(j: nat)
      requires j < |tasks|
      ensures |Abs().tasks| == |tasks| && Abs().parents == parents
      ensures Abs().tasks[j].pid == tasks[j].pid && Abs().tasks[j].stime == tasks[j].stime && Abs().tasks[j].utime == tasks[j].utime
      ensures Abs().tasks[j].family == Family(tasks[j].rootPid, tasks[j].timeLimit, tasks[j].timeInterval)
    {
    }

    /** `a` is the position of the task the call has found. */
    method SysSetProcLimit(current: TaskStruct, pid: int, limit: int, interval: int, ghost caller: nat)
      returns (code: int, ghost a: nat)
      requires Valid() && caller < |tasks| && tasks[caller] == current
      modifies tasks`rootPid, tasks`timeLimit, tasks`timeInterval
      ensures Valid()
      ensures (code, Abs()) == SetProcLimit(old(Abs()), caller, pid, limit, interval)
      ensures code == 0 ==> a < |tasks| && if pid == -1 then a == caller else 1 <= a && tasks[a].pid == pid
      ensures code == 0 ==> forall j :: 0 <= j < |tasks| && Under(parents, a, j) ==>
                tasks[j].rootPid == tasks[a].pid && tasks[j].timeLimit == limit && tasks[j].timeInterval == interval
      ensures forall j :: 0 <= j < |tasks| && (code == 0 ==> !Under(parents, a, j)) ==> unchanged(tasks[j])
    {
      hide Paint, Visits, PaintVisited, Linked, WellFormed, FindFrom, Under;
      a := caller;
      ghost var before := Abs();
      if limit > interval {
        return -EINVAL, a;
      } else if pid == -1 {
        VisitsPaintSubtree(Abs(), caller, Family(current.pid, limit, interval));
        Dump(current, current.pid, limit, interval, caller);
      } else if pid > -1 {
        var found := Find(pid);
        if found == null {
          return -EINVAL, a;
        }
        a := FindFrom(Abs().tasks, pid, 1).value;
        RingSearch(Abs(), pid);
        VisitsPaintSubtree(Abs(), a, Family(found.pid, limit, interval));
        Dump(found, found.pid, limit, interval, a);
      } else {
        return -EINVAL, a;
      }
      code := 0;
      forall j: nat | j < |tasks|
        ensures
          if Under(parents, a, j)
          then tasks[j].rootPid == tasks[a].pid && tasks[j].timeLimit == limit && tasks[j].timeInterval == interval
          else unchanged(tasks[j])
      {
        SetEffect(before, caller, pid, limit, interval, a, j);
        AbsAt(j);
        assert before.tasks[j] == old(tasks[j].Abs());
      }
    }

    /** The aggregation loop over the ring, with its comparisons as they stand in the code: `min` is
        raised by larger times and `max` is lowered by smaller ones.  All three are unsigned longs. */
    method Aggregate(rootPid: int, first: nat) returns (sum: nat, max: nat, min: nat)
      requires |tasks| >= 1
      ensures
        var times := FamilyTimes(Abs().tasks, rootPid, |Abs().tasks|);
        sum == ToLong(Sum(times)) && max == Smallest(first, times) && min == Largest(first, times)
    {
      hide Abs, FamilyTimes, Totals, AsPromised, Sum, Smallest, Largest, ToLong, CpuTime;
      ghost var seen := Abs().tasks;
      AbsAt(0);
      NoTimes(seen, rootPid, first);
      sum, max, min := 0, first, first;
      for n := 1 to |tasks|
        invariant Totals(FamilyTimes(seen, rootPid, n), first, sum, max, min)
      {
        NextTask(seen, rootPid, n, first, sum, max, min);
        AbsAt(n);
        if tasks[n].rootPid == rootPid {
          var i := ToLong(tasks[n].stime + tasks[n].utime);
          if min < i {
            min := i;
          }
          if max > i {
            max := i;
          }
          sum := ToLong(sum + i);
        }
      }
      TotalsAre(FamilyTimes(seen, rootPid, |seen|), first, sum, max, min);
    }

    /** The same loop with the comparisons put right keeps the header's promise: `max` is the largest and
        `min` the smallest time of the family, and both bound the sum. */
    method CorrectedAggregate(rootPid: int, first: nat) returns (sum: nat, max: nat, min: nat)
      requires |tasks| >= 1 && first in FamilyTimes(Abs().tasks, rootPid, |Abs().tasks|)
      ensures AsPromised(FamilyTimes(Abs().tasks, rootPid, |Abs().tasks|), sum, max, min)
    {
      hide Abs, FamilyTimes, Totals, AsPromised, Sum, Smallest, Largest, ToLong, CpuTime;
      ghost var seen := Abs().tasks;
      AbsAt(0);
      NoTimes(seen, rootPid, first);
      sum, max, min := 0, first, first;
      for n := 1 to |tasks|
        invariant Totals(FamilyTimes(seen, rootPid, n), first, sum, min, max)
      {
        NextTask(seen, rootPid, n, first, sum, min, max);
        AbsAt(n);
        if tasks[n].rootPid == rootPid {
          var i := ToLong(tasks[n].stime + tasks[n].utime);
          if min > i {
            min := i;
          }
          if max < i {
            max := i;
          }
          sum := ToLong(sum + i);
        }
      }
      TotalsAsPromised(FamilyTimes(seen, rootPid, |seen|), first, sum, max, min);
    }

    /** `a` is the position of the task the call has found. */
    method SysGetProcLimit(current: TaskStruct, pid: int, ptr: UserPtr, ghost caller: nat)
      returns (code: int, written: Option<ProcLimit>, ghost a: nat)
      requires Valid() && caller < |tasks| && tasks[caller] == current
      ensures (code, written) == GetProcLimit(Abs(), caller, pid, ptr)
      ensures code == 0 ==> a < |tasks| && if pid == -1 then a == caller else 1 <= a && tasks[a].pid == pid
      ensures code == 0 ==> written.Some? && written.value.family.rootPid == tasks[a].rootPid
                            && written.value.family.timeLimit == tasks[a].timeLimit
                            && written.value.family.timeInterval == tasks[a].timeInterval
    {
      hide WellFormed, Linked, FindFrom, FamilyTimes, Sum, Smallest, Largest, ToLong;
      a := caller;
      if ptr.NullPtr? {
        return -EINVAL, None, a;
      }
      var report;
      if pid == -1 {
        assert Abs().tasks[caller] == current.Abs();
        if !ptr.accessOk {
          return -EFAULT, None, a;
        }
        if !ptr.readOk {
          return -EINVAL, None, a;
        }
        var family := Family(current.rootPid, current.timeLimit, current.timeInterval);
        var first := ToLong(current.stime + current.utime);
        if family.rootPid == -1 {
          report := ProcLimit(family, ULONG - 1, ULONG - 1, ULONG - 1);
        } else {
          var sum, max, min := Aggregate(family.rootPid, first);
          report := ProcLimit(family, sum, max, min);
        }
        if !ptr.writeOk {
          return -EINVAL, None, a;
        }
      } else if pid > -1 {
        var found := Find(pid);
        if found == null {
          return -EINVAL, None, a;
        }
        a := FindFrom(Abs().tasks, pid, 1).value;
        RingSearch(Abs(), pid);
        assert Abs().tasks[a] == found.Abs();
        if !ptr.accessOk {
          return -EFAULT, None, a;
        }
        if !ptr.readOk {
          return -EINVAL, None, a;
        }
        var family := Family(found.rootPid, found.timeLimit, found.timeInterval);
        var first := ToLong(found.stime + found.utime);
        if family.rootPid == -1 {
          report := ProcLimit(family, ULONG - 1, ULONG - 1, ULONG - 1);
        } else {
          var sum, max, min := Aggregate(family.rootPid, first);
          report := ProcLimit(family, sum, max, min);
        }
        if !ptr.writeOk {
          return -EINVAL, None, a;
        }
      } else {
        return -EINVAL, None, a;
      }
      return 0, Some(report), a;
    }

    /** The new task goes to the end of its parent's children list and to the end of the ring. */
    method Link(parent: TaskStruct, child: TaskStruct, ghost p: nat)
      requires Linked() && p < |tasks| && tasks[p] == parent && child !in tasks && child.children == []
      modifies this, parent`children
      ensures Linked() && tasks == old(tasks) + [child] && parents == old(parents) + [p]
    {
      ghost var was, tree := tasks, parents;
      ForkedHasNoList(tree, p, was, child);
      forall i | 0 <= i < |was|
        ensures ListsKids(tree + [p], was + [child], i, if i == p then was[i].children + [child] else was[i].children)
      {
        ForkKeepsList(tree, p, was, child, i, was[i].children);
      }
      hide ListsKids;
      parent.children := parent.children + [child];
      tasks := tasks + [child];
      parents := parents + [p];
    }

    /** The environment's fork: the child copies the three fields, starts with no time used, and is linked. */
    method Fork(parent: TaskStruct, pid: int, ghost p: nat)
      requires Valid() && p < |tasks| && tasks[p] == parent && Legal(Abs(), ProcLimitModel.Fork(p, pid))
      modifies this, parent`children
      ensures Valid() && Abs() == Apply(old(Abs()), ProcLimitModel.Fork(p, pid))
    {
      ghost var before := Abs();
      ApplyKeepsWellFormed(before, ProcLimitModel.Fork(p, pid));
      hide WellFormed, Linked;
      var child := new TaskStruct(pid, parent.rootPid, parent.timeLimit, parent.timeInterval);
      Link(parent, child, p);
      assert Abs().tasks == Apply(before, ProcLimitModel.Fork(p, pid)).tasks;
    }
  }
}
