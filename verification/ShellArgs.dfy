/**
 What the shell does with its argument vector: it looks for redirections and strips them, counts the
 pipes, and hands out the segments between pipes one call at a time.
 */
module ShellArgs {
  import opened Prelude
  import opened ShellTokens

  datatype Ptr = Null | Str(s: string)

  /** An argument vector: the arguments, a null pointer, and stale entries behind it. */
  predicate HoldsArgs(a: seq<Ptr>, args: seq<string>) {
    && |args| < |a| == SIZE
    && (forall i :: 0 <= i < |args| ==> a[i] == Str(args[i]))
    && a[|args|] == Null
  }

  // ----- Redirections -----

  predicate IsOp(w: string) {
    w == "<" || w == ">" || w == ">>"
  }

  /** `i` is the last place where `op` stands. */
  predicate IsLast(args: seq<string>, op: string, i: int) {
    0 <= i < |args| && args[i] == op && forall j :: i < j < |args| ==> args[j] != op
  }

  /** The flag of an operator is set, and its index moved, exactly if the operator occurs. */
  predicate Recorded(args: seq<string>, op: string, flag: bool, index: int, flag': bool, index': int) {
    if op in args then flag' && IsLast(args, op, index') else flag' == flag && index' == index
  }

  method SearchForRedirection(a: array<Ptr>, input: bool, output: bool, append: bool, inputRedir: int, outputRedir: int, appendRedir: int,
                              ghost args: seq<string>)
    returns (input': bool, output': bool, append': bool, inputRedir': int, outputRedir': int, appendRedir': int)
    requires HoldsArgs(a[..], args)
    ensures Recorded(args, "<", input, inputRedir, input', inputRedir')
    ensures Recorded(args, ">", output, outputRedir, output', outputRedir')
    ensures Recorded(args, ">>", append, appendRedir, append', appendRedir')
  {
    input', output', append' := input, output, append;
    inputRedir', outputRedir', appendRedir' := inputRedir, outputRedir, appendRedir;
    var i := 0;
    while i < SIZE
      invariant i <= |args|
      invariant Recorded(args[..i], "<", input, inputRedir, input', inputRedir')
      invariant Recorded(args[..i], ">", output, outputRedir, output', outputRedir')
      invariant Recorded(args[..i], ">>", append, appendRedir, append', appendRedir')
    {
      assert a[..][i] == a[i];
      if a[i] == Null {
        break;
      }
      assert args[..i + 1] == args[..i] + [args[i]];
      if a[i] == Str("<") {
        input', inputRedir' := true, i;
      }
      if a[i] == Str(">") {
        output', outputRedir' := true, i;
      }
      if a[i] == Str(">>") {
        append', appendRedir' := true, i;
      }
      i := i + 1;
    }
    assert args[..i] == args;
  }

  /** The walk that strips redirections: it skips an operator together with the entry after it. */
  function Stripped(args: seq<string>): seq<string> {
    if args == [] then []
    else if !IsOp(args[0]) then [args[0]] + Stripped(args[1..])
    else if |args| == 1 then []
    else Stripped(args[2..])
  }

  /** The walk ends on the null pointer. */
  predicate WalkFits(args: seq<string>) {
    args == [] || if IsOp(args[0]) then |args| >= 2 && WalkFits(args[2..]) else WalkFits(args[1..])
  }

  /** The arguments end with an odd number of operators. */
  predicate OddTail(args: seq<string>) {
    args != [] && IsOp(args[|args| - 1]) && !OddTail(args[..|args| - 1])
  }

  predicate AllOps(args: seq<string>) {
    forall i :: 0 <= i < |args| ==> IsOp(args[i])
  }

  lemma {:induction false} OddTailOfCons(w: string, args: seq<string>)
    ensures OddTail([w] + args) == if AllOps(args) && IsOp(w) then !OddTail(args) else OddTail(args)
  {
    if args == [] {
      assert [w] + args == [w] && [w][..0] == [];
    } else {
      var n := |args| - 1;
      assert ([w] + args)[..n + 1] == [w] + args[..n];
      OddTailOfCons(w, args[..n]);
      assert AllOps(args) <==> AllOps(args[..n]) && IsOp(args[n]);
    }
  }

  lemma AllOpsOfCons(w: string, args: seq<string>)
    ensures AllOps([w] + args) <==> IsOp(w) && AllOps(args)
  {
    assert [w] + args == [([w] + args)[0]] + args;
    if AllOps([w] + args) {
      assert forall i :: 0 <= i < |args| ==> args[i] == ([w] + args)[i + 1];
    }
  }

  /** An operator and the entry behind it do not change whether the tail is odd. */
  lemma OddTailOfTwo(v: string, w: string, args: seq<string>)
    requires IsOp(v)
    ensures OddTail([v] + ([w] + args)) == OddTail(args)
  {
    hide OddTail, AllOps;
    OddTailOfCons(w, args);
    OddTailOfCons(v, [w] + args);
    AllOpsOfCons(w, args);
  }

  /** The walk stays inside the arguments exactly if they do not end with an odd number of operators. */
  lemma {:induction false} WalkFitsIff(args: seq<string>)
    ensures WalkFits(args) <==> !OddTail(args)
  {
    if args == [] {
    } else {
      hide IsOp, AllOps;
      if IsOp(args[0]) && |args| >= 2 {
        assert args == [args[0]] + ([args[1]] + args[2..]);
        OddTailOfTwo(args[0], args[1], args[2..]);
        WalkFitsIff(args[2..]);
      } else if !IsOp(args[0]) {
        assert args == [args[0]] + args[1..];
        OddTailOfCons(args[0], args[1..]);
        WalkFitsIff(args[1..]);
      }
    }
  }

  /** Every operator is followed by an argument that is none. */
  predicate WellPaired(args: seq<string>) {
    forall i :: 0 <= i < |args| && IsOp(args[i]) ==> i + 1 < |args| && !IsOp(args[i + 1])
  }

  /** The arguments that are neither an operator nor right behind one. */
  function Unpaired(args: seq<string>): seq<string> {
    if args == [] then []
    else
      var n := |args| - 1;
      Unpaired(args[..n]) + if IsOp(args[n]) || (n > 0 && IsOp(args[n - 1])) then [] else [args[n]]
  }

  lemma {:induction false} UnpairedOfCons(v: string, w: string, args: seq<string>)
    requires !IsOp(w)
    ensures Unpaired([v, w] + args) == (if IsOp(v) then [] else [v, w]) + Unpaired(args)
  {
    var n := |args| - 1;
    if args == [] {
      assert [v, w] + args == [v, w];
      assert [v, w][..1] == [v] && [v][..0] == [];
    } else {
      assert ([v, w] + args)[..n + 2] == [v, w] + args[..n];
      assert n > 0 ==> ([v, w] + args)[n + 1] == args[n - 1];
      UnpairedOfCons(v, w, args[..n]);
    }
  }

  lemma {:induction false} UnpairedOfPlain(w: string, args: seq<string>)
    requires !IsOp(w)
    ensures Unpaired([w] + args) == [w] + Unpaired(args)
  {
    var n := |args| - 1;
    if args == [] {
      assert ([w] + args)[..0] == [];
    } else {
      assert ([w] + args)[..n + 1] == [w] + args[..n];
      UnpairedOfPlain(w, args[..n]);
    }
  }

  lemma WellPairedTail(args: seq<string>, n: nat)
    requires WellPaired(args) && n <= |args|
    ensures WellPaired(args[n..]) && !OddTail(args)
  {
    assert forall i :: 0 <= i < |args| - n ==> args[n..][i] == args[n + i];
  }

  /** With every operator properly followed by a file name, exactly the operators and their file names go. */
  lemma {:induction false} StrippedIsUnpaired(args: seq<string>)
    requires WellPaired(args)
    ensures Stripped(args) == Unpaired(args)
    ensures !OddTail(args)
  {
    hide OddTail;
    WellPairedTail(args, 0);
    if args == [] {
    } else if !IsOp(args[0]) {
      hide Unpaired, WellPaired, IsOp;
      WellPairedTail(args, 1);
      assert args == [args[0]] + args[1..];
      UnpairedOfPlain(args[0], args[1..]);
      StrippedIsUnpaired(args[1..]);
    } else {
      assert |args| >= 2 && !IsOp(args[1]);
      hide Unpaired, WellPaired, IsOp;
      WellPairedTail(args, 2);
      assert args == [args[0], args[1]] + args[2..];
      UnpairedOfCons(args[0], args[1], args[2..]);
      StrippedIsUnpaired(args[2..]);
    }
  }

  function Prefixed(v: seq<string>, r: Option<seq<string>>): Option<seq<string>> {
    match r
    case Some(w) => Some(v + w)
    case None => None
  }

  /** The positions that no operator takes: neither an operator itself nor right behind one. */
  predicate Free(args: seq<string>, i: int) {
    && 0 <= i < |args|
    && args[i] != "<" && args[i] != ">" && args[i] != ">>"
    && (i > 0 ==> args[i - 1] != "<" && args[i - 1] != ">" && args[i - 1] != ">>")
  }

  /** `kept` are the free positions, in order. */
  ghost predicate AreFree(args: seq<string>, kept: seq<nat>) {
    && (forall j :: 0 <= j < |kept| ==> Free(args, kept[j]))
    && (forall i, j :: 0 <= i < j < |kept| ==> kept[i] < kept[j])
    && (forall i :: Free(args, i) ==> i in kept)
  }

  /** The entries of `args` at the positions `kept`. */
  ghost predicate Picks(args: seq<string>, kept: seq<nat>, picked: seq<string>) {
    |picked| == |kept| && forall j :: 0 <= j < |kept| ==> kept[j] < |args| && picked[j] == args[kept[j]]
  }

  lemma FreeIsInside(args: seq<string>, i: int)
    requires Free(args, i)
    ensures 0 <= i < |args|
  {
  }

  lemma FreeInPrefix(args: seq<string>, n: nat, i: int)
    requires n < |args| && i < n
    ensures Free(args[..n], i) <==> Free(args, i)
  {
  }

  /** The free positions of one more argument. */
  lemma FreeGrow(args: seq<string>, n: nat, kept: seq<nat>)
    requires |args| == n + 1 && AreFree(args[..n], kept)
    ensures AreFree(args, if Free(args, n) then kept + [n] else kept)
  {
    hide Free;
    var kept' := if Free(args, n) then kept + [n] else kept;
    forall j | 0 <= j < |kept'|
      ensures Free(args, kept'[j]) && (j < |kept| ==> kept'[j] < n)
    {
      if j < |kept| {
        FreeIsInside(args[..n], kept[j]);
        FreeInPrefix(args, n, kept[j]);
      }
    }
    forall i | Free(args, i)
      ensures i in kept'
    {
      FreeIsInside(args, i);
      if i < n {
        FreeInPrefix(args, n, i);
      }
    }
  }

  lemma PicksGrow(args: seq<string>, n: nat, kept: seq<nat>, picked: seq<string>)
    requires |args| == n + 1 && Picks(args[..n], kept, picked)
    ensures Picks(args, kept, picked) && Picks(args, kept + [n], picked + [args[n]])
  {
  }

  lemma {:induction false} UnpairedAreFree(args: seq<string>) returns (kept: seq<nat>)
    ensures AreFree(args, kept) && Picks(args, kept, Unpaired(args))
  {
    if args == [] {
      kept := [];
    } else {
      var n := |args| - 1;
      assert Unpaired(args) == Unpaired(args[..n]) + if Free(args, n) then [args[n]] else [];
      hide Unpaired, Free, AreFree, Picks;
      kept := UnpairedAreFree(args[..n]);
      FreeGrow(args, n, kept);
      PicksGrow(args, n, kept, Unpaired(args[..n]));
      if Free(args, n) {
        kept := kept + [n];
      } else {
        assert Unpaired(args) == Unpaired(args[..n]);
      }
    }
  }

  /** With every operator followed by a file name that is none, exactly the arguments that are neither an
      operator nor right behind one are kept. */
  lemma StrippedAreFree(args: seq<string>) returns (kept: seq<nat>)
    requires forall i :: 0 <= i < |args| && (args[i] == "<" || args[i] == ">" || args[i] == ">>") ==>
               i + 1 < |args| && args[i + 1] != "<" && args[i + 1] != ">" && args[i + 1] != ">>"
    ensures AreFree(args, kept) && Picks(args, kept, Stripped(args)) && !OddTail(args)
  {
    StrippedIsUnpaired(args);
    kept := UnpairedAreFree(args);
  }

  /** The last `n` arguments are operators, and the one before them is none. */
  predicate OpsAtEnd(args: seq<string>, n: nat) {
    && n <= |args|
    && (forall i :: |args| - n <= i < |args| ==> args[i] == "<" || args[i] == ">" || args[i] == ">>")
    && (n < |args| ==> var w := args[|args| - n - 1]; w != "<" && w != ">" && w != ">>")
  }

  lemma {:induction false} OddTailIs(args: seq<string>) returns (n: nat)
    ensures OpsAtEnd(args, n) && (OddTail(args) <==> n % 2 == 1)
  {
    if args == [] || !IsOp(args[|args| - 1]) {
      n := 0;
    } else {
      var m := |args| - 1;
      var before := OddTailIs(args[..m]);
      n := before + 1;
      assert forall i :: m - before <= i < m ==> args[..m][i] == args[i];
    }
  }

  /** What the stripping loop copies from entry `i` on, whatever stands in the array: None when it reaches
      the end of the array without meeting a null pointer, and so looks behind it. */
  function StripFrom(a: seq<Ptr>, i: nat): Option<seq<string>>
    requires i <= |a| + 1
    decreases |a| + 1 - i
  {
    if i >= |a| then None
    else if a[i] == Null then Some([])
    else if IsOp(a[i].s) then StripFrom(a, i + 2)
    else Prefixed([a[i].s], StripFrom(a, i + 1))
  }

  lemma PrefixedTwice(u: seq<string>, w: string, v: seq<string>, r: Option<seq<string>>)
    ensures Prefixed(u, Prefixed([w], r)) == Prefixed(u + [w], r)
    ensures Prefixed([w], Prefixed(v, r)) == Prefixed([w] + v, r)
  {
    if r.Some? {
      assert u + ([w] + r.value) == u + [w] + r.value;
      assert [w] + (v + r.value) == [w] + v + r.value;
    }
  }

  lemma PrefixNothing(r: Option<seq<string>>)
    ensures Prefixed([], r) == r
  {
    if r.Some? {
      assert [] + r.value == r.value;
    }
  }

  /** On a vector that holds `args`, the loop copies the stripped arguments and then, if it has stepped
      over the null pointer, what the entries behind that give. */
  lemma {:induction false} StripOfArgs(a: seq<Ptr>, args: seq<string>, i: nat)
    requires HoldsArgs(a, args) && i <= |args|
    ensures StripFrom(a, i) ==
            if WalkFits(args[i..]) then Some(Stripped(args[i..])) else Prefixed(Stripped(args[i..]), StripFrom(a, |args| + 1))
    decreases |args| - i
  {
    var rest := args[i..];
    if i == |args| {
      assert rest == [];
    } else {
      assert a[i] == Str(args[i]) && rest[0] == args[i] && rest[1..] == args[i + 1..];
      if !IsOp(args[i]) {
        StripOfArgs(a, args, i + 1);
        PrefixedTwice([], args[i], Stripped(args[i + 1..]), StripFrom(a, |args| + 1));
      } else if i + 1 < |args| {
        assert rest[2..] == args[i + 2..];
        StripOfArgs(a, args, i + 2);
      } else {
        PrefixNothing(StripFrom(a, |args| + 1));
      }
    }
  }

  lemma PrefixedKeeps(v: seq<string>, r: Option<seq<string>>)
    ensures Prefixed(v, r) == Some(v) <==> r == Some([])
  {
    if r.Some? {
      assert |v + r.value| == |v| + |r.value|;
      assert r.value == [] ==> v + r.value == v;
    }
  }

  /** The stripped arguments come out exactly if the arguments do not end with an odd number of operators,
      or the entries behind the null pointer happen to add nothing. */
  lemma StrippedIff(a: seq<Ptr>, args: seq<string>)
    requires HoldsArgs(a, args)
    ensures StripFrom(a, 0) == Some(Stripped(args)) <==> !OddTail(args) || StripFrom(a, |args| + 1) == Some([])
    ensures StripFrom(a, 0) ==
            if OddTail(args) then Prefixed(Stripped(args), StripFrom(a, |args| + 1)) else Some(Stripped(args))
  {
    hide Stripped, WalkFits, OddTail, StripFrom;
    assert args[0..] == args;
    StripOfArgs(a, args, 0);
    WalkFitsIff(args);
    PrefixedKeeps(Stripped(args), StripFrom(a, |args| + 1));
  }

  /** The loop has copied `done` and is about to look at entry `i`. */
  ghost predicate Stripping(a: seq<Ptr>, done: seq<string>, i: nat) {
    i <= |a| + 1 && StripFrom(a, 0) == Prefixed(done, StripFrom(a, i))
  }

  lemma StripStarts(a: seq<Ptr>)
    ensures Stripping(a, [], 0)
  {
    PrefixNothing(StripFrom(a, 0));
  }

  /** One turn of the stripping loop. */
  lemma StripStep(a: seq<Ptr>, done: seq<string>, i: nat)
    requires Stripping(a, done, i) && i < |a| && a[i] != Null
    ensures if IsOp(a[i].s) then Stripping(a, done, i + 2) else Stripping(a, done + [a[i].s], i + 1)
  {
    if !IsOp(a[i].s) {
      PrefixedTwice(done, a[i].s, [], StripFrom(a, i + 1));
    }
  }

  lemma StripEnds(a: seq<Ptr>, done: seq<string>, i: nat)
    requires Stripping(a, done, i)
    ensures i >= |a| ==> StripFrom(a, 0) == None
    ensures i < |a| && a[i] == Null ==> StripFrom(a, 0) == Some(done)
  {
    assert done + [] == done;
  }

  /** The stripping loop.  The code does not know where the arguments end; `ok` is false when it runs into
      the end of the array. */
  method StripRedirections(a: array<Ptr>, temp: array<Ptr>, ghost args: seq<string>) returns (ok: bool)
    requires HoldsArgs(a[..], args) && args != [] && temp.Length == SIZE && temp != a
    modifies temp
    ensures !OddTail(args) ==> ok && HoldsArgs(temp[..], Stripped(args))
    ensures OddTail(args) ==>
      match StripFrom(a[..], |args| + 1)
      case None => !ok
      case Some(stale) => ok && HoldsArgs(temp[..], Stripped(args) + stale)
  {
    hide Stripped, WalkFits, OddTail, Stripping, StripFrom;
    StrippedIff(a[..], args);
    StripStarts(a[..]);
    var i, j := 0, 0;
    ghost var done: seq<string> := [];
    while i < SIZE
      invariant i < SIZE && a[i] != Null && j == |done| <= i
      invariant forall k :: 0 <= k < j ==> temp[k] == Str(done[k])
      invariant Stripping(a[..], done, i)
      decreases SIZE - i
    {
      StripStep(a[..], done, i);
      if a[i] == Str(">") || a[i] == Str("<") || a[i] == Str(">>") {
        i := i + 2;
      } else {
        temp[j] := a[i];
        done := done + [a[i].s];
        i, j := i + 1, j + 1;
      }
      StripEnds(a[..], done, i);
      if i >= SIZE {
        return false;
      }
      if a[i] == Null {
        break;
      }
    }
    temp[j] := Null;
    ok := true;
  }

  /** A witness: after `ls >`, entries left over from an earlier command are copied too. */
  lemma StaleEntryExample(a: seq<Ptr>)
    requires HoldsArgs(a, ["ls", ">"]) && a[3] == Str("-l") && a[4] == Null
    ensures OddTail(["ls", ">"]) && Stripped(["ls", ">"]) == ["ls"] && StripFrom(a, 0) == Some(["ls", "-l"])
  {
    var args := ["ls", ">"];
    assert args[1..] == [">"] && args[..1] == ["ls"];
    assert a[0] == Str("ls") && a[1] == Str(">");
    assert ["-l"] + [] == ["-l"] && ["ls"] + ["-l"] == ["ls", "-l"];
    assert StripFrom(a, 3) == Prefixed(["-l"], StripFrom(a, 4));
    assert StripFrom(a, 1) == StripFrom(a, 3);
  }

  // ----- Pipes -----

  const PIPE := "|"

  /** The number of pipes from position `c` on. */
  function Pipes(args: seq<string>, c: nat): nat
    requires c <= |args|
    decreases |args| - c
  {
    if c == |args| then 0 else (if args[c] == PIPE then 1 else 0) + Pipes(args, c + 1)
  }

  method SearchForPipe(a: array<Ptr>, pipeflag: bool, pipeCounter: nat, ghost args: seq<string>)
    returns (pipeflag': bool, pipeCounter': nat)
    requires HoldsArgs(a[..], args)
    ensures pipeCounter' == pipeCounter + Pipes(args, 0)
    ensures pipeflag' == (pipeflag || PIPE in args)
  {
    pipeflag', pipeCounter' := pipeflag, pipeCounter;
    var i := 0;
    while i < SIZE
      invariant i <= |args|
      invariant pipeCounter' + Pipes(args, i) == pipeCounter + Pipes(args, 0)
      invariant pipeflag' == (pipeflag || PIPE in args[..i])
    {
      assert a[..][i] == a[i];
      if a[i] == Null {
        break;
      }
      assert args[..i + 1] == args[..i] + [args[i]];
      if a[i] == Str(PIPE) {
        pipeflag', pipeCounter' := true, pipeCounter' + 1;
      }
      i := i + 1;
    }
    assert args[..i] == args;
  }

  /** Where the segment that starts at `c` ends: at a pipe or at the end. */
  function SegEnd(args: seq<string>, c: nat): (e: nat)
    requires c <= |args|
    ensures c <= e <= |args| && (e < |args| ==> args[e] == PIPE) && forall k :: c <= k < e ==> args[k] != PIPE
    decreases |args| - c
  {
    if c == |args| || args[c] == PIPE then c else SegEnd(args, c + 1)
  }

  /** The segments between pipes, from position `c` on. */
  function Segments(args: seq<string>, c: nat): (segs: seq<seq<string>>)
    requires c <= |args|
    ensures segs != []
    decreases |args| - c
  {
    var e := SegEnd(args, c);
    [args[c..e]] + if e == |args| then [] else Segments(args, e + 1)
  }

  function JoinPipes(segs: seq<seq<string>>): seq<string> {
    if segs == [] then []
    else if |segs| == 1 then segs[0]
    else segs[0] + [PIPE] + JoinPipes(segs[1..])
  }

  lemma JoinOfCons(x: seq<string>, segs: seq<seq<string>>)
    requires segs != []
    ensures JoinPipes([x] + segs) == x + [PIPE] + JoinPipes(segs)
  {
    assert ([x] + segs)[1..] == segs;
  }

  lemma JoinOfOne(x: seq<string>)
    ensures JoinPipes([x]) == x
  {
  }

  lemma SegmentsUnfold(args: seq<string>, c: nat)
    requires c <= |args|
    ensures
      var e := SegEnd(args, c);
      Segments(args, c) == if e == |args| then [args[c..e]] else [args[c..e]] + Segments(args, e + 1)
  {
  }

  lemma CutAt(args: seq<string>, c: nat, e: nat)
    requires c <= e < |args|
    ensures args[c..] == args[c..e] + [args[e]] + args[e + 1..]
  {
  }

  /** Splitting at the pipes and joining with pipes are inverse. */
  lemma {:induction false} JoinOfSegments(args: seq<string>, c: nat)
    requires c <= |args|
    ensures JoinPipes(Segments(args, c)) == args[c..]
    decreases |args| - c
  {
    hide JoinPipes, Segments;
    var e := SegEnd(args, c);
    SegmentsUnfold(args, c);
    if e < |args| {
      JoinOfSegments(args, e + 1);
      JoinOfCons(args[c..e], Segments(args, e + 1));
      CutAt(args, c, e);
    } else {
      JoinOfOne(args[c..e]);
    }
  }

  /** No segment holds a pipe. */
  lemma {:induction false} SegmentsHoldNoPipe(args: seq<string>, c: nat, i: nat)
    requires c <= |args| && i < |Segments(args, c)|
    ensures PIPE !in Segments(args, c)[i]
    decreases |args| - c
  {
    hide Segments;
    SegmentsUnfold(args, c);
    if i == 0 {
    } else {
      SegmentsHoldNoPipe(args, SegEnd(args, c) + 1, i - 1);
    }
  }

  lemma {:induction false} NoPipesInSegment(args: seq<string>, c: nat)
    requires c <= |args|
    ensures Pipes(args, c) == Pipes(args, SegEnd(args, c))
    decreases |args| - c
  {
    if c == |args| || args[c] == PIPE {
    } else {
      NoPipesInSegment(args, c + 1);
    }
  }

  lemma PipesUnfold(args: seq<string>, c: nat)
    requires c <= |args|
    ensures Pipes(args, c) == if SegEnd(args, c) < |args| then 1 + Pipes(args, SegEnd(args, c) + 1) else 0
  {
    NoPipesInSegment(args, c);
  }

  /** There is one segment more than there are pipes. */
  lemma {:induction false} SegmentCount(args: seq<string>, c: nat)
    requires c <= |args|
    ensures |Segments(args, c)| == Pipes(args, c) + 1
    decreases |args| - c
  {
    hide Segments, Pipes;
    SegmentsUnfold(args, c);
    PipesUnfold(args, c);
    if SegEnd(args, c) == |args| {
    } else {
      SegmentCount(args, SegEnd(args, c) + 1);
    }
  }

  /** nextArg: copies the segment at the cursor and moves the cursor behind the pipe that ends it; if
      the segment is empty, neither the cursor nor the vector changes. */
  method NextArg(a: array<Ptr>, temp: array<Ptr>, nextPipe: nat, ghost args: seq<string>) returns (nextPipe': nat)
    requires HoldsArgs(a[..], args) && nextPipe <= |args| && temp.Length == SIZE && temp != a
    modifies temp
    ensures nextPipe' > nextPipe <==> nextPipe < SegEnd(args, nextPipe)
    ensures nextPipe' == nextPipe ==> temp[..] == old(temp[..])
    ensures nextPipe' != nextPipe ==> nextPipe' == SegEnd(args, nextPipe) + 1
    ensures nextPipe' != nextPipe ==> HoldsArgs(temp[..], args[nextPipe..SegEnd(args, nextPipe)])
  {
    ghost var e := SegEnd(args, nextPipe);
    nextPipe' := nextPipe;
    var i := nextPipe;
    assert a[..][e] == a[e];
    while i < SIZE
      invariant || (i == nextPipe' == nextPipe && temp[..] == old(temp[..]))
                || (i == e > nextPipe && nextPipe' == e + 1 && HoldsArgs(temp[..], args[nextPipe..e]))
      decreases e - i
    {
      assert a[..][i] == a[i];
      if a[i] == Null || a[i] == Str(PIPE) {
        break;
      }
      while a[i] != Null && a[i] != Str(PIPE)
        invariant nextPipe <= i <= e && nextPipe' == nextPipe
        invariant forall k :: nextPipe <= k < i ==> temp[k - nextPipe] == Str(args[k])
        decreases e - i
      {
        assert a[..][i] == a[i];
        temp[i - nextPipe'] := a[i];
        i := i + 1;
        assert a[..][i] == a[i];
      }
      temp[i - nextPipe'] := Null;
      nextPipe' := i + 1;
      forall k | 0 <= k < e - nextPipe
        ensures temp[k] == Str(args[nextPipe..e][k])
      {
        assert temp[nextPipe + k - nextPipe] == Str(args[nextPipe + k]);
      }
    }
  }

  // ----- The calls the main loop makes -----

  /** What one call of nextArg leaves in the vector, when it held `prev` before. */
  function Segment(args: seq<string>, c: nat, prev: seq<string>): seq<string>
    requires c <= |args|
  {
    if c < SegEnd(args, c) then args[c..SegEnd(args, c)] else prev
  }

  /** Where that call leaves the cursor. */
  function Cursor(args: seq<string>, c: nat): nat
    requires c <= |args|
  {
    if c < SegEnd(args, c) then SegEnd(args, c) + 1 else c
  }

  /** The calls of nextArg still to come do not go past the last segment. */
  predicate CallsLeft(args: seq<string>, c: nat, calls: nat) {
    calls > 0 ==> c <= |args| && calls <= Pipes(args, c) + 1
  }

  lemma CallsGoOn(args: seq<string>, c: nat, calls: nat)
    requires CallsLeft(args, c, calls) && calls > 0
    ensures CallsLeft(args, Cursor(args, c), calls - 1)
  {
    NoPipesInSegment(args, c);
  }

  /** The vectors that the next calls leave behind, one after the other. */
  function Delivered(args: seq<string>, c: nat, calls: nat, prev: seq<string>): (vectors: seq<seq<string>>)
    requires CallsLeft(args, c, calls)
    ensures |vectors| == calls
    decreases calls
  {
    if calls == 0 then []
    else
      CallsGoOn(args, c, calls);
      [Segment(args, c, prev)] + Delivered(args, Cursor(args, c), calls - 1, Segment(args, c, prev))
  }

  /** Once the cursor stands at an empty segment it stays there, and the vector stays as it is. */
  lemma {:induction false} DeliveredWhenStuck(args: seq<string>, c: nat, calls: nat, prev: seq<string>)
    requires CallsLeft(args, c, calls) && calls > 0 && c == SegEnd(args, c)
    ensures Delivered(args, c, calls, prev) == seq(calls, i => prev)
  {
    if calls == 1 {
    } else {
      DeliveredWhenStuck(args, c, calls - 1, prev);
      assert [prev] + seq(calls - 1, i => prev) == seq(calls, i => prev);
    }
  }

  lemma InCons(x: seq<string>, segs: seq<seq<string>>)
    ensures [] in [x] + segs <==> x == [] || [] in segs
  {
    assert ([x] + segs)[1..] == segs;
  }

  lemma SameAfter(x: seq<string>, vs: seq<seq<string>>, ws: seq<seq<string>>)
    ensures [x] + vs == [x] + ws <==> vs == ws
  {
    assert ([x] + vs)[1..] == vs && ([x] + ws)[1..] == ws;
  }

  lemma DeliveredUnfold(args: seq<string>, c: nat, calls: nat, prev: seq<string>)
    requires CallsLeft(args, c, calls) && calls > 0
    ensures CallsLeft(args, Cursor(args, c), calls - 1)
    ensures Delivered(args, c, calls, prev)
         == [Segment(args, c, prev)] + Delivered(args, Cursor(args, c), calls - 1, Segment(args, c, prev))
  {
    CallsGoOn(args, c, calls);
  }

  lemma DeliveredNone(args: seq<string>, c: nat, prev: seq<string>)
    ensures CallsLeft(args, c, 0) && Delivered(args, c, 0, prev) == []
  {
  }

  /** All the calls together deliver the segments exactly if no segment is empty. */
  lemma {:induction false} DeliveredIff(args: seq<string>, c: nat, prev: seq<string>)
    requires c <= |args| && (prev != [] || c < SegEnd(args, c))
    ensures CallsLeft(args, c, Pipes(args, c) + 1)
    ensures Delivered(args, c, Pipes(args, c) + 1, prev) == Segments(args, c) <==> [] !in Segments(args, c)
    decreases |args| - c
  {
    hide Segments, Pipes, SegEnd, Delivered;
    var e, left := SegEnd(args, c), Pipes(args, c);
    SegmentsUnfold(args, c);
    PipesUnfold(args, c);
    DeliveredUnfold(args, c, left + 1, prev);
    assert c == e <==> args[c..e] == [];
    if c == e {
      assert Delivered(args, c, left + 1, prev)[0] == prev;
    } else if e < |args| {
      DeliveredIff(args, e + 1, args[c..e]);
      InCons(args[c..e], Segments(args, e + 1));
      SameAfter(args[c..e], Delivered(args, e + 1, left, args[c..e]), Segments(args, e + 1));
    } else {
      assert Segments(args, c) == [args[c..e]];
      DeliveredNone(args, e + 1, args[c..e]);
    }
  }

  /** The first `i` calls of nextArg are made, the cursor is at `c`, and `temp` holds what the last of them left. */
  ghost predicate Delivering(vectors: seq<seq<string>>, i: nat, args: seq<string>, c: nat, temp: seq<Ptr>) {
    && i <= |vectors| && CallsLeft(args, c, |vectors| - i)
    && vectors[i..] == Delivered(args, c, |vectors| - i, if i == 0 then [] else vectors[i - 1])
    && if i == 0 then c == 0 < SegEnd(args, 0) else HoldsArgs(temp, vectors[i - 1])
  }

  /** The next vector is what the next call of nextArg leaves. */
  lemma NextDelivered(vectors: seq<seq<string>>, i: nat, args: seq<string>, c: nat, temp: seq<Ptr>, temp': seq<Ptr>)
    requires i < |vectors| && Delivering(vectors, i, args, c, temp)
    ensures c <= |args| && (c < SegEnd(args, c) || (i > 0 && HoldsArgs(temp, vectors[i - 1])))
    ensures vectors[i] == Segment(args, c, if i == 0 then [] else vectors[i - 1])
    ensures HoldsArgs(temp', vectors[i]) ==> Delivering(vectors, i + 1, args, Cursor(args, c), temp')
  {
    hide HoldsArgs, Pipes;
    CallsGoOn(args, c, |vectors| - i);
    assert vectors[i..][0] == vectors[i] && vectors[i..][1..] == vectors[i + 1..];
  }

  /** `ranges` are the stretches between the pipes, from position `c` on, in order, empty ones included. */
  ghost predicate BetweenPipes(args: seq<string>, c: nat, ranges: seq<Range>) {
    && ranges != [] && ranges[0].lo == c && ranges[|ranges| - 1].hi == |args|
    && (forall h :: 0 <= h < |ranges| ==> c <= ranges[h].lo <= ranges[h].hi <= |args|)
    && (forall h :: 0 < h < |ranges| ==> ranges[h].lo == ranges[h - 1].hi + 1)
    && (forall h :: 0 <= h < |ranges| - 1 ==> ranges[h].hi < |args| && args[ranges[h].hi] == "|")
    && (forall h, k :: 0 <= h < |ranges| && ranges[h].lo <= k < ranges[h].hi ==> args[k] != "|")
  }

  /** None of the ranges up to number `i` is empty. */
  predicate FullTo(ranges: seq<Range>, i: nat)
    requires i < |ranges|
  {
    forall h :: 0 <= h <= i ==> ranges[h].lo < ranges[h].hi
  }

  /** Vector number `i` holds what stands in range number `i`; from the first empty range on, the vectors repeat
      the one before, or `prev` if there is none. */
  predicate TakenAt(args: seq<string>, ranges: seq<Range>, vectors: seq<seq<string>>, prev: seq<string>, i: nat)
    requires i < |vectors| == |ranges|
  {
    && ranges[i].lo <= ranges[i].hi <= |args|
    && vectors[i] == if FullTo(ranges, i) then args[ranges[i].lo..ranges[i].hi] else if i == 0 then prev else vectors[i - 1]
  }

  ghost predicate TakenFrom(args: seq<string>, ranges: seq<Range>, vectors: seq<seq<string>>, prev: seq<string>) {
    |vectors| == |ranges| && forall i :: 0 <= i < |vectors| ==> TakenAt(args, ranges, vectors, prev, i)
  }

  /** The stretches between the pipes. */
  lemma {:induction false} FindRanges(args: seq<string>, c: nat) returns (ranges: seq<Range>)
    requires c <= |args|
    ensures BetweenPipes(args, c, ranges)
    decreases |args| - c
  {
    var e := SegEnd(args, c);
    if e == |args| {
      ranges := [Range(c, e)];
    } else {
      var rest := FindRanges(args, e + 1);
      ranges := [Range(c, e)] + rest;
    }
  }

  lemma {:induction false} LaterRange(args: seq<string>, c: nat, ranges: seq<Range>, h: nat)
    requires BetweenPipes(args, c, ranges) && 0 < h < |ranges|
    ensures ranges[0].hi < ranges[h].lo
  {
    if h == 1 {
    } else {
      LaterRange(args, c, ranges, h - 1);
    }
  }

  lemma FirstRange(args: seq<string>, c: nat, ranges: seq<Range>)
    requires c <= |args| && BetweenPipes(args, c, ranges)
    ensures ranges != [] && ranges[0] == Range(c, SegEnd(args, c))
    ensures SegEnd(args, c) == |args| <==> |ranges| == 1
    ensures SegEnd(args, c) < |args| ==> BetweenPipes(args, SegEnd(args, c) + 1, ranges[1..])
  {
    var e := SegEnd(args, c);
    assert ranges[0].lo <= ranges[0].hi <= |args|;
    if |ranges| > 1 {
      assert ranges[1].lo == ranges[0].hi + 1 && ranges[0].hi < |args|;
      var rest := ranges[1..];
      forall h | 0 <= h < |rest|
        ensures e + 1 <= rest[h].lo
      {
        LaterRange(args, c, ranges, h + 1);
      }
    }
  }

  lemma FullToTail(ranges: seq<Range>, i: nat)
    requires 0 < i < |ranges|
    ensures FullTo(ranges, i) <==> ranges[0].lo < ranges[0].hi && FullTo(ranges[1..], i - 1)
  {
    assert forall h :: 0 < h <= i ==> ranges[1..][h - 1] == ranges[h];
    if FullTo(ranges[1..], i - 1) && ranges[0].lo < ranges[0].hi {
      forall h | 0 <= h <= i
        ensures ranges[h].lo < ranges[h].hi
      {
        assert h > 0 ==> ranges[1..][h - 1].lo < ranges[1..][h - 1].hi;
      }
    }
  }

  lemma TakenAfter(args: seq<string>, ranges: seq<Range>, rest: seq<seq<string>>, prev: seq<string>)
    requires ranges != [] && ranges[0].lo < ranges[0].hi <= |args|
    requires TakenFrom(args, ranges[1..], rest, args[ranges[0].lo..ranges[0].hi])
    ensures TakenFrom(args, ranges, [args[ranges[0].lo..ranges[0].hi]] + rest, prev)
  {
    var first, tail := args[ranges[0].lo..ranges[0].hi], ranges[1..];
    var vectors := [first] + rest;
    forall i | 0 <= i < |ranges|
      ensures TakenAt(args, ranges, vectors, prev, i)
    {
      if i > 0 {
        FullToTail(ranges, i);
        assert TakenAt(args, tail, rest, first, i - 1);
        assert tail[i - 1] == ranges[i] && vectors[i - 1] == if i == 1 then first else rest[i - 2];
      }
    }
  }

  lemma TakenOnce(args: seq<string>, c: nat, ranges: seq<Range>, prev: seq<string>)
    requires c <= |args| == SegEnd(args, c) && ranges == [Range(c, |args|)]
    ensures CallsLeft(args, c, 1) && TakenFrom(args, ranges, Delivered(args, c, 1, prev), prev)
  {
    DeliveredUnfold(args, c, 1, prev);
    assert ranges[0].lo < ranges[0].hi <==> c < |args|;
    assert TakenAt(args, ranges, [Segment(args, c, prev)], prev, 0);
  }

  lemma TakenNever(args: seq<string>, c: nat, ranges: seq<Range>, prev: seq<string>)
    requires c <= |args| && BetweenPipes(args, c, ranges) && ranges[0] == Range(c, c)
    ensures TakenFrom(args, ranges, seq(|ranges|, i => prev), prev)
  {
    var vectors := seq(|ranges|, i => prev);
    forall i | 0 <= i < |ranges|
      ensures TakenAt(args, ranges, vectors, prev, i)
    {
      assert !(ranges[0].lo < ranges[0].hi);
    }
  }

  /** What all the calls together deliver, in terms of the places of the pipes. */
  lemma {:induction false} DeliveredFrom(args: seq<string>, c: nat, ranges: seq<Range>, prev: seq<string>)
    requires c <= |args| && BetweenPipes(args, c, ranges)
    ensures |ranges| == Pipes(args, c) + 1 && CallsLeft(args, c, |ranges|)
    ensures TakenFrom(args, ranges, Delivered(args, c, |ranges|, prev), prev)
    decreases |args| - c
  {
    hide TakenFrom, BetweenPipes, FullTo, Pipes, SegEnd, Delivered;
    var e := SegEnd(args, c);
    FirstRange(args, c, ranges);
    PipesUnfold(args, c);
    if e == |args| {
      TakenOnce(args, c, ranges, prev);
    } else {
      DeliveredFrom(args, e + 1, ranges[1..], if c < e then args[c..e] else prev);
      if c == e {
        DeliveredWhenStuck(args, c, |ranges|, prev);
        TakenNever(args, c, ranges, prev);
      } else {
        DeliveredUnfold(args, c, |ranges|, prev);
        TakenAfter(args, ranges, Delivered(args, e + 1, |ranges| - 1, args[c..e]), prev);
      }
    }
  }

  /** The contents of a vector up to its null pointer, as the main loop lists them before each spawn. */
  method ReadVector(temp: array<Ptr>, ghost v: seq<string>) returns (r: seq<string>)
    requires HoldsArgs(temp[..], v)
    ensures r == v
  {
    r := [];
    var i := 0;
    assert temp[..][i] == temp[i];
    while temp[i] != Null
      invariant i <= |v| && r == v[..i]
      decreases |v| - i
    {
      assert temp[..][i] == temp[i] && temp[..][i + 1] == temp[i + 1];
      r := r + [temp[i].s];
      i := i + 1;
    }
    assert temp[..][i] == temp[i];
  }

  /** One call of nextArg, and what the vector then holds. */
  method NextVector(a: array<Ptr>, temp: array<Ptr>, nextPipe: nat, ghost args: seq<string>, ghost prev: seq<string>)
    returns (vector: seq<string>, nextPipe': nat)
    requires HoldsArgs(a[..], args) && nextPipe <= |args| && temp.Length == SIZE && temp != a
    requires nextPipe < SegEnd(args, nextPipe) || HoldsArgs(temp[..], prev)
    modifies temp
    ensures vector == Segment(args, nextPipe, prev) && HoldsArgs(temp[..], vector)
    ensures nextPipe' == Cursor(args, nextPipe)
  {
    nextPipe' := NextArg(a, temp, nextPipe, args);
    vector := ReadVector(temp, Segment(args, nextPipe, prev));
  }

  /** The `pipeCounter + 1` calls of nextArg.  `ok` is false when the first segment is empty: the main loop
      then goes on with a vector that was never written. */
  method AllNextArgs(a: array<Ptr>, temp: array<Ptr>, pipeCounter: nat, ghost args: seq<string>)
    returns (ok: bool, vectors: seq<seq<string>>)
    requires HoldsArgs(a[..], args) && pipeCounter == Pipes(args, 0) && temp.Length == SIZE && temp != a
    modifies temp
    ensures ok <==> args != [] && args[0] != PIPE
    ensures ok ==> vectors == Delivered(args, 0, pipeCounter + 1, [])
  {
    assert a[..][0] == a[0];
    vectors := [];
    if a[0] == Null || a[0] == Str(PIPE) {
      return false, [];
    }
    var nextPipe: nat, n: nat := 0, 0;
    ghost var all := Delivered(args, 0, pipeCounter + 1, []);
    assert Delivering(all, 0, args, 0, temp[..]);
    hide Delivered, Delivering, HoldsArgs, Pipes, SegEnd, Segment, Cursor, CallsLeft;
    while n < pipeCounter + 1
      invariant n <= pipeCounter + 1 == |all| && vectors == all[..n]
      invariant Delivering(all, n, args, nextPipe, temp[..])
    {
      NextDelivered(all, n, args, nextPipe, temp[..], temp[..]);
      ghost var before := temp[..];
      var vector, next := NextVector(a, temp, nextPipe, args, if n == 0 then [] else all[n - 1]);
      NextDelivered(all, n, args, nextPipe, before, temp[..]);
      vectors, nextPipe, n := vectors + [vector], next, n + 1;
    }
    ok := true;
  }

  /** What the calls deliver, in terms of segments and of the places of the pipes. */
  lemma SplitMeans(args: seq<string>, ranges: seq<Range>)
    requires BetweenPipes(args, 0, ranges)
    ensures CallsLeft(args, 0, Pipes(args, 0) + 1)
    ensures args == [] || args[0] == PIPE ==> [] in Segments(args, 0)
    ensures
      var vectors := Delivered(args, 0, Pipes(args, 0) + 1, []);
      && TakenFrom(args, ranges, vectors, [])
      && (args != [] && args[0] != PIPE ==> (vectors == Segments(args, 0) <==> [] !in Segments(args, 0)))
    ensures JoinPipes(Segments(args, 0)) == args
  {
    hide Segments, Delivered, Pipes, JoinPipes, BetweenPipes, TakenFrom;
    DeliveredFrom(args, 0, ranges, []);
    if args == [] || args[0] == PIPE {
      SegmentsUnfold(args, 0);
      assert Segments(args, 0)[0] == args[0..0] == [];
    } else {
      DeliveredIff(args, 0, []);
    }
    JoinOfSegments(args, 0);
    assert args[0..] == args;
  }

  /** The calls of nextArg deliver the segments between the pipes, which joined by pipes are the arguments
      again, exactly if no segment is empty; in general they deliver the segments before the first empty one,
      and the last of these over and over. */
  method SplitPipeline(a: array<Ptr>, temp: array<Ptr>, ghost args: seq<string>)
    returns (ok: bool, vectors: seq<seq<string>>, ghost ranges: seq<Range>)
    requires HoldsArgs(a[..], args) && temp.Length == SIZE && temp != a
    modifies temp
    ensures ok <==> args != [] && args[0] != PIPE
    ensures ok ==> CallsLeft(args, 0, Pipes(args, 0) + 1) && vectors == Delivered(args, 0, Pipes(args, 0) + 1, [])
    ensures ok && vectors == Segments(args, 0) <==> [] !in Segments(args, 0)
    ensures [] !in Segments(args, 0) ==> JoinPipes(vectors) == args
    ensures BetweenPipes(args, 0, ranges) && (ok ==> TakenFrom(args, ranges, vectors, []))
  {
    hide Segments, Delivered, Pipes, JoinPipes, BetweenPipes, TakenFrom, CallsLeft, SegEnd;
    ranges := FindRanges(args, 0);
    SplitMeans(args, ranges);
    var _, pipeCounter := SearchForPipe(a, false, 0, args);
    ok, vectors := AllNextArgs(a, temp, pipeCounter, args);
  }

  /** A witness: with `ls | | wc` the second and the third call leave the first vector in place. */
  lemma EmptySegmentExample()
    ensures
      var args := ["ls", PIPE, PIPE, "wc"];
      && CallsLeft(args, 0, 3) && Delivered(args, 0, 3, []) == [["ls"], ["ls"], ["ls"]]
      && [] in Segments(args, 0)
  {
    var args := ["ls", PIPE, PIPE, "wc"];
    assert SegEnd(args, 1) == 1 && SegEnd(args, 2) == 2;
    assert SegEnd(args, 0) == 1 && args[0..1] == ["ls"];
    PipesUnfold(args, 0);
    PipesUnfold(args, 2);
    hide Pipes, SegEnd, Segments;
    DeliveredWhenStuck(args, 2, 2, ["ls"]);
    assert Delivered(args, 0, 3, []) == [["ls"]] + Delivered(args, 2, 2, ["ls"]);
    SegmentsUnfold(args, 0);
    SegmentsUnfold(args, 2);
    assert Segments(args, 2)[0] == args[2..2] == [] && Segments(args, 0)[1] == Segments(args, 2)[0];
  }
}
