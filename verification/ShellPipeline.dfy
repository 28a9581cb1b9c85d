/**
 The loop of the shell that wires a pipeline: nextArg, pipe, fork, dup2, close and wait, on the argument
 vector and on file descriptor tables.  A stage is a program that reads its standard input up to end of
 file; what it reads determines the sequence of writes it makes.
 */
module ShellPipeline {
  import opened Prelude
  import opened ShellTokens
  import opened ShellArgs

  /** What a descriptor refers to. */
  datatype File = Terminal | ReadEnd(pipe: nat) | WriteEnd(pipe: nat)

  type Fds = map<nat, File>

  /** The output that reaches the terminal, or the stage at which the loop stops for good; or there is no
      first command, and the code runs a vector that was never written. */
  datatype Outcome = Finished(output: string) | Stuck(stage: nat) | NoCommand

  /** The writes a program makes, given all of its input. */
  type Stage = string -> seq<string>

  function Joined(writes: seq<string>): string {
    if writes == [] then "" else Joined(writes[..|writes| - 1]) + writes[|writes| - 1]
  }

  lemma {:induction false} JoinedGrows(writes: seq<string>, n: nat)
    requires n <= |writes|
    ensures |Joined(writes[..n])| <= |Joined(writes)|
  {
    if n == |writes| {
      assert writes[..n] == writes;
    } else {
      JoinedGrows(writes[..|writes| - 1], n);
      assert writes[..|writes| - 1][..n] == writes[..n];
    }
  }

  lemma NothingJoined()
    ensures Joined([]) == ""
  {
  }

  lemma JoinedOneMore(writes: seq<string>, n: nat)
    requires n < |writes|
    ensures Joined(writes[..n + 1]) == Joined(writes[..n]) + writes[n]
  {
    assert writes[..n + 1][..n] == writes[..n];
  }

  /** Write number `i` stands at its range, right behind the one before. */
  predicate StandsAt(writes: seq<string>, ranges: seq<Range>, joined: string, i: nat)
    requires i < |writes| == |ranges|
  {
    && ranges[i].lo == (if i == 0 then 0 else ranges[i - 1].hi)
    && ranges[i].lo <= ranges[i].hi <= |joined| && joined[ranges[i].lo..ranges[i].hi] == writes[i]
  }

  /** The writes stand one behind the other in what they come to, and there is nothing else in it. */
  ghost predicate OneBehindTheOther(writes: seq<string>, ranges: seq<Range>, joined: string) {
    && |ranges| == |writes| && |joined| == (if ranges == [] then 0 else ranges[|ranges| - 1].hi)
    && forall i :: 0 <= i < |writes| ==> StandsAt(writes, ranges, joined, i)
  }

  lemma OneMoreBehind(writes: seq<string>, ranges: seq<Range>, joined: string, w: string)
    requires OneBehindTheOther(writes, ranges, joined)
    ensures OneBehindTheOther(writes + [w], ranges + [Range(|joined|, |joined| + |w|)], joined + w)
  {
    var writes', ranges', joined' := writes + [w], ranges + [Range(|joined|, |joined| + |w|)], joined + w;
    forall i | 0 <= i < |writes'|
      ensures StandsAt(writes', ranges', joined', i)
    {
      if i < |writes| {
        assert StandsAt(writes, ranges, joined, i);
        assert joined'[ranges[i].lo..ranges[i].hi] == joined[ranges[i].lo..ranges[i].hi];
      }
    }
  }

  lemma {:induction false} JoinedIs(writes: seq<string>) returns (ranges: seq<Range>)
    ensures OneBehindTheOther(writes, ranges, Joined(writes))
  {
    if writes == [] {
      ranges := [];
    } else {
      var n := |writes| - 1;
      ranges := JoinedIs(writes[..n]);
      OneMoreBehind(writes[..n], ranges, Joined(writes[..n]), writes[n]);
      assert writes == writes[..n] + [writes[n]];
      hide OneBehindTheOther;
      ranges := ranges + [Range(|Joined(writes[..n])|, |Joined(writes[..n])| + |writes[n]|)];
    }
  }

  /** The composition of the first `n` stages. */
  function Composed(stages: seq<Stage>, input: string, n: nat): string
    requires n <= |stages|
  {
    if n == 0 then input else Joined(stages[n - 1](Composed(stages, input, n - 1)))
  }

  /** The stages that a sequence of argument vectors names. */
  function Stages(program: seq<string> -> Stage, vectors: seq<seq<string>>): seq<Stage> {
    seq(|vectors|, i requires 0 <= i < |vectors| => program(vectors[i]))
  }

  /** Every output that goes through a pipe, up to stage `n`, fits the pipe. */
  predicate Fit(stages: seq<Stage>, input: string, capacity: nat, n: nat)
    requires n <= |stages|
  {
    forall j :: 1 <= j <= n ==> |Composed(stages, input, j)| <= capacity
  }

  // ----- Descriptors -----

  predicate Writes(fds: Fds, p: nat) {
    exists d :: d in fds && fds[d] == WriteEnd(p)
  }

  predicate Reads(fds: Fds, p: nat) {
    exists d :: d in fds && fds[d] == ReadEnd(p)
  }

  /** The lowest descriptor not in use, which pipe() hands out. */
  method LowestFree(fds: Fds) returns (d: nat)
    ensures d !in fds && forall e: nat :: e < d ==> e in fds
  {
    d := 0;
    while d in fds
      invariant forall e: nat :: e < d ==> e in fds
      invariant d <= |fds.Keys|
      decreases |fds.Keys| - d
    {
      assert Below(d + 1) <= fds.Keys;
      SubsetSize(Below(d + 1), fds.Keys);
      d := d + 1;
    }
  }

  /** dup2(from, to) and close(from), as a forked stage does it unless the two are the same. */
  function Redirect(fds: Fds, from: nat, to: nat): Fds
    requires from in fds
  {
    if from == to then fds else fds[to := fds[from]] - {from}
  }

  /** The table of a forked stage: its ends stand at 0 and 1, and of the ends it was given no other copy is left. */
  lemma ChildTable(fds: Fds, input: nat, out: nat)
    requires input in fds && out in fds && 1 in fds && input != out && input != 1 && out != 0
    ensures
      var child := Redirect(Redirect(fds, input, 0), out, 1);
      && 0 in child && child[0] == fds[input] && 1 in child && child[1] == fds[out]
      && (input != 0 ==> input !in child) && (out != 1 ==> out !in child)
      && forall d :: d != 0 && d != 1 && d != input && d != out ==> (d in child <==> d in fds) && (d in child ==> child[d] == fds[d])
  {
  }

  // ----- Stages from the argument vector -----

  lemma FirstSegment(args: seq<string>)
    ensures SegEnd(args, 0) == 0 <==> args == [] || args[0] == PIPE
    ensures SegEnd(args, 0) == 0 ==> [] in Segments(args, 0)
  {
    assert Segments(args, 0)[0] == args[0..SegEnd(args, 0)];
  }

  // ----- Pipes -----

  /** The pipes after `w` has been written to pipe `p`. */
  function Appended(pipes: seq<string>, p: nat, w: string): seq<string>
    requires p < |pipes|
  {
    pipes[p := pipes[p] + w]
  }

  lemma AppendedTwice(pipes: seq<string>, p: nat, v: string, w: string)
    requires p < |pipes|
    ensures Appended(Appended(pipes, p, v), p, w) == Appended(pipes, p, v + w)
  {
    assert pipes[p] + v + w == pipes[p] + (v + w);
  }

  lemma AppendedNothing(pipes: seq<string>, p: nat)
    requires p < |pipes|
    ensures Appended(pipes, p, "") == pipes
  {
    assert pipes[p] + "" == pipes[p];
  }

  /** The process that runs the pipeline: its descriptor table and the contents of its pipes. */
  class Shell {
    var fds: Fds
    var pipes: seq<string>
    const capacity: nat
    const typed: string // what can be read from the terminal, up to end of file
    const program: seq<string> -> Stage // what execvpe runs for an argument vector

    constructor (capacity: nat, typed: string, program: seq<string> -> Stage)
      ensures this.capacity == capacity && this.typed == typed && this.program == program
      ensures fds == map[0 := Terminal, 1 := Terminal, 2 := Terminal] && pipes == []
    {
      this.capacity, this.typed, this.program := capacity, typed, program;
      fds, pipes := map[0 := Terminal, 1 := Terminal, 2 := Terminal], [];
    }

    /** pipe(fd). */
    method Pipe() returns (r: nat, w: nat)
      modifies this
      ensures r != w && r !in old(fds) && w !in old(fds)
      ensures fds == old(fds)[r := ReadEnd(|old(pipes)|)][w := WriteEnd(|old(pipes)|)]
      ensures pipes == old(pipes) + [""]
    {
      r := LowestFree(fds);
      w := LowestFree(fds[r := ReadEnd(|pipes|)]);
      fds := fds[r := ReadEnd(|pipes|)][w := WriteEnd(|pipes|)];
      pipes := pipes + [""];
    }

    predicate Runnable(child: Fds)
      reads this
    {
      && 0 in child && 1 in child
      && (child[0].ReadEnd? ==> child[0].pipe < |pipes|)
      && (child[1].WriteEnd? ==> child[1].pipe < |pipes|)
      && (child[0].ReadEnd? && child[1].WriteEnd? ==> child[0].pipe != child[1].pipe)
    }

    /** What a program reads up to end of file. */
    function InputOf(child: Fds): string
      requires Runnable(child)
      reads this
    {
      if child[0].ReadEnd? then pipes[child[0].pipe] else typed
    }

    /** End of file comes only when nobody, the program itself included, can still write to the pipe. */
    predicate SeesEof(child: Fds)
      requires Runnable(child)
      reads this
    {
      child[0].ReadEnd? ==> !Writes(fds, child[0].pipe) && !Writes(child, child[0].pipe)
    }

    /** Nobody empties the pipe while the shell waits, so the writes go through if there is room for all
        of them.  Without any reader the program would be killed by SIGPIPE instead. */
    predicate CanWrite(child: Fds, writes: seq<string>)
      requires Runnable(child)
      reads this
    {
      child[1].WriteEnd? && writes != [] ==>
        && (Reads(fds, child[1].pipe) || Reads(child, child[1].pipe))
        && |pipes[child[1].pipe]| + |Joined(writes)| <= capacity
    }

    /** The pipe read is empty and the pipe written has `output` added. */
    ghost predicate Transferred(child: Fds, before: seq<string>, output: string)
      requires 0 in child && 1 in child
      reads this
    {
      && |pipes| == |before|
      && forall p :: 0 <= p < |pipes| ==>
           pipes[p] == (if child[0] == ReadEnd(p) then "" else before[p] + if child[1] == WriteEnd(p) then output else "")
    }

    /** A program runs with descriptor table `child` while the shell waits for it, one write after the
        other; `done` is false if it never ends by itself. */
    method Exec(child: Fds, stage: Stage) returns (done: bool, output: string)
      requires Runnable(child)
      modifies `pipes
      ensures done <==> old(SeesEof(child)) && old(CanWrite(child, stage(InputOf(child))))
      ensures done ==> output == Joined(stage(old(InputOf(child))))
      ensures done ==> output == Joined(stage(if child[0].ReadEnd? then old(pipes)[child[0].pipe] else typed))
      ensures done && child[0].ReadEnd? ==> forall d :: d in fds ==> fds[d] != WriteEnd(child[0].pipe)
      ensures done && child[1].WriteEnd? ==>
                |pipes| == |old(pipes)| && pipes[child[1].pipe] == old(pipes)[child[1].pipe] + output
                && (output != "" ==> |pipes[child[1].pipe]| <= capacity)
      ensures done ==> Transferred(child, old(pipes), output)
    {
      output := "";
      if !SeesEof(child) {
        return false, "";
      }
      var writes := stage(InputOf(child));
      assert writes[..0] == [];
      if child[1].WriteEnd? {
        AppendedNothing(pipes, child[1].pipe);
      }
      for n := 0 to |writes|
        invariant output == Joined(writes[..n])
        invariant pipes == if child[1].WriteEnd? then Appended(old(pipes), child[1].pipe, output) else old(pipes)
        invariant n > 0 ==> old(CanWrite(child, writes[..n]))
      {
        JoinedOneMore(writes, n);
        JoinedGrows(writes, n + 1);
        if child[1].WriteEnd? {
          var p := child[1].pipe;
          if !(Reads(fds, p) || Reads(child, p)) || |pipes[p]| + |writes[n]| > capacity {
            return false, "";
          }
          AppendedTwice(old(pipes), p, output, writes[n]);
          pipes := Appended(pipes, p, writes[n]);
        }
        output := output + writes[n];
      }
      assert writes[..|writes|] == writes;
      if child[0].ReadEnd? {
        pipes := pipes[child[0].pipe := ""];
      }
      done := true;
    }

    /** spawn_proc: a forked copy of the table, with its ends put in place, runs the stage. */
    method SpawnProc(input: nat, out: nat, stage: Stage) returns (done: bool)
      requires input in fds && out in fds && input != out && input != 1 && out != 0
      requires Runnable(Redirect(Redirect(fds, input, 0), out, 1))
      modifies `pipes
      ensures
        var child := Redirect(Redirect(fds, input, 0), out, 1);
        var writes := stage(old(InputOf(child)));
        && (done <==> old(SeesEof(child)) && old(CanWrite(child, writes)))
        && (done ==> Transferred(child, old(pipes), Joined(writes)))
    {
      var output;
      done, output := Exec(Redirect(Redirect(fds, input, 0), out, 1), stage);
    }

    /** How the descriptors stand before stage `i`: no write end is open, and `input` is the terminal or the
        read end of the last pipe. */
    ghost predicate Wired(i: nat, input: nat)
      reads this
    {
      && |pipes| == i
      && 0 in fds && 1 in fds && fds[0] == Terminal && fds[1] == Terminal
      && (forall d :: d in fds ==> fds[d] == Terminal || (fds[d].ReadEnd? && fds[d].pipe < i))
      && input in fds && input != 1
      && (if i == 0 then input == 0 else input != 0 && fds[input] == ReadEnd(i - 1))
    }

    /** Where the loop stands before stage `i`: the last pipe holds the output so far. */
    ghost predicate Ready(stages: seq<Stage>, i: nat, input: nat)
      reads this
    {
      i <= |stages| && Wired(i, input) && (i > 0 ==> pipes[i - 1] == Composed(stages, typed, i))
    }

    lemma StartsReady(stages: seq<Stage>)
      requires fds == map[0 := Terminal, 1 := Terminal, 2 := Terminal] && pipes == []
      ensures Ready(stages, 0, 0) && Fit(stages, typed, capacity, 0)
    {
    }

    lemma FitNext(stages: seq<Stage>, i: nat)
      requires i < |stages|
      ensures Fit(stages, typed, capacity, i + 1) <==>
        Fit(stages, typed, capacity, i) && |Composed(stages, typed, i + 1)| <= capacity
    {
      hide Composed;
    }

    lemma FitShrinks(stages: seq<Stage>, i: nat, n: nat)
      requires i <= n <= |stages|
      ensures Fit(stages, typed, capacity, n) ==> Fit(stages, typed, capacity, i)
    {
    }

    lemma ComposedNext(stages: seq<Stage>, i: nat)
      requires i < |stages|
      ensures Composed(stages, typed, i + 1) == Joined(stages[i](Composed(stages, typed, i))) && Composed(stages, typed, 0) == typed
    {
    }

    /** The pipe, the stage, and the close of one turn. */
    method Wire(stage: Stage, ghost i: nat, input: nat) returns (done: bool, input': nat)
      requires Wired(i, input)
      modifies this
      ensures
        var output := Joined(stage(if i == 0 then typed else old(pipes)[i - 1]));
        && (done <==> |output| <= capacity)
        && (done ==> Wired(i + 1, input') && pipes[i] == output)
    {
      hide Joined;
      NothingJoined();
      var r, w := Pipe();
      assert fds[r] == ReadEnd(i) && fds[w] == WriteEnd(i);
      ghost var child := Redirect(Redirect(fds, input, 0), w, 1);
      assert child[1] == WriteEnd(i) && child[0] == if i == 0 then Terminal else ReadEnd(i - 1);
      done := SpawnProc(input, w, stage);
      fds := fds - {w};
      input' := r;
    }

    /** One turn of the loop, for a stage whose vector nextArg has just delivered. */
    method Turn(stage: Stage, ghost stages: seq<Stage>, ghost i: nat, input: nat) returns (done: bool, input': nat)
      requires i + 1 < |stages| && Ready(stages, i, input) && stage == stages[i]
      modifies this
      ensures done <==> |Composed(stages, typed, i + 1)| <= capacity
      ensures done ==> Ready(stages, i + 1, input')
      ensures
        var output := Joined(stage(if i == 0 then typed else old(pipes)[i - 1]));
        && (done <==> |output| <= capacity)
        && (done ==> |pipes| == i + 1 && pipes[i] == output && input' in fds && fds[input'] == ReadEnd(i))
        && (done ==> forall d :: d in fds ==> !fds[d].WriteEnd?)
    {
      hide Composed, Joined;
      ComposedNext(stages, i);
      done, input' := Wire(stage, i, input);
    }

    /** The exec of the last stage in the process itself, behind dup2(in, 0) if there was a pipe. */
    method LastStage(stage: Stage, ghost stages: seq<Stage>, input: nat) returns (output: string)
      requires stages != [] && Ready(stages, |stages| - 1, input) && stage == stages[|stages| - 1]
      modifies this
      ensures output == Composed(stages, typed, |stages|)
      ensures output == Joined(stage(if |stages| == 1 then typed else old(pipes)[|stages| - 2]))
    {
      if input != 0 {
        fds := fds[0 := fds[input]];
      }
      var done;
      done, output := Exec(fds, stage);
      assert done;
    }

    /** What a pipeline of these stages comes to. */
    ghost predicate ComesTo(stages: seq<Stage>, r: Outcome)
      requires stages != []
    {
      match r
      case Finished(output) => Fit(stages, typed, capacity, |stages| - 1) && output == Composed(stages, typed, |stages|)
      case Stuck(i) => i + 1 < |stages| && Fit(stages, typed, capacity, i) && |Composed(stages, typed, i + 1)| > capacity
      case NoCommand => false
    }

    /** The stages determine the outcome: it finishes exactly if every output passed through a pipe fits. */
    lemma OneOutcome(stages: seq<Stage>, r: Outcome, r': Outcome)
      requires stages != [] && ComesTo(stages, r)
      ensures r.Finished? <==> Fit(stages, typed, capacity, |stages| - 1)
      ensures r != NoCommand && (ComesTo(stages, r') ==> r' == r)
    {
      hide Composed;
      if r.Stuck? {
        FitShrinks(stages, r.stage + 1, |stages| - 1);
      }
    }

    /** `outs[0]` is what is typed, and `outs[i + 1]` what program number `i` writes when it reads `outs[i]`; the
        pipeline has finished with the last of them if all between fit a pipe, or stands still at the first
        that does not. */
    ghost predicate PassedOn(vectors: seq<seq<string>>, outs: seq<string>, r: Outcome) {
      && |outs| == |vectors| + 1 && outs[0] == typed
      && (forall i :: 0 <= i < |vectors| ==> outs[i + 1] == Joined(program(vectors[i])(outs[i])))
      && match r
         case Finished(output) => output == outs[|vectors|] && forall j :: 1 <= j < |vectors| ==> |outs[j]| <= capacity
         case Stuck(i) =>
           i + 1 < |vectors| && |outs[i + 1]| > capacity && forall j :: 1 <= j <= i ==> |outs[j]| <= capacity
         case NoCommand => false
    }

    lemma ComposedIsPassedOn(vectors: seq<seq<string>>, r: Outcome) returns (outs: seq<string>)
      requires vectors != [] && ComesTo(Stages(program, vectors), r)
      ensures PassedOn(vectors, outs, r)
    {
      var stages := Stages(program, vectors);
      outs := seq(|vectors| + 1, j requires 0 <= j <= |vectors| => Composed(stages, typed, j));
      forall i | 0 <= i < |vectors|
        ensures outs[i + 1] == Joined(program(vectors[i])(outs[i]))
      {
        assert outs[i + 1] == Composed(stages, typed, i + 1) && stages[i] == program(vectors[i]);
      }
      assert forall j :: 1 <= j <= |vectors| ==> outs[j] == Composed(stages, typed, j);
    }

    /** One call of nextArg, and the program that the vector then names. */
    method NextStage(a: array<Ptr>, temp: array<Ptr>, nextPipe: nat, ghost args: seq<string>, ghost vectors: seq<seq<string>>, ghost i: nat)
      returns (stage: Stage, nextPipe': nat)
      requires HoldsArgs(a[..], args) && temp.Length == SIZE && temp != a
      requires i < |vectors| && Delivering(vectors, i, args, nextPipe, temp[..])
      modifies temp
      ensures stage == program(vectors[i]) && Delivering(vectors, i + 1, args, nextPipe', temp[..])
    {
      hide HoldsArgs, Delivering, Segment, Cursor, SegEnd;
      NextDelivered(vectors, i, args, nextPipe, temp[..], temp[..]);
      ghost var before := temp[..];
      var vector;
      vector, nextPipe' := NextVector(a, temp, nextPipe, args, if i == 0 then [] else vectors[i - 1]);
      NextDelivered(vectors, i, args, nextPipe, before, temp[..]);
      stage := program(vector);
    }

    /** The pipeline loop and the exec of the last stage. */
    method RunLoop(a: array<Ptr>, temp: array<Ptr>, pipeCounter: nat, ghost args: seq<string>, ghost vectors: seq<seq<string>>)
      returns (r: Outcome)
      requires HoldsArgs(a[..], args) && temp.Length == SIZE && temp != a
      requires |vectors| == pipeCounter + 1 && Delivering(vectors, 0, args, 0, temp[..])
      requires fds == map[0 := Terminal, 1 := Terminal, 2 := Terminal] && pipes == []
      modifies this, temp
      ensures ComesTo(Stages(program, vectors), r)
    {
      hide Ready, Fit, Composed, HoldsArgs, Delivering;
      ghost var stages := Stages(program, vectors);
      var input: nat, nextPipe: nat := 0, 0;
      StartsReady(stages);
      for i := 0 to pipeCounter
        invariant Ready(stages, i, input) && Fit(stages, typed, capacity, i)
        invariant Delivering(vectors, i, args, nextPipe, temp[..])
      {
        var stage;
        stage, nextPipe := NextStage(a, temp, nextPipe, args, vectors, i);
        FitNext(stages, i);
        var done;
        done, input := Turn(stage, stages, i, input);
        if !done {
          return Stuck(i);
        }
      }
      var stage;
      stage, nextPipe := NextStage(a, temp, nextPipe, args, vectors, pipeCounter);
      var output := LastStage(stage, stages, input);
      r := Finished(output);
    }

    /** The loop computes the composition of the stages exactly if every output passed through a pipe fits it;
        otherwise it waits for ever for the first stage whose output does not. */
    method RunStages(a: array<Ptr>, temp: array<Ptr>, pipeCounter: nat, ghost args: seq<string>, ghost vectors: seq<seq<string>>)
      returns (r: Outcome, ghost outs: seq<string>)
      requires HoldsArgs(a[..], args) && temp.Length == SIZE && temp != a
      requires |vectors| == pipeCounter + 1 && Delivering(vectors, 0, args, 0, temp[..])
      requires fds == map[0 := Terminal, 1 := Terminal, 2 := Terminal] && pipes == []
      modifies this, temp
      ensures ComesTo(Stages(program, vectors), r) && PassedOn(vectors, outs, r)
    {
      r := RunLoop(a, temp, pipeCounter, args, vectors);
      outs := ComposedIsPassedOn(vectors, r);
    }

    /** A pipeline on an argument vector.  If no segment is empty its stages are the programs that the
        segments name; in general they are those of the vectors that nextArg delivers. */
    method RunPipeline(a: array<Ptr>, temp: array<Ptr>, ghost args: seq<string>)
      returns (r: Outcome, ghost ranges: seq<Range>, ghost vectors: seq<seq<string>>, ghost outs: seq<string>)
      requires HoldsArgs(a[..], args) && temp.Length == SIZE && temp != a
      requires fds == map[0 := Terminal, 1 := Terminal, 2 := Terminal] && pipes == []
      modifies this, temp
      ensures r == NoCommand <==> args == [] || args[0] == "|"
      ensures BetweenPipes(args, 0, ranges)
      ensures r != NoCommand ==> TakenFrom(args, ranges, vectors, []) && PassedOn(vectors, outs, r)
      ensures r != NoCommand ==> CallsLeft(args, 0, Pipes(args, 0) + 1)
                                 && ComesTo(Stages(program, Delivered(args, 0, Pipes(args, 0) + 1, [])), r)
      ensures [] !in Segments(args, 0) ==> ComesTo(Stages(program, Segments(args, 0)), r)
    {
      hide ComesTo, Segments, Pipes, Delivered, BetweenPipes, TakenFrom, PassedOn;
      ranges := FindRanges(args, 0);
      DeliveredFrom(args, 0, ranges, []);
      assert a[..][0] == a[0];
      FirstSegment(args);
      if a[0] == Null || a[0] == Str(PIPE) {
        return NoCommand, ranges, [], [];
      }
      var _, pipeCounter := SearchForPipe(a, false, 0, args);
      DeliveredIff(args, 0, []);
      vectors := Delivered(args, 0, pipeCounter + 1, []);
      r, outs := RunStages(a, temp, pipeCounter, args, vectors);
      OneOutcome(Stages(program, vectors), r, r);
    }
  }

  /** A witness: a first stage that writes one character more than fits its pipe is waited for for ever. */
  lemma OverfullExample(capacity: nat, typed: string, last: Stage)
    ensures
      var first: Stage := input => [seq(capacity + 1, i => 'x')];
      !Fit([first, last], typed, capacity, 1)
  {
    var first: Stage := input => [seq(capacity + 1, i => 'x')];
    var writes := first(typed);
    assert Composed([first, last], typed, 1) == Joined(writes) == Joined([]) + writes[0];
  }
}
