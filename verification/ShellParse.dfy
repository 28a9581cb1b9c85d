/**
 parseArguments of the shell, on the command buffer itself: strsep writes NULs into the buffer, and
 the arrays hold offsets into it.
 */
module ShellParse {
  import opened Prelude
  import opened ShellTokens

  /** The string at offset `p` of a buffer: the characters up to the first NUL. */
  function CStr(buf: seq<char>, p: nat): string
    requires p <= |buf|
    decreases |buf| - p
  {
    if p == |buf| || buf[p] == NUL then "" else [buf[p]] + CStr(buf, p + 1)
  }

  /** A command line as fgets leaves it: `line`, a NUL, and whatever was there before. */
  predicate HoldsLine(buf: seq<char>, line: string) {
    && |buf| == SIZE && |line| < SIZE
    && buf[|line|] == NUL
    && forall k :: 0 <= k < |line| ==> buf[k] == line[k] != NUL
  }

  /** The buffer after every delimiter before offset `n` has been overwritten. */
  function Cut(buf: seq<char>, n: nat): (cut: seq<char>)
    ensures |cut| == |buf|
  {
    seq(|buf|, k requires 0 <= k < |buf| => if k < n && IsDelim(buf[k]) then NUL else buf[k])
  }

  /** strsep's pointer after a call at `w`. */
  function Next(line: string, w: int): (w': int)
    requires w == NULL || 0 <= w <= |line|
    ensures w' == NULL || 0 <= w < w' <= |line|
  {
    if w == NULL || w + Span(line[w..]) == |line| then NULL else w + Span(line[w..]) + 1
  }

  lemma NextIs(line: string, w: nat, e: nat)
    requires w <= e <= |line| && forall k :: w <= k < e ==> !IsDelim(line[k])
    requires e < |line| ==> IsDelim(line[e])
    ensures Next(line, w) == if e == |line| then NULL else e + 1
  {
    assert e < |line| ==> line[w..][e - w] == line[e];
  }

  /** strsep(&w, DELIMS): returns the piece that starts at `w`, ends it with a NUL and moves `w` past it. */
  method Strsep(buf: array<char>, w: int, ghost line: string, ghost orig: seq<char>) returns (piece: int, w': int)
    requires HoldsLine(orig, line) && buf.Length == SIZE
    requires w == NULL || (0 <= w <= |line| && buf[..] == Cut(orig, w))
    modifies buf
    ensures piece == w && w' == Next(line, w)
    ensures buf[..] == if w == NULL then old(buf[..]) else Cut(orig, if w' == NULL then |line| else w')
  {
    piece := w;
    if w == NULL {
      return w, NULL;
    }
    var e := w;
    while buf[e] != NUL && !IsDelim(buf[e])
      invariant w <= e <= |line| && forall k :: w <= k < e ==> !IsDelim(line[k])
      invariant buf[..] == old(buf[..])
      decreases SIZE - e
    {
      assert buf[..][e] == orig[e];
      e := e + 1;
    }
    assert buf[..][e] == orig[e];
    NextIs(line, w, e);
    if buf[e] == NUL {
      w' := NULL;
    } else {
      buf[e] := NUL;
      w' := e + 1;
    }
  }

  // ----- The pieces as C strings -----

  lemma {:induction false} CStrOfRun(buf: seq<char>, p: nat, e: nat)
    requires p <= e < |buf| && buf[e] == NUL && forall k :: p <= k < e ==> buf[k] != NUL
    ensures CStr(buf, p) == buf[p..e]
    decreases e - p
  {
    if p == e {
    } else {
      CStrOfRun(buf, p + 1, e);
      assert buf[p..e] == [buf[p]] + buf[p + 1..e];
    }
  }

  /** At offset `p` stands the string `w`, ended by a NUL. */
  predicate HoldsString(buf: seq<char>, p: int, w: string) {
    0 <= p && p + |w| < |buf| && buf[p..p + |w|] == w && buf[p + |w|] == '\0' && '\0' !in w
  }

  /** Reading there gives that string. */
  lemma ReadsString(buf: seq<char>, p: int, w: string)
    requires HoldsString(buf, p, w)
    ensures 0 <= p <= |buf| && CStr(buf, p) == w
  {
    forall k | p <= k < p + |w|
      ensures buf[k] != NUL
    {
      assert buf[k] == buf[p..p + |w|][k - p];
    }
    CStrOfRun(buf, p, p + |w|);
  }

  lemma CutCells(orig: seq<char>, line: string)
    requires HoldsLine(orig, line)
    ensures forall k :: 0 <= k <= |line| ==> Cut(orig, |line|)[k] == if k < |line| && !IsDelim(line[k]) then line[k] else NUL
  {
  }

  lemma FirstPiece(orig: seq<char>, line: string, off: nat)
    requires HoldsLine(orig, line) && off <= |line|
    ensures HoldsString(Cut(orig, |line|), off, line[off..][..Span(line[off..])])
  {
    var n := Span(line[off..]);
    var cut := Cut(orig, |line|);
    CutCells(orig, line);
    assert |cut| == SIZE;
    hide Cut;
    forall k | 0 <= k < n
      ensures cut[off + k] == line[off..][k] != NUL
    {
      assert line[off + k] == line[off..][k];
    }
    assert off + n < |line| ==> line[off..][n] == line[off + n];
    assert cut[off..off + n] == line[off..][..n];
  }

  /** strsep's pointer after `n` calls: where piece `n` starts, or NULL after the last. */
  function Pointer(line: string, n: nat): (w: int)
    ensures w == NULL || 0 <= w <= |line|
  {
    if n == 0 then 0 else Next(line, Pointer(line, n - 1))
  }

  lemma SplitStep(line: string, w: nat)
    requires w <= |line|
    ensures Split(line[w..])[0] == line[w..][..Span(line[w..])]
    ensures Next(line, w) == NULL ==> |Split(line[w..])| == 1
    ensures Next(line, w) != NULL ==> Split(line[w..])[1..] == Split(line[Next(line, w)..])
  {
    var s := line[w..];
    if Span(s) < |s| {
      assert s[Span(s) + 1..] == line[w + Span(s) + 1..];
    } else {
      assert s[..Span(s)] == s;
    }
  }

  /** What is left of the line at strsep's pointer splits into what is left of the pieces. */
  lemma {:induction false} PointerSplits(line: string, n: nat)
    requires n <= |Split(line)|
    ensures Pointer(line, n) == NULL <==> n == |Split(line)|
    ensures n < |Split(line)| ==> Split(line[Pointer(line, n)..]) == Split(line)[n..]
  {
    hide Split, Next, Span;
    if n == 0 {
      assert line[0..] == line;
    } else {
      PointerSplits(line, n - 1);
      SplitStep(line, Pointer(line, n - 1));
      assert n < |Split(line)| ==> Split(line)[n - 1..][1..] == Split(line)[n..];
    }
  }

  /** Once the line is cut, the offset of a piece is a C string equal to the piece. */
  lemma PieceAt(orig: seq<char>, line: string, i: nat)
    requires HoldsLine(orig, line) && i < |Split(line)|
    ensures 0 <= Pointer(line, i) <= |line| < SIZE == |orig|
    ensures HoldsString(Cut(orig, |line|), Pointer(line, i), Split(line)[i])
  {
    hide Cut, HoldsString, Split, Next, Pointer, Span;
    PointerSplits(line, i);
    FirstPiece(orig, line, Pointer(line, i));
    SplitStep(line, Pointer(line, i));
    assert Split(line)[i..][0] == Split(line)[i];
  }

  // ----- parseArguments -----

  /** The pointer is NULL after the last piece and not before. */
  lemma PointerEnds(line: string, n: nat)
    requires n <= |Split(line)|
    ensures Pointer(line, n) == NULL <==> n == |Split(line)|
  {
    PointerSplits(line, n);
  }

  lemma CutStarts(orig: seq<char>, line: string)
    requires HoldsLine(orig, line)
    ensures Cut(orig, 0) == orig && Pointer(line, 0) == 0
    ensures |orig| == SIZE && 0 < |Split(line)| <= SIZE
  {
    PiecesFitIff(line);
  }

  lemma PointerNext(line: string, n: nat)
    ensures Pointer(line, n + 1) == Next(line, Pointer(line, n))
  {
  }

  /** The first loop: every piece of the line is cut off and its offset stored, then a null pointer, if
      the array has room for it. */
  method CutLine(buf: array<char>, bufArgs: array<int>, ghost line: string)
    requires HoldsLine(buf[..], line) && bufArgs.Length == SIZE
    modifies buf, bufArgs
    ensures buf[..] == Cut(old(buf[..]), |line|) && |Split(line)| <= SIZE
    ensures forall i :: 0 <= i <= |Split(line)| && i < SIZE ==> bufArgs[i] == Pointer(line, i)
  {
    hide Cut, HoldsLine, Split, Pointer, Next, Span;
    ghost var orig := buf[..];
    CutStarts(orig, line);
    var w, cp := 0, 0;
    while true
      invariant cp < SIZE && cp <= |Split(line)| && w == Pointer(line, cp)
      invariant buf[..] == Cut(orig, if w == NULL then |line| else w)
      invariant forall k :: 0 <= k < cp ==> bufArgs[k] == Pointer(line, k)
      decreases SIZE - cp
    {
      PointerEnds(line, cp);
      var piece, w' := Strsep(buf, w, line, orig);
      bufArgs[cp] := piece;
      if piece == NULL {
        break;
      }
      PointerNext(line, cp);
      w, cp := w', cp + 1;
      PointerEnds(line, cp);
      if cp >= SIZE {
        break;
      }
    }
  }

  /** What the first loop leaves for the second: the array holds the offsets of the pieces, then NULL. */
  ghost predicate Stored(buf: seq<char>, bufArgs: seq<int>, pieces: seq<string>) {
    && |pieces| <= |bufArgs| == SIZE
    && (forall i :: 0 <= i < |pieces| ==> HoldsString(buf, bufArgs[i], pieces[i]))
    && (|pieces| < SIZE ==> bufArgs[|pieces|] == NULL)
  }

  lemma StoredAt(buf: seq<char>, bufArgs: seq<int>, pieces: seq<string>, i: nat)
    requires Stored(buf, bufArgs, pieces) && i <= |pieces|
    ensures |pieces| <= SIZE == |bufArgs|
    ensures i < SIZE ==> (bufArgs[i] == NULL <==> i == |pieces|)
    ensures i < |pieces| ==> HoldsString(buf, bufArgs[i], pieces[i])
    ensures i < |pieces| ==> 0 <= bufArgs[i] <= |buf| && CStr(buf, bufArgs[i]) == pieces[i]
  {
    if i < |pieces| {
      ReadsString(buf, bufArgs[i], pieces[i]);
    }
  }

  lemma PiecesAreStored(orig: seq<char>, line: string, bufArgs: seq<int>)
    requires HoldsLine(orig, line) && |Split(line)| <= |bufArgs| == SIZE
    requires forall i :: 0 <= i <= |Split(line)| && i < SIZE ==> bufArgs[i] == Pointer(line, i)
    ensures Stored(Cut(orig, |line|), bufArgs, Split(line))
  {
    hide Split, HoldsString, Cut, Pointer, HoldsLine;
    PointerEnds(line, |Split(line)|);
    forall i | 0 <= i < |Split(line)|
      ensures HoldsString(Cut(orig, |line|), bufArgs[i], Split(line)[i])
    {
      PieceAt(orig, line, i);
    }
  }

  /** The state of the second loop. */
  datatype Parse = Parse(args: seq<int>, numArgs: nat, timeFlag: bool, ampersandFlag: bool)

  /** One turn of the second loop, at an offset where it reads `s`. */
  function Take(p: Parse, offset: int, s: string): Parse
    requires p.numArgs < |p.args|
  {
    if s == MYTIME then p.(timeFlag := true)
    else if s == AMPERSAND then p.(ampersandFlag := true)
    else if |s| > 0 then p.(args := p.args[p.numArgs := offset], numArgs := p.numArgs + 1)
    else p
  }

  ghost predicate Collected(buf: seq<char>, args: seq<int>, kept: seq<string>) {
    |kept| <= |args| && forall l :: 0 <= l < |kept| ==> HoldsString(buf, args[l], kept[l])
  }

  /** What the second loop has done after `i` pieces, when it started in `start`. */
  ghost predicate Gathered(buf: seq<char>, pieces: seq<string>, start: Parse, i: nat, p: Parse) {
    && i <= |pieces| && |p.args| == SIZE
    && p.numArgs == |Kept(pieces[..i])| <= i
    && Collected(buf, p.args, Kept(pieces[..i]))
    && p.timeFlag == (start.timeFlag || MYTIME in pieces[..i])
    && p.ampersandFlag == (start.ampersandFlag || AMPERSAND in pieces[..i])
  }

  lemma StartGathers(buf: seq<char>, pieces: seq<string>, start: Parse)
    requires |start.args| == SIZE && start.numArgs == 0
    ensures Gathered(buf, pieces, start, 0, start)
  {
    assert pieces[..0] == [];
  }

  lemma KeptStep(pieces: seq<string>, i: nat)
    requires i < |pieces|
    ensures pieces[..i + 1] == pieces[..i] + [pieces[i]]
    ensures Kept(pieces[..i + 1]) ==
            if pieces[i] != "" && IsArg(pieces[i]) then Kept(pieces[..i]) + [pieces[i]] else Kept(pieces[..i])
  {
    assert pieces[..i + 1][..i] == pieces[..i];
  }

  lemma TakeGathers(buf: seq<char>, pieces: seq<string>, start: Parse, i: nat, p: Parse, offset: int)
    requires Gathered(buf, pieces, start, i, p) && i < |pieces| && i < SIZE
    requires HoldsString(buf, offset, pieces[i])
    ensures Gathered(buf, pieces, start, i + 1, Take(p, offset, pieces[i]))
  {
    hide Kept, HoldsString;
    KeptStep(pieces, i);
  }

  lemma NullEnds(buf: seq<char>, pieces: seq<string>, start: Parse, p: Parse)
    requires Gathered(buf, pieces, start, |pieces|, p) && |pieces| < SIZE
    ensures p.numArgs == |Kept(pieces)| < SIZE && Collected(buf, p.args[p.numArgs := NULL], Kept(pieces))
    ensures p.timeFlag == (start.timeFlag || MYTIME in pieces)
    ensures p.ampersandFlag == (start.ampersandFlag || AMPERSAND in pieces)
  {
    assert pieces[..|pieces|] == pieces;
  }

  /** The body of the second loop. */
  method TakePiece(buf: array<char>, args: array<int>, offset: int, numArgs: nat, timeFlag: bool, ampersandFlag: bool)
    returns (numArgs': nat, timeFlag': bool, ampersandFlag': bool)
    requires 0 <= offset <= buf.Length && numArgs < args.Length
    modifies args
    ensures Parse(args[..], numArgs', timeFlag', ampersandFlag') ==
            Take(Parse(old(args[..]), numArgs, timeFlag, ampersandFlag), offset, CStr(buf[..], offset))
    ensures numArgs' <= numArgs + 1
  {
    hide CStr;
    numArgs', timeFlag', ampersandFlag' := numArgs, timeFlag, ampersandFlag;
    var s := CStr(buf[..], offset);
    if s == MYTIME {
      timeFlag' := true;
    } else if s == AMPERSAND {
      ampersandFlag' := true;
    } else if |s| > 0 {
      args[numArgs] := offset;
      numArgs' := numArgs + 1;
    }
  }

  /** The second loop: the words among the pieces are collected, and the two special words set their flags.
      `ok` is false when the loop runs off the end of the array of pointers. */
  method CollectArgs(buf: array<char>, bufArgs: array<int>, args: array<int>, timeFlag: bool, ampersandFlag: bool,
                     ghost pieces: seq<string>)
    returns (ok: bool, numArgs: nat, timeFlag': bool, ampersandFlag': bool)
    requires Stored(buf[..], bufArgs[..], pieces)
    requires args.Length == bufArgs.Length == SIZE && args != bufArgs
    modifies args
    ensures ok <==> |pieces| < SIZE
    ensures ok ==> numArgs == |Kept(pieces)| < SIZE && args[numArgs] == NULL
    ensures ok ==> Collected(buf[..], args[..], Kept(pieces))
    ensures ok ==> timeFlag' == (timeFlag || MYTIME in pieces)
    ensures ok ==> ampersandFlag' == (ampersandFlag || AMPERSAND in pieces)
  {
    ghost var text := buf[..];
    ghost var start := Parse(args[..], 0, timeFlag, ampersandFlag);
    StartGathers(text, pieces, start);
    hide CStr, Kept, Gathered, Collected, Stored, HoldsString, Take;
    var i: nat, j: nat := 0, 0;
    timeFlag', ampersandFlag' := timeFlag, ampersandFlag;
    while true
      invariant j <= i <= |pieces|
      invariant Gathered(text, pieces, start, i, Parse(args[..], j, timeFlag', ampersandFlag'))
      decreases |pieces| - i
    {
      StoredAt(text, bufArgs[..], pieces, i);
      if i == SIZE {
        return false, j, timeFlag', ampersandFlag';
      }
      if bufArgs[i] == NULL {
        break;
      }
      TakeGathers(text, pieces, start, i, Parse(args[..], j, timeFlag', ampersandFlag'), bufArgs[i]);
      j, timeFlag', ampersandFlag' := TakePiece(buf, args, bufArgs[i], j, timeFlag', ampersandFlag');
      i := i + 1;
    }
    NullEnds(text, pieces, start, Parse(args[..], j, timeFlag', ampersandFlag'));
    ghost var before := args[..];
    args[j] := NULL;
    assert args[..] == before[j := NULL];
    ok, numArgs := true, j;
  }

  /** parseArguments, on a command buffer that holds `line`.  The words of the line are at `ranges`, and those at
      the positions `kept` become the arguments.  The code fails, by reading past its array of pointers,
      exactly on the lines of the longest length that hold nothing but delimiters. */
  method ParseArguments(buf: array<char>, args: array<int>, timeFlag: bool, ampersandFlag: bool, ghost line: string)
    returns (ok: bool, numArgs: nat, timeFlag': bool, ampersandFlag': bool,
             ghost ranges: seq<Range>, ghost words: seq<string>, ghost kept: seq<nat>)
    requires HoldsLine(buf[..], line) && args.Length == SIZE
    modifies buf, args
    ensures ok <==> !(|line| == 1023 && forall k :: 0 <= k < |line| ==>
                        line[k] == ' ' || line[k] == '\t' || line[k] == '\r' || line[k] == '\n')
    ensures WordsAt(line, 0, ranges) && |words| == |ranges|
    ensures forall i :: 0 <= i < |ranges| ==> ranges[i].lo <= ranges[i].hi <= |line| && words[i] == line[ranges[i].lo..ranges[i].hi]
    ensures Chosen(words, kept, Args(line))
    ensures ok ==> numArgs == |Args(line)| <= 512 && args[numArgs] == NULL
    ensures ok ==> forall j :: 0 <= j < numArgs ==> HoldsString(buf[..], args[j], Args(line)[j])
    ensures ok ==> timeFlag' == (timeFlag || "mytime" in words)
    ensures ok ==> ampersandFlag' == (ampersandFlag || "&" in words)
  {
    ghost var orig := buf[..];
    ranges := FindWords(line, 0);
    words, kept := ArgsAre(line, ranges);
    var bufArgs := new int[SIZE];
    CutLine(buf, bufArgs, line);
    PiecesAreStored(orig, line, bufArgs[..]);
    ok, numArgs, timeFlag', ampersandFlag' := CollectArgs(buf, bufArgs, args, timeFlag, ampersandFlag, Split(line));
    PiecesFitIff(line);
    ArgsAreFew(line);
    KeptPiecesAreArgs(line);
    assert forall i :: 0 <= i < |ranges| ==> words[i] == line[ranges[0 + i].lo..ranges[0 + i].hi];
  }
}
