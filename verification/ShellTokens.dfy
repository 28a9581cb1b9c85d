/**
 The tokenizer of the shell of Assignment1: a command line is cut in place at its delimiters, and the
 pieces that are words become the arguments.
 */
module ShellTokens {
  import opened Prelude

  const SIZE := 1024
  const NUL: char := '\0'
  const NULL := -1 // a null pointer; other pointers into the command buffer are offsets

  predicate IsDelim(c: char) {
    c == ' ' || c == '\t' || c == '\r' || c == '\n'
  }

  // ----- What the tokenizer is for -----

  /** The number of characters before the first delimiter. */
  function Span(s: string): (n: nat)
    ensures n <= |s| && (forall k :: 0 <= k < n ==> !IsDelim(s[k])) && (n < |s| ==> IsDelim(s[n]))
  {
    if s == [] || IsDelim(s[0]) then 0 else 1 + Span(s[1..])
  }

  /** The maximal runs of non-delimiters, in order. */
  function Words(s: string): seq<string> {
    if s == [] then []
    else if IsDelim(s[0]) then Words(s[1..])
    else [s[..Span(s)]] + Words(s[Span(s)..])
  }

  const MYTIME := "mytime"
  const AMPERSAND := "&"

  predicate IsArg(w: string) {
    w != MYTIME && w != AMPERSAND
  }

  function Select(words: seq<string>): seq<string> {
    if words == [] then []
    else Select(words[..|words| - 1]) + if IsArg(words[|words| - 1]) then [words[|words| - 1]] else []
  }

  /** The arguments of a command line. */
  function Args(line: string): seq<string> {
    Select(Words(line))
  }

  // ----- What the code does: cut at every delimiter, empty pieces included -----

  function Split(s: string): (pieces: seq<string>)
    ensures pieces != []
  {
    var n := Span(s);
    if n == |s| then [s] else [s[..n]] + Split(s[n + 1..])
  }

  function NonEmpty(pieces: seq<string>): seq<string> {
    if pieces == [] then []
    else if pieces[0] == "" then NonEmpty(pieces[1..])
    else [pieces[0]] + NonEmpty(pieces[1..])
  }

  /** Dropping the empty pieces leaves the words. */
  lemma {:induction false} NonEmptyPiecesAreWords(s: string)
    ensures NonEmpty(Split(s)) == Words(s)
    decreases |s|
  {
    var n := Span(s);
    if n == |s| {
      if s != [] {
        assert s[..n] == s && s[n..] == [];
      }
    } else {
      NonEmptyPiecesAreWords(s[n + 1..]);
      if n > 0 {
        assert Words(s[n..]) == Words(s[n..][1..]) && s[n..][1..] == s[n + 1..];
      }
    }
  }

  function Delims(s: string): nat {
    if s == [] then 0 else Delims(s[1..]) + if IsDelim(s[0]) then 1 else 0
  }

  lemma {:induction false} DelimsOfParts(s: string, n: nat)
    requires n <= |s| && forall k :: 0 <= k < n ==> !IsDelim(s[k])
    ensures Delims(s) == Delims(s[n..])
  {
    if n > 0 {
      DelimsOfParts(s[1..], n - 1);
      assert s[1..][n - 1..] == s[n..];
    } else {
      assert s[0..] == s;
    }
  }

  lemma {:induction false} PieceCount(s: string)
    ensures |Split(s)| == Delims(s) + 1
    decreases |s|
  {
    var n := Span(s);
    DelimsOfParts(s, n);
    if n == |s| {
    } else {
      PieceCount(s[n + 1..]);
      assert s[n..][1..] == s[n + 1..];
    }
  }

  lemma {:induction false} DelimsBound(s: string)
    ensures Delims(s) <= |s|
    ensures Delims(s) == |s| <==> forall k :: 0 <= k < |s| ==> IsDelim(s[k])
  {
    if s == [] {
    } else {
      DelimsBound(s[1..]);
      assert (forall k :: 0 <= k < |s| ==> IsDelim(s[k])) <==> IsDelim(s[0]) && forall k :: 0 <= k < |s[1..]| ==> IsDelim(s[1..][k]);
    }
  }

  /** The pieces of a line leave room for the end marker in an array of SIZE pointers, unless the line
      is as long as it can be and holds nothing but delimiters. */
  lemma PiecesFitIff(line: string)
    requires |line| < SIZE
    ensures |Split(line)| <= SIZE
    ensures |Split(line)| < SIZE <==> !(|line| == SIZE - 1 && forall k :: 0 <= k < |line| ==> IsDelim(line[k]))
  {
    PieceCount(line);
    DelimsBound(line);
  }

  /** A witness: on 1023 blanks the pieces fill the array and leave no room for the end marker. */
  lemma BlankLineExample()
    ensures |Split(seq(1023, i => ' '))| == 1024 == SIZE
  {
    PiecesFitIff(seq(SIZE - 1, i => ' '));
  }

  /** What the loop over the pieces keeps. */
  function Kept(pieces: seq<string>): seq<string> {
    if pieces == [] then []
    else
      var p := pieces[|pieces| - 1];
      Kept(pieces[..|pieces| - 1]) + if p != "" && IsArg(p) then [p] else []
  }

  lemma {:induction false} NonEmptyOfAppend(pieces: seq<string>, p: string)
    ensures NonEmpty(pieces + [p]) == NonEmpty(pieces) + if p == "" then [] else [p]
  {
    if pieces == [] {
      assert pieces + [p] == [p];
    } else {
      NonEmptyOfAppend(pieces[1..], p);
      assert (pieces + [p])[1..] == pieces[1..] + [p];
    }
  }

  lemma SelectOfAppend(words: seq<string>, w: string)
    ensures Select(words + [w]) == Select(words) + if IsArg(w) then [w] else []
  {
    assert (words + [w])[..|words|] == words;
  }

  lemma {:induction false} KeptIsSelected(pieces: seq<string>)
    ensures Kept(pieces) == Select(NonEmpty(pieces))
  {
    if pieces == [] {
    } else {
      var n := |pieces| - 1;
      KeptIsSelected(pieces[..n]);
      NonEmptyOfAppend(pieces[..n], pieces[n]);
      assert pieces == pieces[..n] + [pieces[n]];
      if pieces[n] != "" {
        SelectOfAppend(NonEmpty(pieces[..n]), pieces[n]);
      } else {
        assert NonEmpty(pieces) == NonEmpty(pieces[..n]);
        assert Kept(pieces) == Kept(pieces[..n]);
      }
    }
  }

  lemma {:induction false} NonEmptyMembers(pieces: seq<string>, p: string)
    requires p != ""
    ensures p in pieces <==> p in NonEmpty(pieces)
  {
    if pieces == [] {
    } else {
      NonEmptyMembers(pieces[1..], p);
      assert pieces == [pieces[0]] + pieces[1..];
    }
  }

  /** The loop over the pieces keeps the arguments, and meets the two special words exactly if they are words of the line. */
  lemma KeptPiecesAreArgs(line: string)
    ensures Kept(Split(line)) == Args(line)
    ensures MYTIME in Split(line) <==> MYTIME in Words(line)
    ensures AMPERSAND in Split(line) <==> AMPERSAND in Words(line)
  {
    NonEmptyPiecesAreWords(line);
    KeptIsSelected(Split(line));
    NonEmptyMembers(Split(line), MYTIME);
    NonEmptyMembers(Split(line), AMPERSAND);
  }

  // ----- Bounds and the round trip -----

  predicate IsWord(w: string) {
    w != "" && forall k :: 0 <= k < |w| ==> !IsDelim(w[k])
  }

  /** The length of the words joined by single spaces. */
  function JoinedLength(words: seq<string>): int {
    if words == [] then -1 else |words[0]| + 1 + JoinedLength(words[1..])
  }

  function Join(words: seq<string>): string {
    if words == [] then ""
    else if |words| == 1 then words[0]
    else words[0] + " " + Join(words[1..])
  }

  lemma {:induction false} WordsAreWords(s: string)
    ensures forall i :: 0 <= i < |Words(s)| ==> IsWord(Words(s)[i])
    ensures JoinedLength(Words(s)) <= |s|
    decreases |s|
  {
    if s == [] {
    } else {
      if IsDelim(s[0]) {
        WordsAreWords(s[1..]);
      } else {
        var n := Span(s);
        WordsAreWords(s[n..]);
        if n < |s| {
          assert Words(s[n..]) == Words(s[n..][1..]);
          WordsAreWords(s[n..][1..]);
        }
      }
    }
  }

  lemma {:induction false} JoinLength(words: seq<string>)
    requires words != []
    ensures |Join(words)| == JoinedLength(words)
  {
    if |words| > 1 {
      JoinLength(words[1..]);
    } else {
      assert words[1..] == [];
    }
  }

  /** At most every other character starts a word. */
  lemma {:induction false} WordsAreFew(words: seq<string>)
    requires forall i :: 0 <= i < |words| ==> IsWord(words[i])
    ensures 2 * |words| - 1 <= JoinedLength(words)
  {
    if words == [] {
    } else {
      WordsAreFew(words[1..]);
      assert IsWord(words[0]);
    }
  }

  lemma {:induction false} SpanOfWordThen(w: string, rest: string)
    requires IsWord(w) && (rest == [] || IsDelim(rest[0]))
    ensures Span(w + rest) == |w|
  {
    if |w| == 1 {
      assert (w + rest)[1..] == rest;
    } else {
      assert (w + rest)[1..] == w[1..] + rest;
      assert forall k :: 0 <= k < |w[1..]| ==> w[1..][k] == w[k + 1];
      SpanOfWordThen(w[1..], rest);
    }
  }

  /** Splitting words joined by single spaces gives the words back. */
  lemma {:induction false} WordsOfJoin(words: seq<string>)
    requires forall i :: 0 <= i < |words| ==> IsWord(words[i])
    ensures Words(Join(words)) == words
  {
    if words == [] {
    } else {
      var w := words[0];
      assert IsWord(w);
      var rest := if |words| == 1 then "" else " " + Join(words[1..]);
      assert Join(words) == w + rest;
      SpanOfWordThen(w, rest);
      assert (w + rest)[..|w|] == w && (w + rest)[|w|..] == rest;
      if |words| > 1 {
        WordsOfJoin(words[1..]);
        assert rest[1..] == Join(words[1..]);
        assert [w] + words[1..] == words;
      } else {
        assert words == [w];
      }
    }
  }

  lemma {:induction false} SelectKeeps(words: seq<string>, w: string)
    ensures w in Select(words) <==> w in words && IsArg(w)
  {
    if words == [] {
    } else {
      var n := |words| - 1;
      SelectKeeps(words[..n], w);
      assert words == words[..n] + [words[n]];
    }
  }

  lemma {:induction false} JoinedLengthOfAppend(words: seq<string>, w: string)
    ensures JoinedLength(words + [w]) == JoinedLength(words) + |w| + 1
  {
    if words == [] {
      assert ([] + [w])[1..] == [];
      assert words + [w] == [w];
    } else {
      assert (words + [w])[1..] == words[1..] + [w];
      JoinedLengthOfAppend(words[1..], w);
    }
  }

  lemma {:induction false} SelectIsShorter(words: seq<string>)
    ensures |Select(words)| <= |words|
    ensures JoinedLength(Select(words)) <= JoinedLength(words)
  {
    if words == [] {
    } else {
      var n := |words| - 1;
      SelectIsShorter(words[..n]);
      assert words == words[..n] + [words[n]];
      JoinedLengthOfAppend(words[..n], words[n]);
      if IsArg(words[n]) {
        JoinedLengthOfAppend(Select(words[..n]), words[n]);
      } else {
        assert Select(words) == Select(words[..n]);
      }
    }
  }

  lemma {:induction false} SelectAll(words: seq<string>)
    requires forall i :: 0 <= i < |words| ==> IsArg(words[i])
    ensures Select(words) == words
  {
    if words == [] {
    } else {
      var n := |words| - 1;
      SelectAll(words[..n]);
      assert words == words[..n] + [words[n]];
    }
  }

  /** Parsing the arguments joined by single spaces gives the same arguments and sets neither flag; the
      joined line is no longer than the one it came from. */
  lemma ReparseArgs(line: string)
    ensures Args(Join(Args(line))) == Args(line)
    ensures |Join(Args(line))| <= |line|
    ensures MYTIME !in Words(Join(Args(line))) && AMPERSAND !in Words(Join(Args(line)))
  {
    var args := Args(line);
    WordsAreWords(line);
    SelectIsShorter(Words(line));
    forall i | 0 <= i < |args|
      ensures IsWord(args[i]) && IsArg(args[i])
    {
      SelectKeeps(Words(line), args[i]);
    }
    WordsOfJoin(args);
    SelectAll(args);
    if args != [] {
      JoinLength(args);
    }
  }

  /** A line of the longest length has at most SIZE / 2 arguments. */
  lemma ArgsAreFew(line: string)
    requires |line| < SIZE
    ensures |Args(line)| <= |Words(line)| <= SIZE / 2
  {
    WordsAreWords(line);
    WordsAreFew(Words(line));
    SelectIsShorter(Words(line));
  }

  // ----- The words of a line, by their places -----

  predicate Inside(ranges: seq<Range>, k: int) {
    exists i :: 0 <= i < |ranges| && ranges[i].lo <= k < ranges[i].hi
  }

  /** From position `p` on, the ranges hold the characters that are no blank, tab, carriage return or newline,
      and no two ranges touch: they are the words. */
  ghost predicate WordsAt(line: string, p: nat, ranges: seq<Range>) {
    && (forall i :: 0 <= i < |ranges| ==> p <= ranges[i].lo < ranges[i].hi <= |line|)
    && (forall i, j :: 0 <= i < j < |ranges| ==> ranges[i].hi < ranges[j].lo)
    && (forall k :: p <= k < |line| ==>
          (line[k] == ' ' || line[k] == '\t' || line[k] == '\r' || line[k] == '\n' <==> !Inside(ranges, k)))
  }

  lemma InsideOfCons(r: Range, ranges: seq<Range>, k: int)
    ensures Inside([r] + ranges, k) <==> r.lo <= k < r.hi || Inside(ranges, k)
  {
    var ranges' := [r] + ranges;
    if r.lo <= k < r.hi {
      assert ranges'[0].lo <= k < ranges'[0].hi;
    }
    if Inside(ranges, k) {
      var i :| 0 <= i < |ranges| && ranges[i].lo <= k < ranges[i].hi;
      assert ranges'[i + 1].lo <= k < ranges'[i + 1].hi;
    }
  }

  /** A word in front of ranges that start behind it. */
  lemma OneMoreRange(line: string, p: nat, e: nat, ranges: seq<Range>)
    requires p < e <= |line| && WordsAt(line, e, ranges) && (e < |line| ==> IsDelim(line[e]))
    requires forall k :: p <= k < e ==> !IsDelim(line[k])
    ensures WordsAt(line, p, [Range(p, e)] + ranges)
  {
    var ranges' := [Range(p, e)] + ranges;
    assert forall i :: 0 <= i < |ranges| && ranges[i].lo == e ==> Inside(ranges, e);
    forall k | p <= k < |line|
      ensures IsDelim(line[k]) <==> !Inside(ranges', k)
    {
      InsideOfCons(Range(p, e), ranges, k);
      assert k < e ==> !Inside(ranges, k);
    }
  }

  /** Every line has its words somewhere. */
  lemma {:induction false} FindWords(line: string, p: nat) returns (ranges: seq<Range>)
    requires p <= |line|
    ensures WordsAt(line, p, ranges)
    decreases |line| - p
  {
    if p == |line| {
      ranges := [];
    } else if IsDelim(line[p]) {
      ranges := FindWords(line, p + 1);
      assert !Inside(ranges, p);
    } else {
      var e := p + Span(line[p..]);
      assert forall k :: p <= k < e ==> line[k] == line[p..][k - p];
      assert e < |line| ==> line[e] == line[p..][e - p];
      assert line[p..][0] == line[p];
      var rest := FindWords(line, e);
      OneMoreRange(line, p, e, rest);
      ranges := [Range(p, e)] + rest;
    }
  }

  /** A position between two ranges is in none. */
  lemma OutsideAt(line: string, ranges: seq<Range>, i: nat, k: nat)
    requires WordsAt(line, 0, ranges) && i <= |ranges| && k < |line|
    requires (i > 0 ==> ranges[i - 1].hi <= k) && (i < |ranges| ==> k < ranges[i].lo)
    ensures IsDelim(line[k])
  {
    forall j | 0 <= j < |ranges|
      ensures !(ranges[j].lo <= k < ranges[j].hi)
    {
      if j < i {
        assert j < i - 1 ==> ranges[j].hi < ranges[i - 1].lo;
      } else {
        assert i < j ==> ranges[i].hi < ranges[j].lo;
      }
    }
    assert !Inside(ranges, k);
  }

  lemma SpanIs(s: string, n: nat)
    requires n <= |s| && (forall k :: 0 <= k < n ==> !IsDelim(s[k])) && (n < |s| ==> IsDelim(s[n]))
    ensures Span(s) == n
  {
  }

  lemma WordEnds(line: string, ranges: seq<Range>, i: nat)
    requires WordsAt(line, 0, ranges) && i < |ranges|
    ensures ranges[i].lo < ranges[i].hi <= |line| && (i + 1 < |ranges| ==> ranges[i].hi <= ranges[i + 1].lo)
    ensures forall h :: 0 <= h < ranges[i].hi - ranges[i].lo ==> !IsDelim(line[ranges[i].lo..][h])
    ensures ranges[i].hi < |line| ==> IsDelim(line[ranges[i].lo..][ranges[i].hi - ranges[i].lo])
  {
    var p, e := ranges[i].lo, ranges[i].hi;
    forall h | 0 <= h < e - p
      ensures !IsDelim(line[p..][h])
    {
      assert Inside(ranges, p + h);
    }
    if e < |line| {
      OutsideAt(line, ranges, i + 1, e);
    }
  }

  /** At the start of a range the word of that range comes next. */
  lemma WordStep(line: string, ranges: seq<Range>, i: nat)
    requires WordsAt(line, 0, ranges) && i < |ranges|
    ensures ranges[i].lo < ranges[i].hi <= |line| && (i + 1 < |ranges| ==> ranges[i].hi <= ranges[i + 1].lo)
    ensures Words(line[ranges[i].lo..]) == [line[ranges[i].lo..ranges[i].hi]] + Words(line[ranges[i].hi..])
  {
    hide WordsAt, Span;
    WordEnds(line, ranges, i);
    var p, e := ranges[i].lo, ranges[i].hi;
    var rest := line[p..];
    SpanIs(rest, e - p);
    assert rest[..e - p] == line[p..e] && rest[e - p..] == line[e..];
  }

  /** The words are what stands in the ranges from number `i` on. */
  ghost predicate Stand(line: string, ranges: seq<Range>, i: nat, words: seq<string>)
    requires forall h :: 0 <= h < |ranges| ==> ranges[h].lo <= ranges[h].hi <= |line|
  {
    |words| == |ranges| - i && forall j :: 0 <= j < |words| ==> words[j] == line[ranges[i + j].lo..ranges[i + j].hi]
  }

  lemma StandCons(line: string, ranges: seq<Range>, i: nat, words: seq<string>)
    requires forall h :: 0 <= h < |ranges| ==> ranges[h].lo <= ranges[h].hi <= |line|
    requires i < |ranges| && Stand(line, ranges, i + 1, words)
    ensures Stand(line, ranges, i, [line[ranges[i].lo..ranges[i].hi]] + words)
  {
    var words' := [line[ranges[i].lo..ranges[i].hi]] + words;
    forall j | 0 <= j < |words'|
      ensures words'[j] == line[ranges[i + j].lo..ranges[i + j].hi]
    {
      assert j > 0 ==> words'[j] == words[j - 1] == line[ranges[i + 1 + (j - 1)].lo..ranges[i + 1 + (j - 1)].hi];
    }
  }

  lemma RangesInside(line: string, ranges: seq<Range>)
    requires WordsAt(line, 0, ranges)
    ensures forall h :: 0 <= h < |ranges| ==> ranges[h].lo <= ranges[h].hi <= |line|
  {
  }

  lemma GapStep(line: string, ranges: seq<Range>, i: nat, p: nat)
    requires WordsAt(line, 0, ranges) && i <= |ranges| && p <= |line|
    requires (i > 0 ==> ranges[i - 1].hi <= p) && (i < |ranges| ==> p < ranges[i].lo)
    ensures p < |line| ==> Words(line[p..]) == Words(line[p + 1..])
    ensures p == |line| ==> i == |ranges| && Words(line[p..]) == []
  {
    if p < |line| {
      OutsideAt(line, ranges, i, p);
      assert line[p..][0] == line[p] && line[p..][1..] == line[p + 1..];
    }
  }

  /** The words of the line behind position `p`, which no range crosses, are those of the ranges from number `i` on. */
  lemma {:induction false} WordsFrom(line: string, ranges: seq<Range>, i: nat, p: nat)
    requires WordsAt(line, 0, ranges) && i <= |ranges| && p <= |line|
    requires (i > 0 ==> ranges[i - 1].hi <= p) && (i < |ranges| ==> p <= ranges[i].lo)
    ensures forall h :: 0 <= h < |ranges| ==> ranges[h].lo <= ranges[h].hi <= |line|
    ensures Stand(line, ranges, i, Words(line[p..]))
    decreases |line| - p
  {
    hide WordsAt, Words;
    RangesInside(line, ranges);
    if i < |ranges| && p == ranges[i].lo {
      WordStep(line, ranges, i);
      WordsFrom(line, ranges, i + 1, ranges[i].hi);
      hide Stand;
      StandCons(line, ranges, i, Words(line[ranges[i].hi..]));
    } else {
      GapStep(line, ranges, i, p);
      if p == |line| {
      } else {
        WordsFrom(line, ranges, i, p + 1);
      }
    }
  }

  // ----- The arguments among the words -----

  /** `kept` are the positions of the words that are neither "mytime" nor "&", in order, and `args` these words. */
  ghost predicate Chosen(words: seq<string>, kept: seq<nat>, args: seq<string>) {
    && |args| == |kept|
    && (forall i, j :: 0 <= i < j < |kept| ==> kept[i] < kept[j])
    && (forall j :: 0 <= j < |kept| ==> kept[j] < |words| && args[j] == words[kept[j]])
    && (forall i :: 0 <= i < |words| ==> (i in kept <==> words[i] != "mytime" && words[i] != "&"))
  }

  lemma ChosenGrow(words: seq<string>, kept: seq<nat>, args: seq<string>, w: string)
    requires Chosen(words, kept, args)
    ensures if w != "mytime" && w != "&" then Chosen(words + [w], kept + [|words|], args + [w]) else Chosen(words + [w], kept, args)
  {
    forall i | 0 <= i <= |words|
      ensures i < |words| ==> (words + [w])[i] == words[i]
      ensures i in kept + [|words|] <==> i in kept || i == |words|
    {
    }
  }

  /** Which words are selected. */
  lemma {:induction false} SelectedAre(words: seq<string>) returns (kept: seq<nat>)
    ensures Chosen(words, kept, Select(words))
  {
    if words == [] {
      kept := [];
    } else {
      var n := |words| - 1;
      kept := SelectedAre(words[..n]);
      ChosenGrow(words[..n], kept, Select(words[..n]), words[n]);
      assert words == words[..n] + [words[n]];
      hide Chosen;
      if IsArg(words[n]) {
        kept := kept + [n];
      } else {
        assert Select(words) == Select(words[..n]);
      }
    }
  }

  /** Wherever the words of a line are, its arguments are those of them that are neither "mytime" nor "&". */
  lemma ArgsAre(line: string, ranges: seq<Range>) returns (words: seq<string>, kept: seq<nat>)
    requires WordsAt(line, 0, ranges)
    ensures forall h :: 0 <= h < |ranges| ==> ranges[h].lo <= ranges[h].hi <= |line|
    ensures words == Words(line) && Stand(line, ranges, 0, words) && Chosen(words, kept, Args(line))
  {
    assert line[0..] == line;
    WordsFrom(line, ranges, 0, 0);
    words := Words(line);
    kept := SelectedAre(words);
  }

  /** Words with gaps behind them. */
  function Laid(words: seq<string>, gaps: seq<string>): string
    requires |gaps| == |words|
  {
    if words == [] then "" else words[0] + (gaps[0] + Laid(words[1..], gaps[1..]))
  }

  /** Words and gaps as they should be. */
  predicate WellLaid(words: seq<string>, gaps: seq<string>) {
    && |gaps| == |words|
    && (forall i :: 0 <= i < |words| ==> words[i] != "" && gaps[i] != "")
    && (forall i, k :: 0 <= i < |words| && 0 <= k < |words[i]| ==>
          words[i][k] != ' ' && words[i][k] != '\t' && words[i][k] != '\r' && words[i][k] != '\n')
    && (forall i, k :: 0 <= i < |gaps| && 0 <= k < |gaps[i]| ==>
          gaps[i][k] == ' ' || gaps[i][k] == '\t' || gaps[i][k] == '\r' || gaps[i][k] == '\n')
  }

  lemma {:induction false} WordsAfterGap(gap: string, rest: string)
    requires forall k :: 0 <= k < |gap| ==> IsDelim(gap[k])
    ensures Words(gap + rest) == Words(rest)
  {
    if gap == "" {
      assert gap + rest == rest;
    } else {
      assert (gap + rest)[1..] == gap[1..] + rest;
      WordsAfterGap(gap[1..], rest);
    }
  }

  /** Words laid out with any blanks, tabs, carriage returns and newlines behind each parse to these words. */
  lemma {:induction false} WordsOfLaid(words: seq<string>, gaps: seq<string>)
    requires WellLaid(words, gaps)
    ensures Words(Laid(words, gaps)) == words
  {
    if words == [] {
    } else {
      var w, rest := words[0], gaps[0] + Laid(words[1..], gaps[1..]);
      assert IsWord(w) && IsDelim(gaps[0][0]) && rest[0] == gaps[0][0];
      SpanOfWordThen(w, rest);
      assert (w + rest)[..|w|] == w && (w + rest)[|w|..] == rest;
      assert forall i :: 0 <= i < |words[1..]| ==> words[1..][i] == words[i + 1] && gaps[1..][i] == gaps[i + 1];
      assert forall k :: 0 <= k < |gaps[0]| ==> IsDelim(gaps[0][k]);
      WordsAfterGap(gaps[0], Laid(words[1..], gaps[1..]));
      WordsOfLaid(words[1..], gaps[1..]);
      assert words == [w] + words[1..];
    }
  }

  /** So they parse to those of them that are neither "mytime" nor "&". */
  lemma ArgsOfLaid(words: seq<string>, gaps: seq<string>) returns (kept: seq<nat>)
    requires WellLaid(words, gaps)
    ensures Chosen(words, kept, Args(Laid(words, gaps)))
  {
    WordsOfLaid(words, gaps);
    kept := SelectedAre(words);
  }
}
