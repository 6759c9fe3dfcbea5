/**
 Cutting a character stream into lines.  The stream arrives in arbitrary chunks; every
 newline-terminated line is trimmed, blank lines are dropped, and the unterminated tail
 stays in the buffer until more input comes.
 */
module StdinFraming {

  /** The characters removed by ECMAScript's String.prototype.trim. */
  predicate IsSpace(c: char) {
    '\t' <= c <= '\r' || c == ' ' || c == '\U{00A0}' || c == '\U{1680}' || '\U{2000}' <= c <= '\U{200A}'
    || c == '\U{2028}' || c == '\U{2029}' || c == '\U{202F}' || c == '\U{205F}' || c == '\U{3000}'
    || c == '\U{FEFF}'
  }

  function TrimLeft(s: string): string {
    if s == "" then "" else if IsSpace(s[0]) then TrimLeft(s[1..]) else s
  }

  function TrimRight(s: string): string {
    if s == "" then "" else if IsSpace(s[|s| - 1]) then TrimRight(s[..|s| - 1]) else s
  }

  function Trim(s: string): string {
    TrimRight(TrimLeft(s))
  }

  /** Trimming cuts blanks off both ends, and what it leaves has no blank at either end. */
  lemma TrimCutsBlanks(s: string) returns (left: string, right: string)
    ensures s == left + Trim(s) + right
    ensures (forall c :: c in left ==> IsSpace(c)) && (forall c :: c in right ==> IsSpace(c))
    ensures Trim(s) != "" ==> !IsSpace(Trim(s)[0]) && !IsSpace(Trim(s)[|Trim(s)| - 1])
  {
    left := TrimLeftCuts(s);
    right := TrimRightCuts(TrimLeft(s));
    if Trim(s) != "" {
      assert TrimLeft(s)[0] == Trim(s)[0];
    }
  }

  lemma TrimLeftCuts(s: string) returns (left: string)
    ensures s == left + TrimLeft(s) && forall c :: c in left ==> IsSpace(c)
    ensures TrimLeft(s) != "" ==> !IsSpace(TrimLeft(s)[0])
  {
    if s == "" || !IsSpace(s[0]) {
      left := "";
    } else {
      left := TrimLeftCuts(s[1..]);
      left := [s[0]] + left;
    }
  }

  lemma TrimRightCuts(s: string) returns (right: string)
    ensures s == TrimRight(s) + right && forall c :: c in right ==> IsSpace(c)
    ensures TrimRight(s) != "" ==> !IsSpace(TrimRight(s)[|TrimRight(s)| - 1])
  {
    if s == "" || !IsSpace(s[|s| - 1]) {
      right := "";
    } else {
      right := TrimRightCuts(s[..|s| - 1]);
      right := right + [s[|s| - 1]];
    }
  }

  /** The index of the first newline, or the length when there is none. */
  function FirstNewline(s: string): (i: nat)
    ensures i <= |s| && (forall j :: 0 <= j < i ==> s[j] != '\n') && (i < |s| ==> s[i] == '\n')
  {
    if s == "" || s[0] == '\n' then 0 else 1 + FirstNewline(s[1..])
  }

  /** The newline-terminated segments of s, and what follows the last newline. */
  function Segments(s: string): seq<string> {
    var i := FirstNewline(s);
    if i == |s| then [] else [s[..i]] + Segments(s[i + 1..])
  }

  function Tail(s: string): string {
    var i := FirstNewline(s);
    if i == |s| then s else Tail(s[i + 1..])
  }

  /** What is dispatched for a list of segments. */
  function NonBlank(segments: seq<string>): seq<string> {
    if segments == [] then []
    else (if Trim(segments[0]) == "" then [] else [Trim(segments[0])]) + NonBlank(segments[1..])
  }

  /** The positions of the segments that are not blank, counted from k. */
  function Positions(segments: seq<string>, k: nat): seq<nat> {
    if segments == [] then []
    else (if Trim(segments[0]) == "" then [] else [k]) + Positions(segments[1..], k + 1)
  }

  predicate Increasing(positions: seq<nat>, low: nat, high: nat) {
    && (forall i :: 0 <= i < |positions| ==> low <= positions[i] < high)
    && (forall i, j :: 0 <= i < j < |positions| ==> positions[i] < positions[j])
  }

  lemma {:induction false} PositionsIncrease(segments: seq<string>, k: nat)
    ensures Increasing(Positions(segments, k), k, k + |segments|)
  {
    if segments != [] {
      PositionsIncrease(segments[1..], k + 1);
      var rest := Positions(segments[1..], k + 1);
      assert Positions(segments, k) == rest || Positions(segments, k) == [k] + rest;
    }
  }

  lemma {:induction false} PositionsCover(segments: seq<string>, k: nat, j: nat)
    requires j < |segments|
    ensures k + j in Positions(segments, k) <==> Trim(segments[j]) != ""
  {
    var rest := Positions(segments[1..], k + 1);
    PositionsIncrease(segments[1..], k + 1);
    if j > 0 {
      PositionsCover(segments[1..], k + 1, j - 1);
      assert (k + 1) + (j - 1) == k + j;
    }
  }

  lemma {:induction false} OnePositionPerLine(segments: seq<string>, k: nat)
    ensures |Positions(segments, k)| == |NonBlank(segments)|
  {
    if segments != [] {
      OnePositionPerLine(segments[1..], k + 1);
    }
  }

  lemma {:induction false} LineAtPosition(segments: seq<string>, k: nat, i: nat)
    requires i < |Positions(segments, k)|
    ensures i < |NonBlank(segments)|
    ensures var p := Positions(segments, k)[i];
            k <= p < k + |segments| && NonBlank(segments)[i] == Trim(segments[p - k])
  {
    OnePositionPerLine(segments, k);
    var blank := Trim(segments[0]) == "";
    if blank || i > 0 {
      var j := if blank then i else i - 1;
      LineAtPosition(segments[1..], k + 1, j);
      var p := Positions(segments[1..], k + 1)[j];
      assert Positions(segments, k)[i] == p && segments[1..][p - (k + 1)] == segments[p - k];
    }
  }

  /** Exactly the segments that are not blank are dispatched, trimmed, in their order. */
  lemma DispatchedSegments(segments: seq<string>) returns (picked: seq<nat>)
    ensures Increasing(picked, 0, |segments|) && |picked| == |NonBlank(segments)|
    ensures forall i :: 0 <= i < |picked| ==> NonBlank(segments)[i] == Trim(segments[picked[i]])
    ensures forall k :: 0 <= k < |segments| ==> (k in picked <==> Trim(segments[k]) != "")
  {
    picked := Positions(segments, 0);
    OnePositionPerLine(segments, 0);
    PositionsIncrease(segments, 0);
    forall i | 0 <= i < |picked| ensures NonBlank(segments)[i] == Trim(segments[picked[i]]) {
      LineAtPosition(segments, 0, i);
    }
    forall k | 0 <= k < |segments| ensures k in picked <==> Trim(segments[k]) != "" {
      PositionsCover(segments, 0, k);
    }
  }

  function Lines(s: string): seq<string> {
    NonBlank(Segments(s))
  }

  function Unlines(segments: seq<string>): string {
    if segments == [] then "" else segments[0] + "\n" + Unlines(segments[1..])
  }

  /** Newline-terminating the segments and adding the tail gives the stream back. */
  lemma {:induction false} SegmentsRebuild(s: string)
    ensures Unlines(Segments(s)) + Tail(s) == s
    ensures '\n' !in Tail(s) && forall g :: g in Segments(s) ==> '\n' !in g
  {
    var i := FirstNewline(s);
    if i < |s| {
      var line, rest := s[..i], s[i + 1..];
      SegmentsRebuild(rest);
      assert Segments(s)[1..] == Segments(rest);
      ConcatAssoc(line + "\n", Unlines(Segments(rest)), Tail(rest));
      CutAt(s, i);
    }
  }

  lemma CutAt(s: string, i: nat)
    requires i < |s| && s[i] == '\n'
    ensures s == s[..i] + "\n" + s[i + 1..]
  {
  }

  lemma FirstNewlineAt(line: string, rest: string)
    requires '\n' !in line
    ensures FirstNewline(line + "\n" + rest) == |line|
  {
    var s := line + "\n" + rest;
    assert s[|line|] == '\n';
    assert forall j :: 0 <= j < |line| ==> s[j] == line[j] && line[j] in line;
  }

  /** There is no other way to cut a stream: the segments are the only newline-free ones. */
  lemma {:induction false} SegmentsUnique(segments: seq<string>, tail: string)
    requires '\n' !in tail && forall g :: g in segments ==> '\n' !in g
    ensures Segments(Unlines(segments) + tail) == segments && Tail(Unlines(segments) + tail) == tail
  {
    var s := Unlines(segments) + tail;
    if segments == [] {
      assert s == tail;
    } else {
      var g, rest := segments[0], Unlines(segments[1..]) + tail;
      assert s == g + "\n" + rest;
      FirstNewlineAt(g, rest);
      assert s[..|g|] == g && s[|g| + 1..] == rest;
      SegmentsUnique(segments[1..], tail);
    }
  }

  lemma {:induction false} NonBlankConcat(a: seq<string>, b: seq<string>)
    ensures NonBlank(a + b) == NonBlank(a) + NonBlank(b)
  {
    if a == [] {
      assert a + b == b;
    } else {
      assert (a + b)[1..] == a[1..] + b;
      NonBlankConcat(a[1..], b);
    }
  }

  lemma ConcatAssoc<T>(a: seq<T>, b: seq<T>, c: seq<T>)
    ensures (a + b) + c == a + (b + c)
  {
  }

  lemma RebuildAppended(a: seq<string>, tail: string, chunk: string, b: seq<string>, tail': string)
    requires Unlines(b) + tail' == tail + chunk
    ensures Unlines(a + b) + tail' == (Unlines(a) + tail) + chunk
  {
    UnlinesConcat(a, b);
    ConcatAssoc(Unlines(a), Unlines(b), tail');
    ConcatAssoc(Unlines(a), tail, chunk);
  }

  /** Appending input: only the old tail is looked at again. */
  lemma {:induction false} AppendChunk(s: string, chunk: string)
    ensures Segments(s + chunk) == Segments(s) + Segments(Tail(s) + chunk)
    ensures Tail(s + chunk) == Tail(Tail(s) + chunk)
    ensures Lines(s + chunk) == Lines(s) + Lines(Tail(s) + chunk)
  {
    var a, b, tail' := Segments(s), Segments(Tail(s) + chunk), Tail(Tail(s) + chunk);
    SegmentsRebuild(s);
    SegmentsRebuild(Tail(s) + chunk);
    RebuildAppended(a, Tail(s), chunk, b, tail');
    SegmentsUnique(a + b, tail');
    NonBlankConcat(a, b);
  }

  lemma {:induction false} UnlinesConcat(a: seq<string>, b: seq<string>)
    ensures Unlines(a + b) == Unlines(a) + Unlines(b)
  {
    if a == [] {
      assert a + b == b;
    } else {
      assert (a + b)[1..] == a[1..] + b;
      UnlinesConcat(a[1..], b);
    }
  }

  /** Cutting off the first line, after the lines in `cut` have been cut off. */
  lemma CutFirst(s: string, cut: seq<string>)
    requires '\n' in s
    ensures FirstNewline(s) < |s|
    ensures var line, rest := Trim(s[..FirstNewline(s)]), s[FirstNewline(s) + 1..];
            && cut + Lines(s) == (if line == "" then cut else cut + [line]) + Lines(rest)
            && Tail(s) == Tail(rest)
  {
    var i := FirstNewline(s);
    NonBlankCons(s[..i], Segments(s[i + 1..]), cut);
  }

  lemma NonBlankCons(g: string, rest: seq<string>, cut: seq<string>)
    ensures cut + NonBlank([g] + rest) == (if Trim(g) == "" then cut else cut + [Trim(g)]) + NonBlank(rest)
  {
    var all := [g] + rest;
    assert all[0] == g && all[1..] == rest;
    var line, lines := Trim(g), NonBlank(rest);
    assert NonBlank(all) == (if line == "" then [] else [line]) + lines;
    if line == "" {
      assert [] + lines == lines;
    } else {
      ConcatAssoc(cut, [line], lines);
    }
  }

  lemma NoNewlineNoLines(s: string)
    requires '\n' !in s
    ensures Segments(s) == [] && Lines(s) == [] && Tail(s) == s
  {
    assert FirstNewline(s) < |s| ==> '\n' in s;
  }
}
