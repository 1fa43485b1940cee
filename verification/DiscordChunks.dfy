/** Splitting a long message into embed descriptions: raw chunks of whole lines where possible,
    then code fences closed at a chunk's end and reopened at the next one's start. */
module DiscordChunks {
  import opened Common
  import opened Text

  const CODE_FENCE_CHUNK_OVERHEAD := 16
  const FENCE := "```"

  // ----- raw chunks

  function SafeSize(chunkSize: int): (n: nat)
    ensures n >= 1
    ensures n == if chunkSize <= 16 then 1 else chunkSize - 16
  {
    if chunkSize - CODE_FENCE_CHUNK_OVERHEAD > 1 then chunkSize - CODE_FENCE_CHUNK_OVERHEAD else 1
  }

  /** The raw chunks made so far and the one being filled. */
  datatype Packing = Packing(chunks: seq<string>, current: string)

  function Closed(p: Packing): seq<string> { if p.current == "" then p.chunks else p.chunks + [p.current] }

  /** The slices of an overlong line. */
  function Slices(line: string, safe: nat): seq<string>
    requires safe >= 1
  {
    if line == "" then []
    else if |line| <= safe then [line]
    else [line[..safe]] + Slices(line[safe..], safe)
  }

  function PackLine(p: Packing, line: string, safe: nat): Packing
    requires safe >= 1
  {
    if |line| > safe then Packing(Closed(p) + Slices(line, safe), "")
    else if |p.current| + |line| > safe then Packing(p.chunks + [p.current], line)
    else p.(current := p.current + line)
  }

  function Pack(lines: seq<string>, safe: nat, n: nat): Packing
    requires safe >= 1 && n <= |lines|
  {
    if n == 0 then Packing([], "") else PackLine(Pack(lines, safe, n - 1), lines[n - 1], safe)
  }

  function Raw(text: string, chunkSize: int): seq<string> {
    Closed(Pack(KeepEnds(text), SafeSize(chunkSize), |KeepEnds(text)|))
  }

  method SliceLine(line: string, safe: nat) returns (chunks: seq<string>)
    requires safe >= 1
    ensures chunks == Slices(line, safe)
  {
    chunks := [];
    var idx := 0;
    ghost var left := line;
    while idx < |line|
      invariant 0 <= idx && left == if idx < |line| then line[idx..] else ""
      invariant chunks + Slices(left, safe) == Slices(line, safe)
    {
      var slice := line[idx..if idx + safe < |line| then idx + safe else |line|];
      ghost var rest := if safe < |left| then left[safe..] else "";
      assert slice == if |left| <= safe then left else left[..safe];
      assert Slices(left, safe) == [slice] + Slices(rest, safe);
      chunks := chunks + [slice];
      left := rest;
      idx := idx + safe;
    }
  }

  method RawChunks(text: string, chunkSize: int) returns (chunks: seq<string>)
    ensures chunks == Raw(text, chunkSize)
  {
    var safe := SafeSize(chunkSize);
    chunks := [];
    var current := "";
    var lines := KeepEnds(text);
    for k := 0 to |lines|
      invariant Packing(chunks, current) == Pack(lines, safe, k)
    {
      var line := lines[k];
      if |line| > safe {
        if current != "" {
          chunks := chunks + [current];
          current := "";
        }
        var pieces := SliceLine(line, safe);
        chunks := chunks + pieces;
      } else if |current| + |line| > safe {
        chunks := chunks + [current];
        current := line;
      } else {
        current := current + line;
      }
    }
    if current != "" { chunks := chunks + [current]; }
  }

  ghost predicate FitRaw(chunks: seq<string>, safe: nat) {
    forall k :: 0 <= k < |chunks| ==> 1 <= |chunks[k]| <= safe
  }

  lemma {:induction false} SlicesFit(line: string, safe: nat)
    requires safe >= 1
    ensures FitRaw(Slices(line, safe), safe) && Concat(Slices(line, safe)) == line
  {
    if |line| > safe {
      SlicesFit(line[safe..], safe);
      assert line == line[..safe] + line[safe..];
    }
  }

  /** All slices of an overlong line but the last have the safe size. */
  lemma {:induction false} SlicesAreFull(line: string, safe: nat, i: nat)
    requires safe >= 1 && i + 1 < |Slices(line, safe)|
    ensures |Slices(line, safe)[i]| == safe
  {
    if i > 0 { SlicesAreFull(line[safe..], safe, i - 1); }
  }

  lemma ClosedText(p: Packing)
    ensures Concat(Closed(p)) == Concat(p.chunks) + p.current
  {
    ConcatSnoc(p.chunks, p.current);
  }

  ghost predicate PackedTo(p: Packing, text: string, safe: nat) {
    FitRaw(p.chunks, safe) && |p.current| <= safe && Concat(p.chunks) + p.current == text
  }

  lemma PackLineKeeps(p: Packing, line: string, safe: nat, text: string)
    requires safe >= 1 && line != "" && PackedTo(p, text, safe)
    ensures PackedTo(PackLine(p, line, safe), text + line, safe)
  {
    ClosedText(p);
    if |line| > safe {
      SlicesFit(line, safe);
      ConcatAppend(Closed(p), Slices(line, safe));
    } else if |p.current| + |line| > safe {
      assert p.chunks + [p.current] == Closed(p);
    } else {
      assert Concat(p.chunks) + (p.current + line) == (Concat(p.chunks) + p.current) + line;
    }
  }

  lemma {:induction false} PackKeeps(lines: seq<string>, safe: nat, n: nat)
    requires safe >= 1 && n <= |lines| && forall k :: 0 <= k < |lines| ==> lines[k] != ""
    ensures PackedTo(Pack(lines, safe, n), Concat(lines[..n]), safe)
  {
    if n > 0 {
      PackKeeps(lines, safe, n - 1);
      PackLineKeeps(Pack(lines, safe, n - 1), lines[n - 1], safe, Concat(lines[..n - 1]));
      ConcatUpto(lines, n - 1);
    }
  }

  /** The raw chunks of a text: none empty, none longer than the safe size, together the text. */
  lemma RawKeepsText(text: string, chunkSize: int)
    ensures FitRaw(Raw(text, chunkSize), SafeSize(chunkSize))
    ensures Concat(Raw(text, chunkSize)) == text
  {
    var lines, safe := KeepEnds(text), SafeSize(chunkSize);
    PackKeeps(lines, safe, |lines|);
    ClosedText(Pack(lines, safe, |lines|));
    assert lines[..|lines|] == lines;
    KeepEndsConcat(text);
  }

  /** Packed chunks are the lines from one cut to the next, each so many that the next line
      would not have fitted. */
  ghost predicate CutAt(chunks: seq<string>, lines: seq<string>, cuts: seq<nat>, safe: nat) {
    && |cuts| == |chunks| + 1 && cuts[0] == 0
    && forall i :: 0 <= i < |chunks| ==> Piece(chunks[i], lines, cuts[i], cuts[i + 1], safe)
  }

  ghost predicate Piece(chunk: string, lines: seq<string>, from: nat, to: nat, safe: nat) {
    && from < to <= |lines| && chunk == Concat(lines[from..to])
    && (to < |lines| ==> |chunk| + |lines[to]| > safe)
  }

  lemma PackLineCuts(p: Packing, lines: seq<string>, cuts: seq<nat>, safe: nat, n: nat) returns (more: seq<nat>)
    requires n < |lines| && 1 <= |lines[n]| <= safe && CutAt(p.chunks, lines, cuts, safe)
    requires cuts[|p.chunks|] <= n && p.current == Concat(lines[cuts[|p.chunks|]..n])
    requires p.current == "" ==> cuts[|p.chunks|] == n
    ensures var q := PackLine(p, lines[n], safe);
      CutAt(q.chunks, lines, more, safe) && more[|q.chunks|] <= n && q.current != ""
      && q.current == Concat(lines[more[|q.chunks|]..n + 1])
  {
    hide Concat;
    var from := cuts[|p.chunks|];
    assert lines[from..n + 1] == lines[from..n] + [lines[n]];
    ConcatSnoc(lines[from..n], lines[n]);
    ConcatNothing();
    if from == n { assert lines[from..n] == []; }
    if |p.current| + |lines[n]| > safe {
      more := cuts + [n];
      assert Piece(p.current, lines, from, n, safe);
      assert lines[n..n + 1] == [] + [lines[n]];
      ConcatSnoc([], lines[n]);
    } else {
      more := cuts;
    }
  }

  lemma {:induction false} PackCuts(lines: seq<string>, safe: nat, n: nat) returns (cuts: seq<nat>)
    requires safe >= 1 && n <= |lines| && forall k :: 0 <= k < |lines| ==> 1 <= |lines[k]| <= safe
    ensures var p := Pack(lines, safe, n);
      CutAt(p.chunks, lines, cuts, safe) && cuts[|p.chunks|] <= n && p.current == Concat(lines[cuts[|p.chunks|]..n])
      && (p.current == "" <==> n == 0) && (n == 0 ==> cuts == [0])
  {
    hide CutAt, Concat, PackLine;
    if n == 0 {
      cuts := [0];
      NoCuts(lines, safe);
    } else {
      cuts := PackCuts(lines, safe, n - 1);
      var p := Pack(lines, safe, n - 1);
      CutsLong(p.chunks, lines, cuts, safe);
      cuts := PackLineCuts(p, lines, cuts, safe, n - 1);
      CutsLong(Pack(lines, safe, n).chunks, lines, cuts, safe);
    }
  }

  lemma NoCuts(lines: seq<string>, safe: nat)
    ensures CutAt([], lines, [0], safe) && Concat(lines[0..0]) == ""
  {
  }

  lemma CutsLong(chunks: seq<string>, lines: seq<string>, cuts: seq<nat>, safe: nat)
    requires CutAt(chunks, lines, cuts, safe)
    ensures |cuts| == |chunks| + 1
  {
  }

  /** Without overlong lines the raw chunks are whole lines, and as many as fit each time. */
  lemma ChunksAreWholeLines(text: string, chunkSize: int) returns (cuts: seq<nat>)
    requires text != "" && forall k :: 0 <= k < |KeepEnds(text)| ==> |KeepEnds(text)[k]| <= SafeSize(chunkSize)
    ensures CutAt(Raw(text, chunkSize), KeepEnds(text), cuts, SafeSize(chunkSize))
    ensures cuts[|Raw(text, chunkSize)|] == |KeepEnds(text)|
  {
    hide KeepEnds, Concat, Pack;
    var lines, safe := KeepEnds(text), SafeSize(chunkSize);
    KeepEndsConcat(text);
    ConcatNothing();
    cuts := PackCuts(lines, safe, |lines|);
    var p := Pack(lines, safe, |lines|);
    assert lines[cuts[|p.chunks|]..|lines|] == lines[cuts[|p.chunks|]..];
    cuts := LastCut(p, lines, cuts, safe);
  }

  lemma LastCut(p: Packing, lines: seq<string>, cuts: seq<nat>, safe: nat) returns (more: seq<nat>)
    requires CutAt(p.chunks, lines, cuts, safe) && cuts[|p.chunks|] <= |lines|
    requires p.current == Concat(lines[cuts[|p.chunks|]..]) && p.current != ""
    ensures CutAt(Closed(p), lines, more, safe) && more[|Closed(p)|] == |lines|
  {
    hide Concat;
    ConcatNothing();
    more := cuts + [|lines|];
    assert lines[cuts[|p.chunks|]..|lines|] == lines[cuts[|p.chunks|]..];
    assert Piece(p.current, lines, cuts[|p.chunks|], |lines|, safe);
  }

  // ----- balanced code fences

  predicate IsFence(line: string) { FENCE <= Strip(line) }

  function FenceCount(lines: seq<string>, n: nat): nat
    requires n <= |lines|
  {
    if n == 0 then 0 else FenceCount(lines, n - 1) + (if IsFence(lines[n - 1]) then 1 else 0)
  }

  function Fences(text: string): nat { FenceCount(SplitLines(text), |SplitLines(text)|) }

  function Toggle(open: Option<string>, line: string): Option<string> {
    if !IsFence(line) then open
    else if open.Some? then None
    else Some(if |Strip(line)| > 3 then Strip(line) else FENCE)
  }

  /** The marker of the fence left open after the first `n` lines, if any. */
  function OpenAfter(open: Option<string>, lines: seq<string>, n: nat): Option<string>
    requires n <= |lines|
  {
    if n == 0 then open else Toggle(OpenAfter(open, lines, n - 1), lines[n - 1])
  }

  /** The fence open before the `i`-th chunk. */
  function OpenBefore(chunks: seq<string>, i: nat): Option<string>
    requires i <= |chunks|
  {
    if i == 0 then None else
      var lines := SplitLines(chunks[i - 1]);
      OpenAfter(OpenBefore(chunks, i - 1), lines, |lines|)
  }

  function Prefix(open: Option<string>): string { if open.Some? then open.value + "\n" else "" }

  function Suffix(open: Option<string>): string { if open.Some? then "\n" + FENCE else "" }

  /** A raw chunk between what reopens the fence open before it and what closes the fence open
      after it. */
  function Balanced(chunks: seq<string>, i: nat): string
    requires i < |chunks|
  {
    Prefix(OpenBefore(chunks, i)) + chunks[i] + Suffix(OpenBefore(chunks, i + 1))
  }

  method FenceAfterChunk(chunk: string, carried: Option<string>) returns (open: Option<string>)
    ensures open == OpenAfter(carried, SplitLines(chunk), |SplitLines(chunk)|)
  {
    hide Strip;
    open := carried;
    var lines := SplitLines(chunk);
    for k := 0 to |lines|
      invariant open == OpenAfter(carried, lines, k)
    {
      var marker := Strip(lines[k]);
      if FENCE <= marker {
        if open.None? {
          open := Some(if |marker| > 3 then marker else FENCE);
        } else {
          open := None;
        }
      }
    }
  }

  method SplitForEmbedDescriptions(text: string, chunkSize: int) returns (chunks: seq<string>)
    ensures |text| <= chunkSize ==> chunks == [text]
    ensures |text| > chunkSize ==> var raw := Raw(text, chunkSize);
      |chunks| == |raw| && forall i :: 0 <= i < |raw| ==> chunks[i] == Balanced(raw, i)
  {
    hide IsFence, Toggle, Raw, Strip, SplitLines, OpenAfter;
    if |text| <= chunkSize { return [text]; }
    var raw := RawChunks(text, chunkSize);
    chunks := [];
    var carried: Option<string> := None;
    for k := 0 to |raw|
      invariant carried == OpenBefore(raw, k)
      invariant |chunks| == k && forall i :: 0 <= i < k ==> chunks[i] == Balanced(raw, i)
    {
      var balanced := Prefix(carried) + raw[k];
      carried := FenceAfterChunk(raw[k], carried);
      balanced := balanced + Suffix(carried);
      chunks := chunks + [balanced];
    }
  }

  ghost predicate IsMarker(open: Option<string>) {
    open.Some? ==> IsFence(open.value) && '\n' !in open.value
  }

  lemma FenceStaysFence(s: string)
    requires FENCE <= s
    ensures IsFence(s)
  {
    assert s[0] == '`' && !IsSpace(s[2]);
    RStripIsPrefix(s);
  }

  function Opened(open: Option<string>): nat { if open.Some? then 1 else 0 }

  /** A fence is open after some lines exactly when their fences, with the one open before,
      are odd in number; what is open is then a fence marker. */
  lemma {:induction false} OpenIsOdd(open: Option<string>, lines: seq<string>, n: nat)
    requires n <= |lines| && IsMarker(open) && forall k :: 0 <= k < |lines| ==> '\n' !in lines[k]
    ensures IsMarker(OpenAfter(open, lines, n))
    ensures Opened(OpenAfter(open, lines, n)) == (Opened(open) + FenceCount(lines, n)) % 2
  {
    hide Strip;
    if n > 0 {
      OpenIsOdd(open, lines, n - 1);
      var marker := Strip(lines[n - 1]);
      if FENCE <= marker {
        StripNoNewline(lines[n - 1]);
        FenceStaysFence(marker);
        FenceStaysFence(FENCE);
      }
    }
  }

  lemma {:induction false} MarkersThroughout(chunks: seq<string>, i: nat)
    requires i <= |chunks|
    ensures IsMarker(OpenBefore(chunks, i))
  {
    if i > 0 {
      MarkersThroughout(chunks, i - 1);
      var lines := SplitLines(chunks[i - 1]);
      LinesAreClean(chunks[i - 1]);
      OpenIsOdd(OpenBefore(chunks, i - 1), lines, |lines|);
    }
  }

  lemma {:induction false} FenceCountPart(a: seq<string>, b: seq<string>, d: nat, n: nat)
    requires n <= |a| && d + n <= |b| && forall k :: 0 <= k < n ==> a[k] == b[d + k]
    ensures FenceCount(b, d + n) == FenceCount(b, d) + FenceCount(a, n)
  {
    hide IsFence;
    if n > 0 { FenceCountPart(a, b, d, n - 1); }
  }

  lemma FenceCountAppend(a: seq<string>, b: seq<string>)
    ensures FenceCount(a + b, |a + b|) == FenceCount(a, |a|) + FenceCount(b, |b|)
  {
    hide IsFence;
    FenceCountPart(a, a + b, 0, |a|);
    FenceCountPart(b, a + b, |a|, |b|);
  }

  lemma FirstLineFences(line: string, rest: string)
    requires '\n' !in line
    ensures Fences(line + "\n" + rest) == (if IsFence(line) then 1 else 0) + Fences(rest)
  {
    SplitFirst(line, rest);
    FenceCountAppend([line], SplitLines(rest));
    assert FenceCount([line], 0) == 0;
  }

  lemma OnlyLineFences(line: string)
    requires '\n' !in line
    ensures Fences(line) == if IsFence(line) then 1 else 0
  {
    LineEndAt(line, "");
    assert line + "" == line;
    if line != "" {
      assert SplitLines(line) == [line];
      assert FenceCount([line], 0) == 0;
    }
  }

  /** The fence lines of two texts with a newline between them. */
  lemma {:induction false} FencesJoined(a: string, b: string)
    ensures Fences(a + "\n" + b) == Fences(a) + Fences(b)
  {
    var n := LineEnd(a);
    FirstLineIsClean(a);
    if n == |a| {
      assert a[..n] == a;
      FirstLineFences(a, b);
      OnlyLineFences(a);
    } else {
      var line, rest := a[..n], a[n + 1..];
      assert a == line + "\n" + rest;
      assert a + "\n" + b == line + "\n" + (rest + "\n" + b);
      FencesJoined(rest, b);
      FirstLineFences(line, rest + "\n" + b);
      FirstLineFences(line, rest);
    }
  }

  lemma PrefixFences(open: Option<string>, chunk: string)
    requires IsMarker(open)
    ensures Fences(Prefix(open) + chunk) == Opened(open) + Fences(chunk)
  {
    if open.Some? {
      FencesJoined(open.value, chunk);
      OnlyLineFences(open.value);
    } else {
      assert Prefix(open) + chunk == chunk;
    }
  }

  lemma SuffixFences(body: string, open: Option<string>)
    ensures Fences(body + Suffix(open)) == Fences(body) + Opened(open)
  {
    if open.Some? {
      FencesJoined(body, FENCE);
      FenceStaysFence(FENCE);
      OnlyLineFences(FENCE);
      assert body + Suffix(open) == body + "\n" + FENCE;
    } else {
      assert body + Suffix(open) == body;
    }
  }

  /** Every balanced chunk has an even number of fence lines. */
  lemma BalancedIsEven(chunks: seq<string>, i: nat)
    requires i < |chunks|
    ensures Fences(Balanced(chunks, i)) % 2 == 0
  {
    hide IsFence, Prefix, Suffix, Strip;
    MarkersThroughout(chunks, i);
    var lines := SplitLines(chunks[i]);
    LinesAreClean(chunks[i]);
    OpenIsOdd(OpenBefore(chunks, i), lines, |lines|);
    PrefixFences(OpenBefore(chunks, i), chunks[i]);
    SuffixFences(Prefix(OpenBefore(chunks, i)) + chunks[i], OpenBefore(chunks, i + 1));
  }

  // ----- which marker reopens a fence

  /** The marker of the last fence line, unless there is none and the fence was open before. */
  lemma {:induction false} OpenFromLine(open: Option<string>, lines: seq<string>, n: nat) returns (b: nat)
    requires n <= |lines| && OpenAfter(open, lines, n).Some?
    ensures b <= n && forall k :: b < k < n ==> !IsFence(lines[k])
    ensures if b < n then IsFence(lines[b]) && Strip(lines[b]) == OpenAfter(open, lines, n).value
            else open == OpenAfter(open, lines, n) && FenceCount(lines, n) == 0
  {
    hide Strip;
    b := n;
    if n > 0 {
      if IsFence(lines[n - 1]) {
        b := n - 1;
      } else {
        b := OpenFromLine(open, lines, n - 1);
        if b == n - 1 { b := n; }
      }
    }
  }

  /** What reopens a fence in a chunk is the last fence line, stripped, of the chunks before. */
  lemma {:induction false} ReopenedByItsLine(chunks: seq<string>, i: nat) returns (a: nat, b: nat)
    requires i <= |chunks| && OpenBefore(chunks, i).Some?
    ensures a < i && b < |SplitLines(chunks[a])| && IsFence(SplitLines(chunks[a])[b])
    ensures OpenBefore(chunks, i) == Some(Strip(SplitLines(chunks[a])[b]))
    ensures forall k :: b < k < |SplitLines(chunks[a])| ==> !IsFence(SplitLines(chunks[a])[k])
    ensures forall c :: a < c < i ==> Fences(chunks[c]) == 0
  {
    hide IsFence, Strip, SplitLines;
    var lines := SplitLines(chunks[i - 1]);
    a := i - 1;
    b := OpenFromLine(OpenBefore(chunks, i - 1), lines, |lines|);
    if b == |lines| { a, b := ReopenedByItsLine(chunks, i - 1); }
  }
}
