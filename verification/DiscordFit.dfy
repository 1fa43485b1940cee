/** When the balanced chunks of a text fit in the chunk size: what its lines have to be like. */
module DiscordFit {
  import opened Common
  import opened Text
  import opened DiscordChunks

  /** A line that is no fence, or whose marker has at most `k` characters. */
  ghost predicate Short(line: string, k: nat) { IsFence(line) ==> |Strip(line)| <= k }

  ghost predicate ShortIn(text: string, k: nat) {
    forall j :: 0 <= j < |SplitLines(text)| ==> Short(SplitLines(text)[j], k)
  }

  ghost predicate ShortChunks(chunks: seq<string>, k: nat) {
    forall i :: 0 <= i < |chunks| ==> ShortIn(chunks[i], k)
  }

  /** What a sender can tell before sending: no line longer than `most`, no marker than `k`. */
  ghost predicate ShortLines(text: string, most: nat, k: nat) {
    forall j :: 0 <= j < |SplitLines(text)| ==> |SplitLines(text)[j]| <= most && Short(SplitLines(text)[j], k)
  }

  /** A text that is not split fits; of one that is, every balanced chunk has to. */
  ghost predicate AllFit(text: string, chunkSize: int) {
    |text| > chunkSize ==>
      forall i :: 0 <= i < |Raw(text, chunkSize)| ==> |Balanced(Raw(text, chunkSize), i)| <= chunkSize
  }

  // ----- short markers in the chunks

  lemma {:induction false} OpenAfterWithin(open: Option<string>, lines: seq<string>, n: nat, k: nat)
    requires n <= |lines| && (open.Some? ==> |open.value| <= k)
    requires forall j :: 0 <= j < |lines| ==> Short(lines[j], k)
    ensures OpenAfter(open, lines, n).Some? ==> |OpenAfter(open, lines, n).value| <= k
  {
    hide Strip;
    if n > 0 {
      OpenAfterWithin(open, lines, n - 1, k);
      assert Short(lines[n - 1], k);
    }
  }

  lemma {:induction false} OpenBeforeWithin(chunks: seq<string>, i: nat, k: nat)
    requires i <= |chunks| && ShortChunks(chunks, k)
    ensures OpenBefore(chunks, i).Some? ==> |OpenBefore(chunks, i).value| <= k
  {
    hide IsFence, Short;
    if i > 0 {
      OpenBeforeWithin(chunks, i - 1, k);
      var lines := SplitLines(chunks[i - 1]);
      assert ShortIn(chunks[i - 1], k);
      OpenAfterWithin(OpenBefore(chunks, i - 1), lines, |lines|, k);
    }
  }

  lemma StripWithin(line: string)
    ensures |Strip(line)| <= |line|
  {
  }

  lemma SmallLine(line: string, k: nat)
    requires |line| <= k
    ensures Short(line, k)
  {
    StripWithin(line);
  }

  /** The lines of a chunk of at most `k` characters are short. */
  lemma SmallIsShort(chunk: string, k: nat)
    requires |chunk| <= k
    ensures ShortIn(chunk, k)
  {
    forall j | 0 <= j < |SplitLines(chunk)| ensures Short(SplitLines(chunk)[j], k) {
      LinesWithin(chunk, j);
      SmallLine(SplitLines(chunk)[j], k);
    }
  }

  lemma NoSmallMarker(open: Option<string>)
    requires IsMarker(open)
    ensures open.Some? ==> |open.value| >= 3
  {
    if open.Some? { StripWithin(open.value); }
  }

  /** Chunks whose markers have at most eleven characters fit once balanced. */
  lemma ShortMarkersFit(text: string, chunkSize: int)
    requires chunkSize >= 1 && ShortChunks(Raw(text, chunkSize), 11)
    ensures AllFit(text, chunkSize)
  {
    hide IsFence, Raw, Short;
    RawKeepsText(text, chunkSize);
    var raw := Raw(text, chunkSize);
    var k := if chunkSize > CODE_FENCE_CHUNK_OVERHEAD then 11 else 1;
    if k == 1 { forall i | 0 <= i < |raw| ensures ShortIn(raw[i], 1) { SmallIsShort(raw[i], 1); } }
    forall i | 0 <= i < |raw| ensures |Balanced(raw, i)| <= chunkSize {
      assert |raw[i]| <= SafeSize(chunkSize);
      OpenBeforeWithin(raw, i, k);
      OpenBeforeWithin(raw, i + 1, k);
      MarkersThroughout(raw, i);
      MarkersThroughout(raw, i + 1);
      NoSmallMarker(OpenBefore(raw, i));
      NoSmallMarker(OpenBefore(raw, i + 1));
    }
  }

  // ----- from the lines of the text to those of the chunks

  /** A kept line is a line of the text, with its newline or without. */
  lemma {:induction false} KeptLine(text: string, k: nat) returns (j: nat)
    requires k < |KeepEnds(text)|
    ensures j < |SplitLines(text)| && var line := SplitLines(text)[j];
      '\n' !in line && (KeepEnds(text)[k] == line || KeepEnds(text)[k] == line + "\n")
      && SplitLines(KeepEnds(text)[k]) == [line]
    decreases |text|
  {
    hide SplitLines, KeepEnds;
    NoLines();
    var line, rest := FirstLine(text);
    j := 0;
    if text == line {
      SingleLine(text);
    } else {
      SplitFirst(line, rest);
      KeepFirst(line, rest);
      if k > 0 {
        j := KeptLine(rest, k - 1);
        assert KeepEnds(text)[k] == KeepEnds(rest)[k - 1] && SplitLines(text)[j + 1] == SplitLines(rest)[j];
        j := j + 1;
      } else {
        SplitFirst(line, "");
        assert line + "\n" + "" == line + "\n";
        assert [line] + SplitLines("") == [line];
      }
    }
  }

  /** A beginning of a line reads as a fence only if the line does, and no longer a one. */
  lemma PrefixShort(line: string, p: string, k: nat)
    requires p <= line && Short(line, k)
    ensures Short(p, k)
  {
    hide LStrip, RStrip;
    if IsFence(p) {
      RStripIsPrefix(LStrip(p));
      StripPrefix(line, p);
    }
  }

  /** The slices of a kept line no longer than the safe size and twelve characters. */
  lemma SlicesShort(kept: string, line: string, safe: nat)
    requires '\n' !in line && (kept == line || kept == line + "\n") && Short(line, 11)
    requires safe >= 12 && safe < |kept| && |line| <= safe + 11
    ensures Slices(kept, safe) == [kept[..safe], kept[safe..]]
    ensures ShortIn(kept[..safe], 11) && ShortIn(kept[safe..], 11)
  {
    hide IsFence, Short;
    var a, b := kept[..safe], kept[safe..];
    assert a <= line;
    PrefixShort(line, a, 11);
    SingleLine(a);
    if kept == line {
      SmallIsShort(b, 11);
    } else {
      var rest := line[safe..];
      assert b == rest + "\n" + "";
      SplitFirst(rest, "");
      SmallLine(rest, 11);
    }
  }

  ghost predicate ShortPacking(p: Packing, k: nat) { ShortChunks(p.chunks, k) && ShortIn(p.current, k) }

  lemma JoinedShort(a: string, b: string, k: nat)
    requires EndsLine(a) && ShortIn(a, k) && ShortIn(b, k)
    ensures ShortIn(a + b, k)
  {
    SplitJoin(a, b);
  }

  lemma PackLineShort(p: Packing, kept: string, line: string, safe: nat)
    requires ShortPacking(p, 11) && EndsLine(p.current)
    requires '\n' !in line && (kept == line || kept == line + "\n") && SplitLines(kept) == [line]
    requires Short(line, 11) && safe >= 12 && |line| <= safe + 11
    ensures ShortPacking(PackLine(p, kept, safe), 11)
    ensures PackLine(p, kept, safe).current in {"", kept, p.current + kept}
  {
    hide SplitLines, Slices, Short;
    assert ShortIn(kept, 11);
    if |kept| > safe {
      SlicesShort(kept, line, safe);
      SmallIsShort("", 11);
    } else {
      JoinedShort(p.current, kept, 11);
    }
  }

  lemma {:induction false} PackShort(text: string, safe: nat, n: nat)
    requires safe >= 12 && ShortLines(text, safe + 11, 11) && n <= |KeepEnds(text)|
    ensures ShortPacking(Pack(KeepEnds(text), safe, n), 11)
    ensures n < |KeepEnds(text)| ==> EndsLine(Pack(KeepEnds(text), safe, n).current)
  {
    hide SplitLines, KeepEnds, PackLine, Short;
    if n == 0 {
      SmallIsShort("", 11);
    } else {
      PackShort(text, safe, n - 1);
      var kept := KeepEnds(text)[n - 1];
      var j := KeptLine(text, n - 1);
      PackLineShort(Pack(KeepEnds(text), safe, n - 1), kept, SplitLines(text)[j], safe);
      if n < |KeepEnds(text)| { KeepEndsClosed(text, n - 1); }
    }
  }

  lemma ShortLinesFit(text: string, chunkSize: int)
    requires chunkSize >= 28 && ShortLines(text, chunkSize - 5, 11)
    ensures AllFit(text, chunkSize)
  {
    hide Short;
    PackShort(text, SafeSize(chunkSize), |KeepEnds(text)|);
    ShortMarkersFit(text, chunkSize);
  }

  /** In chunks of at most eleven characters every marker is short. */
  lemma SmallChunksFit(text: string, chunkSize: int)
    requires 1 <= chunkSize <= 27
    ensures AllFit(text, chunkSize)
  {
    hide Raw, ShortIn;
    var raw := Raw(text, chunkSize);
    RawKeepsText(text, chunkSize);
    forall i | 0 <= i < |raw| ensures ShortIn(raw[i], 11) { SmallIsShort(raw[i], 11); }
    ShortMarkersFit(text, chunkSize);
  }

  // ----- texts that do not fit

  ghost predicate NoFence(lines: seq<string>) {
    forall j :: 0 <= j < |lines| ==> !IsFence(lines[j])
  }

  lemma {:induction false} OpenStays(open: Option<string>, lines: seq<string>, n: nat)
    requires n <= |lines| && NoFence(lines)
    ensures OpenAfter(open, lines, n) == open
  {
    hide IsFence;
    if n > 0 { OpenStays(open, lines, n - 1); }
  }

  lemma {:induction false} OpensAtFirst(marker: string, rest: seq<string>, n: nat)
    requires 1 <= n <= 1 + |rest| && NoFence(rest) && Toggle(None, marker) == Some(marker)
    ensures OpenAfter(None, [marker] + rest, n) == Some(marker)
  {
    hide IsFence, Toggle;
    var lines := [marker] + rest;
    if n == 1 {
      assert OpenAfter(None, lines, 0) == None;
    } else {
      OpensAtFirst(marker, rest, n - 1);
      assert lines[n - 1] == rest[n - 2];
      NoFenceKeeps(Some(marker), rest[n - 2]);
    }
  }

  lemma NoFenceKeeps(open: Option<string>, line: string)
    requires !IsFence(line)
    ensures Toggle(open, line) == open
  {
  }

  /** Chunk `i` starts with a marker; there is no other fence up to chunk `n`. */
  ghost predicate OpensAt(chunks: seq<string>, marker: string, i: nat, n: nat) {
    && i < n <= |chunks|
    && (forall x :: 0 <= x < n && x != i ==> NoFence(SplitLines(chunks[x])))
    && SplitLines(chunks[i]) != [] && SplitLines(chunks[i])[0] == marker && NoFence(SplitLines(chunks[i])[1..])
  }

  lemma {:induction false} OpenFrom(chunks: seq<string>, marker: string, i: nat, n: nat, x: nat)
    requires OpensAt(chunks, marker, i, n) && x <= n && Toggle(None, marker) == Some(marker)
    ensures OpenBefore(chunks, x) == if x <= i then None else Some(marker)
  {
    hide IsFence, Toggle, NoFence, SplitLines;
    if x > 0 {
      OpenFrom(chunks, marker, i, n, x - 1);
      var lines := SplitLines(chunks[x - 1]);
      if x - 1 == i {
        assert lines == [marker] + lines[1..];
        OpensAtFirst(marker, lines[1..], |lines|);
      } else {
        OpenStays(OpenBefore(chunks, x - 1), lines, |lines|);
      }
    }
  }

  /** A full chunk after a marker of twelve characters does not fit. */
  lemma Overflows(text: string, chunkSize: int, marker: string, i: nat, n: nat)
    requires chunkSize >= 28 && |text| > chunkSize && OpensAt(Raw(text, chunkSize), marker, i, n) && i + 1 < n
    requires Toggle(None, marker) == Some(marker) && |marker| == 12
    requires |Raw(text, chunkSize)[n - 1]| == SafeSize(chunkSize)
    ensures !AllFit(text, chunkSize)
  {
    hide Raw, Toggle;
    var raw := Raw(text, chunkSize);
    OpenFrom(raw, marker, i, n, n - 1);
    OpenFrom(raw, marker, i, n, n);
    assert |Balanced(raw, n - 1)| == 12 + 1 + SafeSize(chunkSize) + 4;
  }

  const MARKER := "```aaaaaaaaa"

  function Blank(n: nat): string { Fill('\n', n) }

  lemma MarkerIsMarker()
    ensures |MARKER| == 12 && '\n' !in MARKER && SplitLines(MARKER) == [MARKER]
    ensures Strip(MARKER) == MARKER && Toggle(None, MARKER) == Some(MARKER)
  {
    StripClean(MARKER);
    SingleLine(MARKER);
  }

  lemma PlainLine(line: string)
    requires line != "" && '\n' !in line && !IsSpace(line[0]) && line[0] != '`' && !IsSpace(line[|line| - 1])
    ensures SplitLines(line) == [line] && !IsFence(line)
  {
    SingleLine(line);
    StripClean(line);
  }

  lemma {:induction false} BlankLines(n: nat)
    ensures |KeepEnds(Blank(n))| == n && forall x :: 0 <= x < n ==> KeepEnds(Blank(n))[x] == "\n"
    ensures |SplitLines(Blank(n))| == n && forall x :: 0 <= x < n ==> SplitLines(Blank(n))[x] == ""
  {
    hide KeepEnds, SplitLines;
    if n == 0 {
      NoLines();
    } else {
      BlankLines(n - 1);
      assert Blank(n) == "" + "\n" + Blank(n - 1);
      KeepFirst("", Blank(n - 1));
      SplitFirst("", Blank(n - 1));
    }
  }

  lemma BlankHasNoFence(n: nat)
    ensures NoFence(SplitLines(Blank(n)))
  {
    BlankLines(n);
    StripWithin("");
  }

  lemma MarkerChunk(n: nat)
    ensures var lines := SplitLines(MARKER + "\n" + Blank(n)); lines != [] && lines[0] == MARKER && NoFence(lines[1..])
  {
    MarkerIsMarker();
    SplitFirst(MARKER, Blank(n));
    BlankHasNoFence(n);
    assert SplitLines(MARKER + "\n" + Blank(n))[1..] == SplitLines(Blank(n));
  }

  lemma PackNext(lines: seq<string>, safe: nat, n: nat)
    requires safe >= 1 && n < |lines|
    ensures Pack(lines, safe, n + 1) == PackLine(Pack(lines, safe, n), lines[n], safe)
    ensures Pack(lines, safe, 0) == Packing([], "")
  {
  }

  lemma PackBlank(p: Packing, safe: nat)
    requires safe >= 1
    ensures PackLine(p, "\n", safe) ==
      if |p.current| < safe then Packing(p.chunks, p.current + "\n") else Packing(p.chunks + [p.current], "\n")
  {
  }

  lemma BlankJoin(n: nat, m: nat)
    ensures |Blank(n)| == n && Blank(n) + Blank(m) == Blank(n + m) && Blank(1) == "\n"
  {
  }

  /** Packing blank lines adds them to the chunk begun while there is room. */
  lemma {:induction false} PackBlanks(lines: seq<string>, safe: nat, d: nat, n: nat)
    requires safe >= 1 && d + n <= |lines| && forall x :: d <= x < d + n ==> lines[x] == "\n"
    requires |Pack(lines, safe, d).current| + n <= safe
    ensures var p := Pack(lines, safe, d); Pack(lines, safe, d + n) == Packing(p.chunks, p.current + Blank(n))
    decreases n
  {
    hide Pack, PackLine, Blank;
    var p := Pack(lines, safe, d);
    if n == 0 {
      BlankJoin(0, 0);
      assert p.current + Blank(0) == p.current;
    } else {
      PackBlanks(lines, safe, d, n - 1);
      BlankJoin(n - 1, 1);
      PackNext(lines, safe, d + n - 1);
      PackBlank(Packing(p.chunks, p.current + Blank(n - 1)), safe);
      assert p.current + Blank(n) == p.current + Blank(n - 1) + Blank(1);
    }
  }

  lemma {:induction false} PackGrows(lines: seq<string>, safe: nat, n: nat, m: nat)
    requires safe >= 1 && n <= m <= |lines|
    ensures Pack(lines, safe, n).chunks <= Pack(lines, safe, m).chunks
    decreases m
  {
    if n < m { PackGrows(lines, safe, n, m - 1); }
  }

  /** A line and blank lines after it, more than two chunks of them. */
  function BlankAfter(line: string, safe: nat): string { line + "\n" + Blank(3 * safe) }

  lemma BlankAfterRaw(line: string, chunkSize: int, p: Packing)
    requires chunkSize >= 28 && '\n' !in line
    requires p == PackLine(Packing([], ""), line + "\n", SafeSize(chunkSize)) && |p.current| <= SafeSize(chunkSize)
    ensures var safe := SafeSize(chunkSize);
      p.chunks + [p.current + Blank(safe - |p.current|), Blank(safe)] <= Raw(BlankAfter(line, safe), chunkSize)
  {
    hide PackLine, KeepEnds, Pack, Raw, Blank;
    var safe := SafeSize(chunkSize);
    var room := safe - |p.current|;
    var lines := KeepEnds(BlankAfter(line, safe));
    KeepFirst(line, Blank(3 * safe));
    BlankLines(3 * safe);
    assert |lines| == 1 + 3 * safe && forall x :: 1 <= x < |lines| ==> lines[x] == "\n";
    PackNext(lines, safe, 0);
    PackBlanks(lines, safe, 1, room);
    var first := Packing(p.chunks, p.current + Blank(room));
    BlankJoin(room, 0);
    OneBlankChunk(lines, safe, 1 + room, first);
    PackedInRaw(BlankAfter(line, safe), chunkSize, 2 + room + safe);
    assert first.chunks + [first.current, Blank(safe)] == p.chunks + [p.current + Blank(room), Blank(safe)];
  }

  /** After a full chunk, blank lines make a chunk of their own. */
  lemma OneBlankChunk(lines: seq<string>, safe: nat, d: nat, full: Packing)
    requires safe >= 1 && d + safe < |lines| && forall x :: d <= x <= d + safe ==> lines[x] == "\n"
    requires full == Pack(lines, safe, d) && |full.current| == safe
    ensures Pack(lines, safe, d + safe + 1).chunks == full.chunks + [full.current, Blank(safe)]
  {
    hide PackLine, Pack, Blank;
    PackNext(lines, safe, d);
    PackBlank(full, safe);
    BlankJoin(1, safe - 1);
    PackBlanks(lines, safe, d + 1, safe - 1);
    var more := Packing(full.chunks + [full.current], Blank(safe));
    BlankJoin(safe, 0);
    assert Pack(lines, safe, d + safe) == more;
    PackNext(lines, safe, d + safe);
    PackBlank(more, safe);
    assert full.chunks + [full.current] + [Blank(safe)] == full.chunks + [full.current, Blank(safe)];
  }

  lemma PackedInRaw(text: string, chunkSize: int, n: nat)
    requires n <= |KeepEnds(text)|
    ensures Pack(KeepEnds(text), SafeSize(chunkSize), n).chunks <= Raw(text, chunkSize)
  {
    hide KeepEnds, Pack;
    PackGrows(KeepEnds(text), SafeSize(chunkSize), n, |KeepEnds(text)|);
  }

  /** How the chunks of a line begin that ends in a marker of twelve characters. */
  lemma MarkerSlices(chunkSize: int)
    requires chunkSize >= 28
    ensures var safe := SafeSize(chunkSize);
      Slices(MARKER + "\n", safe) == if safe == 12 then [MARKER, "\n"] else [MARKER + "\n"]
  {
    var safe := SafeSize(chunkSize);
    var kept := MARKER + "\n";
    assert |kept| == 13;
    if safe == 12 { assert kept[..safe] == MARKER && kept[safe..] == "\n"; }
  }

  lemma BlankAfterOverflows(line: string, chunkSize: int, p: Packing, i: nat)
    requires chunkSize >= 28 && '\n' !in line
    requires p == PackLine(Packing([], ""), line + "\n", SafeSize(chunkSize)) && |p.current| <= SafeSize(chunkSize)
    requires var safe := SafeSize(chunkSize);
      OpensAt(p.chunks + [p.current + Blank(safe - |p.current|), Blank(safe)], MARKER, i, |p.chunks| + 2)
        && i <= |p.chunks|
    ensures !AllFit(BlankAfter(line, SafeSize(chunkSize)), chunkSize)
  {
    hide Raw, Toggle, SplitLines, IsFence, PackLine, NoFence;
    var safe := SafeSize(chunkSize);
    var raw := Raw(BlankAfter(line, safe), chunkSize);
    var first := p.chunks + [p.current + Blank(safe - |p.current|), Blank(safe)];
    BlankAfterRaw(line, chunkSize, p);
    assert first == raw[..|first|];
    assert forall x :: 0 <= x < |first| ==> raw[x] == first[x];
    MarkerIsMarker();
    Overflows(BlankAfter(line, safe), chunkSize, MARKER, i, |p.chunks| + 2);
  }

  lemma EmptyHasNoFence()
    ensures NoFence([])
  {
  }

  /** The chunks of a slice that is a marker, and of the blank lines after it. */
  lemma MarkerOpens(before: seq<string>, chunkSize: int)
    requires chunkSize >= 28 && forall x :: 0 <= x < |before| ==> NoFence(SplitLines(before[x]))
    ensures var safe := SafeSize(chunkSize);
      var chunks := before + Slices(MARKER + "\n", safe) + ["" + Blank(safe), Blank(safe)];
      OpensAt(chunks, MARKER, |before|, |chunks|)
  {
    hide SplitLines, IsFence, Slices, NoFence;
    var safe := SafeSize(chunkSize);
    MarkerSlices(chunkSize);
    MarkerIsMarker();
    MarkerChunk(0);
    assert MARKER + "\n" + Blank(0) == MARKER + "\n" && "" + Blank(safe) == Blank(safe) && Blank(1) == "\n";
    BlankHasNoFence(safe);
    BlankHasNoFence(1);
    assert [MARKER][1..] == [];
    EmptyHasNoFence();
  }

  /** A text whose lines have twelve characters or less, and that does not fit. */
  lemma LongMarkerOverflows(chunkSize: int)
    requires chunkSize >= 28
    ensures !AllFit(BlankAfter(MARKER, SafeSize(chunkSize)), chunkSize)
  {
    hide SplitLines, IsFence, Slices, NoFence, AllFit;
    var safe := SafeSize(chunkSize);
    var kept := MARKER + "\n";
    MarkerIsMarker();
    if safe == 12 {
      MarkerOpens([], chunkSize);
      var slices := Slices(kept, safe);
      assert [] + slices == slices;
      BlankAfterOverflows(MARKER, chunkSize, Packing(slices, ""), 0);
    } else {
      var chunks := [] + [kept + Blank(safe - 13), Blank(safe)];
      MarkerChunk(safe - 13);
      BlankHasNoFence(safe);
      assert "" + kept == kept;
      BlankAfterOverflows(MARKER, chunkSize, Packing([], kept), 0);
    }
  }

  /** A line that is no fence, of two slices, the second of which reads as one. */
  function LongLine(safe: nat): string { Fill('a', safe) + MARKER }

  /** A text without any fence, whose lines have four characters less than the chunk size or
      fewer, and that does not fit: a slice of its longest line reads as a fence, and what
      reopens it is one character too long. */
  lemma SlicedLineOverflows(chunkSize: int)
    requires chunkSize >= 28
    ensures var text := BlankAfter(LongLine(SafeSize(chunkSize)), SafeSize(chunkSize));
      ShortLines(text, chunkSize - 4, 0) && NoFence(SplitLines(text)) && !AllFit(text, chunkSize)
  {
    hide SplitLines, IsFence, Slices, NoFence, AllFit, ShortLines, OpensAt, Strip;
    var safe := SafeSize(chunkSize);
    var line := LongLine(safe);
    var slices := [Fill('a', safe)] + Slices(MARKER + "\n", safe);
    PlainLine(Fill('a', safe));
    PlainLine(line);
    SingleFence(Fill('a', safe));
    MarkerOpens([Fill('a', safe)], chunkSize);
    FirstSlice(Fill('a', safe), MARKER + "\n", safe);
    assert line + "\n" == Fill('a', safe) + (MARKER + "\n");
    BlankAfterOverflows(line, chunkSize, Packing(slices, ""), 1);
    PlainBlankAfter(line, safe, chunkSize - 4);
  }

  lemma SingleFence(line: string)
    requires SplitLines(line) == [line] && !IsFence(line)
    ensures NoFence(SplitLines(line))
  {
  }

  lemma FirstSlice(slice: string, rest: string, safe: nat)
    requires |slice| == safe >= 1 && rest != ""
    ensures Slices(slice + rest, safe) == [slice] + Slices(rest, safe)
  {
    assert (slice + rest)[..safe] == slice && (slice + rest)[safe..] == rest;
  }

  /** The lines of a line that is no fence and of the blank lines after it. */
  lemma PlainBlankAfter(line: string, safe: nat, most: nat)
    requires '\n' !in line && |line| <= most && !IsFence(line)
    ensures NoFence(SplitLines(BlankAfter(line, safe))) && ShortLines(BlankAfter(line, safe), most, 0)
  {
    hide IsFence;
    SplitFirst(line, Blank(3 * safe));
    BlankLines(3 * safe);
    BlankHasNoFence(3 * safe);
  }

  lemma MarkerBlankAfter(safe: nat)
    ensures ShortLines(BlankAfter(MARKER, safe), 12, 12)
  {
    hide IsFence, SplitLines;
    var text := BlankAfter(MARKER, safe);
    MarkerIsMarker();
    SplitFirst(MARKER, Blank(3 * safe));
    BlankLines(3 * safe);
    forall j | 0 <= j < |SplitLines(text)| ensures |SplitLines(text)[j]| <= 12 && Short(SplitLines(text)[j], 12) {
      SmallLine(SplitLines(text)[j], 12);
    }
  }

  lemma MoreLines(text: string, most: nat, k: nat, more: nat, l: nat)
    requires ShortLines(text, most, k) && most <= more && k <= l
    ensures ShortLines(text, more, l)
  {
  }

  lemma ShortLinesHaveShortMarkers(text: string, most: nat, k: nat)
    requires ShortLines(text, most, k)
    ensures ShortLines(text, most, if k <= most then k else most)
  {
    forall j | 0 <= j < |SplitLines(text)| ensures Short(SplitLines(text)[j], if k <= most then k else most) {
      StripWithin(SplitLines(text)[j]);
    }
  }

  /** Exactly which limits on the lines and fence markers of a text make all its descriptions
      fit: in chunks of 28 characters or more, lines of at most five characters less than a
      chunk and markers of at most eleven; smaller chunks always fit. */
  lemma FitIff(chunkSize: int, most: nat, k: nat)
    requires chunkSize >= 1
    ensures (forall text :: ShortLines(text, most, k) ==> AllFit(text, chunkSize))
      <==> chunkSize <= 27 || (most <= chunkSize - 5 && (k <= 11 || most <= 11))
  {
    hide AllFit, ShortLines;
    if chunkSize <= 27 {
      forall text ensures AllFit(text, chunkSize) { SmallChunksFit(text, chunkSize); }
    } else if most >= chunkSize - 4 {
      var text := BlankAfter(LongLine(SafeSize(chunkSize)), SafeSize(chunkSize));
      SlicedLineOverflows(chunkSize);
      MoreLines(text, chunkSize - 4, 0, most, k);
    } else if k > 11 && most > 11 {
      var text := BlankAfter(MARKER, SafeSize(chunkSize));
      LongMarkerOverflows(chunkSize);
      MarkerBlankAfter(SafeSize(chunkSize));
      MoreLines(text, 12, 12, most, k);
    } else {
      forall text | ShortLines(text, most, k) ensures AllFit(text, chunkSize) {
        ShortLinesHaveShortMarkers(text, most, k);
        MoreLines(text, most, if k <= most then k else most, chunkSize - 5, 11);
        ShortLinesFit(text, chunkSize);
      }
    }
  }
}
