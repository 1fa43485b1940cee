/** The string operations the text transformers rely on. A newline is the only line break. */
module Text {
  predicate IsSpace(c: char) {
    c == ' ' || c == '\t' || c == '\n' || c == '\r' || c == '\U{0b}' || c == '\U{0c}'
  }

  /** The length of the first line, its newline not counted. */
  function LineEnd(s: string): (n: nat)
    ensures n <= |s| && (n < |s| ==> s[n] == '\n')
  {
    if s == "" || s[0] == '\n' then 0 else 1 + LineEnd(s[1..])
  }

  lemma {:induction false} FirstLineIsClean(s: string)
    ensures '\n' !in s[..LineEnd(s)]
  {
    if s != "" && s[0] != '\n' {
      FirstLineIsClean(s[1..]);
      assert s[..LineEnd(s)] == [s[0]] + s[1..][..LineEnd(s) - 1];
    }
  }

  /** A text is one line, or a line, a newline and the rest. */
  lemma FirstLine(s: string) returns (line: string, rest: string)
    ensures '\n' !in line && |rest| <= |s|
    ensures (s == line && rest == "") || (s == line + "\n" + rest && |rest| < |s|)
  {
    var n := LineEnd(s);
    FirstLineIsClean(s);
    line := s[..n];
    rest := if n < |s| then s[n + 1..] else "";
  }

  /** The lines of a text without their newlines; a final newline opens no further line. */
  function SplitLines(s: string): (lines: seq<string>)
    ensures lines == [] <==> s == ""
  {
    if s == "" then [] else
      var n := LineEnd(s);
      if n == |s| then [s] else [s[..n]] + SplitLines(s[n + 1..])
  }

  lemma {:induction false} LinesAreClean(s: string)
    ensures forall k :: 0 <= k < |SplitLines(s)| ==> '\n' !in SplitLines(s)[k]
  {
    if s != "" {
      var n := LineEnd(s);
      FirstLineIsClean(s);
      if n < |s| { LinesAreClean(s[n + 1..]); } else { assert s[..n] == s; }
    }
  }

  /** The lines of a text, each with its newline if it has one. */
  function KeepEnds(s: string): (lines: seq<string>)
    ensures forall k :: 0 <= k < |lines| ==> lines[k] != ""
  {
    if s == "" then [] else
      var n := LineEnd(s);
      if n == |s| then [s] else [s[..n + 1]] + KeepEnds(s[n + 1..])
  }

  function Concat(parts: seq<string>): string {
    if parts == [] then "" else parts[0] + Concat(parts[1..])
  }

  /** A text without its leading white space. */
  function LStrip(s: string): (r: string)
    ensures |r| <= |s|
  {
    if s != "" && IsSpace(s[0]) then LStrip(s[1..]) else s
  }

  /** A text without its trailing white space. */
  function RStrip(s: string): (r: string)
    ensures |r| <= |s|
  {
    if s != "" && IsSpace(s[|s| - 1]) then RStrip(s[..|s| - 1]) else s
  }

  lemma {:induction false} LStripIsSuffix(s: string)
    ensures LStrip(s) == s[|s| - |LStrip(s)|..]
    ensures LStrip(s) != "" ==> !IsSpace(LStrip(s)[0])
  {
    if s != "" && IsSpace(s[0]) { LStripIsSuffix(s[1..]); }
  }

  lemma {:induction false} RStripIsPrefix(s: string)
    ensures RStrip(s) <= s
    ensures RStrip(s) != "" ==> !IsSpace(RStrip(s)[|RStrip(s)| - 1])
    ensures forall k :: |RStrip(s)| <= k < |s| ==> IsSpace(s[k])
  {
    if s != "" && IsSpace(s[|s| - 1]) { RStripIsPrefix(s[..|s| - 1]); }
  }

  function Strip(s: string): string { RStrip(LStrip(s)) }

  lemma {:induction false} LStripPrefix(s: string, p: string)
    requires p <= s && LStrip(p) != ""
    ensures LStrip(p) <= LStrip(s)
  {
    if p != "" && IsSpace(p[0]) { LStripPrefix(s[1..], p[1..]); }
  }

  lemma RStripPrefix(s: string, p: string)
    requires p <= s
    ensures RStrip(p) <= RStrip(s)
  {
    RStripIsPrefix(s);
    RStripIsPrefix(p);
    var n := |RStrip(p)|;
    if n > 0 { assert p[n - 1] == s[n - 1]; }
  }

  /** Stripping a beginning of a text, unless nothing is left, gives a beginning of the stripped text. */
  lemma StripPrefix(s: string, p: string)
    requires p <= s && LStrip(p) != ""
    ensures Strip(p) <= Strip(s)
  {
    LStripPrefix(s, p);
    RStripPrefix(LStrip(s), LStrip(p));
  }

  function Lower(c: char): char { if 'A' <= c <= 'Z' then c - 'A' + 'a' else c }

  function Lowered(s: string): string { seq(|s|, i requires 0 <= i < |s| => Lower(s[i])) }

  /** Lower case changes the letters from A to Z, these included, each to its small one, and
      nothing else. */
  lemma LowerIsSmall(c: char)
    ensures Lower('A') == 'a' && Lower('Z') == 'z'
    ensures 'A' <= c <= 'Z' ==> 'a' <= Lower(c) <= 'z' && Lower(c) - 'a' == c - 'A'
    ensures c < 'A' || 'Z' < c ==> Lower(c) == c
  {
  }

  lemma {:induction false} LineEndAt(line: string, rest: string)
    requires '\n' !in line && (rest == "" || rest[0] == '\n')
    ensures LineEnd(line + rest) == |line|
  {
    if line == "" {
      assert line + rest == rest;
    } else {
      LineEndAt(line[1..], rest);
      assert (line + rest)[1..] == line[1..] + rest;
    }
  }

  lemma NoLines()
    ensures KeepEnds("") == [] && SplitLines("") == []
  {
  }

  /** A first line is split off a text. */
  lemma SplitFirst(line: string, rest: string)
    requires '\n' !in line
    ensures SplitLines(line + "\n" + rest) == [line] + SplitLines(rest)
  {
    var s := line + "\n" + rest;
    assert s == line + ("\n" + rest);
    LineEndAt(line, "\n" + rest);
    assert s[..|line|] == line && s[|line| + 1..] == rest;
  }

  /** Splitting a text whose first part ends a line splits the two parts. */
  lemma {:induction false} SplitAfterNewline(a: string, b: string)
    ensures SplitLines(a + "\n" + b) == SplitLines(a + "\n") + SplitLines(b)
    decreases |a|
  {
    hide SplitLines;
    var line, rest := FirstLine(a);
    if a == line {
      SplitFirst(a, b);
      SplitFirst(a, "");
      NoLines();
      assert a + "\n" + "" == a + "\n";
    } else {
      SplitAfterNewline(rest, b);
      SplitFirst(line, rest + "\n" + b);
      SplitFirst(line, rest + "\n");
      assert a + "\n" + b == line + "\n" + (rest + "\n" + b);
      assert a + "\n" == line + "\n" + (rest + "\n");
    }
  }

  lemma {:induction false} KeepEndsConcat(s: string)
    ensures Concat(KeepEnds(s)) == s
  {
    if s != "" {
      var n := LineEnd(s);
      if n < |s| {
        KeepEndsConcat(s[n + 1..]);
        assert s == s[..n + 1] + s[n + 1..];
      }
    }
  }

  lemma {:induction false} ConcatAppend(a: seq<string>, b: seq<string>)
    ensures Concat(a + b) == Concat(a) + Concat(b)
  {
    hide Concat;
    if a == [] {
      assert a + b == b;
      ConcatNothing();
    } else {
      var first, rest := a[0], a[1..];
      ConcatAppend(rest, b);
      ConcatFirst(first, rest);
      ConcatFirst(first, rest + b);
      assert a == [first] + rest;
      assert a + b == [first] + (rest + b);
    }
  }

  lemma ConcatNothing()
    ensures Concat([]) == ""
  {
  }

  lemma ConcatFirst(first: string, rest: seq<string>)
    ensures Concat([first] + rest) == first + Concat(rest)
  {
    assert ([first] + rest)[1..] == rest;
  }

  lemma ConcatSnoc(parts: seq<string>, last: string)
    ensures Concat(parts + [last]) == Concat(parts) + last
  {
    ConcatAppend(parts, [last]);
    assert Concat([last]) == last;
  }

  lemma ConcatUpto(parts: seq<string>, n: nat)
    requires n < |parts|
    ensures Concat(parts[..n + 1]) == Concat(parts[..n]) + parts[n]
  {
    assert parts[..n + 1] == parts[..n] + [parts[n]];
    ConcatSnoc(parts[..n], parts[n]);
  }

  /** What starts and ends without white space is unchanged by stripping. */
  lemma StripClean(s: string)
    requires s != "" ==> !IsSpace(s[0]) && !IsSpace(s[|s| - 1])
    ensures Strip(s) == s
  {
  }

  lemma {:induction false} LStripNoNewline(line: string)
    requires '\n' !in line
    ensures '\n' !in LStrip(line)
  {
    if line != "" && IsSpace(line[0]) { LStripNoNewline(line[1..]); }
  }

  lemma {:induction false} RStripNoNewline(line: string)
    requires '\n' !in line
    ensures '\n' !in RStrip(line)
  {
    if line != "" && IsSpace(line[|line| - 1]) { RStripNoNewline(line[..|line| - 1]); }
  }

  lemma StripNoNewline(line: string)
    requires '\n' !in line
    ensures '\n' !in Strip(line)
  {
    LStripNoNewline(line);
    RStripNoNewline(LStrip(line));
  }

  lemma StripTwice(s: string)
    ensures Strip(Strip(s)) == Strip(s)
  {
    var r := Strip(s);
    LStripIsSuffix(s);
    RStripIsPrefix(LStrip(s));
    StripClean(r);
  }

  ghost predicate AllSpaces(s: string) { forall i :: 0 <= i < |s| ==> IsSpace(s[i]) }

  lemma {:induction false} LStripThen(gap: string, rest: string)
    requires AllSpaces(gap) && (rest != "" ==> !IsSpace(rest[0]))
    ensures LStrip(gap + rest) == rest
  {
    if gap == "" {
      assert gap + rest == rest;
    } else {
      LStripThen(gap[1..], rest);
      assert (gap + rest)[1..] == gap[1..] + rest;
    }
  }

  lemma {:induction false} RStripThen(body: string, gap: string)
    requires AllSpaces(gap) && body != "" && !IsSpace(body[|body| - 1])
    ensures RStrip(body + gap) == body
  {
    if gap == "" {
      assert body + gap == body;
    } else {
      RStripThen(body, gap[..|gap| - 1]);
      assert (body + gap)[..|body + gap| - 1] == body + gap[..|gap| - 1];
    }
  }

  /** White space around a text is stripped from it. */
  lemma StripAround(before: string, s: string, after: string)
    requires AllSpaces(before) && AllSpaces(after) && s != "" && !IsSpace(s[0]) && !IsSpace(s[|s| - 1])
    ensures Strip(before + (s + after)) == s
  {
    hide LStrip, RStrip;
    LStripThen(before, s + after);
    RStripThen(s, after);
  }

  predicate EndsLine(s: string) { s == "" || s[|s| - 1] == '\n' }

  lemma SplitJoin(a: string, b: string)
    requires EndsLine(a)
    ensures SplitLines(a + b) == SplitLines(a) + SplitLines(b)
  {
    if a == "" {
      assert a + b == b;
    } else {
      var body := a[..|a| - 1];
      assert a == body + "\n";
      SplitAfterNewline(body, b);
    }
  }

  lemma SingleLine(line: string)
    requires '\n' !in line && line != ""
    ensures SplitLines(line) == [line] && KeepEnds(line) == [line]
  {
    LineEndAt(line, "");
    assert line + "" == line;
  }

  lemma KeepFirst(line: string, rest: string)
    requires '\n' !in line
    ensures KeepEnds(line + "\n" + rest) == [line + "\n"] + KeepEnds(rest)
  {
    var s := line + "\n" + rest;
    assert s == line + ("\n" + rest);
    LineEndAt(line, "\n" + rest);
    assert s[..|line| + 1] == line + "\n" && s[|line| + 1..] == rest;
  }

  /** Only the last line may lack its newline. */
  lemma {:induction false} KeepEndsClosed(s: string, k: nat)
    requires k + 1 < |KeepEnds(s)|
    ensures EndsLine(KeepEnds(s)[k])
  {
    var n := LineEnd(s);
    if k > 0 { KeepEndsClosed(s[n + 1..], k - 1); }
  }

  /** No line is longer than the text. */
  lemma {:induction false} LinesWithin(s: string, k: nat)
    requires k < |SplitLines(s)|
    ensures |SplitLines(s)[k]| <= |s|
  {
    var n := LineEnd(s);
    if k > 0 { LinesWithin(s[n + 1..], k - 1); }
  }

  predicate IsDigit(c: char) { '0' <= c <= '9' }

  /** A number in decimal digits. */
  function Decimal(n: nat): string {
    var digit := ['0' + (n % 10) as char];
    if n < 10 then digit else Decimal(n / 10) + digit
  }

  /** A character repeated. */
  function Fill(c: char, n: nat): (s: string)
    ensures |s| == n && forall k :: 0 <= k < n ==> s[k] == c
  {
    seq(n, _ => c)
  }
}
