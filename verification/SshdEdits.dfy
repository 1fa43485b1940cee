/** What edits of the managed sshd file do to the settings read from it: the edited key takes
    its value, other keys keep theirs, and the file is an ordered table of settings. */
module SshdEdits {
  import opened Common
  import opened Text
  import opened SshdConfig

  // ----- the lines of an edited file

  /** Lines without trailing blank ones, the last one without trailing white space. */
  function Trimmed(lines: seq<string>): seq<string> {
    if lines == [] then [] else
      var n := |lines| - 1;
      if RStrip(lines[n]) == "" then Trimmed(lines[..n]) else lines[..n] + [RStrip(lines[n])]
  }

  ghost predicate AreLines(lines: seq<string>) {
    forall i :: 0 <= i < |lines| ==> '\n' !in lines[i]
  }

  lemma {:induction false} RStripAppend(a: string, b: string)
    ensures RStrip(a + b) == if RStrip(b) == "" then RStrip(a) else a + RStrip(b)
  {
    if b == "" {
      assert a + b == a;
    } else if IsSpace(b[|b| - 1]) {
      var shorter := b[..|b| - 1];
      assert (a + b)[..|a + b| - 1] == a + shorter;
      RStripAppend(a, shorter);
    } else {
      assert (a + b)[|a + b| - 1] == b[|b| - 1];
    }
  }

  lemma RStripNewline()
    ensures RStrip("\n") == ""
  {
    assert "\n"[..0] == "";
  }

  lemma {:induction false} TrimmedText(lines: seq<string>)
    ensures RStrip(JoinLines(lines)) == JoinLines(Trimmed(lines))
  {
    hide RStrip;
    if |lines| == 0 {
      RStripAppend("", "");
      RStripClean("");
    } else if |lines| == 1 {
      assert lines[..0] == [];
      assert [] + [RStrip(lines[0])] == [RStrip(lines[0])];
    } else {
      var n := |lines| - 1;
      var before, last := lines[..n], lines[n];
      TrimmedText(before);
      RStripAppend(JoinLines(before) + "\n", last);
      RStripAppend(JoinLines(before), "\n");
      RStripNewline();
      if RStrip(last) != "" {
        assert (before + [RStrip(last)])[..n] == before;
      }
    }
  }

  lemma RStripClean(s: string)
    requires s != "" ==> !IsSpace(s[|s| - 1])
    ensures RStrip(s) == s
  {
  }

  lemma OneLine(line: string)
    requires '\n' !in line
    ensures SplitLines(line + "\n") == [line]
  {
    SplitFirst(line, "");
    assert line + "\n" + "" == line + "\n";
  }

  lemma {:induction false} SplitJoined(lines: seq<string>)
    requires lines != [] && AreLines(lines)
    ensures SplitLines(JoinLines(lines) + "\n") == lines
  {
    hide SplitLines;
    var n := |lines| - 1;
    OneLine(lines[n]);
    if n > 0 {
      var before := JoinLines(lines[..n]);
      SplitJoined(lines[..n]);
      SplitAfterNewline(before, lines[n] + "\n");
      assert JoinLines(lines) + "\n" == before + "\n" + (lines[n] + "\n");
    }
    assert lines == lines[..n] + [lines[n]];
  }

  // ----- one line, once more: what the settings written by an edit read as

  lemma {:induction false} BeforeHashClean(line: string)
    requires '#' !in line
    ensures BeforeHash(line) == line
  {
    if line != "" { BeforeHashClean(line[1..]); }
  }

  lemma {:induction false} LStripSpaces(s: string)
    requires s != "" && IsSpace(s[0])
    ensures LStrip(s) == LStrip(s[1..])
  {
  }

  /** Two keys are the same, case aside, exactly if their lower-case forms are. */
  lemma SameFoldIff(a: string, b: string)
    ensures SameFold(a, b) <==> Lowered(a) == Lowered(b)
  {
    if Lowered(a) == Lowered(b) {
      assert |a| == |Lowered(a)| == |Lowered(b)| == |b|;
      forall i | 0 <= i < |a| ensures Lower(a[i]) == Lower(b[i]) { assert Lowered(a)[i] == Lowered(b)[i]; }
    }
  }

  lemma AfterSpace(value: string)
    requires CleanValue(value)
    ensures Strip(" " + value) == value
  {
    LStripSpaces(" " + value);
    assert (" " + value)[1..] == value;
    StripClean(value);
  }

  /** A clean setting reads as its value for its own key, in any case of it, and for no other. */
  lemma SettingParses(key: string, value: string, other: string)
    requires CleanKey(key) && CleanKey(other) && CleanValue(value)
    ensures ParseLine(Setting(key, value), other) == if SameFold(key, other) then Some(value) else None
  {
    hide Lower, ReadsKey, Strip;
    var line := Setting(key, value);
    assert '#' !in line;
    BeforeHashClean(line);
    assert line[0] == key[0] && line[|line| - 1] == value[|value| - 1];
    StripClean(line);
    SettingReads(key, value, other);
    assert SameFold(key, other) ==> line[|other|..] == " " + value;
    AfterSpace(value);
  }

  lemma SettingReads(key: string, value: string, other: string)
    requires CleanKey(key) && CleanKey(other)
    ensures ReadsKey(Setting(key, value), other) <==> SameFold(key, other)
  {
    var line := Setting(key, value);
    assert line[|key|] == ' ';
    if |other| > |key| {
      assert Lower(' ') != Lower(other[|key|]) by { LowerSpace(other[|key|]); }
    } else if |other| == |key| {
      assert line[..|other|] == key;
    } else {
      assert line[|other|] == key[|other|];
    }
  }

  lemma LowerSpace(c: char)
    ensures IsSpace(c) <==> IsSpace(Lower(c))
    ensures IsSpace(c) ==> Lower(c) == c
  {
  }

  lemma SettingMatches(key: string, value: string, other: string)
    requires CleanKey(key) && CleanKey(other)
    ensures Matches(Setting(key, value), other) <==> key == other
  {
    var line := Setting(key, value);
    assert line[0] == key[0];
    assert LStrip(line) == line;
    assert line[|key|] == ' ' && line[..|key|] == key;
    if |other| > |key| {
      assert line[|key|] != other[|key|];
    } else if |other| < |key| {
      assert line[|other|] == key[|other|];
    }
  }

  lemma {:induction false} BeforeHashSnoc(line: string, c: char)
    requires c != '#'
    ensures BeforeHash(line + [c]) == if '#' in line then BeforeHash(line) else line + [c]
  {
    if line == "" {
      assert [c][1..] == "";
    } else {
      assert (line + [c])[1..] == line[1..] + [c];
      BeforeHashSnoc(line[1..], c);
    }
  }

  lemma {:induction false} HashTrim(line: string)
    ensures RStrip(BeforeHash(RStrip(line))) == RStrip(BeforeHash(line))
  {
    if line != "" && IsSpace(line[|line| - 1]) {
      var shorter, c := line[..|line| - 1], line[|line| - 1];
      assert line == shorter + [c];
      HashTrim(shorter);
      BeforeHashSnoc(shorter, c);
      if '#' !in shorter { BeforeHashClean(shorter); }
    }
  }

  lemma {:induction false} BeforeHashPrefix(line: string)
    ensures BeforeHash(line) <= line
  {
    if line != "" { BeforeHashPrefix(line[1..]); }
  }

  lemma LStripClean(s: string)
    requires s != "" ==> !IsSpace(s[0])
    ensures LStrip(s) == s
  {
  }

  lemma {:induction false} StripOrder(s: string)
    ensures RStrip(LStrip(s)) == LStrip(RStrip(s))
  {
    hide LStrip, RStrip;
    RStripIsPrefix(s);
    if s == "" {
      LStripClean("");
      RStripClean("");
    } else if IsSpace(s[0]) {
      var c, rest := [s[0]], s[1..];
      assert s == c + rest;
      LStripSpaces(s);
      StripOrder(rest);
      RStripAppend(c, rest);
      if RStrip(rest) == "" {
        RStripAppend("", c);
        RStripClean("");
        assert "" + c == c;
        SpaceOnly(c);
      } else {
        LStripSpaces(c + RStrip(rest));
        assert (c + RStrip(rest))[1..] == RStrip(rest);
      }
    } else {
      LStripClean(s);
      LStripClean(RStrip(s));
    }
  }

  lemma SpaceOnly(c: string)
    requires |c| == 1 && IsSpace(c[0])
    ensures RStrip(c) == ""
  {
    assert c[..0] == "";
  }

  /** Cutting trailing white space changes neither what a line reads as nor, once it matches no
      key, makes it match. */
  lemma TrimmedReads(line: string, key: string)
    ensures ParseLine(RStrip(line), key) == ParseLine(line, key)
    ensures Matches(RStrip(line), key) ==> Matches(line, key)
  {
    hide LStrip, RStrip, BeforeHash, ReadsKey;
    HashTrim(line);
    StripOrder(BeforeHash(RStrip(line)));
    StripOrder(BeforeHash(line));
    StripOrder(line);
    RStripIsPrefix(LStrip(line));
  }

  /** A line that reads as a key in the very spelling of the key matches it. */
  lemma ExactReads(line: string, key: string)
    requires var body := Strip(BeforeHash(line)); ReadsKey(body, key) && body[..|key|] == key
    ensures Matches(line, key)
  {
    hide BeforeHash, RStrip, LStrip;
    var cut := BeforeHash(line);
    RStripIsPrefix(LStrip(cut));
    BeforeHashPrefix(line);
    LStripPrefix(line, cut);
  }

  // ----- a whole file after an edit

  lemma {:induction false} TrimmedLines(lines: seq<string>)
    requires AreLines(lines)
    ensures AreLines(Trimmed(lines)) && |Trimmed(lines)| <= |lines|
    ensures forall i :: 0 <= i < |Trimmed(lines)| ==>
      Trimmed(lines)[i] == if i < |Trimmed(lines)| - 1 then lines[i] else RStrip(lines[i])
    ensures forall i :: |Trimmed(lines)| <= i < |lines| ==> RStrip(lines[i]) == ""
  {
    hide RStrip;
    if lines != [] {
      var n := |lines| - 1;
      if RStrip(lines[n]) == "" {
        TrimmedLines(lines[..n]);
      } else {
        RStripNoNewline(lines[n]);
      }
    }
  }

  lemma SettingIsLine(key: string, value: string)
    requires CleanKey(key) && CleanValue(value)
    ensures '\n' !in Setting(key, value) && RStrip(Setting(key, value)) == Setting(key, value) != ""
  {
    var line := Setting(key, value);
    assert line[|line| - 1] == value[|value| - 1];
    if '\n' in key { assert IsSpace('\n'); }
  }

  lemma EditedHasSetting(lines: seq<string>, key: string, value: string) returns (i: nat)
    ensures i < |Edited(lines, key, value)| && Edited(lines, key, value)[i] == Setting(key, value)
  {
    hide Matches, Setting;
    if AnyMatch(lines, key, |lines|) {
      i :| 0 <= i < |lines| && Matches(lines[i], key);
    } else {
      i := |lines|;
    }
  }

  lemma EditedAreLines(lines: seq<string>, key: string, value: string)
    requires AreLines(lines) && CleanKey(key) && CleanValue(value)
    ensures AreLines(Edited(lines, key, value))
  {
    hide Matches, Setting;
    SettingIsLine(key, value);
  }

  lemma EditIsTrimmed(text: string, key: string, value: string)
    ensures Edit(text, key, value) == JoinLines(Trimmed(Edited(SplitLines(text), key, value))) + "\n"
  {
    hide Edited, Trimmed, RStrip, SplitLines;
    TrimmedText(Edited(SplitLines(text), key, value));
  }

  /** The lines of an edited file. */
  lemma EditedFile(text: string, key: string, value: string)
    requires CleanKey(key) && CleanValue(value)
    ensures var lines := Edited(SplitLines(text), key, value);
      AreLines(lines) && SplitLines(Edit(text, key, value)) == Trimmed(lines)
      && Edit(text, key, value) == JoinLines(Trimmed(lines)) + "\n"
  {
    hide Setting, RStrip, SplitLines, Edited, Edit, Trimmed, JoinLines, CleanKey, CleanValue;
    var lines := Edited(SplitLines(text), key, value);
    LinesAreClean(text);
    EditedAreLines(SplitLines(text), key, value);
    EditIsTrimmed(text, key, value);
    TrimmedLines(lines);
    SettingIsLine(key, value);
    var i := EditedHasSetting(SplitLines(text), key, value);
    assert RStrip(lines[i]) != "";
    SplitJoined(Trimmed(lines));
  }

  lemma {:induction false} SameReads(a: seq<string>, b: seq<string>, key: string, n: nat)
    requires n <= |a| && n <= |b| && forall i :: 0 <= i < n ==> ParseLine(a[i], key) == ParseLine(b[i], key)
    ensures LastValue(a, key, n) == LastValue(b, key, n)
  {
    hide ParseLine;
    if n > 0 { SameReads(a, b, key, n - 1); }
  }

  lemma {:induction false} SilentTail(lines: seq<string>, key: string, from: nat, n: nat)
    requires from <= n <= |lines| && forall i :: from <= i < n ==> ParseLine(lines[i], key).None?
    ensures LastValue(lines, key, n) == LastValue(lines, key, from)
  {
    hide ParseLine;
    if from < n { SilentTail(lines, key, from, n - 1); }
  }

  lemma TrimmedValue(lines: seq<string>, key: string)
    requires AreLines(lines)
    ensures LastValue(Trimmed(lines), key, |Trimmed(lines)|) == LastValue(lines, key, |lines|)
  {
    hide RStrip, ParseLine;
    TrimmedLines(lines);
    var n := |Trimmed(lines)|;
    forall i | 0 <= i < n ensures ParseLine(Trimmed(lines)[i], key) == ParseLine(lines[i], key) {
      TrimmedReads(lines[i], key);
    }
    SameReads(Trimmed(lines), lines, key, n);
    forall i | n <= i < |lines| ensures ParseLine(lines[i], key).None? {
      TrimmedReads(lines[i], key);
      BlankReads(key);
    }
    SilentTail(lines, key, n, |lines|);
  }

  lemma BlankReads(key: string)
    ensures ParseLine("", key).None?
  {
  }

  /** What an edit leaves a key to be read as is what its lines read as. */
  lemma EditedValue(text: string, key: string, value: string, other: string)
    requires CleanKey(key) && CleanValue(value)
    ensures var lines := Edited(SplitLines(text), key, value);
      Parse(Edit(text, key, value), other) == LastValue(lines, other, |lines|)
  {
    EditedFile(text, key, value);
    TrimmedValue(Edited(SplitLines(text), key, value), other);
  }

  /** A line that matches one key reads as no other, case aside. */
  lemma MatchedReads(line: string, key: string, other: string)
    requires CleanKey(key) && CleanKey(other) && Matches(line, key) && !SameFold(key, other)
    ensures ParseLine(line, other).None?
  {
    hide BeforeHash, RStrip, LStrip;
    var cut := BeforeHash(line);
    var body := Strip(cut);
    if ReadsKey(body, other) {
      RStripIsPrefix(LStrip(cut));
      BeforeHashPrefix(line);
      LStripPrefix(line, cut);
      PrefixClash(LStrip(line), body, key, other);
    }
  }

  lemma PrefixClash(line: string, body: string, key: string, other: string)
    requires CleanKey(key) && CleanKey(other)
    requires key <= line && |line| > |key| && IsSpace(line[|key|])
    requires body <= line && ReadsKey(body, other)
    ensures SameFold(key, other)
  {
    if |other| > |key| {
      assert Lower(line[|key|]) == Lower(body[..|other|][|key|]) == Lower(other[|key|]);
      LowerSpace(line[|key|]);
      LowerSpace(other[|key|]);
    } else if |other| == |key| {
      assert body[..|other|] == key;
    }
  }

  /** An edit of one key leaves every other key, case aside, to be read as before. */
  lemma OtherKeysKept(text: string, key: string, value: string, other: string)
    requires CleanKey(key) && CleanValue(value) && CleanKey(other) && !SameFold(key, other)
    ensures Parse(Edit(text, key, value), other) == Parse(text, other)
  {
    hide Matches, ParseLine, Setting;
    var lines := SplitLines(text);
    var edited := Edited(lines, key, value);
    EditedValue(text, key, value, other);
    SettingParses(key, value, other);
    forall i | 0 <= i < |lines| ensures ParseLine(edited[i], other) == ParseLine(lines[i], other) {
      if Matches(lines[i], key) { MatchedReads(lines[i], key, other); }
    }
    SameReads(edited, lines, other, |lines|);
    SilentTail(edited, other, |lines|, |edited|);
  }

  /** What the lines after the last matching one read the key as. */
  function Overriding(lines: seq<string>, key: string, n: nat): Option<string>
    requires n <= |lines|
  {
    if n == 0 || Matches(lines[n - 1], key) then None
    else if ParseLine(lines[n - 1], key).Some? then ParseLine(lines[n - 1], key)
    else Overriding(lines, key, n - 1)
  }

  lemma {:induction false} ReplacedValue(lines: seq<string>, key: string, value: string, n: nat)
    requires n <= |lines| && CleanKey(key) && CleanValue(value)
    ensures LastValue(Replaced(lines, key, value, |lines|), key, n)
      == if Overriding(lines, key, n).Some? then Overriding(lines, key, n)
         else if AnyMatch(lines, key, n) then Some(value) else None
  {
    hide Matches, ParseLine, Setting, SameFold;
    if n > 0 {
      ReplacedValue(lines, key, value, n - 1);
      SettingParses(key, value, key);
      FoldSelf(key);
    }
  }

  lemma FoldSelf(key: string)
    ensures SameFold(key, key)
  {
  }

  /** Exactly when an edited key reads as its new value: when no line has its exact spelling, or
      the last line after those that spells it in another case, if any, has that value. */
  lemma EditTakesEffectIff(text: string, key: string, value: string)
    requires CleanKey(key) && CleanValue(value)
    ensures var lines := SplitLines(text);
      Parse(Edit(text, key, value), key) == Some(value)
      <==> (AnyMatch(lines, key, |lines|) ==> Overriding(lines, key, |lines|).GetOr(value) == value)
  {
    hide Matches, ParseLine, Setting, SameFold;
    var lines := SplitLines(text);
    var edited := Edited(lines, key, value);
    EditedValue(text, key, value, key);
    SettingParses(key, value, key);
    FoldSelf(key);
    if AnyMatch(lines, key, |lines|) {
      ReplacedValue(lines, key, value, |lines|);
      assert edited == Replaced(lines, key, value, |lines|);
    } else {
      assert edited[|edited| - 1] == Setting(key, value);
    }
  }

  /** A line that reads as the key, if at all, in the key's own spelling. */
  ghost predicate SpelledExactly(line: string, key: string) {
    var body := Strip(BeforeHash(line));
    ReadsKey(body, key) ==> body[..|key|] == key
  }

  /** No line spells the key differently. */
  ghost predicate OneSpelling(text: string, key: string) {
    forall i :: 0 <= i < |SplitLines(text)| ==> SpelledExactly(SplitLines(text)[i], key)
  }

  lemma SpelledMatches(line: string, key: string)
    requires SpelledExactly(line, key) && ParseLine(line, key).Some?
    ensures Matches(line, key)
  {
    ExactReads(line, key);
  }

  lemma {:induction false} NothingOverrides(text: string, key: string, n: nat)
    requires n <= |SplitLines(text)| && OneSpelling(text, key)
    ensures Overriding(SplitLines(text), key, n).None?
  {
    hide Matches, ParseLine, SpelledExactly;
    if n > 0 {
      NothingOverrides(text, key, n - 1);
      if ParseLine(SplitLines(text)[n - 1], key).Some? { SpelledMatches(SplitLines(text)[n - 1], key); }
    }
  }

  lemma EditTakesEffect(text: string, key: string, value: string)
    requires CleanKey(key) && CleanValue(value) && OneSpelling(text, key)
    ensures Parse(Edit(text, key, value), key) == Some(value)
  {
    hide Matches, ParseLine;
    NothingOverrides(text, key, |SplitLines(text)|);
    EditTakesEffectIff(text, key, value);
  }

  /** Lines whose every match is already the new setting, and that have one, stay as they are. */
  lemma EditedFixed(lines: seq<string>, key: string, value: string, at: nat)
    requires CleanKey(key) && at < |lines| && lines[at] == Setting(key, value)
    requires forall i :: 0 <= i < |lines| && Matches(lines[i], key) ==> lines[i] == Setting(key, value)
    ensures Edited(lines, key, value) == lines
  {
    hide Matches, Setting;
    SettingMatches(key, value, key);
    assert Replaced(lines, key, value, |lines|) == lines;
  }

  lemma TrimmedEdit(lines: seq<string>, key: string, value: string)
    requires CleanKey(key) && CleanValue(value) && AreLines(Edited(lines, key, value))
    ensures var once := Trimmed(Edited(lines, key, value)); Edited(once, key, value) == once
  {
    hide Matches, Setting, RStrip, Edited, CleanKey, CleanValue;
    var edited := Edited(lines, key, value);
    var once := Trimmed(edited);
    TrimmedLines(edited);
    SettingIsLine(key, value);
    var at := EditedHasSetting(lines, key, value);
    assert edited[at] == Setting(key, value) && RStrip(edited[at]) != "";
    forall i | 0 <= i < |once| && Matches(once[i], key) ensures once[i] == Setting(key, value) {
      TrimmedReads(edited[i], key);
      assert Matches(edited[i], key);
      EditedMatch(lines, key, value, i);
    }
    EditedFixed(once, key, value, at);
  }

  lemma EditedMatch(lines: seq<string>, key: string, value: string, i: nat)
    requires i < |Edited(lines, key, value)| && Matches(Edited(lines, key, value)[i], key)
    ensures Edited(lines, key, value)[i] == Setting(key, value)
  {
    hide Matches, Setting;
  }

  /** Editing twice is editing once. */
  lemma EditTwice(text: string, key: string, value: string)
    requires CleanKey(key) && CleanValue(value)
    ensures Edit(Edit(text, key, value), key, value) == Edit(text, key, value)
  {
    hide Edited, Trimmed, RStrip;
    var edited := Edited(SplitLines(text), key, value);
    EditedFile(text, key, value);
    EditedFile(Edit(text, key, value), key, value);
    TrimmedEdit(SplitLines(text), key, value);
    TrimmedTwice(edited);
  }

  lemma {:induction false} TrimmedTwice(lines: seq<string>)
    ensures Trimmed(Trimmed(lines)) == Trimmed(lines)
  {
    hide RStrip;
    if lines != [] {
      var n := |lines| - 1;
      if RStrip(lines[n]) == "" { TrimmedTwice(lines[..n]); } else { RStripTwice(lines[n]); }
    }
  }

  lemma RStripTwice(s: string)
    ensures RStrip(RStrip(s)) == RStrip(s)
  {
    RStripIsPrefix(s);
    RStripClean(RStrip(s));
  }

  // ----- comments, spacing and the other lines

  lemma {:induction false} BeforeComment(line: string, comment: string)
    ensures BeforeHash(line + ("#" + comment)) == BeforeHash(line)
  {
    var whole := line + ("#" + comment);
    if line == "" {
      assert whole[0] == '#';
    } else {
      BeforeComment(line[1..], comment);
      assert whole[1..] == line[1..] + ("#" + comment) && whole[0] == line[0];
    }
  }

  /** What follows a hash sign changes nothing that a line reads as. */
  lemma CommentIgnored(line: string, comment: string, key: string)
    ensures ParseLine(line + ("#" + comment), key) == ParseLine(line, key)
  {
    BeforeComment(line, comment);
  }

  /** A setting reads as its value with any white space around and between, and a comment. */
  lemma SpacedSettingReads(before: string, key: string, gap: string, value: string, after: string, comment: string)
    requires CleanKey(key) && CleanValue(value)
    requires AllSpaces(before) && AllSpaces(gap) && AllSpaces(after) && gap != ""
    ensures ParseLine(before + ((key + (gap + value)) + after) + ("#" + comment), key) == Some(value)
  {
    hide Strip;
    var body := key + (gap + value);
    var line := before + (body + after);
    CommentIgnored(line, comment, key);
    assert '#' !in line;
    BeforeHashClean(line);
    assert body[0] == key[0] && body[|body| - 1] == value[|value| - 1];
    StripAround(before, body, after);
    assert body[..|key|] == key && body[|key|..] == gap + value && body[|key|] == gap[0];
    StripAround(gap, value, "");
    assert gap + (value + "") == gap + value;
  }

  lemma TrimmedWhole(lines: seq<string>, last: string)
    requires RStrip(last) == last != ""
    ensures Trimmed(lines + [last]) == lines + [last]
  {
    hide RStrip;
    assert (lines + [last])[..|lines|] == lines;
  }

  /** An edit leaves every line that does not have the key where and as it is, comments and
      blank lines too, but for the white space the file ends in. */
  lemma OtherLinesKept(text: string, key: string, value: string, i: nat)
    requires CleanKey(key) && CleanValue(value) && i < |SplitLines(text)|
    ensures var lines, after := SplitLines(text), SplitLines(Edit(text, key, value));
      var line := if Matches(lines[i], key) then Setting(key, value) else lines[i];
      && |after| <= |lines| + 1
      && if i < |after| then after[i] == (if i == |after| - 1 then RStrip(line) else line) else RStrip(line) == ""
  {
    hide Matches, Setting, RStrip, SplitLines, Edit, Trimmed, AnyMatch;
    var edited := Edited(SplitLines(text), key, value);
    EditedFile(text, key, value);
    TrimmedLines(edited);
    assert edited[i] == if Matches(SplitLines(text)[i], key) then Setting(key, value) else SplitLines(text)[i];
    assert SplitLines(Edit(text, key, value)) == Trimmed(edited);
  }

  /** Without a line that has the key, the setting becomes the last line, after all the others. */
  lemma NewSettingIsLast(text: string, key: string, value: string)
    requires CleanKey(key) && CleanValue(value)
    requires forall j :: 0 <= j < |SplitLines(text)| ==> !Matches(SplitLines(text)[j], key)
    ensures SplitLines(Edit(text, key, value)) == SplitLines(text) + [Setting(key, value)]
  {
    hide Matches, Setting, RStrip, SplitLines, Edit, Trimmed;
    var lines := SplitLines(text);
    EditedFile(text, key, value);
    SettingIsLine(key, value);
    TrimmedWhole(lines, Setting(key, value));
    assert Replaced(lines, key, value, |lines|) == lines;
  }

  // ----- a managed file is an ordered table of settings

  type Table = seq<(string, string)>

  ghost predicate CleanTable(t: Table) {
    forall i :: 0 <= i < |t| ==> CleanKey(t[i].0) && CleanValue(t[i].1)
  }

  ghost predicate DistinctKeys(t: Table) {
    forall i, j :: 0 <= i < j < |t| ==> t[i].0 != t[j].0
  }

  function Lines(t: Table): (lines: seq<string>)
    ensures |lines| == |t| && forall i :: 0 <= i < |t| ==> lines[i] == Setting(t[i].0, t[i].1)
  {
    if t == [] then [] else
      var n := |t| - 1;
      Lines(t[..n]) + [Setting(t[n].0, t[n].1)]
  }

  /** The file that holds exactly the settings of a table. */
  function Render(t: Table): string { if t == [] then "" else JoinLines(Lines(t)) + "\n" }

  function Updated(t: Table, key: string, value: string): (r: Table)
    ensures |r| == |t|
    ensures forall i :: 0 <= i < |t| ==> r[i] == if t[i].0 == key then (key, value) else t[i]
  {
    if t == [] then [] else
      var n := |t| - 1;
      Updated(t[..n], key, value) + [if t[n].0 == key then (key, value) else t[n]]
  }

  predicate HasKey(t: Table, key: string) { exists i :: 0 <= i < |t| && t[i].0 == key }

  /** The table with a key's value replaced, or the setting appended. */
  function Put(t: Table, key: string, value: string): Table {
    Updated(t, key, value) + (if HasKey(t, key) then [] else [(key, value)])
  }

  lemma CleanLines(t: Table)
    requires CleanTable(t)
    ensures AreLines(Lines(t)) && Trimmed(Lines(t)) == Lines(t)
    ensures SplitLines(Render(t)) == Lines(t)
  {
    hide RStrip, Setting, CleanKey, CleanValue;
    forall i | 0 <= i < |t| ensures '\n' !in Lines(t)[i] && RStrip(Lines(t)[i]) == Lines(t)[i] != "" {
      SettingIsLine(t[i].0, t[i].1);
    }
    if t != [] {
      SplitJoined(Lines(t));
      assert Lines(t)[..|t| - 1] + [Lines(t)[|t| - 1]] == Lines(t);
    }
  }

  lemma EditedTable(t: Table, key: string, value: string)
    requires CleanTable(t) && CleanKey(key)
    ensures Edited(Lines(t), key, value) == Lines(Put(t, key, value))
  {
    hide Matches, Setting, CleanKey, CleanValue;
    forall i | 0 <= i < |t| ensures Matches(Lines(t)[i], key) <==> t[i].0 == key {
      SettingMatches(t[i].0, t[i].1, key);
    }
    assert AnyMatch(Lines(t), key, |t|) <==> HasKey(t, key) by {
      if AnyMatch(Lines(t), key, |t|) {
        var i :| 0 <= i < |t| && Matches(Lines(t)[i], key);
        assert t[i].0 == key;
      }
      if HasKey(t, key) {
        var i :| 0 <= i < |t| && t[i].0 == key;
        assert Matches(Lines(t)[i], key);
      }
    }
  }

  /** Editing the file of a table gives the file of the updated table. */
  lemma EditRefinesPut(t: Table, key: string, value: string)
    requires CleanTable(t) && CleanKey(key) && CleanValue(value)
    ensures Edit(Render(t), key, value) == Render(Put(t, key, value)) && CleanTable(Put(t, key, value))
  {
    hide RStrip, Setting, CleanKey, CleanValue, Edited, Trimmed, SplitLines;
    CleanLines(t);
    EditedTable(t, key, value);
    CleanLines(Put(t, key, value));
    EditedFile(Render(t), key, value);
  }

  /** The file after the first `n` edits of one that did not exist. */
  function EditAll(edits: Table, n: nat): string
    requires n <= |edits|
  {
    if n == 0 then "" else Edit(EditAll(edits, n - 1), edits[n - 1].0, edits[n - 1].1)
  }

  function PutAll(edits: Table, n: nat): Table
    requires n <= |edits|
  {
    if n == 0 then [] else Put(PutAll(edits, n - 1), edits[n - 1].0, edits[n - 1].1)
  }

  lemma {:induction false} EditsRefinePuts(edits: Table, n: nat)
    requires n <= |edits| && CleanTable(edits)
    ensures EditAll(edits, n) == Render(PutAll(edits, n)) && CleanTable(PutAll(edits, n))
  {
    hide Render, Put, CleanKey, CleanValue, Edit;
    if n > 0 {
      EditsRefinePuts(edits, n - 1);
      EditRefinesPut(PutAll(edits, n - 1), edits[n - 1].0, edits[n - 1].1);
    } else {
      EmptyTable();
    }
  }

  lemma EmptyTable()
    ensures Render([]) == ""
  {
  }

  /** The last value the first `n` edits give a key. */
  function LastEdit(edits: Table, key: string, n: nat): Option<string>
    requires n <= |edits|
  {
    if n == 0 then None
    else if edits[n - 1].0 == key then Some(edits[n - 1].1)
    else LastEdit(edits, key, n - 1)
  }

  ghost predicate Tabulates(t: Table, edits: Table, n: nat)
    requires n <= |edits|
  {
    && DistinctKeys(t)
    && (forall x :: 0 <= x < |t| ==> LastEdit(edits, t[x].0, n) == Some(t[x].1))
    && (forall key :: LastEdit(edits, key, n).Some? ==> HasKey(t, key))
  }

  lemma PutHasKeys(t: Table, key: string, value: string, other: string)
    ensures HasKey(Put(t, key, value), other) <==> HasKey(t, other) || other == key
  {
    var after := Put(t, key, value);
    if HasKey(t, other) {
      var x :| 0 <= x < |t| && t[x].0 == other;
      assert after[x].0 == other;
    }
    if other == key && !HasKey(t, key) { assert after[|t|].0 == key; }
  }

  lemma TabulatesStep(t: Table, edits: Table, n: nat)
    requires n < |edits| && Tabulates(t, edits, n)
    ensures Tabulates(Put(t, edits[n].0, edits[n].1), edits, n + 1)
  {
    var after := Put(t, edits[n].0, edits[n].1);
    forall x | 0 <= x < |after| ensures LastEdit(edits, after[x].0, n + 1) == Some(after[x].1) {
    }
    forall key | LastEdit(edits, key, n + 1).Some? ensures HasKey(after, key) {
      PutHasKeys(t, edits[n].0, edits[n].1, key);
    }
  }

  /** The table built by edits has distinct keys: exactly those edited, with their last values. */
  lemma {:induction false} PutsKeepLast(edits: Table, n: nat)
    requires n <= |edits|
    ensures Tabulates(PutAll(edits, n), edits, n)
  {
    hide Put, Tabulates;
    if n > 0 {
      PutsKeepLast(edits, n - 1);
      TabulatesStep(PutAll(edits, n - 1), edits, n - 1);
    } else {
      TabulatesNothing(edits);
    }
  }

  lemma TabulatesNothing(edits: Table)
    ensures Tabulates([], edits, 0)
  {
  }

  lemma {:induction false} EditedKey(edits: Table, key: string, n: nat) returns (j: nat)
    requires n <= |edits| && LastEdit(edits, key, n).Some?
    ensures j < n && edits[j].0 == key
  {
    if edits[n - 1].0 == key { j := n - 1; } else { j := EditedKey(edits, key, n - 1); }
  }

  lemma {:induction false} OnlyReader(lines: seq<string>, key: string, x: nat, value: string, n: nat)
    requires x < |lines| && n <= |lines| && ParseLine(lines[x], key) == Some(value)
    requires forall y :: 0 <= y < |lines| && y != x ==> ParseLine(lines[y], key).None?
    ensures LastValue(lines, key, n) == if x < n then Some(value) else None
  {
    hide ParseLine;
    if n > 0 { OnlyReader(lines, key, x, value, n - 1); }
  }

  /** No edit spells the key differently. */
  ghost predicate SpelledOneWay(edits: Table, key: string) {
    forall j :: 0 <= j < |edits| && SameFold(edits[j].0, key) ==> edits[j].0 == key
  }

  lemma TableReads(t: Table, edits: Table, key: string, y: nat)
    requires CleanTable(t) && CleanTable(edits) && CleanKey(key) && SpelledOneWay(edits, key)
    requires Tabulates(t, edits, |edits|) && y < |t|
    ensures ParseLine(Lines(t)[y], key) == if t[y].0 == key then LastEdit(edits, key, |edits|) else None
  {
    hide ParseLine, Setting, CleanKey, CleanValue, SameFold;
    SettingParses(t[y].0, t[y].1, key);
    FoldSelf(key);
    var j := EditedKey(edits, t[y].0, |edits|);
  }

  /** Of the lines of the table just one reads as the key, as its last value. */
  lemma OneReader(t: Table, edits: Table, key: string) returns (x: nat)
    requires CleanTable(t) && CleanTable(edits) && CleanKey(key) && SpelledOneWay(edits, key)
    requires Tabulates(t, edits, |edits|) && LastEdit(edits, key, |edits|).Some?
    ensures x < |t|
    ensures forall y :: 0 <= y < |t| ==>
      ParseLine(Lines(t)[y], key) == if y == x then LastEdit(edits, key, |edits|) else None
  {
    hide ParseLine, CleanTable, CleanKey, SpelledOneWay, LastEdit, Lines;
    assert HasKey(t, key);
    x :| 0 <= x < |t| && t[x].0 == key;
    forall y | 0 <= y < |t|
      ensures ParseLine(Lines(t)[y], key) == if y == x then LastEdit(edits, key, |edits|) else None
    {
      TableReads(t, edits, key, y);
    }
  }

  /** After any edits of a file that did not exist, a key that no edit spells differently is
      read from exactly one line, as the last value it was given. */
  lemma EditsKeepLast(edits: Table, key: string) returns (x: nat)
    requires CleanTable(edits) && CleanKey(key) && SpelledOneWay(edits, key)
    requires LastEdit(edits, key, |edits|).Some?
    ensures var text := EditAll(edits, |edits|); var lines := SplitLines(text);
      && Parse(text, key) == LastEdit(edits, key, |edits|)
      && x < |lines| && forall y :: 0 <= y < |lines| ==> (ParseLine(lines[y], key).Some? <==> y == x)
  {
    hide ParseLine, Setting, CleanKey, CleanValue, SpelledOneWay, Edit, Put, Render, SplitLines,
      LastEdit, LastValue, EditAll, PutAll, SameFold, CleanTable, Tabulates, Lines;
    var n := |edits|;
    var t := PutAll(edits, n);
    EditsRefinePuts(edits, n);
    PutsKeepLast(edits, n);
    CleanLines(t);
    x := OneReader(t, edits, key);
    OnlyReader(Lines(t), key, x, LastEdit(edits, key, n).value, |t|);
  }

  /** A differently spelled line further down keeps its value in force after an edit. */
  lemma CaseVariantWins(key: string, variant: string, kept: string, value: string)
    requires CleanKey(key) && CleanKey(variant) && key != variant && SameFold(variant, key)
    requires CleanValue(kept) && CleanValue(value)
    ensures Parse(Edit(Render([(key, kept), (variant, kept)]), key, value), key) == Some(kept)
  {
    hide ParseLine, Setting, CleanKey, CleanValue, SameFold, Render, SplitLines;
    var t, after := [(key, kept), (variant, kept)], [(key, value), (variant, kept)];
    assert t[0].0 == key;
    assert Put(t, key, value) == after;
    EditRefinesPut(t, key, value);
    CleanLines(after);
    SettingParses(variant, kept, key);
    assert LastValue(Lines(after), key, 2) == ParseLine(Lines(after)[1], key);
  }
}
