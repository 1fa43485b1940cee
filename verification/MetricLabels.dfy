/** Label values in the text exposition format: escaping, and why a rendered line can be read
    back in one way only. */
module MetricLabels {
  import opened Common

  // ----- escaping

  /** Every occurrence of one character replaced by a string. */
  function Replace(s: string, c: char, with: string): string {
    if s == "" then "" else (if s[0] == c then with else [s[0]]) + Replace(s[1..], c, with)
  }

  const BACKSLASH := '\\'
  const QUOTE := '\"'

  function EscapeLabel(value: string): string {
    Replace(Replace(Replace(value, BACKSLASH, [BACKSLASH, BACKSLASH]), '\n', [BACKSLASH, 'n']),
        QUOTE, [BACKSLASH, QUOTE])
  }

  /** The escape of one character, as the text format defines it. */
  function EscapeChar(c: char): string {
    if c == BACKSLASH then [BACKSLASH, BACKSLASH]
    else if c == '\n' then [BACKSLASH, 'n']
    else if c == QUOTE then [BACKSLASH, QUOTE]
    else [c]
  }

  function Escaped(value: string): string {
    if value == "" then "" else EscapeChar(value[0]) + Escaped(value[1..])
  }

  lemma {:induction false} ReplaceAppend(a: string, b: string, c: char, with: string)
    ensures Replace(a + b, c, with) == Replace(a, c, with) + Replace(b, c, with)
  {
    hide Replace;
    if a == "" {
      assert a + b == b;
      ReplaceNothing(c, with);
    } else {
      var rest := a[1..];
      ReplaceAppend(rest, b, c, with);
      ReplaceFirst(a[0], rest, c, with);
      ReplaceFirst(a[0], rest + b, c, with);
      assert a == [a[0]] + rest;
      assert a + b == [a[0]] + (rest + b);
    }
  }

  lemma ReplaceNothing(c: char, with: string)
    ensures Replace("", c, with) == ""
  {
  }

  lemma ReplaceFirst(x: char, rest: string, c: char, with: string)
    ensures Replace([x] + rest, c, with) == (if x == c then with else [x]) + Replace(rest, c, with)
  {
    assert ([x] + rest)[1..] == rest;
  }

  lemma ReplaceOne(x: char, c: char, with: string)
    ensures Replace([x], c, with) == if x == c then with else [x]
  {
    assert [x][1..] == "";
  }

  lemma ReplacePair(x: char, y: char, c: char, with: string)
    requires x != c && y != c
    ensures Replace([x, y], c, with) == [x, y]
  {
    assert [x, y] == [x] + [y];
    ReplaceAppend([x], [y], c, with);
    ReplaceOne(x, c, with);
    ReplaceOne(y, c, with);
  }

  lemma EscapeOne(c: char)
    ensures EscapeLabel([c]) == EscapeChar(c)
  {
    ReplaceOne(c, BACKSLASH, [BACKSLASH, BACKSLASH]);
    ReplaceOne(c, '\n', [BACKSLASH, 'n']);
    ReplaceOne(c, QUOTE, [BACKSLASH, QUOTE]);
    ReplacePair(BACKSLASH, BACKSLASH, '\n', [BACKSLASH, 'n']);
    ReplacePair(BACKSLASH, BACKSLASH, QUOTE, [BACKSLASH, QUOTE]);
    ReplacePair(BACKSLASH, 'n', QUOTE, [BACKSLASH, QUOTE]);
  }

  lemma EscapeAppend(a: string, b: string)
    ensures EscapeLabel(a + b) == EscapeLabel(a) + EscapeLabel(b)
  {
    ReplaceAppend(a, b, BACKSLASH, [BACKSLASH, BACKSLASH]);
    var a1, b1 := Replace(a, BACKSLASH, [BACKSLASH, BACKSLASH]), Replace(b, BACKSLASH, [BACKSLASH, BACKSLASH]);
    ReplaceAppend(a1, b1, '\n', [BACKSLASH, 'n']);
    ReplaceAppend(Replace(a1, '\n', [BACKSLASH, 'n']), Replace(b1, '\n', [BACKSLASH, 'n']), QUOTE, [BACKSLASH, QUOTE]);
  }

  /** The three chained replacements escape each character once, as the text format asks. */
  lemma {:induction false} EscapeIsOnePass(value: string)
    ensures EscapeLabel(value) == Escaped(value)
  {
    if value != "" {
      EscapeIsOnePass(value[1..]);
      EscapeAppend([value[0]], value[1..]);
      EscapeOne(value[0]);
      assert value == [value[0]] + value[1..];
    }
  }

  /** The escapes, and a label, as they are written out. */
  lemma AsWritten()
    ensures EscapeLabel("\\") == "\\\\" && EscapeLabel("\n") == "\\n" && EscapeLabel("\"") == "\\\""
    ensures RenderLabel(("host", "a")) == "host=\"a\""
  {
    EscapeOne('\\');
    EscapeOne('\n');
    EscapeOne('\"');
    EscapeOne('a');
  }

  // ----- reading back

  /** Reads an escaped value up to its closing quote: the value and what follows the quote. */
  function ReadValue(s: string): (r: Option<(string, string)>)
    ensures r.Some? ==> |r.value.1| < |s|
  {
    if s == "" || s[0] == '\n' then None
    else if s[0] == QUOTE then Some(("", s[1..]))
    else if s[0] != BACKSLASH then
      match ReadValue(s[1..])
      case None => None
      case Some((value, rest)) => Some(([s[0]] + value, rest))
    else if |s| == 1 || s[1] !in {BACKSLASH, 'n', QUOTE} then None
    else
      match ReadValue(s[2..])
      case None => None
      case Some((value, rest)) => Some(([if s[1] == 'n' then '\n' else s[1]] + value, rest))
  }

  lemma EscapedCharReads(c: char, s: string)
    ensures ReadValue(EscapeChar(c) + s) ==
      match ReadValue(s) { case None => None case Some((value, rest)) => Some(([c] + value, rest)) }
  {
    var all := EscapeChar(c) + s;
    assert all[|EscapeChar(c)|..] == s;
  }

  lemma QuoteReads(rest: string)
    ensures ReadValue([QUOTE] + rest) == Some(("", rest))
  {
    assert ([QUOTE] + rest)[1..] == rest;
  }

  lemma {:induction false} EscapedReads(value: string, rest: string)
    ensures ReadValue(Escaped(value) + ([QUOTE] + rest)) == Some((value, rest))
  {
    hide ReadValue, EscapeChar;
    if value == "" {
      QuoteReads(rest);
      assert "" + ([QUOTE] + rest) == [QUOTE] + rest;
    } else {
      var more := Escaped(value[1..]) + ([QUOTE] + rest);
      EscapedReads(value[1..], rest);
      EscapedCharReads(value[0], more);
      assert Escaped(value) + ([QUOTE] + rest) == EscapeChar(value[0]) + more;
      assert value == [value[0]] + value[1..];
    }
  }

  /** An escaped value has no raw newline, and is read back from between its quotes: so no
      quote in it is unescaped and no two values are escaped alike. */
  lemma EscapeReadsBack(value: string, rest: string)
    ensures '\n' !in EscapeLabel(value)
    ensures ReadValue(EscapeLabel(value) + ([QUOTE] + rest)) == Some((value, rest))
  {
    EscapeIsOnePass(value);
    EscapedReads(value, rest);
    NoNewline(value);
  }

  lemma {:induction false} NoNewline(value: string)
    ensures '\n' !in Escaped(value)
  {
    if value != "" { NoNewline(value[1..]); }
  }

  // ----- a sample line

  type Labels = seq<(string, string)>

  function RenderLabel(pair: (string, string)): string { pair.0 + ("=" + ([QUOTE] + (EscapeLabel(pair.1) + [QUOTE]))) }

  /** Labels in the order of their keys, separated by commas. */
  function RenderLabels(labels: Labels): string {
    if labels == [] then ""
    else if |labels| == 1 then RenderLabel(labels[0])
    else RenderLabel(labels[0]) + ("," + RenderLabels(labels[1..]))
  }

  function SampleLine(name: string, value: string, labels: Labels): string {
    if labels == [] then name + " " + value else name + "{" + RenderLabels(labels) + "} " + value
  }

  ghost predicate LabelNames(labels: Labels) {
    forall i :: 0 <= i < |labels| ==> '=' !in labels[i].0
  }

  /** Splits a text at its first equals sign. */
  function ReadName(s: string): (r: Option<(string, string)>)
    ensures r.Some? ==> |r.value.1| < |s|
  {
    if s == "" then None
    else if s[0] == '=' then Some(("", s[1..]))
    else
      match ReadName(s[1..])
      case None => None
      case Some((name, rest)) => Some(([s[0]] + name, rest))
  }

  function ReadLabel(s: string): (r: Option<((string, string), string)>)
    ensures r.Some? ==> |r.value.1| < |s|
  {
    match ReadName(s)
    case None => None
    case Some((name, rest)) =>
      if rest == "" || rest[0] != QUOTE then None else
        match ReadValue(rest[1..])
        case None => None
        case Some((value, after)) => Some(((name, value), after))
  }

  /** Reads labels separated by commas up to the closing brace: the labels and what follows. */
  function ReadLabels(s: string): Option<(Labels, string)>
    decreases |s|
  {
    match ReadLabel(s)
    case None => None
    case Some((pair, rest)) =>
      if rest == "" then None
      else if rest[0] == '}' then Some(([pair], rest[1..]))
      else if rest[0] != ',' then None
      else
        match ReadLabels(rest[1..])
        case None => None
        case Some((labels, end)) => Some(([pair] + labels, end))
  }

  /** The length of a metric's name: up to its labels or the space before its value. */
  function NameEnd(s: string): (n: nat)
    ensures n <= |s|
  {
    if s == "" || s[0] == '{' || s[0] == ' ' then 0 else 1 + NameEnd(s[1..])
  }

  datatype Sample = Sample(name: string, labels: Labels, value: string)

  function ReadSample(s: string): Option<Sample> {
    var name, rest := s[..NameEnd(s)], s[NameEnd(s)..];
    if rest == "" then None
    else if rest[0] == ' ' then Some(Sample(name, [], rest[1..]))
    else
      match ReadLabels(rest[1..])
      case None => None
      case Some((labels, end)) =>
        if end != "" && end[0] == ' ' then Some(Sample(name, labels, end[1..])) else None
  }

  lemma {:induction false} NameReads(name: string, rest: string)
    requires '=' !in name
    ensures ReadName(name + ("=" + rest)) == Some((name, rest))
  {
    var s := name + ("=" + rest);
    if name == "" {
      assert s == "=" + rest && s[1..] == rest;
    } else {
      NameReads(name[1..], rest);
      assert s[1..] == name[1..] + ("=" + rest);
      assert name == [name[0]] + name[1..];
    }
  }

  lemma LabelReads(pair: (string, string), rest: string)
    requires '=' !in pair.0
    ensures ReadLabel(RenderLabel(pair) + rest) == Some((pair, rest))
  {
    hide EscapeLabel, ReadValue, ReadName;
    var quoted := EscapeLabel(pair.1) + ([QUOTE] + rest);
    EscapeReadsBack(pair.1, rest);
    NameReads(pair.0, [QUOTE] + quoted);
    assert RenderLabel(pair) + rest == pair.0 + ("=" + ([QUOTE] + quoted));
    assert ([QUOTE] + quoted)[1..] == quoted;
  }

  lemma LabelsStep(pair: (string, string), s: string, rest: string)
    requires rest != "" && ReadLabel(s) == Some((pair, rest))
    ensures rest[0] == '}' ==> ReadLabels(s) == Some(([pair], rest[1..]))
    ensures rest[0] == ',' ==>
      match ReadLabels(rest[1..]) {
        case None => ReadLabels(s) == None
        case Some((labels, end)) => ReadLabels(s) == Some(([pair] + labels, end))
      }
  {
  }

  lemma Reassociate(a: string, b: string, c: string)
    ensures (a + b) + c == a + (b + c)
  {
  }

  lemma RenderParts(labels: Labels)
    requires labels != []
    ensures RenderLabels(labels) ==
      if |labels| == 1 then RenderLabel(labels[0]) else RenderLabel(labels[0]) + ("," + RenderLabels(labels[1..]))
  {
    hide RenderLabel;
  }

  lemma RenderStep(labels: Labels, more: string)
    requires labels != []
    ensures RenderLabels(labels) + more ==
      RenderLabel(labels[0]) + (if |labels| == 1 then more else "," + (RenderLabels(labels[1..]) + more))
  {
    hide RenderLabel, RenderLabels;
    RenderParts(labels);
    if |labels| > 1 {
      var rest := RenderLabels(labels[1..]);
      Reassociate(RenderLabel(labels[0]), "," + rest, more);
      Reassociate(",", rest, more);
    }
  }

  lemma {:induction false} LabelsRead(labels: Labels, end: string)
    requires labels != [] && LabelNames(labels)
    ensures ReadLabels(RenderLabels(labels) + ("}" + end)) == Some((labels, end))
  {
    hide RenderLabel, RenderLabels, ReadLabel, ReadLabels;
    var first, rest, close := labels[0], labels[1..], "}" + end;
    var s := RenderLabels(labels) + close;
    assert labels == [first] + rest;
    RenderStep(labels, close);
    if |labels| == 1 {
      LabelReads(first, close);
      LabelsStep(first, s, close);
      assert close[1..] == end && labels == [first];
    } else {
      var more := RenderLabels(rest) + close;
      LabelReads(first, "," + more);
      LabelsStep(first, s, "," + more);
      LabelsRead(rest, end);
      assert ("," + more)[1..] == more;
    }
  }

  lemma {:induction false} NameEnds(name: string, rest: string)
    requires '{' !in name && ' ' !in name && rest != "" && (rest[0] == '{' || rest[0] == ' ')
    ensures NameEnd(name + rest) == |name|
  {
    if name == "" {
      assert name + rest == rest;
    } else {
      NameEnds(name[1..], rest);
      assert (name + rest)[1..] == name[1..] + rest;
    }
  }

  lemma SampleSplits(name: string, rest: string)
    requires '{' !in name && ' ' !in name && rest != "" && (rest[0] == '{' || rest[0] == ' ')
    ensures ReadSample(name + rest) ==
      if rest[0] == ' ' then Some(Sample(name, [], rest[1..])) else
        match ReadLabels(rest[1..])
        case None => None
        case Some((labels, end)) =>
          if end != "" && end[0] == ' ' then Some(Sample(name, labels, end[1..])) else None
  {
    hide NameEnd, ReadLabels;
    NameEnds(name, rest);
    assert (name + rest)[..|name|] == name && (name + rest)[|name|..] == rest;
  }

  lemma SampleParts(name: string, value: string, labels: Labels)
    ensures SampleLine(name, value, labels) == name +
      if labels == [] then " " + value else "{" + (RenderLabels(labels) + ("}" + (" " + value)))
  {
    hide RenderLabels;
    var inner := RenderLabels(labels);
    Reassociate(name, " ", value);
    Reassociate("}", " ", value);
    Reassociate(name + "{" + inner, "} ", value);
    Reassociate(name + "{", inner, "} " + value);
    Reassociate(name, "{", inner + ("} " + value));
  }

  lemma AfterFirst(c: char, s: string)
    ensures ([c] + s)[0] == c && ([c] + s)[1..] == s
  {
  }

  /** A whole sample line reads back as its name, labels and value, so different samples never
      render alike, whatever their label values. */
  lemma SampleReadsBack(name: string, value: string, labels: Labels)
    requires '{' !in name && ' ' !in name && LabelNames(labels)
    ensures ReadSample(SampleLine(name, value, labels)) == Some(Sample(name, labels, value))
  {
    hide ReadSample, SampleLine, ReadLabels, RenderLabels, LabelNames;
    SampleParts(name, value, labels);
    AfterFirst(' ', value);
    if labels == [] {
      SampleSplits(name, " " + value);
    } else {
      var inner := RenderLabels(labels) + ("}" + (" " + value));
      AfterFirst('{', inner);
      LabelsRead(labels, " " + value);
      SampleSplits(name, "{" + inner);
    }
  }

  lemma {:induction false} LabelsHaveNoNewline(labels: Labels)
    requires forall i :: 0 <= i < |labels| ==> '\n' !in labels[i].0
    ensures '\n' !in RenderLabels(labels)
  {
    hide EscapeLabel;
    if labels != [] {
      EscapeReadsBack(labels[0].1, "");
      LabelsHaveNoNewline(labels[1..]);
    }
  }

  /** A sample is one line, whatever its label values. */
  lemma SampleIsOneLine(name: string, value: string, labels: Labels)
    requires '\n' !in name && '\n' !in value && forall i :: 0 <= i < |labels| ==> '\n' !in labels[i].0
    ensures '\n' !in SampleLine(name, value, labels)
  {
    LabelsHaveNoNewline(labels);
  }
}
