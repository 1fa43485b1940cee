/** Building the embeds of a message within the limits of the service: title, description,
    fields and total size, and one embed for each description chunk. */
module DiscordEmbeds {
  import opened Common
  import opened Text
  import opened DiscordChunks
  import opened DiscordFit
  import opened Durations

  const EMBED_TITLE_MAX := 256
  const EMBED_DESCRIPTION_MAX := 4096
  const EMBED_FIELD_NAME_MAX := 256
  const EMBED_FIELD_VALUE_MAX := 1024
  const EMBED_FIELDS_MAX := 25
  const EMBED_TOTAL_CHARS_MAX := 6000

  datatype Message = Message(title: Option<string>, text: string, fields: seq<(string, string)>)

  datatype Embed = Embed(title: Option<string>, description: string, fields: seq<(string, string)>)

  function Truncate(value: string, maxLen: nat): (r: string)
    ensures |r| <= maxLen
    ensures |value| <= maxLen ==> r == value
    ensures |value| > maxLen ==> |r| == maxLen && forall i :: 0 <= i < maxLen - 1 ==> r[i] == value[i]
    ensures |value| > maxLen >= 1 ==> r[maxLen - 1] == if maxLen == 1 then value[0] else '\U{2026}'
  {
    if |value| <= maxLen then value
    else if maxLen <= 1 then value[..maxLen]
    else value[..maxLen - 1] + ['\U{2026}']
  }

  function OrElse(s: string, default: string): string { if s == "" then default else s }

  function SafeField(field: (string, string)): (string, string) {
    (OrElse(Truncate(field.0, EMBED_FIELD_NAME_MAX), "Field"),
     OrElse(Truncate(field.1, EMBED_FIELD_VALUE_MAX), ['\U{2014}']))
  }

  /** A field shows its own name and value: whole if they fit, and a stand-in for an empty one. */
  lemma FieldShowsItself(field: (string, string))
    ensures var (name, value) := SafeField(field);
      && 1 <= |name| <= 256 && 1 <= |value| <= 1024
      && (field.0 == "" ==> name == "Field") && (field.1 == "" ==> value == ['\U{2014}'])
      && (1 <= |field.0| <= 256 ==> name == field.0) && (1 <= |field.1| <= 1024 ==> value == field.1)
      && (|field.0| > 256 ==> |name| == 256 && name[..255] == field.0[..255])
      && (|field.1| > 1024 ==> |value| == 1024 && value[..1023] == field.1[..1023])
  {
    hide Truncate;
    if |field.0| > 256 { assert Truncate(field.0, 256)[..255] == field.0[..255]; }
    if |field.1| > 1024 { assert Truncate(field.1, 1024)[..1023] == field.1[..1023]; }
  }

  function Size(title: Option<string>): (n: nat)
    ensures n == if title.Some? then |title.value| else 0
  { |title.GetOr("")| }

  /** The characters of the first `n` fields. */
  function FieldChars(fields: seq<(string, string)>, n: nat): nat
    requires n <= |fields|
  {
    if n == 0 then 0 else FieldChars(fields, n - 1) + |fields[n - 1].0| + |fields[n - 1].1|
  }

  lemma {:induction false} FieldCharsPrefix(a: seq<(string, string)>, b: seq<(string, string)>, n: nat)
    requires n <= |a| && n <= |b| && a[..n] == b[..n]
    ensures FieldChars(a, n) == FieldChars(b, n)
  {
    if n > 0 {
      assert a[..n - 1] == a[..n][..n - 1] && b[..n - 1] == b[..n][..n - 1];
      assert a[n - 1] == a[..n][n - 1] && b[n - 1] == b[..n][n - 1];
      FieldCharsPrefix(a, b, n - 1);
    }
  }

  /** The embed of a message: within every limit, with as many fields as the limits allow. */
  ghost predicate IsEmbedOf(e: Embed, m: Message) {
    && e.title == (if m.title.Some? then Some(Truncate(m.title.value, EMBED_TITLE_MAX)) else None)
    && e.description == Truncate(m.text, EMBED_DESCRIPTION_MAX)
    && |e.fields| <= |m.fields| && |e.fields| <= EMBED_FIELDS_MAX
    && (forall i :: 0 <= i < |e.fields| ==> e.fields[i] == SafeField(m.fields[i]))
    && var total := Size(e.title) + |e.description| + FieldChars(e.fields, |e.fields|);
    && total <= EMBED_TOTAL_CHARS_MAX
    && (|e.fields| == |m.fields| || |e.fields| == EMBED_FIELDS_MAX
        || total + |SafeField(m.fields[|e.fields|]).0| + |SafeField(m.fields[|e.fields|]).1| > EMBED_TOTAL_CHARS_MAX)
  }

  /** The limits of the service: 256 characters for the title, 4096 for the description, 25 fields
      of 256 and 1024 characters, and 6000 characters in all. */
  lemma WithinServiceLimits(e: Embed, m: Message)
    requires IsEmbedOf(e, m)
    ensures Size(e.title) <= 256 && |e.description| <= 4096 && |e.fields| <= 25
    ensures forall i :: 0 <= i < |e.fields| ==> 1 <= |e.fields[i].0| <= 256 && 1 <= |e.fields[i].1| <= 1024
    ensures Size(e.title) + |e.description| + FieldChars(e.fields, |e.fields|) <= 6000
    ensures m.title == None || |m.title.value| <= 256 ==> e.title == m.title
    ensures |m.text| <= 4096 ==> e.description == m.text
    ensures |e.fields| < |m.fields| && |e.fields| < 25 ==>
      var next := SafeField(m.fields[|e.fields|]);
      Size(e.title) + |e.description| + FieldChars(e.fields, |e.fields|) + |next.0| + |next.1| > 6000
  {
    hide SafeField, Truncate;
    forall i | 0 <= i < |e.fields| ensures 1 <= |e.fields[i].0| <= 256 && 1 <= |e.fields[i].1| <= 1024 {
      FieldShowsItself(m.fields[i]);
    }
  }

  method BuildEmbed(m: Message) returns (e: Embed)
    ensures IsEmbedOf(e, m)
  {
    hide SafeField, Truncate;
    var title := if m.title.Some? then Some(Truncate(m.title.value, EMBED_TITLE_MAX)) else None;
    var description := Truncate(m.text, EMBED_DESCRIPTION_MAX);
    var total := Size(title) + |description|;
    var fields := [];
    var idx := 0;
    while idx < |m.fields|
      invariant idx == |fields| <= |m.fields| && |fields| <= EMBED_FIELDS_MAX
      invariant forall i :: 0 <= i < idx ==> fields[i] == SafeField(m.fields[i])
      invariant total == Size(title) + |description| + FieldChars(fields, idx) <= EMBED_TOTAL_CHARS_MAX
    {
      if idx >= EMBED_FIELDS_MAX { break; }
      var field := SafeField(m.fields[idx]);
      if total + |field.0| + |field.1| > EMBED_TOTAL_CHARS_MAX { break; }
      FieldCharsPrefix(fields, fields + [field], idx);
      fields := fields + [field];
      total := total + |field.0| + |field.1|;
      idx := idx + 1;
    }
    e := Embed(title, description, fields);
  }

  function PartTitle(title: Option<string>, index: nat, total: nat): Option<string> {
    var part := " (" + Decimal(index) + "/" + Decimal(total) + ")";
    if title.Some? then Some(title.value + part)
    else if index == 1 then None
    else Some("Message" + part)
  }

  /** The messages whose embeds a message is sent as. */
  function Parts(m: Message): seq<Message> {
    if |m.text| <= EMBED_DESCRIPTION_MAX then [m] else
      var raw := Raw(m.text, EMBED_DESCRIPTION_MAX);
      seq(|raw|, i requires 0 <= i < |raw| =>
        Message(PartTitle(m.title, i + 1, |raw|), Balanced(raw, i), if i == 0 then m.fields else []))
  }

  lemma AtLeastTwo(text: string, chunkSize: int)
    requires 1 <= chunkSize < |text|
    ensures |Raw(text, chunkSize)| >= 2
  {
    RawKeepsText(text, chunkSize);
    var raw := Raw(text, chunkSize);
    assert |raw| > 0 ==> Concat(raw) == raw[0] + Concat(raw[1..]);
  }

  lemma NoFields(e: Embed, m: Message)
    requires IsEmbedOf(e, m) && m.fields == []
    ensures e.fields == []
  {
  }

  function TitleStart(title: Option<string>): string { (if title.Some? then title.value else "Message") + " (" }

  lemma TitleParts(title: Option<string>, i: nat, total: nat)
    requires title.Some? || i != 1
    ensures PartTitle(title, i, total) == Some(TitleStart(title) + Decimal(i) + ("/" + Decimal(total) + ")"))
  {
    hide Decimal;
    var number, after := Decimal(i), "/" + Decimal(total) + ")";
    assert " (" + Decimal(i) + "/" + Decimal(total) + ")" == " (" + (number + after);
    assert title.Some? ==> title.value + (" (" + (number + after)) == TitleStart(title) + number + after;
    assert "Message" + (" (" + (number + after)) == "Message" + " (" + number + after;
  }

  /** The first part has the message's own fields. The parts of a message that is split are
      numbered from one. */
  lemma PartsInOrder(m: Message, i: nat)
    requires i < |Parts(m)|
    ensures Parts(m)[i].fields == if i == 0 then m.fields else []
    ensures |m.text| <= 4096 ==> i == 0 && Parts(m) == [m]
    ensures |m.text| > 4096 ==>
      Parts(m)[i].title ==
        if m.title.None? && i == 0 then None
        else Some(TitleStart(m.title) + Decimal(i + 1) + ("/" + Decimal(|Parts(m)|) + ")"))
  {
    hide Raw, Balanced, PartTitle, TitleStart, Decimal;
    if |m.text| > 4096 {
      UntitledStart(m.title, |Parts(m)|);
      if m.title.Some? || i > 0 { TitleParts(m.title, i + 1, |Parts(m)|); }
    }
  }

  lemma UntitledStart(title: Option<string>, total: nat)
    ensures title.None? ==> PartTitle(title, 1, total) == None
  {
  }

  lemma SameNumber(before: string, i: nat, j: nat, after: string)
    requires before + Decimal(i) + after == before + Decimal(j) + after
    ensures i == j
  {
    var a, b := before + Decimal(i) + after, before + Decimal(j) + after;
    assert a[|before|..|a| - |after|] == Decimal(i) && b[|before|..|b| - |after|] == Decimal(j);
    ValueOfDecimal(i);
    ValueOfDecimal(j);
  }

  /** The titles of a split message tell its parts apart, and begin with the title it has. */
  lemma TitlesDiffer(title: Option<string>, i: nat, j: nat, total: nat)
    requires 1 <= i && 1 <= j && PartTitle(title, i, total) == PartTitle(title, j, total)
    ensures i == j
    ensures title.Some? ==> PartTitle(title, i, total).Some? && title.value <= PartTitle(title, i, total).value
  {
    hide Decimal, TitleStart;
    if title.Some? || i != 1 { TitleParts(title, i, total); }
    if title.Some? || j != 1 { TitleParts(title, j, total); }
    if title.Some? || (i != 1 && j != 1) { SameNumber(TitleStart(title), i, j, "/" + Decimal(total) + ")"); }
  }

  method BuildEmbeds(m: Message) returns (embeds: seq<Embed>)
    ensures |embeds| == |Parts(m)|
    ensures forall i :: 0 <= i < |embeds| ==> IsEmbedOf(embeds[i], Parts(m)[i])
    ensures |embeds| >= 1 && forall i :: 1 <= i < |embeds| ==> embeds[i].fields == []
  {
    hide IsEmbedOf, Raw, Balanced, PartTitle;
    var chunks := SplitForEmbedDescriptions(m.text, EMBED_DESCRIPTION_MAX);
    if |m.text| > EMBED_DESCRIPTION_MAX { AtLeastTwo(m.text, EMBED_DESCRIPTION_MAX); }
    if |chunks| == 1 {
      var e := BuildEmbed(m);
      return [e];
    }
    embeds := [];
    for k := 0 to |chunks|
      invariant |embeds| == k && forall i :: 1 <= i < k ==> embeds[i].fields == []
      invariant forall i :: 0 <= i < k ==> IsEmbedOf(embeds[i], Parts(m)[i])
    {
      var part := Message(PartTitle(m.title, k + 1, |chunks|), chunks[k], if k == 0 then m.fields else []);
      assert part == Parts(m)[k];
      var e := BuildEmbed(part);
      if k > 0 { NoFields(e, part); }
      embeds := embeds + [e];
    }
  }

  /** The embeds carry the whole text when its lines have at most 4091 characters and its fence
      markers at most eleven: no description is cut, and without what balances its fences each
      is a raw chunk, which together are the text. */
  lemma EmbedsCarryText(m: Message, embeds: seq<Embed>)
    requires |embeds| == |Parts(m)| && forall i :: 0 <= i < |embeds| ==> IsEmbedOf(embeds[i], Parts(m)[i])
    requires ShortLines(m.text, 4091, 11)
    ensures |m.text| <= 4096 ==> |embeds| == 1 && embeds[0].description == m.text
    ensures |m.text| > 4096 ==>
      var raw := Raw(m.text, 4096);
      && |embeds| == |raw| && Concat(raw) == m.text
      && forall i :: 0 <= i < |raw| ==>
           embeds[i].description == Prefix(OpenBefore(raw, i)) + raw[i] + Suffix(OpenBefore(raw, i + 1))
  {
    hide IsFence, Raw, Prefix, Suffix, ShortLines;
    if |m.text| > 4096 {
      ShortLinesFit(m.text, EMBED_DESCRIPTION_MAX);
      RawKeepsText(m.text, EMBED_DESCRIPTION_MAX);
      var raw := Raw(m.text, 4096);
      forall i | 0 <= i < |raw| ensures embeds[i].description == Balanced(raw, i) {
        assert IsEmbedOf(embeds[i], Parts(m)[i]);
      }
    }
  }
}
