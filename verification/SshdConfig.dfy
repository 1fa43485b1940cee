/** The managed sshd configuration file: parsing the last value of a key and replacing or
    appending a key's line. */
module SshdConfig {
  import opened Common
  import opened Text

  // ----- one line

  function BeforeHash(line: string): string {
    if line == "" || line[0] == '#' then "" else [line[0]] + BeforeHash(line[1..])
  }

  predicate SameFold(a: string, b: string) {
    |a| == |b| && forall i :: 0 <= i < |a| ==> Lower(a[i]) == Lower(b[i])
  }

  /** A stripped line that starts with the key, in any case, and white space. */
  predicate ReadsKey(body: string, key: string) {
    |body| > |key| && SameFold(body[..|key|], key) && IsSpace(body[|key|])
  }

  function ParseLine(line: string, key: string): Option<string> {
    var body := Strip(BeforeHash(line));
    if ReadsKey(body, key) then Some(Strip(body[|key|..])) else None
  }

  /** A line that starts with the key exactly as spelled and white space. */
  predicate Matches(line: string, key: string) {
    var body := LStrip(line);
    |body| > |key| && key <= body && IsSpace(body[|key|])
  }

  function Setting(key: string, value: string): string { key + " " + value }

  predicate CleanKey(key: string) {
    key != "" && '#' !in key && forall i :: 0 <= i < |key| ==> !IsSpace(key[i])
  }

  predicate CleanValue(value: string) {
    value != "" && '#' !in value && '\n' !in value && !IsSpace(value[0]) && !IsSpace(value[|value| - 1])
  }

  // ----- the two operations on a file's text

  function LastValue(lines: seq<string>, key: string, n: nat): Option<string>
    requires n <= |lines|
  {
    if n == 0 then None
    else if ParseLine(lines[n - 1], key).Some? then ParseLine(lines[n - 1], key)
    else LastValue(lines, key, n - 1)
  }

  function Parse(text: string, key: string): Option<string> {
    LastValue(SplitLines(text), key, |SplitLines(text)|)
  }

  method ParseLastKeyValue(text: string, key: string) returns (value: Option<string>)
    ensures value == Parse(text, key)
  {
    hide ReadsKey, Strip;
    var lines := SplitLines(text);
    value := None;
    for k := 0 to |lines|
      invariant value == LastValue(lines, key, k)
    {
      var body := Strip(BeforeHash(lines[k]));
      if ReadsKey(body, key) {
        assert ReadsKey(body, key);
        value := ParseLine(lines[k], key);
      }
    }
  }

  predicate AnyMatch(lines: seq<string>, key: string, n: nat)
    requires n <= |lines|
  {
    exists i :: 0 <= i < n && Matches(lines[i], key)
  }

  function Replaced(lines: seq<string>, key: string, value: string, n: nat): (r: seq<string>)
    requires n <= |lines|
    ensures |r| == n
    ensures forall i :: 0 <= i < n ==> r[i] == if Matches(lines[i], key) then Setting(key, value) else lines[i]
  {
    if n == 0 then [] else
      Replaced(lines, key, value, n - 1) + [if Matches(lines[n - 1], key) then Setting(key, value) else lines[n - 1]]
  }

  /** The lines after an edit, before trailing white space is cut. */
  function Edited(lines: seq<string>, key: string, value: string): seq<string> {
    Replaced(lines, key, value, |lines|) + (if AnyMatch(lines, key, |lines|) then [] else [Setting(key, value)])
  }

  function JoinLines(lines: seq<string>): string {
    if lines == [] then "" else if |lines| == 1 then lines[0]
    else JoinLines(lines[..|lines| - 1]) + "\n" + lines[|lines| - 1]
  }

  function Edit(text: string, key: string, value: string): string {
    RStrip(JoinLines(Edited(SplitLines(text), key, value))) + "\n"
  }

  method ReplaceOrAppendKey(text: string, key: string, value: string) returns (r: string)
    ensures r == Edit(text, key, value)
  {
    hide Matches, Setting;
    var lines := SplitLines(text);
    var replaced := false;
    var output := [];
    for k := 0 to |lines|
      invariant output == Replaced(lines, key, value, k)
      invariant replaced == AnyMatch(lines, key, k)
    {
      if Matches(lines[k], key) {
        output := output + [Setting(key, value)];
        replaced := true;
      } else {
        output := output + [lines[k]];
      }
    }
    if !replaced { output := output + [Setting(key, value)]; }
    assert output == Edited(lines, key, value);
    r := RStrip(JoinLines(output)) + "\n";
  }

  // ----- the file on disk

  class ManagedFile {
    var content: Option<string>

    constructor ()
      ensures content == None
    {
      content := None;
    }

    method EnsureSshSetting(key: string, value: string)
      modifies this
      ensures content == Some(Edit(old(content).GetOr(""), key, value))
    {
      var existing := content.GetOr("");
      var updated := ReplaceOrAppendKey(existing, key, value);
      content := Some(updated);
    }
  }
}
