/** The `.env` reader and editor (`envfile.py`). */
module EnvFile {
  import opened Base

  // ------------------------------------------------------------------- strings

  /** Where `str.splitlines` ends a line. */
  predicate IsBreak(c: char) {
    '\n' <= c <= '\r' || '\U{1C}' <= c <= '\U{1E}' || c == '\U{85}' || '\U{2028}' <= c <= '\U{2029}'
  }

  /** What `str.strip` removes. */
  predicate IsSpace(c: char) {
    IsBreak(c) || c == ' ' || c == '\t' || c == '\U{1F}' || c == '\U{A0}' || c == '\U{1680}'
    || '\U{2000}' <= c <= '\U{200A}' || c == '\U{202F}' || c == '\U{205F}' || c == '\U{3000}'
  }

  /** `Path.read_text` turns `\r\n` and `\r` into `\n`. */
  function ReadText(raw: string): string {
    if raw == "" then ""
    else if raw[0] == '\r' then "\n" + ReadText(if |raw| > 1 && raw[1] == '\n' then raw[2..] else raw[1..])
    else [raw[0]] + ReadText(raw[1..])
  }

  function BreakAt(text: string): (i: nat)
    ensures i <= |text| && forall j | 0 <= j < i :: !IsBreak(text[j])
    ensures i < |text| ==> IsBreak(text[i])
  {
    if text == "" || IsBreak(text[0]) then 0 else 1 + BreakAt(text[1..])
  }

  function SplitLines(text: string): seq<string>
    decreases |text|
  {
    if text == "" then []
    else
      var i := BreakAt(text);
      [text[..i]] + if i < |text| then SplitLines(text[i + 1..]) else []
  }

  /** `"\n".join(lines) + "\n"`. */
  function Written(lines: seq<string>): string {
    if |lines| == 0 then "\n"
    else if |lines| == 1 then lines[0] + "\n"
    else lines[0] + "\n" + Written(lines[1..])
  }

  function LStrip(s: string): string {
    if s != "" && IsSpace(s[0]) then LStrip(s[1..]) else s
  }

  function RStrip(s: string): string {
    if s != "" && IsSpace(s[|s| - 1]) then RStrip(s[..|s| - 1]) else s
  }

  function Strip(s: string): string {
    RStrip(LStrip(s))
  }

  predicate Trimmed(s: string) {
    s == "" || (!IsSpace(s[0]) && !IsSpace(s[|s| - 1]))
  }

  predicate OneLine(s: string) {
    forall i | 0 <= i < |s| :: !IsBreak(s[i])
  }

  function IndexOf(s: string, c: char): (i: nat)
    requires c in s
    ensures i < |s| && s[i] == c && c !in s[..i]
  {
    if s[0] == c then 0 else 1 + IndexOf(s[1..], c)
  }

  // ------------------------------------------------------------ reading, editing

  /** The key and value a line defines, if it defines any. */
  function Definition(line: string): Option<(string, string)> {
    var s := Strip(line);
    if s == "" || s[0] == '#' || '=' !in s then None
    else
      var i := IndexOf(s, '=');
      Some((Strip(s[..i]), Strip(s[i + 1..])))
  }

  predicate Defines(line: string, key: string) {
    Definition(line).Some? && Definition(line).value.0 == key
  }

  /** The last definition of `key` wins. */
  function Lookup(lines: seq<string>, key: string): Option<string> {
    if lines == [] then None
    else if Defines(lines[|lines| - 1], key) then Some(Definition(lines[|lines| - 1]).value.1)
    else Lookup(lines[..|lines| - 1], key)
  }

  function Lines(raw: string): seq<string> {
    SplitLines(ReadText(raw))
  }

  /** `get_env_value`; none for the `KeyError`. */
  function Get(raw: string, key: string): Option<string> {
    Lookup(Lines(raw), key)
  }

  predicate Prefixed(line: string, key: string) {
    key + "=" <= Strip(line)
  }

  /** The first line that starts with `key=`, or the number of lines. */
  function FirstPrefixed(lines: seq<string>, key: string): (i: nat)
    ensures i <= |lines| && forall j | 0 <= j < i :: !Prefixed(lines[j], key)
    ensures i < |lines| ==> Prefixed(lines[i], key)
  {
    if lines == [] || Prefixed(lines[0], key) then 0 else 1 + FirstPrefixed(lines[1..], key)
  }

  function SetLine(lines: seq<string>, key: string, value: string): seq<string> {
    var i := FirstPrefixed(lines, key);
    if i < |lines| then lines[i := key + "=" + value] else lines + [key + "=" + value]
  }

  /** `set_env_value`. */
  function Set(raw: string, key: string, value: string): string {
    Written(SetLine(Lines(raw), key, value))
  }

  // -------------------------------------------------------------------- the file

  class File {
    var text: string

    constructor (text: string)
      ensures this.text == text
    {
      this.text := text;
    }

    /** `parse_env_file`. */
    method Parse() returns (values: map<string, string>)
      ensures forall key :: (if key in values then Some(values[key]) else None) == Get(text, key)
    {
      hide Lines, Strip, IndexOf;
      values := map[];
      var lines := Lines(text);
      assert lines[..|lines|] == lines;
      for i := 0 to |lines|
        invariant forall key :: (if key in values then Some(values[key]) else None) == Lookup(lines[..i], key)
      {
        assert lines[..i + 1][..i] == lines[..i];
        var stripped := Strip(lines[i]);
        if stripped == "" || stripped[0] == '#' || '=' !in stripped {
          continue;
        }
        var at := IndexOf(stripped, '=');
        values := values[Strip(stripped[..at]) := Strip(stripped[at + 1..])];
      }
    }

    method GetValue(key: string) returns (value: Option<string>)
      ensures value == Get(text, key)
    {
      var values := Parse();
      value := if key in values then Some(values[key]) else None;
    }

    method SetValue(key: string, value: string)
      modifies this
      ensures text == Set(old(text), key, value)
    {
      hide Prefixed, Written, Lines, SplitLines;
      var lines := Lines(text);
      var i := 0;
      while i < |lines| && !Prefixed(lines[i], key)
        invariant i <= FirstPrefixed(lines, key)
      {
        i := i + 1;
      }
      if i < |lines| {
        lines := lines[i := key + "=" + value];
      } else {
        lines := lines + [key + "=" + value];
      }
      text := Written(lines);
    }
  }

  // --------------------------------------------------------------- string lemmas

  lemma {:induction false} StripTrims(s: string)
    ensures Trimmed(Strip(s)) && (Trimmed(s) ==> Strip(s) == s)
  {
    LStripTrims(s);
    RStripTrims(LStrip(s));
  }

  lemma {:induction false} LStripTrims(s: string)
    ensures LStrip(s) == "" || !IsSpace(LStrip(s)[0])
    ensures s == "" || !IsSpace(s[0]) ==> LStrip(s) == s
  {
    if s != "" && IsSpace(s[0]) { LStripTrims(s[1..]); }
  }

  lemma {:induction false} RStripTrims(s: string)
    requires s == "" || !IsSpace(s[0])
    ensures Trimmed(RStrip(s)) && (Trimmed(s) ==> RStrip(s) == s)
  {
    if s != "" && IsSpace(s[|s| - 1]) { RStripTrims(s[..|s| - 1]); }
  }

  lemma {:induction false} ReadTextKeeps(text: string)
    requires '\r' !in text
    ensures ReadText(text) == text
  {
    if text != "" { ReadTextKeeps(text[1..]); }
  }

  lemma {:induction false} BreakAfter(line: string, rest: string)
    requires OneLine(line)
    ensures BreakAt(line + "\n" + rest) == |line|
  {
    var text := line + "\n" + rest;
    if line == "" {
      assert text[0] == '\n';
    } else {
      assert text[0] == line[0] && text[1..] == line[1..] + "\n" + rest;
      BreakAfter(line[1..], rest);
    }
  }

  lemma NoReturn(line: string)
    requires OneLine(line)
    ensures '\r' !in line + "\n"
  {
  }

  lemma SplitFirst(line: string, rest: string)
    requires OneLine(line)
    ensures SplitLines(line + "\n" + rest) == [line] + SplitLines(rest)
  {
    var text := line + "\n" + rest;
    BreakAfter(line, rest);
    hide IsBreak, OneLine, BreakAt;
    assert text[..|line|] == line && text[|line| + 1..] == rest;
    assert rest == "" ==> SplitLines(rest) == [];
  }

  /** Lines survive being written and read again. */
  lemma {:induction false} SplitWritten(lines: seq<string>)
    requires lines != [] && forall i | 0 <= i < |lines| :: OneLine(lines[i])
    ensures SplitLines(Written(lines)) == lines && '\r' !in Written(lines)
  {
    hide IsBreak, OneLine, BreakAt, SplitLines;
    NoReturn(lines[0]);
    if |lines| == 1 {
      SplitFirst(lines[0], "");
      assert lines[0] + "\n" + "" == Written(lines);
      assert SplitLines("") == [] by { SplitNothing(); }
    } else {
      SplitFirst(lines[0], Written(lines[1..]));
      SplitWritten(lines[1..]);
    }
  }

  lemma SplitNothing()
    ensures SplitLines("") == []
  {
  }

  lemma {:induction false} SplitIsOneLine(text: string)
    ensures forall i | 0 <= i < |SplitLines(text)| :: OneLine(SplitLines(text)[i])
    decreases |text|
  {
    if text != "" && BreakAt(text) < |text| { SplitIsOneLine(text[BreakAt(text) + 1..]); }
  }
}
