/** What the `.env` reader makes of a line, and of what the editor writes. */
module EnvTheorems {
  import opened Base
  import opened EnvFile

  // ---------------------------------------------------------------- what strip is

  predicate IsBlank(s: string) {
    forall i | 0 <= i < |s| :: IsSpace(s[i])
  }

  lemma NoBlanks()
    ensures IsBlank("")
  {
  }

  lemma {:induction false} LStripIs(s: string) returns (a: string)
    ensures IsBlank(a) && s == a + LStrip(s)
  {
    if s != "" && IsSpace(s[0]) {
      var rest := LStripIs(s[1..]);
      a := [s[0]] + rest;
    } else {
      a := "";
    }
  }

  lemma {:induction false} RStripIs(s: string) returns (b: string)
    ensures IsBlank(b) && s == RStrip(s) + b
  {
    if s != "" && IsSpace(s[|s| - 1]) {
      var rest := RStripIs(s[..|s| - 1]);
      b := rest + [s[|s| - 1]];
    } else {
      b := "";
    }
  }

  /** Stripping takes blanks off both ends, and nothing else. */
  lemma StripIs(s: string) returns (a: string, b: string)
    ensures IsBlank(a) && IsBlank(b) && s == a + Strip(s) + b && Trimmed(Strip(s))
  {
    hide IsSpace;
    a := LStripIs(s);
    b := RStripIs(LStrip(s));
    StripTrims(s);
  }

  lemma {:induction false} LStripBlank(a: string, s: string)
    requires IsBlank(a)
    ensures LStrip(a + s) == LStrip(s)
  {
    if a == "" {
      assert a + s == s;
    } else {
      assert (a + s)[0] == a[0] && (a + s)[1..] == a[1..] + s;
      LStripBlank(a[1..], s);
    }
  }

  lemma {:induction false} RStripBlank(s: string, b: string)
    requires IsBlank(b)
    ensures RStrip(s + b) == RStrip(s)
  {
    if b == "" {
      assert s + b == s;
    } else {
      var n := |b| - 1;
      assert (s + b)[|s| + n] == b[n] && (s + b)[..|s| + n] == s + b[..n];
      RStripBlank(s, b[..n]);
    }
  }

  /** Only one trimmed text is left between blanks. */
  lemma StripOnly(a: string, s: string, b: string)
    requires IsBlank(a) && IsBlank(b) && Trimmed(s)
    ensures Strip(a + s + b) == s
  {
    assert a + s + b == a + (s + b);
    LStripBlank(a, s + b);
    if s == "" {
      assert s + b == b + "";
      LStripBlank(b, "");
    } else {
      assert (s + b)[0] == s[0];
      LStripTrims(s + b);
      RStripBlank(s, b);
      RStripTrims(s);
    }
  }

  // ----------------------------------------------------------- what a line defines

  predicate Splits(line: string, a: string, key: string, b: string, c: string, value: string, d: string) {
    && IsBlank(a) && IsBlank(b) && IsBlank(c) && IsBlank(d)
    && line == a + key + b + "=" + c + value + d
  }

  lemma {:induction false} FirstEquals(a: string, b: string)
    requires '=' !in a
    ensures '=' in a + "=" + b && IndexOf(a + "=" + b, '=') == |a|
  {
    var s := a + "=" + b;
    assert s[|a|] == '=';
    if a != "" {
      assert s[0] == a[0] && s[1..] == a[1..] + "=" + b;
      FirstEquals(a[1..], b);
    }
  }

  lemma Reassociate(
    front: string, a: string, key: string, b: string, c: string, value: string, d: string, back: string)
    ensures front + ((a + key + b) + "=" + (c + value + d)) + back
            == (front + a) + key + b + "=" + c + value + (d + back)
  {
  }

  /** The text before the first `=` of a stripped line that is no comment. */
  lemma KeyPart(s: string, i: nat, a: string, key: string, b: string)
    requires i < |s| && '=' !in s[..i] && s[..i] == a + key + b && IsBlank(a) && !IsSpace(s[0]) && s[0] != '#'
    ensures '=' !in key && (key != "" ==> key[0] != '#')
  {
    hide IsSpace;
    assert forall k | 0 <= k < |key| :: s[..i][|a| + k] == key[k];
    assert forall k | 0 <= k < |a| :: s[..i][k] == a[k];
    assert key != "" ==> s[..i][|a|] == key[0];
  }

  lemma BlanksJoin(a: string, b: string)
    requires IsBlank(a) && IsBlank(b)
    ensures IsBlank(a + b)
  {
    hide IsSpace;
  }

  lemma DefinedSplits(line: string, key: string, value: string) returns (a: string, b: string, c: string, d: string)
    requires Definition(line) == Some((key, value))
    ensures Splits(line, a, key, b, c, value, d) && Trimmed(key) && Trimmed(value)
    ensures '=' !in key && (key != "" ==> key[0] != '#')
  {
    hide IsSpace, Strip, IsBlank;
    var s := Strip(line);
    var i := IndexOf(s, '=');
    var before, after := StripIs(line);
    var a1, b1 := StripIs(s[..i]);
    var c1, d1 := StripIs(s[i + 1..]);
    assert s == s[..i] + "=" + s[i + 1..];
    KeyPart(s, i, a1, key, b1);
    Reassociate(before, a1, key, b1, c1, value, d1, after);
    BlanksJoin(before, a1);
    BlanksJoin(d1, after);
    a, b, c, d := before + a1, b1, c1, d1 + after;
  }

  lemma NoKey(line: string, a: string, b: string, c: string, value: string, d: string)
    requires Splits(line, a, "", b, c, value, d)
    ensures Splits(line, a + b, "", "", c, value, d)
  {
    BlanksJoin(a, b);
    hide IsBlank;
    assert a + "" + b + "=" + c + value + d == (a + b) + "" + "" + "=" + c + value + d;
  }

  lemma NoValue(line: string, a: string, key: string, b: string, c: string, d: string)
    requires Splits(line, a, key, b, c, "", d)
    ensures Splits(line, a, key, b, "", "", c + d)
  {
    BlanksJoin(c, d);
    hide IsBlank;
    assert a + key + b + "=" + c + "" + d == a + key + b + "=" + "" + "" + (c + d);
  }

  lemma NoEquals(key: string, b: string)
    requires '=' !in key && IsBlank(b)
    ensures '=' !in key + b
  {
    assert !IsSpace('=');
  }

  lemma CoreTrimmed(key: string, b: string, c: string, value: string)
    requires Trimmed(key) && Trimmed(value) && (key == "" ==> b == "") && (value == "" ==> c == "")
    requires key != "" ==> key[0] != '#'
    ensures Trimmed((key + b) + "=" + (c + value)) && ((key + b) + "=" + (c + value))[0] != '#'
  {
    assert !IsSpace('=');
    hide IsSpace;
    var s := (key + b) + "=" + (c + value);
    assert s[0] == if key == "" then '=' else key[0];
    assert s[|s| - 1] == if value == "" then '=' else value[|value| - 1];
  }

  /** The case without blanks on an empty side. */
  lemma TightDefines(line: string, a: string, key: string, b: string, c: string, value: string, d: string)
    requires Splits(line, a, key, b, c, value, d) && Trimmed(key) && Trimmed(value)
    requires '=' !in key && (key != "" ==> key[0] != '#') && (key == "" ==> b == "") && (value == "" ==> c == "")
    ensures Definition(line) == Some((key, value))
  {
    var left, right := key + b, c + value;
    var s := left + "=" + right;
    hide Strip, IsSpace, IsBlank, Trimmed, IndexOf;
    CoreTrimmed(key, b, c, value);
    assert line == a + s + d;
    StripOnly(a, s, d);
    NoEquals(key, b);
    FirstEquals(left, right);
    assert s[..|left|] == left && s[|left| + 1..] == right;
    assert "" + key + b == left && c + value + "" == right;
    NoBlanks();
    StripOnly("", key, b);
    StripOnly(c, value, "");
  }

  lemma SplitDefines(line: string, a: string, key: string, b: string, c: string, value: string, d: string)
    requires Splits(line, a, key, b, c, value, d) && Trimmed(key) && Trimmed(value)
    requires '=' !in key && (key != "" ==> key[0] != '#')
    ensures Definition(line) == Some((key, value))
    decreases |b| + |c|
  {
    if key == "" && b != "" {
      NoKey(line, a, b, c, value, d);
      SplitDefines(line, a + b, key, "", c, value, d);
    } else if value == "" && c != "" {
      NoValue(line, a, key, b, c, d);
      SplitDefines(line, a, key, b, "", value, c + d);
    } else {
      TightDefines(line, a, key, b, c, value, d);
    }
  }

  /** Exactly what a line defines: a key without `=`, not starting a comment, and all
      that follows the first `=`, each without the blanks around it. */
  lemma DefinitionExactly(line: string, key: string, value: string)
    ensures
      Definition(line) == Some((key, value))
      <==> && Trimmed(key) && Trimmed(value) && '=' !in key && (key != "" ==> key[0] != '#')
           && exists a, b, c, d :: Splits(line, a, key, b, c, value, d)
  {
    hide Definition, Splits, Trimmed;
    if Definition(line) == Some((key, value)) {
      var a, b, c, d := DefinedSplits(line, key, value);
    }
    if && Trimmed(key) && Trimmed(value) && '=' !in key && (key != "" ==> key[0] != '#')
       && exists a, b, c, d :: Splits(line, a, key, b, c, value, d) {
      var a, b, c, d :| Splits(line, a, key, b, c, value, d);
      SplitDefines(line, a, key, b, c, value, d);
    }
  }

  // --------------------------------------------------------------- ends of lines

  /** Lines as an editor may have written them. */
  function Joined(lines: seq<string>, ending: string): string {
    if lines == [] then "" else lines[0] + ending + Joined(lines[1..], ending)
  }

  predicate IsEnding(ending: string) {
    ending == "\n" || ending == "\r\n" || ending == "\r"
  }

  lemma EndingReads(ending: string, rest: string)
    requires IsEnding(ending) && (rest != "" ==> rest[0] != '\n' || ending != "\r")
    ensures ReadText(ending + rest) == "\n" + ReadText(rest)
  {
    var raw := ending + rest;
    if ending == "\r\n" {
      assert raw[2..] == rest;
    } else {
      assert raw[1..] == rest;
    }
  }

  lemma OneCharReads(c: char, rest: string)
    requires c != '\r'
    ensures ReadText([c] + rest) == [c] + ReadText(rest)
  {
    assert ([c] + rest)[1..] == rest;
  }

  lemma {:induction false} ReadTextAfter(line: string, ending: string, rest: string)
    requires '\r' !in line && IsEnding(ending) && (rest != "" ==> rest[0] != '\n' || ending != "\r")
    ensures ReadText(line + ending + rest) == line + "\n" + ReadText(rest)
  {
    hide ReadText, IsEnding;
    if line == "" {
      assert line + ending + rest == ending + rest && line + "\n" + ReadText(rest) == "\n" + ReadText(rest);
      EndingReads(ending, rest);
    } else {
      var c, more := line[0], line[1..];
      ReadTextAfter(more, ending, rest);
      OneCharReads(c, more + ending + rest);
      assert line == [c] + more && line + ending + rest == [c] + (more + ending + rest);
      assert line + "\n" + ReadText(rest) == [c] + (more + "\n" + ReadText(rest));
    }
  }

  lemma JoinedStart(lines: seq<string>, ending: string)
    requires IsEnding(ending) && ending == "\r" && forall i | 0 <= i < |lines| :: OneLine(lines[i])
    ensures Joined(lines, ending) != "" ==> Joined(lines, ending)[0] != '\n'
  {
    if lines != [] && lines[0] != "" { assert OneLine(lines[0]); }
  }

  /** Whatever ends its lines, a file reads as the same lines. */
  lemma {:induction false} AnyEndingReads(lines: seq<string>, ending: string)
    requires IsEnding(ending) && forall i | 0 <= i < |lines| :: OneLine(lines[i])
    ensures Lines(Joined(lines, ending)) == lines
  {
    hide SplitLines, OneLine, IsEnding;
    if lines == [] {
      SplitNothing();
    } else {
      var rest := lines[1..];
      AnyEndingReads(rest, ending);
      if ending == "\r" { JoinedStart(rest, ending); }
      NoReturn(lines[0]);
      assert '\r' !in lines[0] by { assert forall k | 0 <= k < |lines[0]| :: (lines[0] + "\n")[k] == lines[0][k]; }
      ReadTextAfter(lines[0], ending, Joined(rest, ending));
      SplitFirst(lines[0], ReadText(Joined(rest, ending)));
    }
  }

  // ------------------------------------------------------------------- the editor

  /** A key that a line `key=value` defines: no `=`, no surrounding blanks. */
  predicate ValidKey(key: string) {
    key != "" && Trimmed(key) && OneLine(key) && '=' !in key && key[0] != '#'
  }

  predicate ValidValue(value: string) {
    Trimmed(value) && OneLine(value)
  }

  lemma PrefixDefines(line: string, key: string)
    requires ValidKey(key) && Prefixed(line, key)
    ensures Defines(line, key)
  {
    var s := Strip(line);
    assert s == key + "=" + s[|key| + 1..];
    FirstEquals(key, s[|key| + 1..]);
    assert s[..|key|] == key && s[0] == key[0];
    StripTrims(key);
  }

  lemma NewLineDefines(key: string, value: string)
    requires ValidKey(key) && OneLine(value)
    ensures Definition(key + "=" + value) == Some((key, Strip(value))) && OneLine(key + "=" + value)
  {
    var c, d := StripIs(value);
    assert key + "=" + value == "" + key + "" + "=" + c + Strip(value) + d;
    assert Splits(key + "=" + value, "", key, "", c, Strip(value), d);
    StripTrims(value);
    DefinitionExactly(key + "=" + value, key, Strip(value));
  }

  /** A line on which `key=` comes first, after any blanks. */
  ghost predicate IsKeyLine(line: string, key: string) {
    exists a, rest :: IsBlank(a) && line == a + (key + "=" + rest)
  }

  /** Those are the lines the editor takes for the key's. */
  lemma PrefixedExactly(line: string, key: string)
    requires ValidKey(key)
    ensures Prefixed(line, key) <==> IsKeyLine(line, key)
  {
    if Prefixed(line, key) {
      var a, b := StripIs(line);
      var rest := Strip(line)[|key| + 1..] + b;
      assert line == a + (key + "=" + rest);
    }
    if a, rest :| IsBlank(a) && line == a + (key + "=" + rest) {
      var c, d := StripIs(rest);
      var s := key + "=" + rest;
      LStripBlank(a, s);
      assert s[0] == key[0];
      LStripTrims(s);
      KeepsPrefix(key + "=", rest);
    }
  }

  lemma {:induction false} KeepsPrefix(front: string, rest: string)
    requires front != "" && !IsSpace(front[|front| - 1])
    ensures front <= RStrip(front + rest)
    decreases |rest|
  {
    hide IsSpace;
    if rest == "" {
      assert front + rest == front;
    } else {
      assert (front + rest)[..|front| + |rest| - 1] == front + rest[..|rest| - 1];
      KeepsPrefix(front, rest[..|rest| - 1]);
    }
  }

  /** Setting a key rewrites the first of its lines, or adds one at the end, and
      leaves every other line as it was. */
  lemma SetWritesOneLine(raw: string, key: string, value: string)
    requires ValidKey(key) && OneLine(value)
    ensures
      var (before, after) := (Lines(raw), Lines(Set(raw, key, value)));
      || (exists i | 0 <= i < |before| ::
            && IsKeyLine(before[i], key) && (forall j | 0 <= j < i :: !IsKeyLine(before[j], key))
            && after == before[i := key + "=" + value])
      || ((forall j | 0 <= j < |before| :: !IsKeyLine(before[j], key)) && after == before + [key + "=" + value])
  {
    ReadBack(raw, key, value);
    var before := Lines(raw);
    hide Lines, Set, IsKeyLine, Prefixed;
    forall j | 0 <= j < |before| ensures Prefixed(before[j], key) <==> IsKeyLine(before[j], key) {
      PrefixedExactly(before[j], key);
    }
  }

  lemma {:induction false} LookupConcat(a: seq<string>, b: seq<string>, key: string)
    ensures Lookup(a + b, key) == if Lookup(b, key).Some? then Lookup(b, key) else Lookup(a, key)
  {
    if b == [] {
      assert a + b == a;
    } else {
      assert (a + b)[..|a + b| - 1] == a + b[..|b| - 1];
      LookupConcat(a, b[..|b| - 1], key);
    }
  }

  /** What later lines say about a key whose first `key=` line is edited. */
  function Later(raw: string, key: string): Option<string> {
    var lines := Lines(raw);
    var i := FirstPrefixed(lines, key);
    if i < |lines| then Lookup(lines[i + 1..], key) else None
  }

  lemma LookupAround(lines: seq<string>, i: nat, line: string, key: string)
    requires i < |lines|
    ensures Lookup(lines[i := line], key)
            == if Lookup(lines[i + 1..], key).Some? then Lookup(lines[i + 1..], key)
               else if Defines(line, key) then Some(Definition(line).value.1) else Lookup(lines[..i], key)
  {
    assert lines[i := line] == lines[..i] + [line] + lines[i + 1..];
    LookupConcat(lines[..i] + [line], lines[i + 1..], key);
    LookupConcat(lines[..i], [line], key);
  }

  lemma ReadBack(raw: string, key: string, value: string)
    requires ValidKey(key) && OneLine(value)
    ensures Lines(Set(raw, key, value)) == SetLine(Lines(raw), key, value)
  {
    SplitIsOneLine(ReadText(raw));
    NewLineDefines(key, value);
    SplitWritten(SetLine(Lines(raw), key, value));
    ReadTextKeeps(Set(raw, key, value));
  }

  /** What a key reads as after it is set: the value, unless a line below the one
      that was edited defines the key again. */
  lemma GetAfterSet(raw: string, key: string, value: string)
    requires ValidKey(key) && OneLine(value)
    ensures Get(Set(raw, key, value), key) == if Later(raw, key).Some? then Later(raw, key) else Some(Strip(value))
  {
    var lines := Lines(raw);
    var i := FirstPrefixed(lines, key);
    ReadBack(raw, key, value);
    NewLineDefines(key, value);
    if i < |lines| {
      LookupAround(lines, i, key + "=" + value, key);
    } else {
      LookupConcat(lines, [key + "=" + value], key);
    }
  }

  /** Setting one key leaves what every other key reads as alone. */
  lemma SetKeepsOthers(raw: string, key: string, value: string, other: string)
    requires ValidKey(key) && OneLine(value) && other != key
    ensures Get(Set(raw, key, value), other) == Get(raw, other)
  {
    var lines := Lines(raw);
    var i := FirstPrefixed(lines, key);
    ReadBack(raw, key, value);
    NewLineDefines(key, value);
    if i < |lines| {
      PrefixDefines(lines[i], key);
      LookupAround(lines, i, key + "=" + value, other);
      LookupAround(lines, i, lines[i], other);
      assert lines[i := lines[i]] == lines;
    } else {
      LookupConcat(lines, [key + "=" + value], other);
    }
  }

  predicate AtMostOneDefinition(lines: seq<string>, key: string) {
    forall i, j | 0 <= i < j < |lines| && Defines(lines[i], key) :: !Defines(lines[j], key)
  }

  lemma {:induction false} NoDefinitionNoValue(lines: seq<string>, key: string)
    ensures Lookup(lines, key).None? <==> forall i | 0 <= i < |lines| :: !Defines(lines[i], key)
  {
    hide Defines, Definition;
    if lines != [] { NoDefinitionNoValue(lines[..|lines| - 1], key); }
  }

  lemma NothingBelow(raw: string, key: string)
    requires ValidKey(key) && AtMostOneDefinition(Lines(raw), key)
    ensures Later(raw, key).None?
  {
    hide Defines, Strip, Lines, ValidKey;
    var lines := Lines(raw);
    var i := FirstPrefixed(lines, key);
    if i < |lines| {
      PrefixDefines(lines[i], key);
      hide Prefixed, Lookup;
      NoDefinitionNoValue(lines[i + 1..], key);
    }
  }

  /** With at most one definition to begin with, a set value is read back. */
  lemma SetThenGet(raw: string, key: string, value: string)
    requires ValidKey(key) && OneLine(value) && AtMostOneDefinition(Lines(raw), key)
    ensures Get(Set(raw, key, value), key) == Some(Strip(value)) && (Trimmed(value) ==> Strip(value) == value)
  {
    hide Get, Set, Later, Strip, Trimmed, ValidKey, OneLine, AtMostOneDefinition, Lines;
    NothingBelow(raw, key);
    GetAfterSet(raw, key, value);
    StripTrims(value);
  }
}
