/** Text of marker blocks: the searching, stripping and line reading that
    scripts/coordination/apply-ledger-mirrors.py, validate-pr-mirrors.py and
    materialize-ledger-comment.py share. */
module Markers {
  import opened Json
  import opened Text

  /** Characters at which `str.splitlines` breaks. */
  predicate IsBreak(c: char) {
    || '\n' <= c <= '\r' || '\U{1C}' <= c <= '\U{1E}' || c == '\U{85}' || c == '\U{2028}' || c == '\U{2029}'
  }

  /** Characters that `str.strip` removes. */
  predicate IsSpace(c: char) {
    || IsBreak(c) || c == ' ' || c == '\t' || c == '\U{1F}' || c == '\U{A0}' || c == '\U{1680}'
    || '\U{2000}' <= c <= '\U{200A}' || c == '\U{202F}' || c == '\U{205F}' || c == '\U{3000}'
  }

  function Strip(s: string): string {
    if s == [] then []
    else if IsSpace(s[0]) then Strip(s[1..])
    else if IsSpace(s[|s| - 1]) then Strip(s[..|s| - 1])
    else s
  }

  function StripRight(s: string): string {
    if s != [] && IsSpace(s[|s| - 1]) then StripRight(s[..|s| - 1]) else s
  }

  /** The lines of a text.  A final break leaves an empty last line and a carriage return before
      a newline an empty line between; both are skipped by every reader. */
  function Split(s: string): (lines: seq<string>)
    ensures lines != []
  {
    if s == [] then [""]
    else
      Push(Split(s[..|s| - 1]), s[|s| - 1])
  }

  function Push(lines: seq<string>, c: char): (r: seq<string>)
    requires lines != []
    ensures r != []
  {
    var m := |lines| - 1;
    if IsBreak(c) then lines + [""] else lines[..m] + [lines[m] + [c]]
  }

  predicate OccursAt(s: string, sub: string, i: int) {
    0 <= i && i + |sub| <= |s| && s[i..i + |sub|] == sub
  }

  /** `s.find(sub, from)` */
  function Find(s: string, sub: string, from: nat): (r: Option<nat>)
    ensures r.Some? ==> from <= r.value && OccursAt(s, sub, r.value)
    decreases |s| - from
  {
    if from + |sub| > |s| then None
    else if s[from..from + |sub|] == sub then Some(from)
    else if from == |s| then None
    else Find(s, sub, from + 1)
  }

  lemma {:induction false} FindFirst(s: string, sub: string, from: nat, i: nat)
    requires from <= i && OccursAt(s, sub, i)
    requires forall j :: from <= j < i ==> !OccursAt(s, sub, j)
    ensures Find(s, sub, from) == Some(i)
    decreases i - from
  {
    if from < i {
      assert !OccursAt(s, sub, from);
      FindFirst(s, sub, from + 1, i);
    }
  }

  lemma {:induction false} FindMeans(s: string, sub: string, from: nat)
    ensures var r := Find(s, sub, from);
            forall j :: from <= j && (r.Some? ==> j < r.value) ==> !OccursAt(s, sub, j)
    decreases |s| - from
  {
    if from < |s| && !OccursAt(s, sub, from) {
      FindMeans(s, sub, from + 1);
    }
  }

  // ----- reading the lines of a block

  datatype Reading = Skip | NoColon | Pair(key: string, value: string)

  function ColonAt(s: string): (i: nat)
    requires ':' in s
    ensures i < |s| && s[i] == ':'
  {
    if s[0] == ':' then 0 else ColonAt(s[1..]) + 1
  }

  function ReadLine(raw: string): Reading {
    var line := Strip(raw);
    if line == "" then Skip
    else if ':' !in line then NoColon
    else Pair(Strip(line[..ColonAt(line)]), Strip(line[ColonAt(line) + 1..]))
  }

  /** The dictionary read from the lines; a strict reader also refuses blank keys and values. */
  function Fields(lines: seq<string>, strict: bool): Option<map<string, string>> {
    if lines == [] then Some(map[])
    else
      var n := |lines| - 1;
      AddLine(Fields(lines[..n], strict), ReadLine(lines[n]), strict)
  }

  function AddLine(parsed: Option<map<string, string>>, line: Reading, strict: bool): Option<map<string, string>> {
    if parsed.None? || line.Skip? then parsed
    else if line.NoColon? || (strict && (line.key == "" || line.value == "")) then None
    else Some(parsed.value[line.key := line.value])
  }

  function FieldsOf(text: string, strict: bool): Option<map<string, string>> {
    Fields(Split(Strip(text)), strict)
  }

  method ReadFields(text: string, strict: bool) returns (r: Option<map<string, string>>)
    ensures r == FieldsOf(text, strict)
  {
    var lines := Split(Strip(text));
    var parsed := map[];
    for i := 0 to |lines|
      invariant Some(parsed) == Fields(lines[..i], strict)
    {
      PrefixStep(lines, i);
      var line := ReadLine(lines[i]);
      if line.NoColon? || (line.Pair? && strict && (line.key == "" || line.value == "")) {
        FieldsRefused(lines, i + 1, strict);
        return None;
      }
      if line.Pair? {
        parsed := parsed[line.key := line.value];
      }
    }
    assert lines[..|lines|] == lines;
    return Some(parsed);
  }

  lemma PrefixStep(lines: seq<string>, i: nat)
    requires i < |lines|
    ensures lines[..i + 1][..i] == lines[..i]
  {
  }

  lemma PrefixOfPrefix(lines: seq<string>, init: seq<string>, i: nat)
    requires lines != [] && init == lines[..|lines| - 1] && i < |lines|
    ensures init[..i] == lines[..i]
  {
  }

  lemma {:induction false} FieldsRefused(lines: seq<string>, i: nat, strict: bool)
    requires i <= |lines| && Fields(lines[..i], strict).None?
    ensures Fields(lines, strict).None?
  {
    if i == |lines| {
      assert lines[..i] == lines;
    } else {
      var init := lines[..|lines| - 1];
      PrefixOfPrefix(lines, init, i);
      FieldsRefused(init, i, strict);
    }
  }

  // ----- blocks

  const END := "-->"

  datatype Trouble = NotClosed | BadLine

  datatype Block = Block(start: nat, end: nat, fields: map<string, string>)

  function Slice(s: string, lo: nat, hi: nat): string
    requires hi <= |s|
  {
    if lo <= hi then s[lo..hi] else ""
  }

  /** `parse_key_block` */
  function ParseBlock(body: string, marker: string, strict: bool): (r: Result<Option<Block>, Trouble>)
    ensures r.Ok? && r.value.Some? ==> r.value.value.start <= r.value.value.end <= |body|
  {
    match Find(body, marker, 0)
    case None => Ok(None)
    case Some(start) => ParseFrom(body, marker, start, strict)
  }

  function ParseFrom(body: string, marker: string, start: nat, strict: bool): (r: Result<Option<Block>, Trouble>)
    ensures r.Ok? && r.value.Some? ==> r.value.value.start <= r.value.value.end <= |body|
  {
    match Find(body, END, start)
    case None => Fail(NotClosed)
    case Some(at) =>
      var fields := FieldsOf(Slice(body, start + |marker|, at), strict);
      if fields.None? then Fail(BadLine) else Ok(Some(Block(start, at + |END|, fields.value)))
  }

  method ParseKeyBlock(body: string, marker: string) returns (r: Result<Option<Block>, Trouble>)
    ensures r == ParseBlock(body, marker, false)
  {
    var start := Find(body, marker, 0);
    if start.None? {
      return Ok(None);
    }
    var at := Find(body, END, start.value);
    if at.None? {
      return Fail(NotClosed);
    }
    var fields := ReadFields(Slice(body, start.value + |marker|, at.value), false);
    if fields.None? {
      return Fail(BadLine);
    }
    return Ok(Some(Block(start.value, at.value + |END|, fields.value)));
  }

  datatype Field = Field(key: string, value: string)

  function LineText(f: Field): string {
    f.key + ": " + f.value
  }

  /** Every field on its own line, after a line break. */
  function LinesText(fields: seq<Field>): string {
    if fields == [] then ""
    else LinesText(fields[..|fields| - 1]) + "\n" + LineText(fields[|fields| - 1])
  }

  function RenderBlock(marker: string, fields: seq<Field>): string {
    marker + LinesText(fields) + "\n" + END
  }

  function AsMap(fields: seq<Field>): map<string, string> {
    if fields == [] then map[]
    else
      var f := fields[|fields| - 1];
      AsMap(fields[..|fields| - 1])[f.key := f.value]
  }

  // ----- what survives a write

  predicate Trimmed(s: string) {
    s == "" || (!IsSpace(s[0]) && !IsSpace(s[|s| - 1]))
  }

  predicate OneLine(s: string) {
    forall i :: 0 <= i < |s| ==> !IsBreak(s[i])
  }

  predicate EndAt(s: string, i: int) {
    0 <= i && i + 3 <= |s| && s[i] == '-' && s[i + 1] == '-' && s[i + 2] == '>'
  }

  ghost predicate NoEnd(s: string) {
    forall i :: !EndAt(s, i)
  }

  /** A trimmed single-line value that does not close the block. */
  ghost predicate CleanValue(s: string) {
    Trimmed(s) && OneLine(s) && NoEnd(s)
  }

  ghost predicate CleanKey(s: string) {
    CleanValue(s) && s != "" && ':' !in s
  }

  ghost predicate Clean(fields: seq<Field>, strict: bool) {
    forall i :: 0 <= i < |fields| ==>
      CleanKey(fields[i].key) && CleanValue(fields[i].value) && (strict ==> fields[i].value != "")
  }

  predicate Word(s: string) {
    s != "" && forall i :: 0 <= i < |s| ==> 'a' <= s[i] <= 'z' || s[i] == '_'
  }

  lemma WordIsClean(s: string)
    requires Word(s)
    ensures CleanKey(s)
  {
  }

  lemma {:induction false} StripAfter(s: string, c: char)
    requires IsSpace(c)
    ensures Strip(s + [c]) == Strip(s)
  {
    var t := s + [c];
    if s == [] {
      assert t[1..] == [];
    } else if IsSpace(s[0]) {
      assert t[1..] == s[1..] + [c];
      StripAfter(s[1..], c);
    } else {
      assert t[..|t| - 1] == s;
    }
  }

  lemma StripBefore(c: char, s: string)
    requires IsSpace(c)
    ensures Strip([c] + s) == Strip(s)
  {
    assert ([c] + s)[1..] == s;
  }

  lemma {:induction false} ColonAfter(key: string, rest: string)
    requires ':' !in key
    ensures ':' in key + ":" + rest && ColonAt(key + ":" + rest) == |key|
  {
    var s := key + ":" + rest;
    assert s[|key|] == ':';
    if key != "" {
      assert s[0] == key[0];
      assert s[1..] == key[1..] + ":" + rest;
      ColonAfter(key[1..], rest);
    }
  }

  /** A written line is read back as its key and its value. */
  lemma ReadBack(f: Field)
    requires CleanKey(f.key) && CleanValue(f.value)
    ensures ReadLine(LineText(f)) == Pair(f.key, f.value)
  {
    if f.value == "" {
      BlankReadBack(f.key);
    } else {
      ColonAfter(f.key, " " + f.value);
      LineParts(f.key, f.value);
      StripBefore(' ', f.value);
    }
  }

  lemma BlankReadBack(key: string)
    requires CleanKey(key)
    ensures ReadLine(key + ": " + "") == Pair(key, "")
  {
    var line := key + ":" + "";
    assert key + ": " + "" == line + [' '];
    StripAfter(line, ' ');
    ColonAfter(key, "");
    assert line[..|key|] == key && line[|key| + 1..] == "";
  }

  lemma LineParts(key: string, value: string)
    ensures var line := key + ": " + value;
            line == key + ":" + (" " + value) && line[..|key|] == key && line[|key| + 1..] == [' '] + value
  {
  }

  lemma {:induction false} SplitLine(s: string, line: string)
    requires OneLine(line)
    ensures Split(s + "\n" + line) == Split(s) + [line]
  {
    var t := s + "\n" + line;
    var n := |t| - 1;
    if line == "" {
      assert t[..n] == s;
    } else {
      var m := |line| - 1;
      assert t[..n] == s + "\n" + line[..m];
      SplitLine(s, line[..m]);
      SplitLast(line);
    }
  }

  lemma LineTextOneLine(f: Field)
    requires OneLine(f.key) && OneLine(f.value)
    ensures OneLine(LineText(f))
  {
  }

  /** The written lines are read back as the dictionary of the fields. */
  lemma {:induction false} LinesReadBack(fields: seq<Field>, strict: bool)
    requires Clean(fields, strict)
    ensures Fields(Split(LinesText(fields)), strict) == Some(AsMap(fields))
  {
    if fields == [] {
      assert Split("")[..0] == [];
    } else {
      var n := |fields| - 1;
      LinesReadBack(fields[..n], strict);
      OneMoreLine(LinesText(fields[..n]), fields[n], AsMap(fields[..n]), strict);
    }
  }

  lemma OneMoreLine(before: string, f: Field, parsed: map<string, string>, strict: bool)
    requires CleanKey(f.key) && CleanValue(f.value) && (strict ==> f.value != "")
    requires Fields(Split(before), strict) == Some(parsed)
    ensures Fields(Split(before + "\n" + LineText(f)), strict) == Some(parsed[f.key := f.value])
  {
    LineTextOneLine(f);
    SplitLine(before, LineText(f));
    ReadBack(f);
    FieldsSnoc(Split(before), LineText(f), strict);
  }

  lemma FieldsSnoc(lines: seq<string>, line: string, strict: bool)
    ensures Fields(lines + [line], strict) == AddLine(Fields(lines, strict), ReadLine(line), strict)
  {
    assert (lines + [line])[..|lines|] == lines;
  }

  // Stripping the text of the block changes nothing that its reader sees.

  lemma {:induction false} SplitBefore(c: char, s: string)
    ensures Split([c] + s) == if IsBreak(c) then [""] + Split(s) else [[c] + Split(s)[0]] + Split(s)[1..]
  {
    var t := [c] + s;
    var n := |t| - 1;
    if s == [] {
      assert t[..n] == [];
      assert [""][..0] == [] && "" + [c] == [c] + "";
      assert [[c] + ""] + [] == [[c] + ""];
    } else {
      assert t[..n] == [c] + s[..|s| - 1];
      SplitBefore(c, s[..|s| - 1]);
      PushBehind(c, Split(s[..|s| - 1]), s[|s| - 1]);
    }
  }

  lemma PushBehind(c: char, lines: seq<string>, d: char)
    requires lines != []
    ensures Push([""] + lines, d) == [""] + Push(lines, d)
    ensures Push([[c] + lines[0]] + lines[1..], d) == [[c] + Push(lines, d)[0]] + Push(lines, d)[1..]
  {
    if |lines| == 1 && !IsBreak(d) {
      assert [c] + lines[0] + [d] == [c] + (lines[0] + [d]);
    }
  }

  lemma {:induction false} FieldsSkipFirst(lines: seq<string>, strict: bool)
    ensures Fields([""] + lines, strict) == Fields(lines, strict)
  {
    if lines == [] {
      FieldsSnoc([], "", strict);
      assert [""] + lines == [] + [""];
    } else {
      var n := |lines| - 1;
      FieldsSkipFirst(lines[..n], strict);
      SplitLast(lines);
      assert [""] + lines == ([""] + lines[..n]) + [lines[n]];
      FieldsSnoc([""] + lines[..n], lines[n], strict);
    }
  }

  lemma {:induction false} FieldsFirstAlike(x: string, y: string, lines: seq<string>, strict: bool)
    requires ReadLine(x) == ReadLine(y)
    ensures Fields([x] + lines, strict) == Fields([y] + lines, strict)
  {
    if lines == [] {
      assert [x] + lines == [] + [x] && [y] + lines == [] + [y];
      FieldsSnoc([], x, strict);
      FieldsSnoc([], y, strict);
    } else {
      var n := |lines| - 1;
      FieldsFirstAlike(x, y, lines[..n], strict);
      assert [x] + lines == ([x] + lines[..n]) + [lines[n]];
      assert [y] + lines == ([y] + lines[..n]) + [lines[n]];
      FieldsSnoc([x] + lines[..n], lines[n], strict);
      FieldsSnoc([y] + lines[..n], lines[n], strict);
    }
  }

  lemma SplitFirst(lines: seq<string>)
    requires lines != []
    ensures lines == [lines[0]] + lines[1..]
  {
  }

  lemma SpaceBefore(c: char, s: string, strict: bool)
    requires IsSpace(c)
    ensures Fields(Split([c] + s), strict) == Fields(Split(s), strict)
  {
    SplitBefore(c, s);
    var lines := Split(s);
    if IsBreak(c) {
      FieldsSkipFirst(lines, strict);
    } else {
      StripBefore(c, lines[0]);
      SplitFirst(lines);
      FieldsFirstAlike([c] + lines[0], lines[0], lines[1..], strict);
    }
  }

  lemma SpaceAfter(s: string, c: char, strict: bool)
    requires IsSpace(c)
    ensures Fields(Split(s + [c]), strict) == Fields(Split(s), strict)
  {
    assert (s + [c])[..|s|] == s;
    var lines := Split(s);
    var m := |lines| - 1;
    SplitLast(lines);
    if IsBreak(c) {
      FieldsSnoc(lines, "", strict);
    } else {
      FieldsSnoc(lines[..m], lines[m] + [c], strict);
      FieldsSnoc(lines[..m], lines[m], strict);
      StripAfter(lines[m], c);
    }
  }

  lemma {:induction false} FieldsOfStripped(s: string, strict: bool)
    ensures FieldsOf(s, strict) == Fields(Split(s), strict)
  {
    if s == "" {
    } else if IsSpace(s[0]) {
      FieldsOfStripped(s[1..], strict);
      SpaceBefore(s[0], s[1..], strict);
      assert s == [s[0]] + s[1..];
    } else if IsSpace(s[|s| - 1]) {
      FieldsOfStripped(s[..|s| - 1], strict);
      SpaceAfter(s[..|s| - 1], s[|s| - 1], strict);
      SplitLast(s);
    }
  }

  // Finding the block again.

  lemma OccursEnd(s: string, i: nat)
    ensures OccursAt(s, END, i) <==> EndAt(s, i)
  {
    if i + 3 <= |s| {
      var t := s[i..i + 3];
      assert s[i] == t[0] && s[i + 1] == t[1] && s[i + 2] == t[2];
      if EndAt(s, i) {
        assert t == END;
      }
    }
  }

  lemma NoEndAcross(a: string, c: char, b: string)
    requires NoEnd(a) && NoEnd(b) && c != '-' && c != '>'
    ensures NoEnd(a + [c] + b)
  {
    var s := a + [c] + b;
    assert s[|a|] == c;
    forall i ensures !EndAt(s, i) {
      if i + 3 <= |a| {
        assert EndAt(s, i) <==> EndAt(a, i);
      } else if i > |a| {
        assert EndAt(s, i) <==> EndAt(b, i - |a| - 1);
      }
    }
  }

  lemma LineHasNoEnd(f: Field)
    requires NoEnd(f.key) && NoEnd(f.value)
    ensures NoEnd(LineText(f))
  {
    assert LineText(f) == f.key + [':'] + ("" + [' '] + f.value);
    NoEndAcross("", ' ', f.value);
    NoEndAcross(f.key, ':', "" + [' '] + f.value);
  }

  lemma {:induction false} LinesHaveNoEnd(marker: string, fields: seq<Field>)
    requires '>' !in marker && Clean(fields, false)
    ensures NoEnd(marker + LinesText(fields) + "\n")
  {
    if fields == [] {
      assert NoEnd(marker);
      NoEndAcross(marker, '\n', "");
      assert marker + LinesText(fields) + "\n" == marker + ['\n'] + "";
    } else {
      var n := |fields| - 1;
      LinesHaveNoEnd(marker, fields[..n]);
      var before, line := marker + LinesText(fields[..n]), LineText(fields[n]);
      LineHasNoEnd(fields[n]);
      NoEndPrefix(before, "\n");
      NoEndAcross(before, '\n', line);
      NoEndAcross(before + ['\n'] + line, '\n', "");
      assert marker + LinesText(fields) + "\n" == (before + ['\n'] + line) + ['\n'] + "";
    }
  }

  lemma NoEndPrefix(a: string, b: string)
    requires NoEnd(a + b)
    ensures NoEnd(a)
  {
    forall i ensures !EndAt(a, i) {
      assert EndAt(a, i) ==> EndAt(a + b, i);
    }
  }

  /** Wherever the writer puts a block behind text without the marker, the reader finds exactly
      that block and exactly what was written. */
  lemma BlockReadBack(body: string, pre: string, marker: string, fields: seq<Field>, block: string, post: string,
                      strict: bool, b: Block)
    requires block == RenderBlock(marker, fields) && body == pre + block + post
    requires '>' !in marker && Clean(fields, strict)
    requires b == Block(|pre|, |pre| + |block|, AsMap(fields))
    ensures ParseFrom(body, marker, |pre|, strict) == Ok(Some(b))
  {
    var text := LinesText(fields);
    var inner := marker + text + "\n";
    LinesHaveNoEnd(marker, fields);
    EndFound(body, pre, inner, post);
    InnerText(body, pre, marker, text, inner, post);
    InnerReadBack(fields, strict);
    ParsedTo(body, marker, |pre|, |pre| + |inner|, text + ['\n'], strict, b);
  }

  lemma ParsedTo(body: string, marker: string, start: nat, at: nat, inner: string, strict: bool, b: Block)
    requires Find(body, END, start) == Some(at)
    requires Slice(body, start + |marker|, at) == inner && FieldsOf(inner, strict) == Some(b.fields)
    requires b.start == start && b.end == at + |END|
    ensures ParseFrom(body, marker, start, strict) == Ok(Some(b))
  {
  }

  lemma InnerReadBack(fields: seq<Field>, strict: bool)
    requires Clean(fields, strict)
    ensures FieldsOf(LinesText(fields) + ['\n'], strict) == Some(AsMap(fields))
  {
    var text := LinesText(fields);
    FieldsOfStripped(text + ['\n'], strict);
    SpaceAfter(text, '\n', strict);
    LinesReadBack(fields, strict);
  }

  lemma InnerText(body: string, pre: string, marker: string, text: string, inner: string, post: string)
    requires inner == marker + text + "\n" && body == pre + (inner + END) + post
    ensures |pre| + |inner| <= |body| && Slice(body, |pre| + |marker|, |pre| + |inner|) == text + ['\n']
  {
  }

  lemma EndFound(body: string, pre: string, inner: string, post: string)
    requires body == pre + (inner + END) + post
    requires NoEnd(inner) && inner != "" && inner[|inner| - 1] == '\n'
    ensures Find(body, END, |pre|) == Some(|pre| + |inner|)
  {
    var at := |pre| + |inner|;
    InnerAt(body, pre, inner, post);
    OccursEnd(body, at);
    forall i | |pre| <= i < at ensures !OccursAt(body, END, i) {
      OccursEnd(body, i);
      NotEarlier(body, pre, inner, i);
    }
    FindFirst(body, END, |pre|, at);
  }

  lemma InnerAt(body: string, pre: string, inner: string, post: string)
    requires body == pre + (inner + END) + post
    ensures |pre| + |inner| + 3 <= |body| && EndAt(body, |pre| + |inner|)
    ensures forall k :: |pre| <= k < |pre| + |inner| ==> body[k] == inner[k - |pre|]
  {
  }

  lemma NotEarlier(body: string, pre: string, inner: string, i: nat)
    requires |pre| <= i < |pre| + |inner| <= |body|
    requires forall k :: |pre| <= k < |pre| + |inner| ==> body[k] == inner[k - |pre|]
    requires NoEnd(inner) && inner[|inner| - 1] == '\n'
    ensures !EndAt(body, i)
  {
    if EndAt(body, i) {
      assert body[|pre| + |inner| - 1] == '\n';
      assert i + 3 <= |pre| + |inner|;
      assert EndAt(inner, i - |pre|);
    }
  }
}
