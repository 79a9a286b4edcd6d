/** Lines, newlines and trimming, as the structured source editor uses them. */
module TextLines {
  import opened Content

  // ---- Trimming ----

  /** The Unicode White_Space property, which `str::trim` removes. */
  predicate IsWhite(c: char) {
    var u := c as int;
    0x9 <= u <= 0xD || u in {0x20, 0x85, 0xA0, 0x1680, 0x2028, 0x2029, 0x202F, 0x205F, 0x3000} || 0x2000 <= u <= 0x200A
  }

  function TrimStart(s: string): string {
    if s != [] && IsWhite(s[0]) then TrimStart(s[1..]) else s
  }

  function TrimEnd(s: string): string {
    if s != [] && IsWhite(s[|s| - 1]) then TrimEnd(s[..|s| - 1]) else s
  }

  function Trim(s: string): string {
    TrimEnd(TrimStart(s))
  }

  ghost predicate AllWhite(s: string) {
    forall i :: 0 <= i < |s| ==> IsWhite(s[i])
  }

  /** Text that neither starts nor ends with white space. */
  predicate Solid(s: string) {
    s != [] && !IsWhite(s[0]) && !IsWhite(s[|s| - 1])
  }

  lemma {:induction false} TrimIndented(indent: string, s: string)
    requires AllWhite(indent)
    ensures Trim(indent + s) == Trim(s)
  {
    if indent != [] {
      assert (indent + s)[1..] == indent[1..] + s;
      TrimIndented(indent[1..], s);
    } else {
      assert indent + s == s;
    }
  }

  /** Trimming removes characters at the two ends only. */
  lemma {:induction false} TrimStartSplit(s: string)
    ensures |TrimStart(s)| <= |s| && s[|s| - |TrimStart(s)|..] == TrimStart(s)
    ensures AllWhite(s[..|s| - |TrimStart(s)|])
  {
    if s != [] && IsWhite(s[0]) {
      TrimStartSplit(s[1..]);
      var k := |s| - |TrimStart(s)|;
      assert s[..k] == [s[0]] + s[1..][..k - 1];
    }
  }

  lemma {:induction false} TrimEndPrefix(s: string)
    ensures |TrimEnd(s)| <= |s| && s[..|TrimEnd(s)|] == TrimEnd(s)
  {
    if s != [] && IsWhite(s[|s| - 1]) {
      TrimEndPrefix(s[..|s| - 1]);
    }
  }

  predicate OccursAt(s: string, i: nat, part: string) {
    i <= |s| && part <= s[i..]
  }

  predicate Contains(s: string, part: string) {
    exists i :: 0 <= i <= |s| && OccursAt(s, i, part)
  }

  lemma {:induction false} TrimEndSplit(s: string)
    ensures |TrimEnd(s)| <= |s| && AllWhite(s[|TrimEnd(s)|..])
    ensures TrimEnd(s) == [] || !IsWhite(TrimEnd(s)[|TrimEnd(s)| - 1])
  {
    if s != [] && IsWhite(s[|s| - 1]) {
      var init := s[..|s| - 1];
      TrimEndSplit(init);
      assert forall i :: |TrimEnd(init)| <= i < |init| ==> s[i] == init[|TrimEnd(init)|..][i - |TrimEnd(init)|];
    }
  }

  lemma {:induction false} TrimStartStops(s: string)
    ensures TrimStart(s) == [] || !IsWhite(TrimStart(s)[0])
  {
    if s != [] && IsWhite(s[0]) {
      TrimStartStops(s[1..]);
    }
  }

  /** Trimming takes white space off both ends, and all of it. */
  lemma TrimExactly(s: string) returns (before: string, behind: string)
    ensures s == before + Trim(s) + behind && AllWhite(before) && AllWhite(behind)
    ensures Trim(s) == [] || Solid(Trim(s))
  {
    var middle := TrimStart(s);
    TrimStartSplit(s);
    TrimStartStops(s);
    TrimEndPrefix(middle);
    TrimEndSplit(middle);
    before, behind := s[..|s| - |middle|], middle[|Trim(s)|..];
    assert s == before + middle && middle == Trim(s) + behind;
  }

  /** A part of the trimmed text is a part of the text. */
  lemma TrimContains(s: string, part: string)
    requires part <= Trim(s)
    ensures Contains(s, part)
  {
    TrimStartSplit(s);
    TrimEndPrefix(TrimStart(s));
    assert OccursAt(s, |s| - |TrimStart(s)|, part);
  }

  /** The leading white space of a line. */
  function Indentation(line: string): (indent: string)
    ensures AllWhite(indent) && indent <= line
  {
    TrimStartSplit(line);
    line[..|line| - |TrimStart(line)|]
  }

  // ---- Lines ----

  function IndexOf(s: string, c: char): (i: nat)
    requires c in s
    ensures i < |s| && s[i] == c && c !in s[..i]
  {
    if s[0] == c then 0 else 1 + IndexOf(s[1..], c)
  }

  /** `str::lines` on text without carriage returns. */
  function Lines(s: string): seq<string> {
    if s == [] then []
    else if '\n' !in s then [s]
    else [s[..IndexOf(s, '\n')]] + Lines(s[IndexOf(s, '\n') + 1..])
  }

  function JoinLines(lines: seq<string>, newline: string): string {
    if lines == [] then []
    else if |lines| == 1 then lines[0]
    else lines[0] + newline + JoinLines(lines[1..], newline)
  }

  /** `restore_newlines`. */
  function Restore(lines: seq<string>, newline: string, final: bool): string {
    JoinLines(lines, newline) + if final then newline else []
  }

  predicate EndsLf(s: string) {
    s != [] && s[|s| - 1] == '\n'
  }

  predicate EndsCrlf(s: string) {
    |s| >= 2 && s[|s| - 2] == '\r' && s[|s| - 1] == '\n'
  }

  predicate Plain(line: string) {
    '\n' !in line && '\r' !in line
  }

  /** Lines that come back from text: no newline inside one, and an unterminated last line is not empty. */
  ghost predicate Regular(lines: seq<string>, final: bool) {
    && (forall i :: 0 <= i < |lines| ==> Plain(lines[i]))
    && (!final && lines != [] ==> lines[|lines| - 1] != [])
    && (final ==> lines != [])
  }

  /** A text is one unterminated line, or a line, a newline and a shorter text. */
  lemma SplitFirst(s: string) returns (line: string, rest: string)
    requires '\n' in s
    ensures s == line + "\n" + rest && '\n' !in line && Lines(s) == [line] + Lines(rest)
    ensures EndsLf(s) == (rest == [] || EndsLf(rest))
  {
    var i := IndexOf(s, '\n');
    line, rest := s[..i], s[i + 1..];
    assert s == line + "\n" + rest;
    assert rest != [] ==> s[|s| - 1] == rest[|rest| - 1];
  }

  lemma {:induction false} LinesRegular(s: string)
    requires '\r' !in s
    ensures Regular(Lines(s), EndsLf(s))
    decreases |s|
  {
    if '\n' in s {
      var line, rest := SplitFirst(s);
      LinesRegular(rest);
    } else if s != [] {
      assert s[|s| - 1] in s;
    }
  }

  lemma {:induction false} LinesRestore(s: string)
    ensures Restore(Lines(s), "\n", EndsLf(s)) == s
    decreases |s|
  {
    if s == [] {
    } else if '\n' !in s {
      assert s[|s| - 1] in s;
    } else {
      var line, rest := SplitFirst(s);
      LinesRestore(rest);
      RestoreCons(line, Lines(rest), EndsLf(s));
      if rest != [] {
        assert Lines(rest) != [];
      }
    }
  }

  lemma RestoreCons(line: string, lines: seq<string>, final: bool)
    ensures lines != [] ==> Restore([line] + lines, "\n", final) == line + "\n" + Restore(lines, "\n", final)
    ensures Restore([line], "\n", true) == line + "\n"
  {
    assert ([line] + lines)[1..] == lines;
  }

  lemma RegularTail(lines: seq<string>, final: bool)
    requires Regular(lines, final) && |lines| > 1
    ensures Plain(lines[0]) && Regular(lines[1..], final)
  {
  }

  /** A line in front of text that reads back. */
  lemma RestoreStep(line: string, lines: seq<string>, rest: string, final: bool)
    requires Plain(line) && lines != [] && Lines(rest) == lines && EndsLf(rest) == final && '\r' !in rest
    ensures Lines(line + "\n" + rest) == [line] + lines
    ensures EndsLf(line + "\n" + rest) == final && '\r' !in line + "\n" + rest
  {
    LineThenRest(line, rest);
    assert rest != [] ;
    var s := line + "\n" + rest;
    assert s[|s| - 1] == rest[|rest| - 1];
  }

  lemma {:induction false} RestoreLines(lines: seq<string>, final: bool)
    requires Regular(lines, final)
    ensures Lines(Restore(lines, "\n", final)) == lines
    ensures EndsLf(Restore(lines, "\n", final)) == final
    ensures '\r' !in Restore(lines, "\n", final)
  {
    if |lines| == 1 {
      RestoreOne(lines[0], final);
      assert lines == [lines[0]];
    } else if |lines| > 1 {
      RegularTail(lines, final);
      RestoreLines(lines[1..], final);
      RestoreStep(lines[0], lines[1..], Restore(lines[1..], "\n", final), final);
      RestoreCons(lines[0], lines[1..], final);
      assert lines == [lines[0]] + lines[1..];
    }
  }

  lemma RestoreOne(line: string, final: bool)
    requires Plain(line) && (!final ==> line != [])
    ensures Lines(Restore([line], "\n", final)) == [line]
    ensures EndsLf(Restore([line], "\n", final)) == final
    ensures '\r' !in Restore([line], "\n", final)
  {
    if final {
      assert Restore([line], "\n", final) == line + "\n" + [];
      LineThenRest(line, []);
    } else {
      assert Restore([line], "\n", final) == line;
      assert line[|line| - 1] in line;
    }
  }

  lemma {:induction false} FirstNewline(line: string, rest: string)
    requires '\n' !in line
    ensures '\n' in line + "\n" + rest && IndexOf(line + "\n" + rest, '\n') == |line|
  {
    var s := line + "\n" + rest;
    assert s[|line|] == '\n';
    if line != [] {
      assert s[1..] == line[1..] + "\n" + rest;
      FirstNewline(line[1..], rest);
    }
  }

  lemma LineThenRest(line: string, rest: string)
    requires '\n' !in line
    ensures Lines(line + "\n" + rest) == [line] + Lines(rest)
  {
    FirstNewline(line, rest);
    var s := line + "\n" + rest;
    assert s[..|line|] == line && s[|line| + 1..] == rest;
  }

  // ---- Newline styles ----

  predicate AtCrlf(s: string) {
    |s| >= 2 && s[0] == '\r' && s[1] == '\n'
  }

  /** `replace("\r\n", with)`. */
  function ReplaceCrlf(s: string, with: string): string {
    if s == [] then []
    else if AtCrlf(s) then with + ReplaceCrlf(s[2..], with)
    else [s[0]] + ReplaceCrlf(s[1..], with)
  }

  /** A text taken apart: its lines, its newline style and whether it ends with a newline. */
  datatype Source = Source(lines: seq<string>, newline: string, final: bool)

  /** `normalize_newlines` followed by `lines`: nothing if the newlines are inconsistent. */
  function Read(text: string): Option<Source> {
    if '\r' in text then
      var bare := ReplaceCrlf(text, "");
      if '\r' in bare || '\n' in bare then None
      else Some(Source(Lines(ReplaceCrlf(text, "\n")), "\r\n", EndsCrlf(text)))
    else Some(Source(Lines(text), "\n", EndsLf(text)))
  }

  function Write(source: Source): string {
    Restore(source.lines, source.newline, source.final)
  }

  /** Each newline written as CRLF. */
  function Expand(s: string): string {
    if s == [] then [] else (if s[0] == '\n' then "\r\n" else [s[0]]) + Expand(s[1..])
  }

  lemma {:induction false} ExpandAppend(a: string, b: string)
    ensures Expand(a + b) == Expand(a) + Expand(b)
  {
    if a != [] {
      assert (a + b)[1..] == a[1..] + b;
      ExpandAppend(a[1..], b);
    } else {
      assert a + b == b;
    }
  }

  lemma {:induction false} ExpandPlain(s: string)
    requires '\n' !in s
    ensures Expand(s) == s
  {
    if s != [] {
      ExpandPlain(s[1..]);
    }
  }

  /** The first CRLF or character of a text, and what follows. */
  lemma CollapseHead(text: string) returns (head: string, rest: string)
    requires text != [] && Plain(ReplaceCrlf(text, ""))
    ensures |rest| < |text| && Plain(ReplaceCrlf(rest, ""))
    ensures (head == "\n" && text == "\r\n" + rest) || (|head| == 1 && Plain(head) && text == head + rest)
    ensures ReplaceCrlf(text, "\n") == head + ReplaceCrlf(rest, "\n")
  {
    if AtCrlf(text) {
      head, rest := "\n", text[2..];
      assert text == "\r\n" + rest;
      assert ReplaceCrlf(text, "") == ReplaceCrlf(rest, "");
    } else {
      head, rest := [text[0]], text[1..];
      assert text[0] in ReplaceCrlf(text, "");
      assert forall c :: c in ReplaceCrlf(rest, "") ==> c in ReplaceCrlf(text, "");
    }
  }

  /** Consistent CRLF text is its LF form expanded. */
  lemma {:induction false} CollapseThenExpand(text: string)
    requires Plain(ReplaceCrlf(text, ""))
    ensures Expand(ReplaceCrlf(text, "\n")) == text && '\r' !in ReplaceCrlf(text, "\n")
    decreases |text|
  {
    if text != [] {
      var head, rest := CollapseHead(text);
      CollapseThenExpand(rest);
      ExpandAppend(head, ReplaceCrlf(rest, "\n"));
      if head == "\n" {
        assert Expand("\n") == "\r\n";
      } else {
        ExpandPlain(head);
      }
    }
  }

  /** Expansion keeps the last newline. */
  lemma {:induction false} ExpandEnds(s: string)
    requires '\r' !in s
    ensures EndsCrlf(Expand(s)) == EndsLf(s)
  {
    if s != [] {
      var init, last := s[..|s| - 1], s[|s| - 1];
      assert s == init + [last];
      ExpandAppend(init, [last]);
      assert Expand([last]) == if last == '\n' then "\r\n" else [last];
    }
  }

  lemma {:induction false} ExpandThenCollapse(s: string)
    requires '\r' !in s
    ensures ReplaceCrlf(Expand(s), "\n") == s && ReplaceCrlf(Expand(s), "") == Bare(s)
    ensures '\n' in s ==> '\r' in Expand(s)
  {
    if s != [] {
      ExpandThenCollapse(s[1..]);
      if s[0] == '\n' {
        assert Expand(s)[2..] == Expand(s[1..]);
      } else {
        assert Expand(s)[1..] == Expand(s[1..]);
      }
    }
  }

  /** The text without its newlines. */
  function Bare(s: string): (bare: string)
    ensures '\n' !in bare && ('\r' !in s ==> '\r' !in bare)
  {
    if s == [] then [] else (if s[0] == '\n' then [] else [s[0]]) + Bare(s[1..])
  }

  lemma {:induction false} RestoreExpands(lines: seq<string>, final: bool)
    requires forall i :: 0 <= i < |lines| ==> Plain(lines[i])
    ensures Restore(lines, "\r\n", final) == Expand(Restore(lines, "\n", final))
  {
    assert Expand("\n") == "\r\n";
    if |lines| == 0 {
    } else if |lines| == 1 {
      assert Plain(lines[0]);
      ExpandPlain(lines[0]);
      ExpandAppend(lines[0], if final then "\n" else []);
    } else {
      assert Plain(lines[0]);
      RestoreExpands(lines[1..], final);
      ExpandPlain(lines[0]);
      var rest := Restore(lines[1..], "\n", final);
      assert Restore(lines, "\n", final) == lines[0] + "\n" + rest;
      assert Restore(lines, "\r\n", final) == lines[0] + "\r\n" + Restore(lines[1..], "\r\n", final);
      ExpandAppend(lines[0] + "\n", rest);
      ExpandAppend(lines[0], "\n");
    }
  }

  ghost predicate WellFormed(source: Source) {
    Regular(source.lines, source.final) && source.newline in {"\n", "\r\n"}
  }

  /** Every carriage return is followed by a line feed, and every line feed follows a carriage return. */
  ghost predicate Paired(s: string) {
    forall i :: 0 <= i < |s| ==> PairedAt(s, i)
  }

  ghost predicate PairedAt(s: string, i: nat)
    requires i < |s|
  {
    && (s[i] == '\r' ==> i + 1 < |s| && s[i + 1] == '\n')
    && (s[i] == '\n' ==> 0 < i && s[i - 1] == '\r')
  }

  /** Whole pairs, and plain characters, in front of a text do not matter. */
  lemma PairedBehind(head: string, tail: string)
    requires (|head| == 1 && Plain(head)) || head == "\r\n"
    ensures Paired(head + tail) <==> Paired(tail)
  {
    var s := head + tail;
    if Paired(s) {
      forall i | 0 <= i < |tail| ensures PairedAt(tail, i) {
        assert PairedAt(s, |head| + i) && s[|head| + i] == tail[i];
        assert i == 0 ==> s[|head| - 1] == head[|head| - 1];
      }
    }
    if Paired(tail) {
      forall i | 0 <= i < |s| ensures PairedAt(s, i) {
        if |head| <= i {
          assert PairedAt(tail, i - |head|);
        } else if i + 1 < |head| {
          assert s[i] == head[i] && s[i + 1] == head[i + 1];
        } else {
          assert s[i] == head[i];
        }
      }
    }
  }

  /** Nothing but plain text is left beside the CRLFs exactly if they are paired. */
  lemma {:induction false} BareIsPlain(s: string)
    ensures Plain(ReplaceCrlf(s, "")) <==> Paired(s)
    decreases |s|
  {
    if s == [] {
    } else if AtCrlf(s) {
      BareIsPlain(s[2..]);
      assert s == "\r\n" + s[2..];
      PairedBehind("\r\n", s[2..]);
      assert [] + ReplaceCrlf(s[2..], "") == ReplaceCrlf(s[2..], "");
    } else {
      BareIsPlain(s[1..]);
      var rest := ReplaceCrlf(s[1..], "");
      assert Plain([s[0]] + rest) <==> Plain([s[0]]) && Plain(rest);
      assert s == [s[0]] + s[1..];
      if Plain([s[0]]) {
        PairedBehind([s[0]], s[1..]);
      } else {
        assert !PairedAt(s, 0);
      }
    }
  }

  /** A text is read exactly if it has no carriage return or all its newlines are CRLF. */
  lemma ReadExactly(text: string)
    ensures Read(text).Some? <==> '\r' !in text || Paired(text)
    ensures Read(text).Some? ==> Read(text).value.newline == if '\r' in text then "\r\n" else "\n"
  {
    BareIsPlain(text);
  }

  /** Reading and writing back gives the bytes back, whatever the newline style and the last newline. */
  lemma ReadThenWrite(text: string)
    requires Read(text).Some?
    ensures WellFormed(Read(text).value) && Write(Read(text).value) == text
  {
    if '\r' in text {
      CollapseThenExpand(text);
      ExpandEnds(ReplaceCrlf(text, "\n"));
      LinesRestore(ReplaceCrlf(text, "\n"));
      LinesRegular(ReplaceCrlf(text, "\n"));
      RestoreExpands(Read(text).value.lines, Read(text).value.final);
    } else {
      LinesRestore(text);
      LinesRegular(text);
    }
  }

  /** Writing at least two well-formed lines and reading them gives the same lines, style and ending. */
  lemma WriteThenRead(source: Source)
    requires WellFormed(source) && |source.lines| >= 2
    ensures Read(Write(source)) == Some(source)
  {
    var lf := Restore(source.lines, "\n", source.final);
    RestoreLines(source.lines, source.final);
    if source.newline == "\r\n" {
      RestoreExpands(source.lines, source.final);
      ExpandThenCollapse(lf);
      assert '\n' in lf by {
        assert lf[|source.lines[0]|] == '\n';
      }
      ExpandEnds(lf);
    }
  }

  // ---- Lines of an entry ----

  /** Where a line stands in its text. */
  lemma {:induction false} LineStands(s: string, i: nat) returns (before: string, behind: string)
    requires i < |Lines(s)|
    ensures s == before + Lines(s)[i] + behind
    decreases |s|
  {
    before, behind := [], [];
    if '\n' in s {
      var line, rest := SplitFirst(s);
      if i == 0 {
        behind := "\n" + rest;
      } else {
        var head, tail := LineStands(rest, i - 1);
        PutInFront(line + "\n", head, Lines(rest)[i - 1], tail);
        before, behind := line + "\n" + head, tail;
      }
    }
  }

  lemma PutInFront(front: string, before: string, line: string, behind: string)
    ensures front + (before + line + behind) == front + before + line + behind
  {
  }

  /** Any part of a line of a text is a part of the text. */
  lemma LineContains(s: string, i: nat, part: string)
    requires i < |Lines(s)| && Contains(Lines(s)[i], part)
    ensures Contains(s, part)
  {
    var before, behind := LineStands(s, i);
    ConcatContains(before, Lines(s)[i], behind, part);
  }

  lemma ConcatContains(a: string, s: string, b: string, part: string)
    requires Contains(s, part)
    ensures Contains(a + s + b, part)
  {
    assert (a + s + b)[|a|..|a| + |s|] == s;
    PartContains(a + s + b, |a|, |a| + |s|, part);
  }

  lemma PartContains(s: string, from: nat, to: nat, part: string)
    requires from <= to <= |s| && Contains(s[from..to], part)
    ensures Contains(s, part)
  {
    var j :| 0 <= j <= to - from && OccursAt(s[from..to], j, part);
    assert s[from..to][j..] == s[from + j..to] <= s[from + j..];
    assert OccursAt(s, from + j, part);
  }

  lemma {:induction false} LinesPlain(s: string)
    requires '\r' !in s
    ensures forall i :: 0 <= i < |Lines(s)| ==> Plain(Lines(s)[i])
  {
    if '\n' in s {
      LinesPlain(s[IndexOf(s, '\n') + 1..]);
    }
  }
}
