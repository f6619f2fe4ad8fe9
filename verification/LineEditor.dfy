/** The line editor: append, delete and print lines of a file, as operations on its bytes.
    File contents and appended lines hold no NUL byte. */
module LineEditor {
  import opened Common

  // ---------------------------------------------------------------- lines of a file

  /** A line as getline delivers it: one newline, at the end. */
  ghost predicate IsLine(line: string) {
    exists body: string :: '\n' !in body && line == body + "\n"
  }

  /** The lines of a file: all terminated, except that the last one may lack its newline. */
  ghost predicate LineList(ls: seq<string>) {
    ls == [] || (LineList(ls[1..]) && (IsLine(ls[0]) || (|ls| == 1 && ls[0] != [] && '\n' !in ls[0])))
  }

  ghost predicate Terminated(ls: seq<string>) {
    ls == [] || IsLine(ls[|ls| - 1])
  }

  lemma CutConcat(a: string, b: string)
    ensures (a + b)[..|a|] == a && (a + b)[|a|..] == b
  {
  }

  /** Length of the first line, its newline included. */
  function LineEnd(s: string): (e: nat)
    ensures e <= |s| && (s != [] ==> e > 0)
  {
    if s == [] then 0 else if s[0] == '\n' then 1 else 1 + LineEnd(s[1..])
  }

  lemma {:induction false} LineEndIs(body: string, rest: string)
    requires '\n' !in body
    ensures LineEnd(body + "\n" + rest) == |body| + 1
    ensures LineEnd(body) == |body|
  {
    if body != [] {
      LineEndIs(body[1..], rest);
      assert (body + "\n" + rest)[1..] == body[1..] + "\n" + rest;
    }
  }

  /** The first line of a file ends where its text says. */
  lemma FirstLine(ls: seq<string>)
    requires LineList(ls) && ls != []
    ensures LineEnd(Flatten(ls)) == |ls[0]| > 0
  {
    if IsLine(ls[0]) {
      var body: string :| '\n' !in body && ls[0] == body + "\n";
      LineEndIs(body, Flatten(ls[1..]));
    } else {
      LineEndIs(ls[0], "");
      FlattenOne(ls[0]);
      assert ls == [ls[0]];
    }
  }

  /** Every file has a list of lines ... */
  lemma {:induction false} LinesExist(s: string) returns (ls: seq<string>)
    ensures LineList(ls) && Flatten(ls) == s
    decreases |s|
  {
    ls := [];
    if s != [] {
      var body, rest := FirstNewline(s);
      if rest == s {
        ls := [s];
        FlattenOne(s);
        assert ls[1..] == [];
      } else {
        var tail := LinesExist(rest);
        ls := [body + "\n"] + tail;
        assert ls[1..] == tail;
      }
    }
  }

  lemma {:induction false} FirstNewline(s: string) returns (body: string, rest: string)
    ensures '\n' !in body
    ensures if rest == s then '\n' !in s else s == body + "\n" + rest && |rest| < |s|
  {
    body, rest := "", s;
    if s != [] {
      if s[0] == '\n' {
        rest := s[1..];
      } else {
        var b, r := FirstNewline(s[1..]);
        if r != s[1..] {
          body, rest := [s[0]] + b, r;
        }
      }
    }
  }

  /** ... and only one. */
  lemma {:induction false} LinesUnique(a: seq<string>, b: seq<string>)
    requires LineList(a) && LineList(b) && Flatten(a) == Flatten(b)
    ensures a == b
  {
    if a == [] || b == [] {
      if a != [] { FirstLine(a); }
      if b != [] { FirstLine(b); }
    } else {
      FirstLine(a);
      FirstLine(b);
      CutConcat(a[0], Flatten(a[1..]));
      CutConcat(b[0], Flatten(b[1..]));
      LinesUnique(a[1..], b[1..]);
      assert a == [a[0]] + a[1..] && b == [b[0]] + b[1..];
    }
  }

  lemma {:induction false} LineListParts(ls: seq<string>, n: nat)
    requires LineList(ls) && n <= |ls|
    ensures LineList(ls[n..])
    ensures n < |ls| ==> Terminated(ls[..n])
    ensures Flatten(ls) == Flatten(ls[..n]) + Flatten(ls[n..])
  {
    FlattenConcat(ls[..n], ls[n..]);
    assert ls == ls[..n] + ls[n..];
    if n > 0 {
      LineListParts(ls[1..], n - 1);
      assert ls[1..][n - 1..] == ls[n..];
      assert n < |ls| ==> IsLine(ls[0]);
      assert n > 1 ==> ls[..n][n - 1] == ls[1..][..n - 1][n - 2];
    }
  }

  // ---------------------------------------------------------------- what the read loops do

  /** The loop "while lines_to_go > 0 and a byte can be read": how many bytes it consumes and
      what is left of lines_to_go. */
  function Advance(s: string, togo: nat): (r: (nat, nat))
    ensures r.0 <= |s|
  {
    if togo == 0 || s == [] then (0, togo)
    else var r := Advance(s[1..], if s[0] == '\n' then togo - 1 else togo); (r.0 + 1, r.1)
  }

  lemma {:induction false} AdvanceLine(body: string, rest: string, togo: nat)
    requires togo > 0 && '\n' !in body
    ensures Advance(body + "\n" + rest, togo) == (|body| + 1 + Advance(rest, togo - 1).0, Advance(rest, togo - 1).1)
    ensures Advance(body, togo) == (|body|, togo)
  {
    if body == [] {
      assert (body + "\n" + rest)[1..] == rest;
    } else {
      AdvanceLine(body[1..], rest, togo);
      assert (body + "\n" + rest)[1..] == body[1..] + "\n" + rest;
    }
  }

  /** Skipping n lines, in terms of the list of lines. */
  lemma {:induction false} AdvanceLines(ls: seq<string>, n: nat)
    requires LineList(ls)
    ensures n < |ls| ==> Advance(Flatten(ls), n) == (|Flatten(ls[..n])|, 0)
    ensures n == |ls| ==> Advance(Flatten(ls), n) == (|Flatten(ls)|, if Terminated(ls) then 0 else 1)
    ensures n > |ls| ==> Advance(Flatten(ls), n).0 == |Flatten(ls)| && Advance(Flatten(ls), n).1 > 0
  {
    if ls != [] && n > 0 {
      hide Advance, Flatten;
      AdvanceLines(ls[1..], n - 1);
      FlattenFirst(ls);
      if IsLine(ls[0]) {
        AdvanceFirst(ls, n);
        if n < |ls| {
          FlattenFirst(ls[..n]);
          assert ls[..n][0] == ls[0] && ls[..n][1..] == ls[1..][..n - 1];
        }
      } else {
        AdvanceLine(ls[0], "", n);
        FlattenOne(ls[0]);
        assert ls == [ls[0]];
      }
    } else {
      assert ls == [] ==> Flatten(ls) == "";
      assert Flatten(ls[..0]) == "";
    }
  }

  lemma AdvanceFirst(ls: seq<string>, n: nat)
    requires ls != [] && n > 0 && IsLine(ls[0])
    ensures var rest := Advance(Flatten(ls[1..]), n - 1);
            Advance(Flatten(ls), n) == (|ls[0]| + rest.0, rest.1)
  {
    hide Advance;
    var body: string :| '\n' !in body && ls[0] == body + "\n";
    AdvanceLine(body, Flatten(ls[1..]), n);
  }

  // ---------------------------------------------------------------- delete

  datatype Deletion = EmptyFile | NotInFile | Deleted(text: string)

  /** The file without the line that starts at byte i. */
  function WithoutLine(s: string, i: nat): string
    requires i <= |s|
  {
    s[..i] + s[i + LineEnd(s[i..])..]
  }

  function Delete(s: string, lineNo: int): Deletion {
    if s == [] then EmptyFile
    else
      var (i, togo) := Advance(s, if lineNo > 1 then lineNo - 1 else 0);
      if togo > 0 then NotInFile else Deleted(WithoutLine(s, i))
  }

  /** Deleting line k removes exactly that line; numbers below 1 mean line 1; one past the end
      of a terminated file changes nothing. */
  lemma DeleteRemovesLine(ls: seq<string>, lineNo: int)
    requires LineList(ls)
    ensures var k := if lineNo > 1 then lineNo else 1;
            Delete(Flatten(ls), lineNo)
            == if ls == [] then EmptyFile
               else if k <= |ls| then Deleted(Flatten(ls[..k - 1] + ls[k..]))
               else if k == |ls| + 1 && Terminated(ls) then Deleted(Flatten(ls))
               else NotInFile
  {
    hide LineList, Terminated, Advance, LineEnd, WithoutLine;
    if ls != [] {
      hide Flatten, Delete;
      DeleteFound(ls, lineNo);
    }
  }

  lemma DeleteFound(ls: seq<string>, lineNo: int)
    requires LineList(ls) && ls != []
    ensures var k := if lineNo > 1 then lineNo else 1;
            Delete(Flatten(ls), lineNo)
            == if k <= |ls| then Deleted(Flatten(ls[..k - 1] + ls[k..]))
               else if k == |ls| + 1 && Terminated(ls) then Deleted(Flatten(ls))
               else NotInFile
  {
    hide LineList, Flatten, Terminated, Advance, LineEnd, WithoutLine;
    var s, k := Flatten(ls), if lineNo > 1 then lineNo else 1;
    FirstLine(ls);
    AdvanceLines(ls, k - 1);
    if k <= |ls| {
      DeleteAt(ls, k);
    } else if k == |ls| + 1 && Terminated(ls) {
      DeleteAtEnd(s);
    }
  }

  lemma DeleteAtEnd(s: string)
    ensures WithoutLine(s, |s|) == s
  {
    assert s[|s|..] == [];
  }

  lemma DeleteAt(ls: seq<string>, k: nat)
    requires LineList(ls) && 1 <= k <= |ls|
    ensures var i := |Flatten(ls[..k - 1])|;
            i <= |Flatten(ls)| && WithoutLine(Flatten(ls), i) == Flatten(ls[..k - 1] + ls[k..])
  {
    hide LineList, Terminated, LineEnd;
    var before, here := ls[..k - 1], ls[k - 1..];
    LineListParts(ls, k - 1);
    CutConcat(Flatten(before), Flatten(here));
    FirstLine(here);
    assert here[0] == ls[k - 1] && here[1..] == ls[k..];
    CutConcat(here[0], Flatten(ls[k..]));
    FlattenConcat(before, ls[k..]);
    CutTwice(Flatten(ls), |Flatten(before)|, |here[0]|);
  }

  lemma CutTwice(s: string, i: nat, e: nat)
    requires i + e <= |s|
    ensures s[i..][e..] == s[i + e..]
  {
  }

  // ---------------------------------------------------------------- append

  function Append(s: string, line: string): string {
    s + line
  }

  /** The lines after an append: a new last line, or a longer one if the file did not end in a
      newline. */
  ghost function Appended(ls: seq<string>, line: string): seq<string> {
    if Terminated(ls) then ls + [line] else ls[..|ls| - 1] + [ls[|ls| - 1] + line]
  }

  lemma {:induction false} AppendedIsLineList(ls: seq<string>, line: string)
    requires LineList(ls) && IsLine(line)
    ensures LineList(Appended(ls, line)) && Flatten(Appended(ls, line)) == Append(Flatten(ls), line)
  {
    if ls == [] {
      FlattenOne(line);
      assert Appended(ls, line) == [line] && LineList([line][1..]);
    } else if |ls| == 1 {
      assert ls == [ls[0]] && LineList([]);
      FlattenOne(ls[0]);
      if Terminated(ls) {
        FlattenConcat(ls, [line]);
        FlattenOne(line);
        assert Appended(ls, line)[1..] == [line] && LineList([line][1..]);
      } else {
        FlattenOne(ls[0] + line);
        JoinedLine(ls[0], line);
        assert Appended(ls, line) == [ls[0] + line] && LineList([ls[0] + line][1..]);
      }
    } else {
      AppendedIsLineList(ls[1..], line);
      assert Terminated(ls) <==> Terminated(ls[1..]);
      assert Appended(ls, line)[0] == ls[0] && Appended(ls, line)[1..] == Appended(ls[1..], line);
    }
  }

  lemma JoinedLine(a: string, line: string)
    requires '\n' !in a && IsLine(line)
    ensures IsLine(a + line)
  {
    var body: string :| '\n' !in body && line == body + "\n";
    assert a + line == (a + body) + "\n";
  }

  /** Appending a line and deleting the last line is the identity exactly on files that are
      empty or end in a newline. */
  lemma AppendDelete(ls: seq<string>, line: string)
    requires LineList(ls) && IsLine(line)
    ensures var t := Append(Flatten(ls), line);
            Delete(t, |Appended(ls, line)|) == Deleted(Flatten(ls)) <==> Terminated(ls)
  {
    var ts := Appended(ls, line);
    AppendedIsLineList(ls, line);
    DeleteRemovesLine(ts, |ts|);
    if Terminated(ls) {
      assert ts[..|ls|] + ts[|ls| + 1..] == ls;
    } else {
      var n := |ls| - 1;
      assert ts[..n] + ts[n + 1..] == ls[..n];
      LineListParts(ls, n);
      assert ls[n..] == [ls[n]];
      FlattenOne(ls[n]);
      FirstLine(ls[n..]);
    }
  }

  /** Which files those are, on their bytes. */
  lemma TerminatedIs(ls: seq<string>)
    requires LineList(ls)
    ensures var s := Flatten(ls); Terminated(ls) <==> s == [] || s[|s| - 1] == '\n'
  {
    if ls != [] {
      var n := |ls| - 1;
      LineListParts(ls, n);
      assert ls[n..] == [ls[n]];
      FlattenLast(ls);
      FirstLine(ls[n..]);
      hide Flatten;
      assert Flatten(ls)[|Flatten(ls)| - 1] == ls[n][|ls[n]| - 1];
      if Terminated(ls) {
        var body: string :| '\n' !in body && ls[n] == body + "\n";
      }
    }
  }

  /** Otherwise the old last line is lost with the new one: "a", with "b" appended and line 1
      deleted, is the empty file. */
  lemma AppendDeleteLoses()
    ensures Append("a", "b\n") == "ab\n" && Delete("ab\n", 1) == Deleted("") && "" != "a"
  {
    var s := "ab\n";
    assert s[1..] == "b\n" && "b\n"[1..] == "\n";
    assert LineEnd("\n") == 1 && LineEnd("b\n") == 2 && LineEnd(s) == 3;
    assert s[0..] == s && s[3..] == "" && s[..0] == "";
  }

  // ---------------------------------------------------------------- print

  const UNBOUNDED: nat := 0x4000_0000

  /** The bytes read from byte i on until n newlines have been seen. */
  function Section(s: string, i: nat, n: nat): string
    requires i <= |s|
  {
    s[i..][..Advance(s[i..], n).0]
  }

  datatype Printing = InvalidInput | NothingToPrint | NoSuchLine | Printed(text: string)

  function ReadLimits(s: string, l: int, r: int): Printing {
    if InvalidLimits(l, r) then InvalidInput
    else if s == [] then NothingToPrint
    else
      var (i, togo) := Advance(s, l - 1);
      if togo > 0 then NoSuchLine
      else Printed(Section(s, i, if r == -1 then UNBOUNDED else r - l + 1))
  }

  predicate InvalidLimits(l: int, r: int) {
    l < 1 || (r < 1 && r != -1) || (r < l && r != -1)
  }

  /** Printing (l, r) yields exactly lines l .. min(r, last), where r = -1 means 2^30 lines; one
      past the end of a terminated file is an empty print, further on there is no such line. */
  lemma PrintsLines(ls: seq<string>, l: int, r: int)
    requires LineList(ls)
    ensures var last := if r == -1 then l - 1 + 1073741824 else r;
            ReadLimits(Flatten(ls), l, r)
            == if l < 1 || (r != -1 && r < l) then InvalidInput
               else if ls == [] then NothingToPrint
               else if l <= |ls| then Printed(Flatten(ls[l - 1..if last <= |ls| then last else |ls|]))
               else if l == |ls| + 1 && Terminated(ls) then Printed("")
               else NoSuchLine
  {
    hide LineList, Terminated, Advance, LineEnd, Section;
    if !InvalidLimits(l, r) && ls != [] {
      hide ReadLimits, Flatten;
      PrintsFound(ls, l, r);
    }
  }

  lemma PrintsFound(ls: seq<string>, l: int, r: int)
    requires LineList(ls) && ls != [] && !InvalidLimits(l, r)
    ensures var last := if r == -1 then l - 1 + UNBOUNDED else r;
            ReadLimits(Flatten(ls), l, r)
            == if l <= |ls| then Printed(Flatten(ls[l - 1..if last <= |ls| then last else |ls|]))
               else if l == |ls| + 1 && Terminated(ls) then Printed("")
               else NoSuchLine
  {
    hide LineList, Flatten, Terminated, Advance, LineEnd, Section;
    FirstLine(ls);
    AdvanceLines(ls, l - 1);
    var count := if r == -1 then UNBOUNDED else r - l + 1;
    if l <= |ls| {
      SectionIs(ls, l - 1, count);
    } else {
      SectionAtEnd(Flatten(ls), count);
    }
  }

  lemma SectionAtEnd(s: string, count: nat)
    ensures Section(s, |s|, count) == ""
  {
  }

  lemma SectionIs(ls: seq<string>, n: nat, count: nat)
    requires LineList(ls) && n <= |ls|
    ensures |Flatten(ls[..n])| <= |Flatten(ls)|
    ensures Section(Flatten(ls), |Flatten(ls[..n])|, count)
            == Flatten(ls[n..if n + count <= |ls| then n + count else |ls|])
  {
    hide LineList, Flatten, Terminated, Advance, LineEnd;
    var rest := ls[n..];
    LineListParts(ls, n);
    CutConcat(Flatten(ls[..n]), Flatten(rest));
    TakesLines(rest, count);
    assert ls[n..if n + count <= |ls| then n + count else |ls|] == rest[..if count <= |rest| then count else |rest|];
  }

  lemma TakesLines(ls: seq<string>, n: nat)
    requires LineList(ls)
    ensures Flatten(ls)[..Advance(Flatten(ls), n).0] == Flatten(ls[..if n <= |ls| then n else |ls|])
  {
    AdvanceLines(ls, n);
    if n < |ls| {
      LineListParts(ls, n);
      CutConcat(Flatten(ls[..n]), Flatten(ls[n..]));
    } else {
      assert ls[..|ls|] == ls;
    }
  }

  // ---------------------------------------------------------------- the code

  /** append_line: file and line are gathered in a terminated buffer, whose C string is written
      back over the start of the file.  A NUL in the file ends that string too early, and then the
      file stays as it was. */
  method AppendLine(content: string, line: string) returns (result: string)
    requires '\0' !in line
    ensures result == if '\0' in content then content else Append(content, line)
  {
    var n := |content|;
    var newContent := new char[n + |line| + 1];
    newContent[n + |line|] := '\0';
    for i := 0 to n
      invariant newContent[..i] == content[..i] && newContent[n + |line|] == '\0'
    {
      newContent[i] := content[i];
    }
    for i := 0 to |line|
      invariant newContent[..n] == content && newContent[n..n + i] == line[..i] && newContent[n + |line|] == '\0'
    {
      newContent[n + i] := line[i];
    }
    assert newContent[n + |line|..] == "\0" && line[..|line|] == line;
    assert newContent[..] == newContent[..n] + newContent[n..n + |line|] + newContent[n + |line|..];
    var newN := 0;
    while newContent[newN] != '\0'
      invariant newN <= n + |line| && '\0' !in newContent[..newN]
      decreases n + |line| - newN
    {
      newN := newN + 1;
    }
    result := newContent[..newN] + if newN < n then content[newN..] else "";
    WrittenBack(content, line, newN);
  }

  lemma WrittenBack(content: string, line: string, newN: nat)
    requires '\0' !in line && newN <= |content| + |line|
    requires var text := content + line + "\0"; text[newN] == '\0' && '\0' !in text[..newN]
    ensures (content + line + "\0")[..newN] + (if newN < |content| then content[newN..] else "")
            == if '\0' in content then content else Append(content, line)
  {
    var text := content + line + "\0";
    if newN < |content| {
      assert content[newN] == text[newN] && text[..newN] == content[..newN];
    } else {
      assert forall i :: |content| <= i < |content| + |line| ==> text[i] == line[i - |content|];
      assert newN == |content| + |line|;
      assert text[..newN] == content + line;
      assert forall i :: 0 <= i < |content| ==> text[..newN][i] == content[i];
    }
  }

  /** The first loop of delete_line and read_limits. */
  method SkipLines(content: string, start: int) returns (i: nat, togo: int)
    ensures i <= |content|
    ensures (i, if togo > 0 then togo else 0) == Advance(content, if start > 0 then start else 0)
  {
    i, togo := 0, start;
    while togo > 0 && i < |content|
      invariant i <= |content| && (start > 0 ==> togo >= 0) && (start <= 0 ==> togo == start && i == 0)
      invariant start > 0 ==> Advance(content, start)
                              == (i + Advance(content[i..], togo).0, Advance(content[i..], togo).1)
    {
      assert content[i..][1..] == content[i + 1..];
      if content[i] == '\n' {
        togo := togo - 1;
      }
      i := i + 1;
    }
  }

  /** delete_line: copy the lines before, skip one line, copy the rest. */
  method DeleteLine(content: string, lineNo: int) returns (d: Deletion)
    ensures d == Delete(content, lineNo)
  {
    if content == [] {
      return EmptyFile;
    }
    var i, togo := SkipLines(content, lineNo - 1);
    if togo > 0 {
      return NotInFile;
    }
    var newContent := content[..i];
    var j := i;
    while j < |content|
      invariant i <= j <= |content|
      invariant LineEnd(content[i..]) == j - i + LineEnd(content[j..])
    {
      assert content[j..][1..] == content[j + 1..];
      j := j + 1;
      if content[j - 1] == '\n' {
        assert LineEnd(content[i..]) == j - i;
        return Deleted(newContent + content[j..]);
      }
    }
    return Deleted(newContent + content[j..]);
  }

  /** read_limits: what is printed. */
  method PrintLimits(content: string, l: int, r: int) returns (p: Printing)
    ensures p == ReadLimits(content, l, r)
  {
    if l < 1 || (r < 1 && r != -1) || (r < l && r != -1) {
      return InvalidInput;
    }
    if content == [] {
      return NothingToPrint;
    }
    var i, togo := SkipLines(content, l - 1);
    if togo > 0 {
      return NoSuchLine;
    }
    var count, left := SkipLines(content[i..], if r == -1 then UNBOUNDED else r - l + 1);
    return Printed(content[i..][..count]);
  }
}
