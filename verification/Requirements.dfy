/** The requirements file of an environment: one "name version" line per installed package.
    install and remove work on the bytes of the file; here it is shown that they implement a
    finite map from package names to versions. */
module Requirements {
  import opened Common

  const MAX_N: nat := 256

  datatype Error = NoVersion | EmptyName | EmptyVersion | AlreadyInstalled | NotInstalled | BadLine

  datatype Outcome = Done(text: string) | Failed(error: Error)

  // ---------------------------------------------------------------- what the code does to bytes

  /** Number of bytes read_line delivers: up to and including a newline, at most `count`. */
  function LineLength(text: string, count: nat): (n: nat)
    ensures n <= |text| && n <= count && (text != [] && count > 0 ==> n > 0)
  {
    if text == [] || count == 0 then 0
    else if text[0] == '\n' then 1
    else 1 + LineLength(text[1..], count - 1)
  }

  /** Index of the first space, or the length if there is none. */
  function FirstSpace(s: string): (i: nat)
    ensures i <= |s| && ' ' !in s[..i] && (i < |s| ==> s[i] == ' ')
  {
    if s == [] || s[0] == ' ' then 0 else 1 + FirstSpace(s[1..])
  }

  /** The package name of a line: everything before its first space. */
  function NameIn(line: string): Option<string> {
    var where := FirstSpace(line);
    if where == |line| then None else Some(line[..where])
  }

  /** The scan of install_pkg: the last byte of each line is cut off before it is examined. */
  function Scan(text: string, name: string): (r: Outcome)
    ensures r.Done? ==> r.text == ""
  {
    if text == [] then Done("")
    else
      var n := LineLength(text, MAX_N);
      match NameIn(text[..n - 1])
      case None => Failed(BadLine)
      case Some(x) => if x == name then Failed(AlreadyInstalled) else Scan(text[n..], name)
  }

  function Install(text: string, name: string, ver: string): Outcome {
    if name == "" then Failed(EmptyName)
    else if ver == "" then Failed(EmptyVersion)
    else
      var r := Scan(text, name);
      if r.Failed? then r else Done(text + Line(Req(name, ver)))
  }

  /** The lines that remove_pkg keeps, and whether it met the package. */
  datatype Kept = Kept(text: string, found: bool) | Bad

  /** A line, kept or dropped, in front of what is kept of the rest. */
  function AddLine(line: string, drop: bool, rest: Kept): Kept {
    if rest.Bad? then Bad
    else if drop then Kept(rest.text, true)
    else Kept(line + rest.text, rest.found)
  }

  function Keep(text: string, name: string): Kept {
    if text == [] then Kept("", false)
    else
      var n := LineLength(text, MAX_N);
      match NameIn(text[..n])
      case None => Bad
      case Some(x) => AddLine(text[..n], x == name, Keep(text[n..], name))
  }

  function Remove(text: string, name: string): Outcome {
    match Keep(text, name)
    case Bad => Failed(BadLine)
    case Kept(kept, found) => if found then Done(kept) else Failed(NotInstalled)
  }

  /** No stretch of 255 bytes without a newline, so that read_line's terminator fits the buffer. */
  ghost predicate ShortLines(text: string) {
    text == [] || (LineLength(text, MAX_N) < MAX_N && ShortLines(text[LineLength(text, MAX_N)..]))
  }

  // ---------------------------------------------------------------- the package list

  datatype Req = Req(name: string, ver: string)

  function Line(r: Req): string {
    r.name + " " + r.ver + "\n"
  }

  function Text(rs: seq<Req>): string {
    if rs == [] then "" else Line(rs[0]) + Text(rs[1..])
  }

  ghost predicate ValidReq(r: Req) {
    && r.name != "" && r.ver != ""
    && ' ' !in r.name && '\n' !in r.name && '\n' !in r.ver
    && |r.name| + |r.ver| + 2 < 256
  }

  ghost predicate Valid(rs: seq<Req>) {
    && (forall i :: 0 <= i < |rs| ==> ValidReq(rs[i]))
    && (forall i, j :: 0 <= i < j < |rs| ==> rs[i].name != rs[j].name)
  }

  predicate Has(rs: seq<Req>, name: string) {
    exists i :: 0 <= i < |rs| && rs[i].name == name
  }

  function Without(rs: seq<Req>, name: string): seq<Req> {
    if rs == [] then []
    else if rs[0].name == name then Without(rs[1..], name)
    else [rs[0]] + Without(rs[1..], name)
  }

  lemma {:induction false} LineLengthIs(s: string, rest: string, count: nat)
    requires '\n' !in s && |s| < count
    ensures LineLength(s + "\n" + rest, count) == |s| + 1
  {
    var t := s + "\n" + rest;
    if s != [] {
      assert t[1..] == s[1..] + "\n" + rest;
      LineLengthIs(s[1..], rest, count - 1);
    }
  }

  lemma FirstSpaceIs(name: string, rest: string)
    requires ' ' !in name
    ensures FirstSpace(name + " " + rest) == |name|
  {
    assert (name + " " + rest)[|name|] == ' ';
  }

  lemma NameInIs(name: string, rest: string)
    requires ' ' !in name
    ensures NameIn(name + " " + rest) == Some(name)
  {
    FirstSpaceIs(name, rest);
    assert (name + " " + rest)[..|name|] == name;
  }

  /** How the code sees the first line of a package list. */
  lemma FirstLine(r: Req, rest: string)
    requires ValidReq(r)
    ensures var text, n := Line(r) + rest, |Line(r)|;
            && LineLength(text, MAX_N) == n < MAX_N
            && text[..n] == Line(r) && text[n..] == rest
            && NameIn(text[..n]) == NameIn(text[..n - 1]) == Some(r.name)
  {
    var s := r.name + " " + r.ver;
    assert Line(r) + rest == s + "\n" + rest;
    LineLengthIs(s, rest, MAX_N);
    NameInIs(r.name, r.ver);
    NameInIs(r.name, r.ver + "\n");
    assert Line(r) == r.name + " " + (r.ver + "\n");
    assert (Line(r) + rest)[..|Line(r)| - 1] == s;
  }

  lemma TailValid(rs: seq<Req>)
    requires Valid(rs) && rs != []
    ensures Valid(rs[1..]) && ValidReq(rs[0]) && !Has(rs[1..], rs[0].name)
  {
  }

  lemma HasHead(rs: seq<Req>, name: string)
    requires rs != []
    ensures Has(rs, name) <==> rs[0].name == name || Has(rs[1..], name)
  {
    if Has(rs, name) && rs[0].name != name {
      var i :| 0 <= i < |rs| && rs[i].name == name;
      assert rs[1..][i - 1].name == name;
    }
    if i :| 0 <= i < |rs[1..]| && rs[1..][i].name == name {
      assert rs[i + 1].name == name;
    }
  }

  lemma {:induction false} ScanIs(rs: seq<Req>, name: string)
    requires Valid(rs)
    ensures Scan(Text(rs), name) == if Has(rs, name) then Failed(AlreadyInstalled) else Done("")
  {
    if rs != [] {
      TailValid(rs);
      HasHead(rs, name);
      FirstLine(rs[0], Text(rs[1..]));
      hide Line, NameIn, LineLength, Has, Valid;
      ScanIs(rs[1..], name);
    }
  }

  lemma {:induction false} KeepIs(rs: seq<Req>, name: string)
    requires Valid(rs)
    ensures Keep(Text(rs), name) == Kept(Text(Without(rs, name)), Has(rs, name))
  {
    if rs != [] {
      TailValid(rs);
      HasHead(rs, name);
      FirstLine(rs[0], Text(rs[1..]));
      TextCons(rs[0], Without(rs[1..], name));
      KeepIs(rs[1..], name);
      hide Line, NameIn, LineLength, Valid, Has;
      var n := |Line(rs[0])|;
      assert Text(rs) == Line(rs[0]) + Text(rs[1..]);
      hide Text;
      assert Keep(Text(rs), name) == AddLine(Line(rs[0]), rs[0].name == name, Keep(Text(rs[1..]), name));
    }
  }

  lemma TextCons(r: Req, rs: seq<Req>)
    ensures Text([r] + rs) == Line(r) + Text(rs)
  {
    assert ([r] + rs)[1..] == rs;
  }

  lemma {:induction false} ShortText(rs: seq<Req>)
    requires Valid(rs)
    ensures ShortLines(Text(rs))
  {
    if rs != [] {
      TailValid(rs);
      FirstLine(rs[0], Text(rs[1..]));
      ShortText(rs[1..]);
    }
  }

  lemma {:induction false} TextAppend(rs: seq<Req>, r: Req)
    ensures Text(rs + [r]) == Text(rs) + Line(r)
  {
    if rs == [] {
      assert [r][1..] == [];
    } else {
      TextAppend(rs[1..], r);
      assert (rs + [r])[1..] == rs[1..] + [r];
    }
  }

  lemma {:induction false} WithoutMembers(rs: seq<Req>, name: string)
    ensures forall r :: r in Without(rs, name) <==> r in rs && r.name != name
  {
    if rs != [] {
      WithoutMembers(rs[1..], name);
      assert rs == [rs[0]] + rs[1..];
    }
  }

  lemma {:induction false} WithoutValid(rs: seq<Req>, name: string)
    requires Valid(rs)
    ensures Valid(Without(rs, name))
  {
    if rs != [] {
      TailValid(rs);
      WithoutValid(rs[1..], name);
      WithoutMembers(rs[1..], name);
      if rs[0].name != name {
        ConsValid(rs[0], Without(rs[1..], name), rs[1..]);
      }
    }
  }

  lemma ConsValid(r: Req, w: seq<Req>, tail: seq<Req>)
    requires ValidReq(r) && Valid(w) && !Has(tail, r.name) && forall x :: x in w ==> x in tail
    ensures Valid([r] + w)
  {
    hide ValidReq;
    forall i | 0 <= i < |w|
      ensures w[i].name != r.name
    {
      assert w[i] in w;
      var j :| 0 <= j < |tail| && tail[j] == w[i];
    }
  }

  lemma {:induction false} WithoutAbsent(rs: seq<Req>, name: string)
    requires !Has(rs, name)
    ensures Without(rs, name) == rs
  {
    if rs != [] {
      HasHead(rs, name);
      WithoutAbsent(rs[1..], name);
    }
  }

  lemma {:induction false} WithoutAppend(rs: seq<Req>, r: Req)
    ensures Without(rs + [r], r.name) == Without(rs, r.name)
  {
    if rs == [] {
      assert [r][1..] == [];
    } else {
      WithoutAppend(rs[1..], r);
      assert (rs + [r])[1..] == rs[1..] + [r];
    }
  }

  // ---------------------------------------------------------------- refinement

  lemma InstallIs(rs: seq<Req>, name: string, ver: string)
    requires Valid(rs) && ValidReq(Req(name, ver))
    ensures Install(Text(rs), name, ver)
            == if Has(rs, name) then Failed(AlreadyInstalled) else Done(Text(rs + [Req(name, ver)]))
    ensures Text(rs + [Req(name, ver)]) == Text(rs) + name + " " + ver + "\n"
    ensures !Has(rs, name) ==> Valid(rs + [Req(name, ver)])
  {
    ScanIs(rs, name);
    TextAppend(rs, Req(name, ver));
  }

  lemma RemoveIs(rs: seq<Req>, name: string)
    requires Valid(rs)
    ensures Remove(Text(rs), name)
            == if Has(rs, name) then Done(Text(Without(rs, name))) else Failed(NotInstalled)
    ensures Valid(Without(rs, name))
  {
    KeepIs(rs, name);
    WithoutValid(rs, name);
  }

  /** What a list of packages looks like to a reader of the file: name and version of its first
      line, and the rest of the file. */
  function FirstEntry(text: string): (r: (string, string, string))
    requires '\n' in text
  {
    var n := LineLength(text, |text|);
    var where := FirstSpace(text[..n]);
    (text[..where], if where + 1 < n then text[where + 1..n - 1] else "", text[n..])
  }

  /** The reader finds what install wrote. */
  lemma ReadBack(r: Req, rest: string)
    requires ValidReq(r)
    ensures var text := r.name + " " + r.ver + "\n" + rest;
            text == Line(r) + rest && '\n' in text && FirstEntry(text) == (r.name, r.ver, rest)
  {
    var s := r.name + " " + r.ver;
    var text := s + "\n" + rest;
    var n := |s| + 1;
    assert Line(r) + rest == text && text[|s|] == '\n';
    LineLengthIs(s, rest, |text|);
    hide LineLength, FirstSpace, Line;
    assert text[..n] == s + "\n" && s + "\n" == r.name + " " + (r.ver + "\n");
    FirstSpaceIs(r.name, r.ver + "\n");
    assert text[..|r.name|] == r.name && text[|r.name| + 1..n - 1] == r.ver && text[n..] == rest;
  }

  /** The bytes of the file determine the packages, their order and their versions. */
  lemma {:induction false} TextDetermines(rs: seq<Req>, qs: seq<Req>)
    requires Valid(rs) && Valid(qs) && Text(rs) == Text(qs)
    ensures rs == qs
  {
    if rs != [] {
      ReadBack(rs[0], Text(rs[1..]));
    }
    if qs != [] {
      ReadBack(qs[0], Text(qs[1..]));
    }
    if rs != [] && qs != [] {
      TextDetermines(rs[1..], qs[1..]);
      assert rs == [rs[0]] + rs[1..] && qs == [qs[0]] + qs[1..];
    }
  }

  lemma EntryFirst(r: Req, more: string, name: string)
    requires ValidReq(r)
    ensures Scan(Line(r) + more, name) == if r.name == name then Failed(AlreadyInstalled) else Scan(more, name)
    ensures Keep(Line(r) + more, name) == AddLine(Line(r), r.name == name, Keep(more, name))
  {
    FirstLine(r, more);
    hide Line, NameIn, LineLength;
  }

  lemma BadLineFirst(junk: string, rest: string, name: string)
    requires ' ' !in junk && '\n' !in junk && |junk| < 255
    ensures Keep(junk + "\n" + rest, name) == Bad && Scan(junk + "\n" + rest, name) == Failed(BadLine)
  {
    var tail := junk + "\n" + rest;
    LineLengthIs(junk, rest, MAX_N);
    assert tail[..|junk| + 1] == junk + "\n" && tail[..|junk|] == junk;
    hide LineLength;
  }

  /** A line without a space ends both commands, wherever the package is. */
  lemma {:induction false} BadLineStops(rs: seq<Req>, tail: string, name: string)
    requires Valid(rs) && Keep(tail, name) == Bad && Scan(tail, name) == Failed(BadLine)
    ensures Keep(Text(rs) + tail, name) == Bad
    ensures Scan(Text(rs) + tail, name) == if Has(rs, name) then Failed(AlreadyInstalled) else Failed(BadLine)
  {
    if rs == [] {
      assert Text(rs) + tail == tail;
    } else {
      TailValid(rs);
      HasHead(rs, name);
      var more := Text(rs[1..]) + tail;
      EntryFirst(rs[0], more, name);
      BadLineStops(rs[1..], tail, name);
      Regroup(Line(rs[0]), Text(rs[1..]), tail);
      hide Line, Has, Valid, Scan, Keep;
    }
  }

  /** Every answer of the two commands on a file of packages and one bad line, and on empty
      arguments. */
  lemma ErrorAnswers(rs: seq<Req>, junk: string, rest: string, name: string, ver: string)
    requires Valid(rs) && ' ' !in junk && '\n' !in junk && |junk| < 255
    ensures var text := Text(rs) + junk + "\n" + rest;
            && Remove(text, name) == Failed(BadLine)
            && Install(text, name, ver)
               == Failed(if name == "" then EmptyName else if ver == "" then EmptyVersion
                         else if Has(rs, name) then AlreadyInstalled else BadLine)
  {
    BadLineFirst(junk, rest, name);
    BadLineStops(rs, junk + "\n" + rest, name);
    Regroup(Text(rs), junk + "\n", rest);
    Regroup(Text(rs), junk, "\n");
    hide Scan, Keep, Text, Has;
  }

  /** A line is read up to its newline, or up to the end of the file, or for `count` bytes. */
  lemma {:induction false} ReadsOneLine(text: string, count: nat)
    ensures var n := LineLength(text, count);
            && (n > 0 ==> '\n' !in text[..n - 1])
            && ((n > 0 && text[n - 1] == '\n') || n == |text| || n == count)
  {
    if text != [] && count > 0 && text[0] != '\n' {
      ReadsOneLine(text[1..], count - 1);
      var n := LineLength(text, count);
      assert n > 1 ==> text[..n - 1] == [text[0]] + text[1..][..n - 2];
    }
  }

  /** Installing an absent package and removing it again restores the file byte for byte. */
  lemma InstallRemove(rs: seq<Req>, name: string, ver: string)
    requires Valid(rs) && ValidReq(Req(name, ver)) && !Has(rs, name)
    ensures Install(Text(rs), name, ver).Done?
    ensures Remove(Install(Text(rs), name, ver).text, name) == Done(Text(rs))
  {
    var r := Req(name, ver);
    InstallIs(rs, name, ver);
    RemoveIs(rs + [r], name);
    WithoutAppend(rs, r);
    WithoutAbsent(rs, name);
    assert (rs + [r])[|rs|].name == name;
  }

  datatype Op = DoInstall(name: string, ver: string) | DoRemove(name: string)

  ghost predicate ValidOp(o: Op) {
    o.DoInstall? ==> ValidReq(Req(o.name, o.ver))
  }

  /** One invocation of the program; a failed one leaves the file as it was. */
  function Invoke(text: string, o: Op): string {
    var r := match o
             case DoInstall(name, ver) => Install(text, name, ver)
             case DoRemove(name) => Remove(text, name);
    if r.Done? then r.text else text
  }

  function InvokeAll(ops: seq<Op>): string {
    if ops == [] then "" else Invoke(InvokeAll(ops[..|ops| - 1]), ops[|ops| - 1])
  }

  /** The same operations on a map: the first version of a name stays until it is removed. */
  function Packages(ops: seq<Op>): map<string, string> {
    if ops == [] then map[] else OpOnMap(Packages(ops[..|ops| - 1]), ops[|ops| - 1])
  }

  ghost predicate Lists(rs: seq<Req>, m: map<string, string>) {
    && Valid(rs)
    && (forall r :: r in rs ==> r.name in m && m[r.name] == r.ver)
    && (forall name :: name in m ==> Has(rs, name))
  }

  function OpOnMap(m: map<string, string>, o: Op): map<string, string> {
    match o
    case DoInstall(name, ver) => if name in m then m else m[name := ver]
    case DoRemove(name) => m - {name}
  }

  lemma InstallRefines(rs: seq<Req>, m: map<string, string>, r: Req)
    requires Lists(rs, m) && ValidReq(r) && r.name !in m
    ensures !Has(rs, r.name) && Lists(rs + [r], m[r.name := r.ver])
  {
    var rs' := rs + [r];
    assert rs'[|rs|].name == r.name;
    forall i | 0 <= i < |rs|
      ensures rs[i].name != r.name
    {
      assert rs[i] in rs;
    }
    forall n | n in m
      ensures Has(rs', n)
    {
      var i :| 0 <= i < |rs| && rs[i].name == n;
      assert rs'[i].name == n;
    }
  }

  lemma RemoveRefines(rs: seq<Req>, m: map<string, string>, name: string)
    requires Lists(rs, m)
    ensures Lists(Without(rs, name), m - {name})
  {
    WithoutMembers(rs, name);
    WithoutValid(rs, name);
    forall n | n in m - {name}
      ensures Has(Without(rs, name), n)
    {
      var i :| 0 <= i < |rs| && rs[i].name == n;
      assert rs[i] in Without(rs, name);
    }
  }

  lemma HasIsMember(rs: seq<Req>, m: map<string, string>, name: string)
    requires Lists(rs, m)
    ensures Has(rs, name) <==> name in m
  {
    if i :| 0 <= i < |rs| && rs[i].name == name {
      assert rs[i] in rs;
    }
  }

  lemma OpRefines(rs: seq<Req>, m: map<string, string>, o: Op) returns (rs': seq<Req>)
    requires Lists(rs, m) && ValidOp(o)
    ensures Invoke(Text(rs), o) == Text(rs') && Lists(rs', OpOnMap(m, o))
  {
    HasIsMember(rs, m, o.name);
    hide Has, Install, Remove, ValidReq;
    rs' := rs;
    if o.DoInstall? {
      InstallIs(rs, o.name, o.ver);
      if o.name !in m {
        InstallRefines(rs, m, Req(o.name, o.ver));
        rs' := rs + [Req(o.name, o.ver)];
      }
    } else {
      RemoveIs(rs, o.name);
      if o.name in m {
        RemoveRefines(rs, m, o.name);
        rs' := Without(rs, o.name);
      } else {
        assert m - {o.name} == m;
      }
    }
  }

  /** After any sequence of invocations on a new environment the file is the text of a list of
      packages with distinct names that is exactly the map. */
  lemma {:induction false} FileRefinesMap(ops: seq<Op>) returns (rs: seq<Req>)
    requires forall i :: 0 <= i < |ops| ==> ValidOp(ops[i])
    ensures InvokeAll(ops) == Text(rs) && Lists(rs, Packages(ops)) && ShortLines(InvokeAll(ops))
    decreases |ops|
  {
    if ops == [] {
      rs := [];
    } else {
      var n := |ops| - 1;
      var before := FileRefinesMap(ops[..n]);
      rs := OpRefines(before, Packages(ops[..n]), ops[n]);
    }
    ShortText(rs);
  }

  // ---------------------------------------------------------------- the code

  /** A file being read. */
  class Reader {
    const text: string
    var pos: nat

    constructor (text: string)
      ensures this.text == text && pos == 0
    {
      this.text := text;
      pos := 0;
    }

    /** read_line into buf: byte by byte, up to a newline or `count` bytes. */
    method ReadLine(buf: array<char>, count: nat) returns (len: nat)
      requires pos <= |text| && 0 < count <= buf.Length
      modifies this, buf
      ensures len == LineLength(text[old(pos)..], count) && pos == old(pos) + len <= |text|
      ensures buf[..len] == text[old(pos)..pos]
    {
      len := 0;
      while len < count
        invariant pos == old(pos) + len <= |text| && len <= count
        invariant buf[..len] == text[old(pos)..pos]
        invariant LineLength(text[old(pos)..], count) == len + LineLength(text[pos..], count - len)
      {
        if pos == |text| {
          return;
        }
        buf[len] := text[pos];
        assert text[pos..][1..] == text[pos + 1..];
        pos := pos + 1;
        len := len + 1;
        if buf[len - 1] == '\n' {
          return;
        }
      }
    }
  }

  /** A file open for appending. */
  class Appender {
    var text: string

    constructor (text: string)
      ensures this.text == text
    {
      this.text := text;
    }

    method Write(bytes: string)
      modifies this
      ensures text == old(text) + bytes
    {
      text := text + bytes;
    }

    /** write_line: four writes that together leave one line more, and nothing else, in the file. */
    method WriteLine(name: string, ver: string)
      modifies this
      ensures text == old(text) + name + " " + ver + "\n"
    {
      Write(name);
      Write(" ");
      Write(ver);
      Write("\n");
    }
  }

  /** install_pkg for one environment: scan, then append. */
  method InstallPkg(text: string, name: string, ver: string) returns (r: Outcome)
    ensures r == Install(text, name, ver)
    ensures r.Done? ==> r.text == text + name + " " + ver + "\n"
  {
    if name == "" {
      return Failed(EmptyName);
    }
    if ver == "" {
      return Failed(EmptyVersion);
    }
    var f := new Reader(text);
    var buf := new char[MAX_N];
    assert text[0..] == text;
    while true
      invariant f.text == text && f.pos <= |text| && fresh(f) && fresh(buf)
      invariant Scan(text, name) == Scan(text[f.pos..], name)
      decreases |text| - f.pos
    {
      hide NameIn, LineLength, Line;
      ghost var left := text[f.pos..];
      var read := f.ReadLine(buf, MAX_N);
      if read == 0 {
        assert left == [];
        break;
      }
      var line := buf[..read - 1];
      assert line == buf[..read][..read - 1] == left[..read - 1] && left[read..] == text[f.pos..];
      var found := NameIn(line);
      if found.None? {
        return Failed(BadLine);
      }
      if found.value == name {
        return Failed(AlreadyInstalled);
      }
    }
    var out := new Appender(text);
    out.WriteLine(name, ver);
    assert text + name + " " + ver + "\n" == text + Line(Req(name, ver));
    return Done(out.text);
  }

  /** What the loop of remove_pkg has copied, put in front of what it will still keep. */
  ghost function Plus(entire: string, found: bool, rest: Kept): Kept {
    if rest.Bad? then Bad else Kept(entire + rest.text, found || rest.found)
  }

  lemma PlusLine(entire: string, found: bool, line: string, drop: bool, rest: Kept)
    ensures Plus(entire, found, AddLine(line, drop, rest))
            == if drop then Plus(entire, true, rest) else Plus(entire + line, found, rest)
  {
    if rest.Kept? {
      assert entire + (line + rest.text) == entire + line + rest.text;
    }
  }

  /** remove_pkg for one environment: the other lines are copied into entire_file. */
  method RemovePkg(text: string, name: string) returns (r: Outcome)
    requires ShortLines(text)
    ensures r == Remove(text, name)
  {
    var f := new Reader(text);
    var buf := new char[MAX_N];
    var entire, found := "", false;
    assert text[0..] == text;
    while true
      invariant f.text == text && f.pos <= |text| && fresh(f) && fresh(buf)
      invariant Keep(text, name) == Plus(entire, found, Keep(text[f.pos..], name))
      decreases |text| - f.pos
    {
      hide Plus, AddLine;
      ghost var left := text[f.pos..];
      ghost var before := entire;
      var read := f.ReadLine(buf, MAX_N);
      if read == 0 {
        assert left == [];
        break;
      }
      var line := buf[..read];
      assert line == left[..read] && left[read..] == text[f.pos..];
      var x := NameIn(line);
      if x.None? {
        return Failed(BadLine);
      }
      PlusLine(entire, found, line, x.value == name, Keep(left[read..], name));
      if x.value != name {
        entire := CopyLine(entire, line);
      } else {
        found := true;
      }
    }
    if !found {
      return Failed(NotInstalled);
    }
    return Done(entire);
  }

  /** The copying loops: name, a space, the rest of the line. */
  method CopyLine(entire: string, line: string) returns (longer: string)
    requires NameIn(line).Some?
    ensures longer == entire + line
  {
    var where := FirstSpace(line);
    longer := entire;
    for j := 0 to where
      invariant longer == entire + line[..j]
    {
      longer := longer + [line[j]];
    }
    longer := longer + " ";
    for j := where + 1 to |line|
      invariant longer == entire + line[..j]
    {
      longer := longer + [line[j]];
    }
    assert line[..|line|] == line;
  }
}
