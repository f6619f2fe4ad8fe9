/** A file is cut into n chunks and every child toggles the case of every other letter of its
    own chunk, starting afresh. */
module SplitToggle {
  import opened Common

  predicate IsLetter(c: char) {
    'A' <= c <= 'Z' || 'a' <= c <= 'z'
  }

  /** The other case of a letter: 32 up or down in ASCII. */
  function Flip(c: char): char
    requires IsLetter(c)
  {
    if c <= 'Z' then (c as int + 32) as char else (c as int - 32) as char
  }

  /** Every second letter flipped; the first one exactly when `change` is set. */
  function Toggle(s: seq<char>, change: bool): (t: seq<char>)
    ensures |t| == |s|
  {
    if s == [] then [] else [Out(s[0], change)] + Toggle(s[1..], NextPhase(s[0], change))
  }

  function Out(c: char, change: bool): char {
    if IsLetter(c) && change then Flip(c) else c
  }

  function NextPhase(c: char, change: bool): bool {
    if IsLetter(c) then !change else change
  }

  /** Letter number k of the alphabet, in either case. */
  lemma FlipKeepsLetter(k: nat)
    requires k < 26
    ensures Flip('a' + k as char) == 'A' + k as char && Flip('A' + k as char) == 'a' + k as char
  {
  }

  lemma ToggleCons(c: char, rest: seq<char>, change: bool)
    ensures Toggle([c] + rest, change) == [Out(c, change)] + Toggle(rest, NextPhase(c, change))
  {
    assert ([c] + rest)[1..] == rest;
  }

  function Letters(s: seq<char>): nat {
    if s == [] then 0 else (if IsLetter(s[0]) then 1 else 0) + Letters(s[1..])
  }

  predicate Even(n: nat) {
    n % 2 == 0
  }

  /** The value of `change` after a text, if it was `change` before. */
  function ChangeAfter(s: seq<char>, change: bool): bool {
    if s == [] then change else ChangeAfter(s[1..], NextPhase(s[0], change))
  }

  lemma {:induction false} ChangeIsParity(s: seq<char>, change: bool)
    ensures ChangeAfter(s, change) == if Even(Letters(s)) then change else !change
  {
    if s != [] {
      ChangeIsParity(s[1..], NextPhase(s[0], change));
    }
  }

  lemma {:induction false} ToggleTwice(s: seq<char>, change: bool)
    ensures Toggle(Toggle(s, change), change) == s
  {
    if s != [] {
      ToggleTwice(s[1..], NextPhase(s[0], change));
    }
  }

  /** The toggled text place by place: a letter changes its case exactly when the number of
      letters before it has the right parity. */
  lemma {:induction false} ToggleAt(s: seq<char>, change: bool, i: nat)
    requires i < |s|
    ensures Toggle(s, change)[i]
            == if IsLetter(s[i]) && Even(Letters(s[..i])) == change then Flip(s[i]) else s[i]
  {
    if i > 0 {
      ToggleAt(s[1..], NextPhase(s[0], change), i - 1);
      assert s[..i][0] == s[0] && s[..i][1..] == s[1..][..i - 1];
    }
  }

  lemma {:induction false} LettersConcat(a: seq<char>, b: seq<char>)
    ensures Letters(a + b) == Letters(a) + Letters(b)
  {
    if a == [] {
      assert a + b == b;
    } else {
      LettersConcat(a[1..], b);
      assert (a + b)[1..] == a[1..] + b;
    }
  }

  lemma {:induction false} ToggleConcat(a: seq<char>, b: seq<char>, change: bool)
    ensures Toggle(a + b, change) == Toggle(a, change) + Toggle(b, ChangeAfter(a, change))
  {
    if a == [] {
      assert a + b == b;
    } else {
      var next := NextPhase(a[0], change);
      ToggleConcat(a[1..], b, next);
      ToggleCons(a[0], a[1..], change);
      ToggleCons(a[0], a[1..] + b, change);
      assert a == [a[0]] + a[1..] && a + b == [a[0]] + (a[1..] + b);
      hide Toggle, Out, NextPhase, ChangeAfter;
      assert ChangeAfter(a, change) == ChangeAfter(a[1..], next) by { ChangeCons(a, change); }
    }
  }

  lemma ChangeCons(a: seq<char>, change: bool)
    requires a != []
    ensures ChangeAfter(a, change) == ChangeAfter(a[1..], NextPhase(a[0], change))
  {
  }

  /** Starting with the wrong phase is harmless exactly on texts without letters. */
  lemma {:induction false} TogglePhase(s: seq<char>)
    ensures Toggle(s, true) == Toggle(s, false) <==> Letters(s) == 0
  {
    if s != [] {
      TogglePhase(s[1..]);
      if IsLetter(s[0]) {
        assert Toggle(s, true)[0] != Toggle(s, false)[0];
      } else {
        assert Toggle(s, true)[1..] == Toggle(s[1..], true);
        assert Toggle(s, false)[1..] == Toggle(s[1..], false);
      }
    }
  }

  // ---------------------------------------------------------------- cutting the file

  function PerChild(size: nat, n: nat): nat
    requires n > 0
  {
    (size + n - 1) / n
  }

  lemma PerChildEnough(size: nat, n: nat)
    requires n > 0
    ensures size <= n * PerChild(size, n)
  {
    var q := PerChild(size, n);
    assert size + n - 1 == n * q + (size + n - 1) % n;
  }

  /** The chunk size is the quotient rounded up: n chunks are enough, and one byte less a chunk
      would not be. */
  lemma PerChildRoundsUp(size: nat, n: nat)
    requires n > 0
    ensures size <= n * PerChild(size, n)
    ensures size > 0 ==> n * PerChild(size, n) < size + n
  {
    PerChildEnough(size, n);
    var q := PerChild(size, n);
    assert size + n - 1 == n * q + (size + n - 1) % n;
  }

  /** Each chunk toggled on its own, from the start phase. */
  function ToggleAll(chunks: seq<seq<char>>): (t: seq<seq<char>>)
    ensures |t| == |chunks| && forall i :: 0 <= i < |chunks| ==> t[i] == Toggle(chunks[i], true)
  {
    seq(|chunks|, i requires 0 <= i < |chunks| => Toggle(chunks[i], true))
  }

  /** Every chunk that has a letter starts after an even number of letters. */
  ghost predicate InPhase(chunks: seq<seq<char>>) {
    forall i :: 0 <= i < |chunks| ==> Letters(chunks[i]) == 0 || Even(Letters(Flatten(chunks[..i])))
  }

  lemma LastChunk(chunks: seq<seq<char>>)
    requires chunks != []
    ensures var n := |chunks| - 1;
            Flatten(chunks) == Flatten(chunks[..n]) + chunks[n]
            && Flatten(ToggleAll(chunks)) == Flatten(ToggleAll(chunks[..n])) + Toggle(chunks[n], true)
  {
    FlattenLast(chunks);
    FlattenLast(ToggleAll(chunks));
    assert ToggleAll(chunks)[..|chunks| - 1] == ToggleAll(chunks[..|chunks| - 1]);
  }

  lemma {:induction false} ToggledLength(chunks: seq<seq<char>>)
    ensures |Flatten(ToggleAll(chunks))| == |Flatten(chunks)|
  {
    if chunks != [] {
      var n := |chunks| - 1;
      ToggledLength(chunks[..n]);
      LastChunk(chunks);
    }
  }

  lemma SplitEquality<T>(a: seq<T>, b: seq<T>, c: seq<T>, d: seq<T>)
    requires |a| == |c|
    ensures a + b == c + d <==> a == c && b == d
  {
    if a + b == c + d {
      assert a == (a + b)[..|a|] == (c + d)[..|a|] == c;
      assert b == (a + b)[|a|..] == (c + d)[|a|..] == d;
    }
  }

  /** The outputs of the children, put together, are the toggled file exactly when every chunk
      that has a letter starts after an even number of letters of the file. */
  lemma {:induction false} ToggledTogether(chunks: seq<seq<char>>)
    ensures Flatten(ToggleAll(chunks)) == Toggle(Flatten(chunks), true) <==> InPhase(chunks)
  {
    if chunks != [] {
      hide Toggle, InPhase, Letters, Flatten, ToggleAll;
      var n := |chunks| - 1;
      ToggledTogether(chunks[..n]);
      ToggledLength(chunks[..n]);
      LastChunk(chunks);
      OneMoreChunk(Flatten(ToggleAll(chunks[..n])), Flatten(chunks[..n]), chunks[n]);
      InPhaseStep(chunks);
    } else {
      assert Flatten(chunks) == [] && ToggleAll(chunks) == [];
    }
  }

  /** A chunk toggled on its own fits behind what came before exactly in these cases. */
  lemma OneMoreChunk(done: seq<char>, before: seq<char>, chunk: seq<char>)
    requires |done| == |before|
    ensures done + Toggle(chunk, true) == Toggle(before + chunk, true)
            <==> done == Toggle(before, true) && (Letters(chunk) == 0 || Even(Letters(before)))
  {
    hide Toggle, Letters, ChangeAfter;
    ToggleConcat(before, chunk, true);
    SplitEquality(done, Toggle(chunk, true), Toggle(before, true), Toggle(chunk, ChangeAfter(before, true)));
    TogglePhase(chunk);
    ChangeIsParity(before, true);
  }

  lemma InPhaseStep(chunks: seq<seq<char>>)
    requires chunks != []
    ensures var n := |chunks| - 1;
            InPhase(chunks) <==>
              InPhase(chunks[..n]) && (Letters(chunks[n]) == 0 || Even(Letters(Flatten(chunks[..n]))))
  {
    var n := |chunks| - 1;
    assert forall i :: 0 <= i < n ==> chunks[..n][..i] == chunks[..i];
    assert forall i :: 0 <= i < n ==> chunks[..n][i] == chunks[i];
  }

  /** In particular when every chunk but the last has an even number of letters. */
  lemma EvenChunksInPhase(chunks: seq<seq<char>>)
    requires forall i :: 0 <= i < |chunks| - 1 ==> Even(Letters(chunks[i]))
    ensures Flatten(ToggleAll(chunks)) == Toggle(Flatten(chunks), true)
  {
    forall i | 0 <= i < |chunks|
      ensures Even(Letters(Flatten(chunks[..i])))
    {
      EvenPrefix(chunks, i);
    }
    ToggledTogether(chunks);
  }

  lemma {:induction false} EvenPrefix(chunks: seq<seq<char>>, i: nat)
    requires i < |chunks| && forall k :: 0 <= k < |chunks| - 1 ==> Even(Letters(chunks[k]))
    ensures Even(Letters(Flatten(chunks[..i])))
  {
    if i > 0 {
      EvenPrefix(chunks, i - 1);
      assert chunks[..i][..i - 1] == chunks[..i - 1];
      FlattenLast(chunks[..i]);
      LettersConcat(Flatten(chunks[..i - 1]), chunks[i - 1]);
    }
  }

  // ---------------------------------------------------------------- the program's own cut

  /** Where chunk i of n starts: i times the chunk size, or the end of the file. */
  function CutPoint(size: nat, n: nat, i: nat): (p: nat)
    requires n > 0
    ensures p <= size
  {
    if i * PerChild(size, n) <= size then i * PerChild(size, n) else size
  }

  lemma CutPointsGrow(size: nat, n: nat, i: nat)
    requires n > 0
    ensures CutPoint(size, n, 0) == 0 && CutPoint(size, n, n) == size
    ensures CutPoint(size, n, i) <= CutPoint(size, n, i + 1) <= CutPoint(size, n, i) + PerChild(size, n)
    ensures CutPoint(size, n, i + 1) < size ==> CutPoint(size, n, i + 1) == CutPoint(size, n, i) + PerChild(size, n)
  {
    PerChildEnough(size, n);
    assert (i + 1) * PerChild(size, n) == i * PerChild(size, n) + PerChild(size, n);
  }

  function Piece(file: seq<char>, n: nat, i: nat): (chunk: seq<char>)
    requires n > 0
  {
    CutPointsGrow(|file|, n, i);
    file[CutPoint(|file|, n, i)..CutPoint(|file|, n, i + 1)]
  }

  /** The chunks that the children get. */
  function Cut(file: seq<char>, n: nat): (chunks: seq<seq<char>>)
    requires n > 0
    ensures |chunks| == n && forall i :: 0 <= i < n ==> chunks[i] == Piece(file, n, i)
  {
    seq(n, i requires 0 <= i < n => Piece(file, n, i))
  }

  lemma {:induction false} CutPrefix(file: seq<char>, n: nat, i: nat)
    requires i <= n && n > 0
    ensures Flatten(Cut(file, n)[..i]) == file[..CutPoint(|file|, n, i)]
  {
    CutPointsGrow(|file|, n, i);
    if i > 0 {
      CutPrefix(file, n, i - 1);
      CutPointsGrow(|file|, n, i - 1);
      hide CutPoint;
      FlattenLast(Cut(file, n)[..i]);
      assert Cut(file, n)[..i][..i - 1] == Cut(file, n)[..i - 1];
      assert Piece(file, n, i - 1) == file[CutPoint(|file|, n, i - 1)..CutPoint(|file|, n, i)];
    }
  }

  /** The pieces are the file, whatever its size and the number of children. */
  lemma CutIsFile(file: seq<char>, n: nat)
    requires n > 0
    ensures Flatten(Cut(file, n)) == file
    ensures forall i :: 0 <= i < n ==> |Cut(file, n)[i]| <= PerChild(|file|, n)
  {
    CutPrefix(file, n, n);
    CutPointsGrow(|file|, n, 0);
    assert Cut(file, n)[..n] == Cut(file, n) && file[..|file|] == file;
    forall i | 0 <= i < n
      ensures |Cut(file, n)[i]| <= PerChild(|file|, n)
    {
      CutPointsGrow(|file|, n, i);
    }
  }

  /** Chunk i of n has no letter, or an even number of letters comes before it in the file. */
  ghost predicate PieceInPhase(file: seq<char>, n: nat, i: nat)
    requires n > 0
  {
    Letters(Piece(file, n, i)) == 0 || Even(Letters(file[..CutPoint(|file|, n, i)]))
  }

  /** For which files and numbers of children the outputs make up the toggled file. */
  lemma OutputsMakeUpFile(file: seq<char>, n: nat)
    requires n > 0
    ensures Flatten(ToggleAll(Cut(file, n))) == Toggle(file, true)
            <==> forall i :: 0 <= i < n ==> PieceInPhase(file, n, i)
  {
    CutIsFile(file, n);
    ToggledTogether(Cut(file, n));
    hide Flatten, ToggleAll, Letters, Toggle;
    forall i | 0 <= i < n
      ensures PieceInPhase(file, n, i)
              <==> Letters(Cut(file, n)[i]) == 0 || Even(Letters(Flatten(Cut(file, n)[..i])))
    {
      CutPrefix(file, n, i);
    }
  }

  /** It can fail: two children turn "ab" into "A" and "B", but "ab" toggled is "Ab". */
  lemma TwoLettersFail()
    ensures Cut("ab", 2) == ["a", "b"] && ToggleAll(["a", "b"]) == ["A", "B"] && Toggle("ab", true) == "Ab"
    ensures Flatten(ToggleAll(Cut("ab", 2))) != Toggle("ab", true)
  {
    assert Cut("ab", 2) == ["a", "b"] by {
      assert PerChild(2, 2) == 1;
      assert Piece("ab", 2, 0) == "a" && Piece("ab", 2, 1) == "b";
    }
    assert Toggle("ab", true) == "Ab" by {
      assert "ab"[1..] == "b" && Toggle("b", false) == "b";
    }
    assert ToggleAll(["a", "b"]) == ["A", "B"] by {
      assert Toggle("a", true) == [Out('a', true)] + Toggle([], false) == "A";
      assert Toggle("b", true) == [Out('b', true)] + Toggle([], false) == "B";
    }
    hide Toggle, ToggleAll, Cut;
    FlattenLast(["A", "B"]);
    FlattenOne("A");
    assert ["A", "B"][..1] == ["A"];
    assert ("A" + "B")[1] == 'B' && "Ab"[1] == 'b';
  }

  // ---------------------------------------------------------------- the code

  /** The loop of create_children: n chunks, the last ones possibly shorter or empty. */
  method Split(file: seq<char>, n: nat) returns (chunks: seq<seq<char>>)
    requires n > 0
    ensures chunks == Cut(file, n)
  {
    var perChild := (|file| + n - 1) / n;
    var moved := 0;
    chunks := [];
    CutPointsGrow(|file|, n, 0);
    for i := 0 to n
      invariant moved == CutPoint(|file|, n, i) && |chunks| == i
      invariant forall k :: 0 <= k < i ==> chunks[k] == Piece(file, n, k)
    {
      CutPointsGrow(|file|, n, i);
      var size := if |file| - moved >= perChild then perChild else |file| - moved;
      chunks := chunks + [file[moved..moved + size]];
      moved := moved + size;
    }
  }

  lemma ToggleNext(s: seq<char>, i: nat, change: bool)
    requires i < |s|
    ensures Toggle(s[i..], change) == [Out(s[i], change)] + Toggle(s[i + 1..], NextPhase(s[i], change))
  {
    ToggleCons(s[i], s[i + 1..], change);
    assert s[i..] == [s[i]] + s[i + 1..];
  }

  /** The loop of child_work.  `interrupted(i)` says that SIGINT had arrived when byte i had
      been written; the child then stops with a prefix of its toggled chunk in the file. */
  method ChildWork(chunk: seq<char>, interrupted: nat -> bool) returns (written: seq<char>)
    ensures written <= Toggle(chunk, true)
    ensures |written| < |chunk| ==> |written| > 0 && interrupted(|written| - 1)
    ensures forall i :: 0 <= i < |written| - 1 ==> !interrupted(i)
  {
    written := [];
    var change := true;
    for i := 0 to |chunk|
      invariant |written| == i
      invariant Toggle(chunk, true) == written + Toggle(chunk[i..], change)
      invariant forall k :: 0 <= k < i ==> !interrupted(k)
    {
      var c := chunk[i];
      ghost var before := change;
      if 'A' <= c <= 'Z' {
        if change {
          c := (c as int + 32) as char;
        }
        change := !change;
      } else if 'a' <= c <= 'z' {
        if change {
          c := (c as int - 32) as char;
        }
        change := !change;
      }
      assert c == Out(chunk[i], before) && change == NextPhase(chunk[i], before);
      hide Out, NextPhase, Toggle;
      ToggleNext(chunk, i, before);
      Regroup(written, [c], Toggle(chunk[i + 1..], change));
      written := written + [c];
      if interrupted(i) {
        return;
      }
    }
  }
}
