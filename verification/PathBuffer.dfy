/** The letter counter: the main thread walks a directory and pushes every path into a circular
    buffer of owned strings; worker threads pop paths and count the bytes of the files.
    Any files, any buffer size, any number of workers, any interleaving of the critical
    sections; `early` runs are those where workers start before the walk is over, which the
    buffer allows although the program never does it. */
module PathBuffer {
  import opened Common

  // ---------------------------------------------------------------- the circular buffer

  /** One element of buf[]: NULL, or the string allocated by push number `id`. */
  datatype Slot = Null | Path(id: nat)

  /** circ_buf, with the arguments of every call of free() in order. */
  datatype Buffer = Buffer(slots: seq<Slot>, head: nat, tail: nat, len: nat, freed: seq<Slot>)

  function AfterPush(b: Buffer, s: Slot): Buffer
    requires b.head < |b.slots|
  {
    Buffer(b.slots[b.head := s], if b.head + 1 == |b.slots| then 0 else b.head + 1, b.tail, b.len + 1,
           b.freed + [b.slots[b.head]])
  }

  function AfterPop(b: Buffer): Buffer
    requires b.tail < |b.slots| && b.len > 0
  {
    b.(len := b.len - 1, tail := if b.tail + 1 == |b.slots| then 0 else b.tail + 1)
  }

  /** circ_buf_destroy frees every slot. */
  function Destroy(b: Buffer): seq<Slot> {
    b.freed + b.slots
  }

  /** The string of push number k, or NULL for the slots that were never written. */
  function Pushed(k: int): Slot {
    if k < 0 then Null else Path(k)
  }

  /** The slot j places round the buffer from head. */
  function At(b: Buffer, j: nat): Slot
    requires b.head < |b.slots| && j < |b.slots|
  {
    b.slots[Wrap(b.head + j, |b.slots|)]
  }

  /** From head on round the buffer lie the last |slots| pushes, oldest first; what was pushed
      before those has been freed, in push order. */
  ghost predicate BufferOk(b: Buffer, pushed: nat) {
    && b.head < |b.slots| && b.len <= |b.slots| && b.len <= pushed
    && b.tail == Wrap(b.head + |b.slots| - b.len, |b.slots|)
    && (forall j :: 0 <= j < |b.slots| ==> At(b, j) == Pushed(pushed - |b.slots| + j))
    && |b.freed| == pushed
    && (forall j :: 0 <= j < pushed ==> b.freed[j] == Pushed(j - |b.slots|))
  }

  lemma PushOk(b: Buffer, pushed: nat)
    requires BufferOk(b, pushed) && b.len < |b.slots|
    ensures BufferOk(AfterPush(b, Path(pushed)), pushed + 1)
  {
    var c, n := AfterPush(b, Path(pushed)), |b.slots|;
    forall j | 0 <= j < n
      ensures At(c, j) == Pushed(pushed + 1 - n + j)
    {
      if j < n - 1 {
        assert At(c, j) == At(b, j + 1);
      } else {
        assert At(c, j) == Path(pushed);
      }
    }
    assert At(b, 0) == b.slots[b.head];
  }

  /** A pop takes the oldest path still queued, and that string has not been freed. */
  lemma PopOk(b: Buffer, pushed: nat)
    requires BufferOk(b, pushed) && b.len > 0
    ensures b.tail < |b.slots| && b.slots[b.tail] == Path(pushed - b.len) && BufferOk(AfterPop(b), pushed)
    ensures b.slots[b.tail] !in b.freed
  {
    if b.len < |b.slots| {
      assert At(b, |b.slots| - b.len) == b.slots[b.tail];
    } else {
      assert At(b, 0) == b.slots[b.tail];
    }
    assert forall j :: 0 <= j < |b.slots| ==> At(AfterPop(b), j) == At(b, j);
  }

  /** A string is freed by the push that comes |slots| pushes after its own: no string still
      queued is freed, and one already popped stays valid exactly until then. */
  lemma FreedWhen(b: Buffer, pushed: nat, k: nat)
    requires BufferOk(b, pushed)
    ensures Path(k) in b.freed <==> k + |b.slots| < pushed
    ensures pushed - b.len <= k < pushed ==> Path(k) !in b.freed
  {
    if k + |b.slots| < pushed {
      assert b.freed[k + |b.slots|] == Path(k);
    }
  }

  function Times(s: seq<Slot>, x: Slot): nat {
    if s == [] then 0 else (if s[0] == x then 1 else 0) + Times(s[1..], x)
  }

  lemma {:induction false} TimesConcat(a: seq<Slot>, b: seq<Slot>, x: Slot)
    ensures Times(a + b, x) == Times(a, x) + Times(b, x)
  {
    if a == [] {
      assert a + b == b;
    } else {
      TimesConcat(a[1..], b, x);
      assert (a + b)[1..] == a[1..] + b;
    }
  }

  lemma {:induction false} TimesAbsent(s: seq<Slot>, x: Slot)
    requires x !in s
    ensures Times(s, x) == 0
  {
    if s != [] {
      TimesAbsent(s[1..], x);
    }
  }

  lemma {:induction false} TimesOnce(s: seq<Slot>, x: Slot, p: nat)
    requires p < |s| && s[p] == x
    requires forall j :: 0 <= j < |s| && j != p ==> s[j] != x
    ensures Times(s, x) == 1
  {
    if p == 0 {
      assert forall j :: 0 <= j < |s[1..]| ==> s[1..][j] == s[j + 1];
      TimesAbsent(s[1..], x);
    } else {
      TimesOnce(s[1..], x, p - 1);
    }
  }

  /** Once the buffer is destroyed every allocated string has been freed exactly once, and
      nothing else has. */
  lemma EachFreedOnce(b: Buffer, pushed: nat, k: nat)
    requires BufferOk(b, pushed)
    ensures Times(Destroy(b), Path(k)) == if k < pushed then 1 else 0
  {
    var n := |b.slots|;
    TimesConcat(b.freed, b.slots, Path(k));
    SlotsHold(b, pushed);
    if k + n < pushed {
      TimesOnce(b.freed, Path(k), k + n);
      TimesAbsent(b.slots, Path(k));
    } else {
      TimesAbsent(b.freed, Path(k));
      if k < pushed {
        TimesOnce(b.slots, Path(k), Wrap(b.head + (k - (pushed - n)), n));
      } else {
        TimesAbsent(b.slots, Path(k));
      }
    }
  }

  /** Slot i seen from index 0 instead of from head. */
  lemma SlotsHold(b: Buffer, pushed: nat)
    requires BufferOk(b, pushed)
    ensures forall i :: 0 <= i < |b.slots| ==>
              b.slots[i] == Pushed(pushed - |b.slots| + if i >= b.head then i - b.head else i + |b.slots| - b.head)
  {
    forall i | 0 <= i < |b.slots|
      ensures b.slots[i] == Pushed(pushed - |b.slots| + if i >= b.head then i - b.head else i + |b.slots| - b.head)
    {
      var j := if i >= b.head then i - b.head else i + |b.slots| - b.head;
      assert At(b, j) == b.slots[i];
    }
  }

  // ---------------------------------------------------------------- threads

  /** A byte below 128: the index freq[(int)*c] is in range. */
  type Ascii = b: nat | b < 128

  datatype Config = Config(files: seq<seq<Ascii>>, size: nat, workers: nat, early: bool)

  /** Where a worker is: at `while (cb->len > 0)`, inside circ_buf_pop, before reading the byte
      at `pos`, before counting it, returned, returned because of the quit flag, or using NULL
      as a path. */
  datatype Worker =
    | Looking
    | Popping
    | Reading(file: nat, pos: nat)
    | Counting(file: nat, pos: nat)
    | Returned
    | Quit(file: nat, pos: nat)
    | Crashed

  /** `ready`: the pusher has seen a free slot and allocated its copy of the path. */
  datatype State = State(
    buf: Buffer,
    pushed: nat,
    ready: bool,
    workers: seq<Worker>,
    popped: seq<Slot>,
    freq: seq<nat>,
    quit: bool)

  datatype Step =
    | SeeRoom
    | DoPush
    | Look(w: nat)
    | DoPop(w: nat)
    | Fetch(w: nat)
    | Tally(w: nat)
    | Interrupt

  ghost predicate Init(c: Config, s: State) {
    && c.size > 0
    && |s.buf.slots| == c.size && (forall i :: 0 <= i < c.size ==> s.buf.slots[i] == Null)
    && s.buf == Buffer(s.buf.slots, 0, 0, 0, [])
    && s.pushed == 0 && !s.ready && s.popped == [] && !s.quit
    && |s.workers| == c.workers && (forall i :: 0 <= i < c.workers ==> s.workers[i] == Looking)
    && |s.freq| == 128 && (forall b :: 0 <= b < 128 ==> s.freq[b] == 0)
  }

  predicate InFile(c: Config, file: nat, pos: nat) {
    file < |c.files| && pos <= |c.files[file]|
  }

  predicate Enabled(c: Config, s: State, e: Step) {
    match e
    case SeeRoom => s.pushed < |c.files| && !s.ready && s.buf.len != |s.buf.slots|
    case DoPush => s.ready && s.buf.head < |s.buf.slots|
    case Look(w) => w < |s.workers| && s.workers[w].Looking? && (c.early || s.pushed == |c.files|)
    case DoPop(w) => w < |s.workers| && s.workers[w].Popping? && s.buf.len > 0 && s.buf.tail < |s.buf.slots|
    case Fetch(w) => w < |s.workers| && s.workers[w].Reading? && InFile(c, s.workers[w].file, s.workers[w].pos)
    case Tally(w) =>
      && w < |s.workers| && s.workers[w].Counting? && InFile(c, s.workers[w].file, s.workers[w].pos + 1)
      && |s.freq| == 128
    case Interrupt => !s.quit
  }

  function Bump(freq: seq<nat>, b: Ascii): seq<nat>
    requires |freq| == 128
  {
    freq[b := freq[b] + 1]
  }

  function Apply(c: Config, s: State, e: Step): State
    requires Enabled(c, s, e)
  {
    match e
    case SeeRoom => s.(ready := true)
    case DoPush => s.(buf := AfterPush(s.buf, Path(s.pushed)), pushed := s.pushed + 1, ready := false)
    case Look(w) => s.(workers := s.workers[w := if s.buf.len > 0 then Popping else Returned])
    case DoPop(w) =>
      var slot := s.buf.slots[s.buf.tail];
      s.(buf := AfterPop(s.buf), popped := s.popped + [slot],
         workers := s.workers[w := if slot.Null? then Crashed else Reading(slot.id, 0)])
    case Fetch(w) =>
      var Reading(file, pos) := s.workers[w];
      s.(workers := s.workers[w := if pos == |c.files[file]| then Looking
                                   else if s.quit then Quit(file, pos)
                                   else Counting(file, pos)])
    case Tally(w) =>
      var Counting(file, pos) := s.workers[w];
      s.(freq := Bump(s.freq, c.files[file][pos]), workers := s.workers[w := Reading(file, pos + 1)])
    case Interrupt => s.(quit := true)
  }

  ghost predicate Next(c: Config, s: State, t: State) {
    exists e :: Enabled(c, s, e) && t == Apply(c, s, e)
  }

  ghost predicate IsRun(c: Config, run: seq<State>) {
    |run| > 0 && Init(c, run[0]) && forall i :: 0 < i < |run| ==> Next(c, run[i - 1], run[i])
  }

  // ---------------------------------------------------------------- sums over the workers

  function Sum(xs: seq<nat>): nat {
    if xs == [] then 0 else xs[0] + Sum(xs[1..])
  }

  lemma {:induction false} SumUpdate(xs: seq<nat>, i: nat, x: nat)
    requires i < |xs|
    ensures Sum(xs[i := x]) + xs[i] == Sum(xs) + x
  {
    if i > 0 {
      SumUpdate(xs[1..], i - 1, x);
      assert xs[i := x][1..] == xs[1..][i - 1 := x];
    } else {
      assert xs[0 := x][1..] == xs[1..];
    }
  }

  lemma {:induction false} SumSame(xs: seq<nat>, v: nat)
    requires forall i :: 0 <= i < |xs| ==> xs[i] == v
    ensures Sum(xs) == |xs| * v
  {
    if xs != [] {
      SumSame(xs[1..], v);
    }
  }

  /** How many bytes equal to b a text has. */
  function Count(text: seq<Ascii>, b: Ascii): nat {
    if text == [] then 0 else (if text[0] == b then 1 else 0) + Count(text[1..], b)
  }

  /** How many bytes equal to b the files from number k on have. */
  function CountFrom(files: seq<seq<Ascii>>, k: nat, b: Ascii): nat
    decreases |files| - k
  {
    if k >= |files| then 0 else Count(files[k], b) + CountFrom(files, k + 1, b)
  }

  /** How many of those a worker has popped but not counted. */
  function Rest(c: Config, b: Ascii, w: Worker): nat {
    match w
    case Reading(file, pos) => if InFile(c, file, pos) then Count(c.files[file][pos..], b) else 0
    case Counting(file, pos) => if InFile(c, file, pos) then Count(c.files[file][pos..], b) else 0
    case Quit(file, pos) => if InFile(c, file, pos) then Count(c.files[file][pos..], b) else 0
    case _ => 0
  }

  function Rests(c: Config, b: Ascii, ws: seq<Worker>): seq<nat> {
    seq(|ws|, i requires 0 <= i < |ws| => Rest(c, b, ws[i]))
  }

  lemma RestsUpdate(c: Config, b: Ascii, ws: seq<Worker>, i: nat, w: Worker)
    requires i < |ws|
    ensures Sum(Rests(c, b, ws[i := w])) + Rest(c, b, ws[i]) == Sum(Rests(c, b, ws)) + Rest(c, b, w)
  {
    SumUpdate(Rests(c, b, ws), i, Rest(c, b, w));
    assert Rests(c, b, ws[i := w]) == Rests(c, b, ws)[i := Rest(c, b, w)];
  }

  // ---------------------------------------------------------------- invariant

  ghost predicate WorkerOk(c: Config, w: Worker) {
    match w
    case Reading(file, pos) => InFile(c, file, pos)
    case Counting(file, pos) => InFile(c, file, pos + 1)
    case Quit(file, pos) => InFile(c, file, pos + 1)
    case Crashed => false
    case _ => true
  }

  ghost predicate PoppedInOrder(s: State) {
    |s.popped| == s.pushed - s.buf.len && forall k :: 0 <= k < |s.popped| ==> s.popped[k] == Path(k)
  }

  /** Every byte is in a file not popped yet, in the unread part of a worker's file, or counted. */
  ghost predicate Conserved(c: Config, s: State, b: Ascii) {
    |s.freq| == 128
    && s.freq[b] + Sum(Rests(c, b, s.workers)) + CountFrom(c.files, |s.popped|, b) == CountFrom(c.files, 0, b)
  }

  ghost predicate AllConserved(c: Config, s: State) {
    forall b: Ascii :: Conserved(c, s, b)
  }

  /** Unless the run is an early one, no worker has done anything before the walk is over, and a
      worker that has returned left an empty buffer. */
  ghost predicate Waits(c: Config, s: State) {
    !c.early ==>
      && s.pushed <= c.size
      && (s.pushed < |c.files| ==> s.popped == [] && forall w :: 0 <= w < |s.workers| ==> s.workers[w].Looking?)
      && (forall w :: 0 <= w < |s.workers| && s.workers[w].Returned? ==> s.buf.len == 0)
  }

  ghost predicate Shape(c: Config, s: State) {
    && |s.buf.slots| == c.size && BufferOk(s.buf, s.pushed) && s.pushed <= |c.files|
    && (s.ready ==> s.buf.len < c.size && s.pushed < |c.files|)
    && |s.workers| == c.workers && |s.freq| == 128
    && (forall w :: 0 <= w < c.workers ==> WorkerOk(c, s.workers[w]))
    && PoppedInOrder(s)
    && Waits(c, s)
  }

  lemma StepShape(c: Config, s: State, e: Step)
    requires Shape(c, s) && Enabled(c, s, e)
    ensures Shape(c, Apply(c, s, e))
  {
    if e.DoPush? {
      PushOk(s.buf, s.pushed);
    } else if e.DoPop? {
      PopOk(s.buf, s.pushed);
    }
    hide BufferOk;
  }

  lemma PopConserved(c: Config, s: State, w: nat, b: Ascii)
    requires Shape(c, s) && Enabled(c, s, DoPop(w)) && Conserved(c, s, b)
    ensures Conserved(c, Apply(c, s, DoPop(w)), b)
  {
    PopOk(s.buf, s.pushed);
    hide BufferOk, Sum, Rests;
    var k := |s.popped|;
    RestsUpdate(c, b, s.workers, w, Reading(k, 0));
    assert c.files[k][0..] == c.files[k];
  }

  lemma TallyConserved(c: Config, s: State, w: nat, b: Ascii)
    requires Shape(c, s) && Enabled(c, s, Tally(w)) && Conserved(c, s, b)
    ensures Conserved(c, Apply(c, s, Tally(w)), b)
  {
    hide BufferOk, Sum, Rests, CountFrom;
    var Counting(file, pos) := s.workers[w];
    RestsUpdate(c, b, s.workers, w, Reading(file, pos + 1));
    assert c.files[file][pos..][1..] == c.files[file][pos + 1..];
  }

  lemma StepConserved(c: Config, s: State, e: Step, b: Ascii)
    requires Shape(c, s) && Enabled(c, s, e) && Conserved(c, s, b)
    ensures Conserved(c, Apply(c, s, e), b)
  {
    if e.DoPop? {
      PopConserved(c, s, e.w, b);
    } else if e.Tally? {
      TallyConserved(c, s, e.w, b);
    }
    hide BufferOk, Sum, Rests, WorkerOk, CountFrom, AfterPush, AfterPop;
    match e {
      case SeeRoom =>
      case DoPush =>
      case Interrupt =>
      case Look(w) => RestsUpdate(c, b, s.workers, w, Apply(c, s, e).workers[w]);
      case DoPop(w) =>
      case Fetch(w) => RestsUpdate(c, b, s.workers, w, Apply(c, s, e).workers[w]);
      case Tally(w) =>
    }
  }

  // ---------------------------------------------------------------- termination

  /** How many more steps a worker can take before it needs another file, and one. */
  function Weight(c: Config, w: Worker): nat {
    match w
    case Looking => 2
    case Popping => 1
    case Reading(file, pos) => if InFile(c, file, pos) then 2 * (|c.files[file]| - pos) + 3 else 0
    case Counting(file, pos) => if InFile(c, file, pos) then 2 * (|c.files[file]| - pos) + 2 else 0
    case _ => 0
  }

  function Weights(c: Config, ws: seq<Worker>): seq<nat> {
    seq(|ws|, i requires 0 <= i < |ws| => Weight(c, ws[i]))
  }

  lemma WeightsUpdate(c: Config, ws: seq<Worker>, i: nat, w: Worker)
    requires i < |ws|
    ensures Sum(Weights(c, ws[i := w])) + Weight(c, ws[i]) == Sum(Weights(c, ws)) + Weight(c, w)
  {
    SumUpdate(Weights(c, ws), i, Weight(c, w));
    assert Weights(c, ws[i := w]) == Weights(c, ws)[i := Weight(c, w)];
  }

  /** The steps the files from number k on are still good for. */
  function WorkFrom(files: seq<seq<Ascii>>, k: nat): nat
    decreases |files| - k
  {
    if k >= |files| then 0 else 2 * |files[k]| + 3 + WorkFrom(files, k + 1)
  }

  function Work(c: Config, s: State): int {
    2 * (|c.files| - s.pushed) - (if s.ready then 1 else 0)
    + WorkFrom(c.files, |s.popped|) + Sum(Weights(c, s.workers)) + (if s.quit then 0 else 1)
  }

  lemma StepWork(c: Config, s: State, e: Step)
    requires Shape(c, s) && Enabled(c, s, e)
    ensures Work(c, Apply(c, s, e)) < Work(c, s)
  {
    if e.DoPop? {
      PopOk(s.buf, s.pushed);
    }
    hide BufferOk, Sum, Weights;
    match e {
      case SeeRoom =>
      case DoPush =>
      case Interrupt =>
      case Look(w) => WeightsUpdate(c, s.workers, w, Apply(c, s, e).workers[w]);
      case DoPop(w) => WeightsUpdate(c, s.workers, w, Reading(|s.popped|, 0));
      case Fetch(w) => WeightsUpdate(c, s.workers, w, Apply(c, s, e).workers[w]);
      case Tally(w) => WeightsUpdate(c, s.workers, w, Apply(c, s, e).workers[w]);
    }
  }

  lemma StepAllConserved(c: Config, s: State, e: Step)
    requires Shape(c, s) && Enabled(c, s, e) && AllConserved(c, s)
    ensures AllConserved(c, Apply(c, s, e))
  {
    forall b: Ascii
      ensures Conserved(c, Apply(c, s, e), b)
    {
      assert Conserved(c, s, b);
      StepConserved(c, s, e, b);
    }
  }

  lemma InitInv(c: Config, s: State)
    requires Init(c, s)
    ensures Shape(c, s) && AllConserved(c, s)
    ensures Work(c, s) == 2 * |c.files| + WorkFrom(c.files, 0) + 2 * c.workers + 1
  {
    SumSame(Weights(c, s.workers), 2);
    forall b: Ascii
      ensures Conserved(c, s, b)
    {
      SumSame(Rests(c, b, s.workers), 0);
    }
    forall j | 0 <= j < c.size
      ensures At(s.buf, j) == Null
    {
    }
  }

  lemma {:induction false} RunInv(c: Config, run: seq<State>)
    requires IsRun(c, run)
    ensures Shape(c, run[|run| - 1]) && AllConserved(c, run[|run| - 1])
    ensures |run| - 1 + Work(c, run[|run| - 1]) <= 2 * |c.files| + WorkFrom(c.files, 0) + 2 * c.workers + 1
    decreases |run|
  {
    var k := |run| - 1;
    hide Shape, AllConserved, Work, Enabled, Apply, Init;
    if k == 0 {
      InitInv(c, run[0]);
    } else {
      RunInv(c, run[..k]);
      assert Next(c, run[k - 1], run[k]);
      var e :| Enabled(c, run[k - 1], e) && run[k] == Apply(c, run[k - 1], e);
      StepShape(c, run[k - 1], e);
      StepAllConserved(c, run[k - 1], e);
      StepWork(c, run[k - 1], e);
    }
  }

  // ---------------------------------------------------------------- whole runs

  /** Whatever the interleaving: paths are popped in push order, each at most once; a string is
      freed only after it was popped; destroying the buffer completes exactly one free for every
      string pushed; every byte is counted at most once; and the run is finite. */
  lemma BufferSafety(c: Config, run: seq<State>, s: State)
    requires IsRun(c, run) && s == run[|run| - 1]
    ensures |s.popped| <= s.pushed && forall k :: 0 <= k < |s.popped| ==> s.popped[k] == Path(k)
    ensures forall k: nat :: Path(k) in s.buf.freed ==> k < |s.popped|
    ensures forall k: nat :: Times(Destroy(s.buf), Path(k)) == if k < s.pushed then 1 else 0
    ensures |s.freq| == 128 && forall b: Ascii :: s.freq[b] <= CountFrom(c.files, 0, b)
    ensures forall w :: 0 <= w < |s.workers| ==> s.workers[w] != Crashed
    ensures |run| <= 2 * |c.files| + WorkFrom(c.files, 0) + 2 * c.workers + 2
  {
    RunInv(c, run);
    forall k: nat
      ensures Path(k) in s.buf.freed ==> k < |s.popped|
      ensures Times(Destroy(s.buf), Path(k)) == if k < s.pushed then 1 else 0
    {
      FreedWhen(s.buf, s.pushed, k);
      EachFreedOnce(s.buf, s.pushed, k);
    }
    forall b: Ascii
      ensures s.freq[b] <= CountFrom(c.files, 0, b)
    {
      assert Conserved(c, s, b);
    }
    hide BufferOk, CountFrom, WorkFrom, Times, Destroy;
    assert Work(c, s) >= 0;
  }

  /** Nothing but the interrupt can still happen. */
  ghost predicate Quiet(c: Config, s: State) {
    forall e :: Enabled(c, s, e) ==> e.Interrupt?
  }

  ghost predicate NobodyQuit(s: State) {
    forall w :: 0 <= w < |s.workers| ==> !s.workers[w].Quit?
  }

  lemma QuietWorkers(c: Config, s: State, w: nat)
    requires Shape(c, s) && Quiet(c, s) && NobodyQuit(s) && s.pushed == |c.files| && w < c.workers
    ensures s.workers[w].Returned? || (s.workers[w].Popping? && s.buf.len == 0)
  {
    assert !Enabled(c, s, Look(w)) && !Enabled(c, s, DoPop(w)) && !Enabled(c, s, Fetch(w)) && !Enabled(c, s, Tally(w));
    assert WorkerOk(c, s.workers[w]);
  }

  /** In the program's own order (walk first, workers afterwards), when nothing can move any more
      and no worker left on the quit flag, freq is the byte histogram of all files - provided
      they fit in the buffer.  With more files than slots the walk sleeps for ever and nothing
      is counted. */
  lemma WholeProgram(c: Config, run: seq<State>, s: State)
    requires IsRun(c, run) && s == run[|run| - 1]
    requires Quiet(c, s) && NobodyQuit(s) && c.workers > 0 && !c.early
    ensures |s.freq| == 128
    ensures |c.files| <= c.size ==>
              s.pushed == |s.popped| == |c.files| && forall b: Ascii :: s.freq[b] == CountFrom(c.files, 0, b)
    ensures |c.files| > c.size ==>
              s.pushed == c.size && s.popped == [] && forall b: Ascii :: s.freq[b] == 0
  {
    RunInv(c, run);
    assert !Enabled(c, s, SeeRoom) && !Enabled(c, s, DoPush);
    if s.pushed == |c.files| {
      forall w | 0 <= w < c.workers
        ensures s.workers[w].Returned? || s.workers[w].Popping?
      {
        QuietWorkers(c, s, w);
      }
      QuietWorkers(c, s, 0);
    }
    forall b: Ascii
      ensures s.freq[b] == if |c.files| <= c.size then CountFrom(c.files, 0, b) else 0
    {
      assert Conserved(c, s, b);
      SumSame(Rests(c, b, s.workers), 0);
    }
  }

  // ---------------------------------------------------------------- the interrupt

  /** Nobody leaves on the quit flag unless it has been set. */
  lemma {:induction false} QuitOnlyWhenAsked(c: Config, run: seq<State>)
    requires IsRun(c, run)
    ensures !run[|run| - 1].quit ==> NobodyQuit(run[|run| - 1])
    decreases |run|
  {
    var k := |run| - 1;
    if k > 0 {
      QuitOnlyWhenAsked(c, run[..k]);
      assert Next(c, run[k - 1], run[k]);
      var e :| Enabled(c, run[k - 1], e) && run[k] == Apply(c, run[k - 1], e);
    }
  }

  /** Steps from any state on. */
  ghost predicate IsPath(c: Config, path: seq<State>) {
    |path| > 0 && forall i :: 0 < i < |path| ==> Next(c, path[i - 1], path[i])
  }

  function Busies(ws: seq<Worker>): seq<nat> {
    seq(|ws|, i requires 0 <= i < |ws| => if ws[i].Counting? then 1 else 0)
  }

  /** How many workers hold a byte that they have read and not counted yet. */
  function Busy(ws: seq<Worker>): nat {
    Sum(Busies(ws))
  }

  lemma BusyUpdate(ws: seq<Worker>, i: nat, w: Worker)
    requires i < |ws|
    ensures Busy(ws[i := w]) + (if ws[i].Counting? then 1 else 0) == Busy(ws) + if w.Counting? then 1 else 0
  {
    SumUpdate(Busies(ws), i, if w.Counting? then 1 else 0);
    assert Busies(ws[i := w]) == Busies(ws)[i := if w.Counting? then 1 else 0];
  }

  lemma StepAfterQuit(c: Config, s: State, e: Step)
    requires Enabled(c, s, e) && s.quit
    ensures var t := Apply(c, s, e); t.quit && Sum(t.freq) + Busy(t.workers) == Sum(s.freq) + Busy(s.workers)
  {
    hide Busy, Sum, AfterPop, AfterPush;
    match e {
      case SeeRoom =>
      case DoPush =>
      case Interrupt =>
      case Look(w) => BusyUpdate(s.workers, w, Apply(c, s, e).workers[w]);
      case DoPop(w) => BusyUpdate(s.workers, w, Apply(c, s, e).workers[w]);
      case Fetch(w) => BusyUpdate(s.workers, w, Apply(c, s, e).workers[w]);
      case Tally(w) =>
        BusyUpdate(s.workers, w, Apply(c, s, e).workers[w]);
        var b := c.files[s.workers[w].file][s.workers[w].pos];
        SumUpdate(s.freq, b, s.freq[b] + 1);
    }
  }

  /** Once the quit flag is set no new byte is taken up: all that is counted afterwards, however
      long the run goes on, are the bytes that workers already held. */
  lemma {:induction false} StopsSoon(c: Config, path: seq<State>)
    requires IsPath(c, path) && path[0].quit
    ensures var s := path[|path| - 1];
            s.quit && Sum(s.freq) + Busy(s.workers) == Sum(path[0].freq) + Busy(path[0].workers)
    decreases |path|
  {
    hide Busy, Sum, Enabled, Apply;
    var k := |path| - 1;
    if k > 0 {
      StopsSoon(c, path[..k]);
      assert Next(c, path[k - 1], path[k]);
      var e :| Enabled(c, path[k - 1], e) && path[k] == Apply(c, path[k - 1], e);
      StepAfterQuit(c, path[k - 1], e);
    }
  }

  // ---------------------------------------------------------------- who returns

  lemma Extend(c: Config, run: seq<State>, e: Step) returns (longer: seq<State>)
    requires IsRun(c, run) && Enabled(c, run[|run| - 1], e)
    ensures IsRun(c, longer) && longer[|longer| - 1] == Apply(c, run[|run| - 1], e)
  {
    hide Init, Enabled, Apply;
    longer := run + [Apply(c, run[|run| - 1], e)];
    forall i | 0 < i < |longer|
      ensures Next(c, longer[i - 1], longer[i])
    {
      if i == |run| {
        assert Enabled(c, longer[i - 1], e) && longer[i] == Apply(c, longer[i - 1], e);
      } else {
        assert longer[i - 1] == run[i - 1] && longer[i] == run[i];
      }
    }
  }

  /** The measure along a run: it goes down with the step and stays non-negative. */
  lemma RunWork(c: Config, run: seq<State>, e: Step)
    requires IsRun(c, run) && Enabled(c, run[|run| - 1], e)
    ensures Shape(c, run[|run| - 1])
    ensures 0 <= Work(c, Apply(c, run[|run| - 1], e)) < Work(c, run[|run| - 1])
  {
    RunInv(c, run);
    StepWork(c, run[|run| - 1], e);
    StepShape(c, run[|run| - 1], e);
    hide BufferOk, WorkFrom, Sum, Weights, Enabled, Apply;
  }

  ghost predicate Undisturbed(s: State) {
    !s.quit && NobodyQuit(s)
  }

  /** Worker w is inside circ_buf_pop and no path will ever come. */
  ghost predicate Stranded(c: Config, s: State, w: nat) {
    w < |s.workers| && s.workers[w].Popping? && s.buf.len == 0 && s.pushed == |c.files| && !s.ready
  }

  lemma StaysStranded(c: Config, s: State, e: Step, w: nat)
    requires Enabled(c, s, e) && !e.Interrupt?
    ensures Undisturbed(s) ==> Undisturbed(Apply(c, s, e))
    ensures Stranded(c, s, w) ==> Stranded(c, Apply(c, s, e), w)
  {
  }

  /** Every run can be continued, without an interrupt, until nothing can move; that helps no
      stranded worker. */
  lemma {:induction false} Settle(c: Config, run: seq<State>, w: nat) returns (longer: seq<State>)
    requires IsRun(c, run) && Undisturbed(run[|run| - 1])
    ensures IsRun(c, longer) && Quiet(c, longer[|longer| - 1]) && NobodyQuit(longer[|longer| - 1])
    ensures Stranded(c, run[|run| - 1], w) ==> Stranded(c, longer[|longer| - 1], w)
    decreases Work(c, run[|run| - 1])
  {
    var s := run[|run| - 1];
    if Quiet(c, s) {
      longer := run;
    } else {
      var e :| Enabled(c, s, e) && !e.Interrupt?;
      RunWork(c, run, e);
      StaysStranded(c, s, e, w);
      longer := Extend(c, run, e);
      hide Enabled, Apply, Work, Stranded, Undisturbed, IsRun;
      longer := Settle(c, longer, w);
    }
  }

  /** The walk pushes k paths before any worker starts. */
  lemma {:induction false} PushFirst(c: Config, k: nat) returns (run: seq<State>)
    requires c.size > 0 && k <= |c.files| && k <= c.size
    ensures IsRun(c, run)
    ensures var s := run[|run| - 1];
            Undisturbed(s) && s.pushed == s.buf.len == k && !s.ready && |s.buf.slots| == c.size && s.buf.head < c.size
            && |s.workers| == c.workers && forall w :: 0 <= w < c.workers ==> s.workers[w] == Looking
  {
    if k == 0 {
      var s := State(Buffer(seq(c.size, _ => Null), 0, 0, 0, []), 0, false, seq(c.workers, _ => Looking), [],
                     seq(128, _ => 0), false);
      run := [s];
    } else {
      run := PushFirst(c, k - 1);
      run := Extend(c, run, SeeRoom);
      run := Extend(c, run, DoPush);
      RunInv(c, run);
    }
  }

  /** Worker 0 takes every path while worker w waits for one. */
  ghost predicate Racing(c: Config, s: State, w: nat) {
    && s.pushed == |c.files| && !s.ready && Undisturbed(s)
    && 0 < w < |s.workers| && s.workers[w].Popping?
    && (s.workers[0].Looking? || s.workers[0].Popping? || s.workers[0].Reading? || s.workers[0].Counting?)
  }

  lemma RaceStep(c: Config, s: State, w: nat) returns (e: Step)
    requires Shape(c, s) && Racing(c, s, w) && s.buf.len > 0
    ensures Enabled(c, s, e) && Racing(c, Apply(c, s, e), w)
  {
    PopOk(s.buf, s.pushed);
    hide BufferOk;
    assert WorkerOk(c, s.workers[0]);
    if s.workers[0].Looking? {
      e := Look(0);
    } else if s.workers[0].Popping? {
      e := DoPop(0);
    } else if s.workers[0].Reading? {
      e := Fetch(0);
    } else {
      e := Tally(0);
    }
  }

  lemma {:induction false} Race(c: Config, run: seq<State>, w: nat) returns (longer: seq<State>)
    requires IsRun(c, run) && Racing(c, run[|run| - 1], w)
    ensures IsRun(c, longer) && Stranded(c, longer[|longer| - 1], w) && Undisturbed(longer[|longer| - 1])
    decreases Work(c, run[|run| - 1])
  {
    var s := run[|run| - 1];
    RunInv(c, run);
    if s.buf.len == 0 {
      longer := run;
    } else {
      hide Enabled, Apply, Work, Shape, Stranded, Undisturbed, IsRun, Racing;
      var e := RaceStep(c, s, w);
      RunWork(c, run, e);
      longer := Extend(c, run, e);
      longer := Race(c, longer, w);
    }
  }

  ghost predicate AllReturned(s: State) {
    forall w :: 0 <= w < |s.workers| ==> s.workers[w].Returned?
  }

  /** No worker is left waiting when nothing can move any more. */
  ghost predicate EveryoneReturns(c: Config) {
    forall run: seq<State> ::
      IsRun(c, run) && Quiet(c, run[|run| - 1]) && NobodyQuit(run[|run| - 1]) ==> AllReturned(run[|run| - 1])
  }

  /** Nobody waits in circ_buf_pop for a path that is not there. */
  ghost predicate NoneWaits(s: State) {
    forall w :: 0 <= w < |s.workers| && s.workers[w].Popping? ==> s.buf.len > 0
  }

  lemma {:induction false} RunNoneWaits(c: Config, run: seq<State>)
    requires IsRun(c, run) && (c.workers == 1 || c.files == [])
    ensures NoneWaits(run[|run| - 1])
    decreases |run|
  {
    var k := |run| - 1;
    if k > 0 {
      RunNoneWaits(c, run[..k]);
      RunInv(c, run[..k]);
      assert Next(c, run[k - 1], run[k]);
      var e :| Enabled(c, run[k - 1], e) && run[k] == Apply(c, run[k - 1], e);
      StepNoneWaits(c, run[k - 1], e);
    }
  }

  lemma StepNoneWaits(c: Config, s: State, e: Step)
    requires Shape(c, s) && Enabled(c, s, e) && NoneWaits(s) && (c.workers == 1 || c.files == [])
    ensures NoneWaits(Apply(c, s, e))
  {
    hide BufferOk, AllConserved, Waits;
  }

  /** The workers test `len` without the lock, so with two workers one can see the last path,
      lose it to the other and wait for ever; and a walk that overfills the buffer never lets a
      worker start.  Every worker returns on every run exactly when neither can happen. */
  lemma WhoReturns(c: Config)
    requires c.size > 0 && !c.early
    ensures EveryoneReturns(c) <==>
            c.workers == 0 || (|c.files| <= c.size && (c.files == [] || c.workers == 1))
  {
    if c.workers > 0 && |c.files| > c.size {
      WalkStuck(c);
    } else if c.files != [] && c.workers > 1 {
      OneStranded(c);
    } else {
      forall run: seq<State> | IsRun(c, run) && Quiet(c, run[|run| - 1]) && NobodyQuit(run[|run| - 1])
        ensures AllReturned(run[|run| - 1])
      {
        AloneReturns(c, run);
      }
    }
  }

  lemma AloneReturns(c: Config, run: seq<State>)
    requires IsRun(c, run) && Quiet(c, run[|run| - 1]) && NobodyQuit(run[|run| - 1]) && !c.early
    requires c.workers == 0 || (|c.files| <= c.size && (c.files == [] || c.workers == 1))
    ensures AllReturned(run[|run| - 1])
  {
    RunInv(c, run);
    var s := run[|run| - 1];
    if c.workers > 0 {
      WholeProgram(c, run, s);
      RunNoneWaits(c, run);
      forall w | 0 <= w < |s.workers|
        ensures s.workers[w].Returned?
      {
        QuietWorkers(c, s, w);
      }
    }
  }

  lemma WalkStuck(c: Config)
    requires c.size > 0 && !c.early && c.workers > 0 && |c.files| > c.size
    ensures !EveryoneReturns(c)
  {
    var run := PushFirst(c, c.size);
    var s := run[|run| - 1];
    assert Quiet(c, s) && NobodyQuit(s) && s.workers[0] == Looking;
  }

  lemma OneStranded(c: Config)
    requires c.size > 0 && !c.early && c.workers > 1 && 0 < |c.files| <= c.size
    ensures !EveryoneReturns(c)
  {
    var run := PushFirst(c, |c.files|);
    run := Extend(c, run, Look(1));
    assert Racing(c, run[|run| - 1], 1);
    run := Race(c, run, 1);
    run := Settle(c, run, 1);
    assert run[|run| - 1].workers[1] == Popping;
  }

  // ---------------------------------------------------------------- the code

  /** circ_buf: allocated once, updated in place under its mutex. */
  class CircBuf {
    const buf: array<Slot>
    var head: nat
    var tail: nat
    var len: nat
    /** The arguments of the calls of free() so far. */
    ghost var freed: seq<Slot>

    ghost function Abs(): Buffer
      reads this, buf
    {
      Buffer(buf[..], head, tail, len, freed)
    }

    /** circ_buf_create. */
    constructor (size: nat)
      requires size > 0
      ensures fresh(buf) && buf.Length == size && len == 0 && BufferOk(Abs(), 0)
    {
      buf := new Slot[size](_ => Null);
      head, tail, len, freed := 0, 0, 0, [];
    }

    /** circ_buf_push once a slot is free: the slot's old string goes, the new one comes. */
    method Push(s: Slot, ghost pushed: nat)
      requires BufferOk(Abs(), pushed) && len < buf.Length && s == Path(pushed)
      modifies this, buf
      ensures Abs() == AfterPush(old(Abs()), s) && BufferOk(Abs(), pushed + 1)
    {
      PushOk(Abs(), pushed);
      freed := freed + [buf[head]];
      buf[head] := s;
      len := len + 1;
      head := head + 1;
      if head == buf.Length {
        head := 0;
      }
    }

    /** One turn of the loop of circ_buf_pop: the oldest path queued, if there is one. */
    method TryPop(ghost pushed: nat) returns (found: bool, s: Slot)
      requires BufferOk(Abs(), pushed)
      modifies this
      ensures BufferOk(Abs(), pushed) && found == (old(len) > 0)
      ensures found ==> s == Path(pushed - old(len)) && s !in freed && Abs() == AfterPop(old(Abs()))
      ensures !found ==> Abs() == old(Abs())
    {
      if len > 0 {
        PopOk(Abs(), pushed);
        s := buf[tail];
        len := len - 1;
        tail := tail + 1;
        if tail == buf.Length {
          tail := 0;
        }
        return true, s;
      }
      return false, Null;
    }

    /** circ_buf_destroy: after it each string has been freed exactly once. */
    method FreeAll(ghost pushed: nat)
      requires BufferOk(Abs(), pushed)
      modifies this`freed
      ensures freed == Destroy(old(Abs()))
      ensures forall k: nat :: Times(freed, Path(k)) == if k < pushed then 1 else 0
    {
      ghost var b := Abs();
      for i := 0 to buf.Length
        invariant freed == b.freed + buf[..i] && buf[..] == b.slots
      {
        freed := freed + [buf[i]];
        assert buf[..i + 1] == buf[..i] + [buf[i]];
      }
      assert buf[..buf.Length] == buf[..];
      forall k: nat
        ensures Times(freed, Path(k)) == if k < pushed then 1 else 0
      {
        EachFreedOnce(b, pushed, k);
      }
    }
  }

  lemma CountNext(text: seq<Ascii>, i: nat, b: Ascii)
    requires i < |text|
    ensures Count(text[i..], b) == (if text[i] == b then 1 else 0) + Count(text[i + 1..], b)
  {
    assert text[i..][1..] == text[i + 1..];
  }

  /** The counting loop of one file, when nobody interrupts it. */
  method CountFile(text: seq<Ascii>, freq: array<nat>)
    requires freq.Length == 128
    modifies freq
    ensures forall b: Ascii :: freq[b] == old(freq[b]) + Count(text, b)
  {
    var i := 0;
    assert text[0..] == text;
    while i < |text|
      invariant i <= |text|
      invariant forall b: Ascii :: freq[b] + Count(text[i..], b) == old(freq[b]) + Count(text, b)
    {
      forall b: Ascii
        ensures Count(text[i..], b) == (if text[i] == b then 1 else 0) + Count(text[i + 1..], b)
      {
        CountNext(text, i, b);
      }
      freq[text[i]] := freq[text[i]] + 1;
      i := i + 1;
    }
  }
}
