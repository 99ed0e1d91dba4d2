/** The event ring, as a state machine. */
module EventRing {

  // The ring that carries events from the reader thread to the audio thread, as a state machine.
  // A step is one access to memory that both threads see: a load or store of a counter, or the copy
  // of one word of an event. Words are copied in any order. A load of the other thread's counter may
  // be late: it returns any value that the counter has had since the last load. A plain load of a
  // word may return any value ever written there, unless the counter that was loaded tells that a
  // later one was in place: only the counters' acquire and release order the words.

  import opened Options

  /** A double, as its bits. */
  type Word = int

  const WORDS: nat := 6
  const RING: nat := 4096

  type Event = e: seq<Word> | |e| == WORDS witness [0, 0, 0, 0, 0, 0]

  const ZERO: Event := [0, 0, 0, 0, 0, 0]

  type Slots = r: seq<Event> | |r| == RING witness seq(RING, i => ZERO)

  /** The reader thread, between lines, copying an event in, or at the end of its input. */
  datatype Reader = Waiting | Filling(event: Event, h: int, written: set<nat>) | Finished

  /** The audio thread, outside the pop or copying an event out. */
  datatype Popper = Resting | Draining(out: Event, read: set<nat>)

  /** A parsed line, with the counters that the reader had when it decided its fate. */
  datatype Arrival = Arrival(event: Event, head: int, tail: int)

  /** A word written for event number `event`. */
  datatype Write = Write(event: int, i: nat, value: Word)

  /** The shared memory, the two threads, what each last saw of the other's counter, and the
      history: all writes, all arrivals, all published and popped events, and all answers of the pop. */
  datatype State = State(
    ring: Slots,
    log: seq<Write>,
    head: int,
    tail: int,
    reader: Reader,
    popper: Popper,
    seenTail: int,
    seenHead: int,
    arrivals: seq<Arrival>,
    accepted: seq<Event>,
    popped: seq<Event>,
    answers: seq<int>)

  /** All words zero and both counters zero, as static storage starts. */
  function Initial(): State {
    State(seq(RING, i => ZERO), [], 0, 0, Waiting, Resting, 0, 0, [], [], [], [])
  }

  /** The number of events behind a head counter; once the input closes the counter is negative. */
  function Pushed(head: int): int { if head < 0 then -head - 1 else head }

  function Slot(count: int): nat { count % RING }

  function Upto(n: nat): (r: set<nat>)
    ensures forall i: nat :: i in r <==> i < n
  {
    if n == 0 then {} else Upto(n - 1) + {n - 1}
  }

  const ALL_WORDS: set<nat> := Upto(WORDS)

  // ----- the steps ------------------------------------------------------------------------------

  datatype Action =
    | Arrive(event: Event, tail: int)   // a line was parsed, and this tail loaded
    | WriteWord(i: nat)
    | Publish
    | Close
    | Pop(out: Event, head: int)        // a pop into a buffer, and this head loaded
    | ReadWord(i: nat, value: Word)
    | Release

  /** The values a late load of the tail can return. */
  predicate MayLoadTail(s: State, t: int) { s.seenTail <= t <= s.tail }

  /** The values a late load of the head can return: it counts up, and may close at the end. */
  predicate MayLoadHead(s: State, h: int) {
    if h < 0 then h == s.head else 0 <= s.seenHead <= h <= Pushed(s.head)
  }

  /** The write goes to this word of the slot that the popper reads. */
  predicate Aims(s: State, w: Write, i: nat) { Slot(w.event) == Slot(s.tail) && w.i == i }

  /** The head last loaded tells that the word was written for an event before it. */
  predicate Known(s: State, w: Write) { w.event < Pushed(s.seenHead) }

  /** No write from the j-th on to the word being read is known to the popper. */
  predicate NotOverwritten(s: State, i: nat, j: nat) {
    forall k :: j <= k < |s.log| && Aims(s, s.log[k], i) ==> !Known(s, s.log[k])
  }

  /** The values a plain load of a word can return. */
  predicate MayReadWord(s: State, i: nat, value: Word) {
    || (value == 0 && NotOverwritten(s, i, 0))
    || exists j :: 0 <= j < |s.log| && Aims(s, s.log[j], i) && s.log[j].value == value && NotOverwritten(s, i, j + 1)
  }

  function Arrived(s: State, e: Event, t: int): State {
    var seen := s.(seenTail := t, arrivals := s.arrivals + [Arrival(e, s.head, t)]);
    if s.head - t >= RING then seen else seen.(reader := Filling(e, s.head, {}))
  }

  function Written(s: State, i: nat): State
    requires s.reader.Filling? && i < WORDS
  {
    var slot := Slot(s.reader.h);
    s.(ring := s.ring[slot := s.ring[slot][i := s.reader.event[i]]],
       log := s.log + [Write(s.reader.h, i, s.reader.event[i])],
       reader := s.reader.(written := s.reader.written + {i}))
  }

  function Published(s: State): State
    requires s.reader.Filling?
  {
    s.(head := s.reader.h + 1, reader := Waiting, accepted := s.accepted + [s.reader.event])
  }

  function Answered(s: State, out: Event, h: int): State {
    var seen := s.(seenHead := h);
    if s.tail >= Pushed(h) then seen.(answers := s.answers + [if h < 0 then -1 else 0])
    else seen.(popper := Draining(out, {}))
  }

  function Read(s: State, i: nat, value: Word): State
    requires s.popper.Draining? && i < WORDS
  {
    s.(popper := Draining(s.popper.out[i := value], s.popper.read + {i}))
  }

  function Released(s: State): State
    requires s.popper.Draining?
  {
    s.(tail := s.tail + 1, popper := Resting, popped := s.popped + [s.popper.out], answers := s.answers + [1])
  }

  predicate Enabled(s: State, a: Action) {
    match a
    case Arrive(_, t) => s.reader.Waiting? && MayLoadTail(s, t)
    case WriteWord(i) => s.reader.Filling? && i < WORDS && i !in s.reader.written
    case Publish => s.reader.Filling? && s.reader.written == ALL_WORDS
    case Close => s.reader.Waiting?
    case Pop(_, h) => s.popper.Resting? && MayLoadHead(s, h)
    case ReadWord(i, value) => s.popper.Draining? && i < WORDS && i !in s.popper.read && MayReadWord(s, i, value)
    case Release => s.popper.Draining? && s.popper.read == ALL_WORDS
  }

  function Step(s: State, a: Action): State
    requires Enabled(s, a)
  {
    match a
    case Arrive(e, t) => Arrived(s, e, t)
    case WriteWord(i) => Written(s, i)
    case Publish => Published(s)
    case Close => s.(head := -s.head - 1, reader := Finished)
    case Pop(out, h) => Answered(s, out, h)
    case ReadWord(i, value) => Read(s, i, value)
    case Release => Released(s)
  }

  /** Any interleaving of the two threads is a sequence of actions, each possible where it stands. */
  function Run(s: State, actions: seq<Action>): (r: Option<State>)
    decreases |actions|
  {
    if actions == [] then Some(s)
    else if Enabled(s, actions[0]) then Run(Step(s, actions[0]), actions[1..])
    else None
  }

  // ----- the invariant ----------------------------------------------------------------------------

  /** The counters: never more than a ring apart, and what was seen was once true. */
  ghost predicate Counters(s: State) {
    && 0 <= s.seenTail <= s.tail <= Pushed(s.head) <= s.tail + RING
    && (if s.seenHead < 0 then s.seenHead == s.head else s.seenHead <= Pushed(s.head))
    && |s.accepted| == Pushed(s.head)
    && |s.popped| == s.tail
    && (s.reader.Finished? <==> s.head < 0)
  }

  /** Every event not yet popped lies whole in its slot. */
  ghost predicate Stored(s: State) {
    forall k :: s.tail <= k < |s.accepted| && 0 <= k ==> s.ring[Slot(k)] == s.accepted[k]
  }

  /** The reader fills a free slot, on the word of a tail it has seen. */
  ghost predicate ReaderFills(s: State) {
    s.reader.Filling? ==>
      && s.reader.h == s.head
      && s.head - s.seenTail < RING
      && s.reader.written <= ALL_WORDS
      && forall i :: i in s.reader.written && i < WORDS ==> s.ring[Slot(s.head)][i] == s.reader.event[i]
  }

  /** The popper empties a full slot, on the word of a head it has seen. */
  ghost predicate PopperDrains(s: State) {
    s.popper.Draining? ==>
      && 0 <= s.tail < |s.accepted|
      && s.tail < Pushed(s.seenHead)
      && s.popper.read <= ALL_WORDS
      && forall i :: i in s.popper.read && i < WORDS ==> s.popper.out[i] == s.accepted[s.tail][i]
  }

  ghost predicate PoppedInOrder(s: State) {
    |s.popped| <= |s.accepted| && s.popped == s.accepted[..|s.popped|]
  }

  // ----- the log of writes --------------------------------------------------------------------------

  ghost predicate HasWrite(log: seq<Write>, k: int, i: nat) {
    exists j :: 0 <= j < |log| && log[j].event == k && log[j].i == i
  }

  /** Events are written one after the other. */
  ghost predicate InTurn(log: seq<Write>) {
    forall j, k :: 0 <= j < k < |log| ==> log[j].event <= log[k].event
  }

  /** A write carries a word of an accepted event, or of the one being filled in. */
  ghost predicate Truthful(s: State, w: Write) {
    && w.i < WORDS
    && if 0 <= w.event < |s.accepted| then w.value == s.accepted[w.event][w.i]
       else s.reader.Filling? && w.event == s.head && w.i in s.reader.written && w.value == s.reader.event[w.i]
  }

  ghost predicate Logged(s: State) {
    && InTurn(s.log)
    && (forall j :: 0 <= j < |s.log| ==> Truthful(s, s.log[j]))
    && (forall k: nat, i: nat :: k < |s.accepted| && i < WORDS ==> HasWrite(s.log, k, i))
    && (s.reader.Filling? ==> forall i: nat :: i in s.reader.written ==> HasWrite(s.log, s.head, i))
  }

  ghost predicate Safe(s: State) {
    Counters(s) && Stored(s) && ReaderFills(s) && PopperDrains(s) && PoppedInOrder(s) && Logged(s)
  }

  lemma {:induction false} SlotsDiffer(a: int, b: int)
    requires a < b < a + RING
    ensures Slot(a) != Slot(b)
  {
    assert b - a == RING * (b / RING - a / RING) + (b % RING - a % RING);
  }

  /** Two event numbers of one slot less than a ring apart are the same. */
  lemma {:induction false} SameSlot(a: int, b: int)
    requires Slot(a) == Slot(b) && a - RING < b < a + RING
    ensures a == b
  {
    if a < b {
      SlotsDiffer(a, b);
    } else if b < a {
      SlotsDiffer(b, a);
    }
  }

  /** A plain load of a word is never late: it gives the word of the event to pop. */
  lemma {:induction false} ReadsAreTrue(s: State, i: nat, value: Word)
    requires Safe(s) && s.popper.Draining? && i < WORDS && MayReadWord(s, i, value)
    ensures value == s.accepted[s.tail][i]
  {
    assert HasWrite(s.log, s.tail, i);
    var own :| 0 <= own < |s.log| && s.log[own].event == s.tail && s.log[own].i == i;
    assert Aims(s, s.log[own], i) && Known(s, s.log[own]);
    assert !NotOverwritten(s, i, 0);
    var j :| 0 <= j < |s.log| && Aims(s, s.log[j], i) && s.log[j].value == value && NotOverwritten(s, i, j + 1);
    assert own <= j;
    assert Truthful(s, s.log[j]);
    SameSlot(s.tail, s.log[j].event);
  }

  /** The word in memory is one that a plain load can return. */
  lemma {:induction false} MemoryIsReadable(s: State, i: nat)
    requires Safe(s) && s.popper.Draining? && i < WORDS
    ensures MayReadWord(s, i, s.ring[Slot(s.tail)][i])
  {
    assert HasWrite(s.log, s.tail, i);
    assert s.ring[Slot(s.tail)] == s.accepted[s.tail];
    var own :| 0 <= own < |s.log| && s.log[own].event == s.tail && s.log[own].i == i;
    assert Truthful(s, s.log[own]);
    LastAim(s, i, own);
  }

  lemma {:induction false} LastAim(s: State, i: nat, j: nat)
    requires Safe(s) && s.popper.Draining? && i < WORDS
    requires j < |s.log| && s.log[j].event == s.tail && s.log[j].i == i
    ensures MayReadWord(s, i, s.accepted[s.tail][i])
    decreases |s.log| - j
  {
    assert Truthful(s, s.log[j]);
    if !NotOverwritten(s, i, j + 1) {
      var k :| j + 1 <= k < |s.log| && Aims(s, s.log[k], i) && Known(s, s.log[k]);
      assert Truthful(s, s.log[k]);
      SameSlot(s.tail, s.log[k].event);
      LastAim(s, i, k);
    }
  }

  lemma {:induction false} ArriveKeeps(s: State, e: Event, t: int)
    requires Safe(s) && Enabled(s, Arrive(e, t))
    ensures Safe(Arrived(s, e, t))
  {
    OthersKeepLog(s, Arrived(s, e, t));
  }

  lemma {:induction false} WriteKeeps(s: State, i: nat)
    requires Safe(s) && Enabled(s, WriteWord(i))
    ensures Safe(Written(s, i))
  {
    var n := Written(s, i);
    forall k | n.tail <= k < |n.accepted| && 0 <= k ensures n.ring[Slot(k)] == n.accepted[k] {
      SlotsDiffer(k, s.head);
      assert s.ring[Slot(k)] == s.accepted[k];
    }
    WriteKeepsLog(s, i);
  }

  lemma {:induction false} MoreWrites(log: seq<Write>, w: Write)
    ensures forall k: nat, i: nat :: HasWrite(log + [w], k, i) <==> HasWrite(log, k, i) || (w.event == k && w.i == i)
  {
    forall k: nat, i: nat ensures (HasWrite(log + [w], k, i) <==> HasWrite(log, k, i) || (w.event == k && w.i == i)) {
      if HasWrite(log, k, i) {
        var j :| 0 <= j < |log| && log[j].event == k && log[j].i == i;
        assert (log + [w])[j] == log[j];
      }
      if w.event == k && w.i == i {
        assert (log + [w])[|log|] == w;
      }
    }
  }

  lemma {:induction false} WriteKeepsLog(s: State, i: nat)
    requires Safe(s) && Enabled(s, WriteWord(i))
    ensures Logged(Written(s, i))
  {
    var n := Written(s, i);
    var w := Write(s.reader.h, i, s.reader.event[i]);
    MoreWrites(s.log, w);
    forall j | 0 <= j < |n.log| ensures Truthful(n, n.log[j]) && n.log[j].event <= s.head {
      if j < |s.log| {
        assert Truthful(s, s.log[j]);
      }
    }
  }

  lemma {:induction false} PublishKeepsLog(s: State)
    requires Safe(s) && Enabled(s, Publish)
    ensures Logged(Published(s))
  {
    var n := Published(s);
    forall j | 0 <= j < |n.log| ensures Truthful(n, n.log[j]) {
      assert Truthful(s, s.log[j]);
    }
    forall k: nat, i: nat | k < |n.accepted| && i < WORDS ensures HasWrite(n.log, k, i) {
      if k == s.head {
        assert i in ALL_WORDS;
      }
    }
  }

  lemma {:induction false} OthersKeepLog(s: State, n: State)
    requires Logged(s) && n.log == s.log && n.accepted == s.accepted
    requires s.reader.Filling? ==> n.reader == s.reader && n.head == s.head
    requires !s.reader.Filling? ==> !n.reader.Filling? || n.reader.written == {}
    ensures Logged(n)
  {
    forall j | 0 <= j < |n.log| ensures Truthful(n, n.log[j]) {
      assert Truthful(s, s.log[j]);
    }
  }

  lemma {:induction false} SlotIsFilled(s: State)
    requires Safe(s) && Enabled(s, Publish)
    ensures s.ring[Slot(s.head)] == s.reader.event
  {
    hide Logged;
    var slot := s.ring[Slot(s.head)];
    forall i | 0 <= i < WORDS ensures slot[i] == s.reader.event[i] {
      assert i in ALL_WORDS;
    }
  }

  lemma {:induction false} PublishStores(s: State)
    requires Safe(s) && Enabled(s, Publish)
    ensures Stored(Published(s)) && Counters(Published(s))
  {
    SlotIsFilled(s);
    hide Logged, PopperDrains, PoppedInOrder;
    var n := Published(s);
    forall k | n.tail <= k < |n.accepted| && 0 <= k ensures n.ring[Slot(k)] == n.accepted[k] {
      if k < |s.accepted| {
        assert s.ring[Slot(k)] == s.accepted[k];
      }
    }
  }

  lemma {:induction false} PublishKeeps(s: State)
    requires Safe(s) && Enabled(s, Publish)
    ensures Safe(Published(s))
  {
    PublishKeepsLog(s);
    PublishStores(s);
    hide Logged, Stored;
    var n := Published(s);
    assert n.accepted[..|s.popped|] == s.accepted[..|s.popped|];
  }

  lemma {:induction false} CloseKeeps(s: State)
    requires Safe(s) && Enabled(s, Close)
    ensures Safe(Step(s, Close))
  {
    OthersKeepLog(s, Step(s, Close));
  }

  lemma {:induction false} PopKeeps(s: State, out: Event, h: int)
    requires Safe(s) && Enabled(s, Pop(out, h))
    ensures Safe(Answered(s, out, h))
  {
    OthersKeepLog(s, Answered(s, out, h));
  }

  lemma {:induction false} ReadKeeps(s: State, i: nat, value: Word)
    requires Safe(s) && Enabled(s, ReadWord(i, value))
    ensures Safe(Read(s, i, value))
  {
    ReadsAreTrue(s, i, value);
    OthersKeepLog(s, Read(s, i, value));
  }

  lemma {:induction false} ReleaseKeeps(s: State)
    requires Safe(s) && Enabled(s, Release)
    ensures Safe(Released(s))
  {
    OthersKeepLog(s, Released(s));
    var n := Released(s);
    forall i | 0 <= i < WORDS ensures s.popper.out[i] == s.accepted[s.tail][i] {
      assert i in ALL_WORDS;
    }
    assert s.popper.out == s.accepted[s.tail];
    assert n.popped == s.accepted[..s.tail] + [s.accepted[s.tail]] == s.accepted[..s.tail + 1];
    forall k | n.tail <= k < |n.accepted| && 0 <= k ensures n.ring[Slot(k)] == n.accepted[k] {
      assert s.ring[Slot(k)] == s.accepted[k];
    }
  }

  lemma {:induction false} StepKeepsSafe(s: State, a: Action)
    requires Safe(s) && Enabled(s, a)
    ensures Safe(Step(s, a))
  {
    hide Safe;
    match a
    case Arrive(e, t) => ArriveKeeps(s, e, t);
    case WriteWord(i) => WriteKeeps(s, i);
    case Publish => PublishKeeps(s);
    case Close => CloseKeeps(s);
    case Pop(out, h) => PopKeeps(s, out, h);
    case ReadWord(i, value) => ReadKeeps(s, i, value);
    case Release => ReleaseKeeps(s);
  }

  // ----- the history ----------------------------------------------------------------------------------

  /** The reader saw less than a ring of events pending. */
  predicate Fits(a: Arrival) { a.head - a.tail < RING }

  /** The arrivals that were not dropped, in order. */
  function Kept(arrivals: seq<Arrival>): seq<Event> {
    if arrivals == [] then []
    else Kept(arrivals[..|arrivals| - 1]) + OnlyIf(Fits(arrivals[|arrivals| - 1]), arrivals[|arrivals| - 1].event)
  }

  function Dropped(arrivals: seq<Arrival>): seq<Event> {
    if arrivals == [] then []
    else Dropped(arrivals[..|arrivals| - 1]) + OnlyIf(!Fits(arrivals[|arrivals| - 1]), arrivals[|arrivals| - 1].event)
  }

  function OnlyIf(b: bool, e: Event): seq<Event> { if b then [e] else [] }

  function InHand(r: Reader): seq<Event> { if r.Filling? then [r.event] else [] }

  /** The reader decided on true counts: the head was the number kept so far, and the tail was a
      count of events then already popped. */
  ghost predicate TrueCounts(arrivals: seq<Arrival>, tail: int) {
    forall k :: 0 <= k < |arrivals| ==>
      arrivals[k].head == |Kept(arrivals[..k])| && 0 <= arrivals[k].tail <= tail
  }

  ghost predicate Conserved(s: State) {
    s.accepted + InHand(s.reader) == Kept(s.arrivals) && TrueCounts(s.arrivals, s.tail)
  }

  /** The input has closed, all its events are popped, and the popper knows it. */
  ghost predicate Ended(s: State) {
    s.seenHead < 0 && s.tail == Pushed(s.head) && s.popper.Resting?
  }

  function Ones(answers: seq<int>): nat {
    if answers == [] then 0
    else Ones(answers[..|answers| - 1]) + if answers[|answers| - 1] == 1 then 1 else 0
  }

  ghost predicate Answers(s: State) {
    && Ones(s.answers) == s.tail
    && (forall i :: 0 <= i < |s.answers| ==> s.answers[i] in {-1, 0, 1})
    && (forall i, j :: 0 <= i < j < |s.answers| && s.answers[i] == -1 ==> s.answers[j] == -1)
    && (forall i :: 0 <= i < |s.answers| && s.answers[i] == -1 ==> Ended(s))
  }

  ghost predicate Inv(s: State) { Safe(s) && Conserved(s) && Answers(s) }

  lemma {:induction false} KeptSnoc(arrivals: seq<Arrival>, a: Arrival)
    ensures Kept(arrivals + [a]) == Kept(arrivals) + OnlyIf(Fits(a), a.event)
    ensures Dropped(arrivals + [a]) == Dropped(arrivals) + OnlyIf(!Fits(a), a.event)
  {
    assert (arrivals + [a])[..|arrivals|] == arrivals;
  }

  lemma {:induction false} TrueSnoc(arrivals: seq<Arrival>, tail: int, a: Arrival)
    requires TrueCounts(arrivals, tail) && a.head == |Kept(arrivals)| && 0 <= a.tail <= tail
    ensures TrueCounts(arrivals + [a], tail)
  {
    hide Kept;
    var all := arrivals + [a];
    forall k | 0 <= k < |all| ensures all[k].head == |Kept(all[..k])| && 0 <= all[k].tail <= tail {
      if k < |arrivals| {
        assert all[..k] == arrivals[..k];
      } else {
        assert all[..k] == arrivals;
      }
    }
  }

  lemma {:induction false} ArriveConserves(s: State, e: Event, t: int)
    requires Safe(s) && Conserved(s) && Enabled(s, Arrive(e, t))
    ensures Conserved(Arrived(s, e, t))
  {
    var a := Arrival(e, s.head, t);
    KeptSnoc(s.arrivals, a);
    hide Kept, Stored, PopperDrains, PoppedInOrder, Logged;
    assert s.accepted + [] == s.accepted;
    TrueSnoc(s.arrivals, s.tail, a);
  }

  lemma {:induction false} LaterTail(arrivals: seq<Arrival>, t: int, u: int)
    requires TrueCounts(arrivals, t) && t <= u
    ensures TrueCounts(arrivals, u)
  {
    hide Kept;
  }

  lemma {:induction false} StepConserves(s: State, a: Action)
    requires Safe(s) && Conserved(s) && Enabled(s, a)
    ensures Conserved(Step(s, a))
  {
    hide Kept, TrueCounts, MayReadWord, Stored, Logged, PoppedInOrder;
    if a.Arrive? {
      ArriveConserves(s, a.event, a.tail);
    } else {
      var n := Step(s, a);
      assert n.accepted + InHand(n.reader) == s.accepted + InHand(s.reader);
      LaterTail(s.arrivals, s.tail, n.tail);
    }
  }

  lemma {:induction false} OneMore(answers: seq<int>, x: int)
    ensures Ones(answers + [x]) == Ones(answers) + if x == 1 then 1 else 0
  {
    assert (answers + [x])[..|answers|] == answers;
  }

  lemma {:induction false} AnswersSnoc(s: State, n: State, x: int)
    requires Answers(s) && n.answers == s.answers + [x] && x in {-1, 0, 1}
    requires n.tail == s.tail + if x == 1 then 1 else 0
    requires x == -1 ==> Ended(n)
    requires Ended(s) ==> x == -1
    ensures Answers(n)
  {
    OneMore(s.answers, x);
    hide Ones;
  }

  lemma {:induction false} StepAnswers(s: State, a: Action)
    requires Safe(s) && Answers(s) && Enabled(s, a)
    ensures Answers(Step(s, a))
  {
    hide Stored, ReaderFills, PoppedInOrder, Logged, MayReadWord, Answers;
    var n := Step(s, a);
    match a
    case Pop(_, h) =>
      if s.tail >= Pushed(h) {
        AnswersSnoc(s, n, if h < 0 then -1 else 0);
      } else {
        AnswersStay(s, n);
      }
    case Release => AnswersSnoc(s, n, 1);
    case _ => AnswersStay(s, n);
  }

  lemma {:induction false} AnswersStay(s: State, n: State)
    requires Answers(s) && n.answers == s.answers && n.tail == s.tail
    requires Ended(s) ==> Ended(n)
    ensures Answers(n)
  {
  }

  lemma {:induction false} StepKeeps(s: State, a: Action)
    requires Inv(s) && Enabled(s, a)
    ensures Inv(Step(s, a))
  {
    StepKeepsSafe(s, a);
    StepConserves(s, a);
    StepAnswers(s, a);
  }

  lemma {:induction false} InitialHolds()
    ensures Inv(Initial())
  {
    assert Initial().accepted + InHand(Initial().reader) == Kept(Initial().arrivals);
  }

  lemma {:induction false} RunKeeps(s: State, actions: seq<Action>)
    requires Inv(s)
    ensures Run(s, actions).Some? ==> Inv(Run(s, actions).value)
    decreases |actions|
  {
    hide Inv, Enabled, Step;
    if actions != [] && Enabled(s, actions[0]) {
      StepKeeps(s, actions[0]);
      RunKeeps(Step(s, actions[0]), actions[1..]);
    }
  }

  /** The states that some interleaving of the two threads leads to. */
  ghost predicate Reachable(s: State) {
    exists actions :: Run(Initial(), actions) == Some(s)
  }

  lemma {:induction false} ReachableInv(s: State)
    requires Reachable(s)
    ensures Inv(s)
  {
    var actions :| Run(Initial(), actions) == Some(s);
    InitialHolds();
    RunKeeps(Initial(), actions);
  }

  // ----- what every interleaving keeps ---------------------------------------------------------------

  /** The counters, however the head is encoded, and in whatever order the threads move. */
  lemma {:induction false} CountersStayClose(s: State)
    requires Reachable(s)
    ensures 0 <= s.tail <= Pushed(s.head) <= s.tail + 4096
    ensures s.head < 0 <==> s.reader.Finished?
    ensures |s.accepted| == Pushed(s.head) && |s.popped| == s.tail
  {
    ReachableInv(s);
  }

  /** Copies never overlap, and each is ordered after the other side's last use of the slot. */
  lemma {:induction false} NeverShareASlot(s: State)
    requires Reachable(s)
    ensures s.reader.Filling? && s.popper.Draining? ==> Slot(s.reader.h) != Slot(s.tail)
    ensures s.popper.Draining? ==> s.tail < Pushed(s.seenHead)
    ensures s.reader.Filling? ==> s.reader.h == s.head && s.head - 4096 < s.seenTail
  {
    ReachableInv(s);
    if s.reader.Filling? && s.popper.Draining? {
      SlotsDiffer(s.tail, s.head);
    }
  }

  /** Popped events are the first accepted ones, in order and whole, though words are copied one
      by one and both counters may be read late. */
  lemma {:induction false} PoppedArePrefix(s: State)
    requires Reachable(s)
    ensures 0 <= s.tail <= |s.accepted| && s.popped == s.accepted[..s.tail]
    ensures Ones(s.answers) == s.tail
  {
    ReachableInv(s);
  }

  /** A word can be read only as it was written for the event to pop: the race that the plain
      copies leave open is never lost. */
  lemma {:induction false} NoTornRead(s: State, i: nat, value: Word)
    requires Reachable(s) && s.popper.Draining? && i < WORDS
    ensures 0 <= s.tail < |s.accepted|
    ensures MayReadWord(s, i, value) <==> value == s.accepted[s.tail][i]
    ensures s.ring[Slot(s.tail)][i] == s.accepted[s.tail][i]
  {
    ReachableInv(s);
    MemoryIsReadable(s, i);
    assert s.ring[Slot(s.tail)] == s.accepted[s.tail];
    if MayReadWord(s, i, value) {
      ReadsAreTrue(s, i, value);
    }
  }

  /** Every arrival is accepted, in hand, or dropped, and kept arrivals keep their order. A drop
      means that a whole ring of events was pending when the tail was loaded. */
  lemma {:induction false} NothingElseIsLost(s: State, k: nat)
    requires Reachable(s)
    ensures s.accepted + InHand(s.reader) == Kept(s.arrivals)
    ensures |s.arrivals| == |s.accepted| + |InHand(s.reader)| + |Dropped(s.arrivals)|
    ensures k < |s.arrivals| ==>
      && (!Fits(s.arrivals[k]) <==> |Kept(s.arrivals[..k])| - s.arrivals[k].tail >= 4096)
      && 0 <= s.arrivals[k].tail <= s.tail
  {
    ReachableInv(s);
    KeptOrDropped(s.arrivals);
  }

  lemma {:induction false} KeptOrDropped(arrivals: seq<Arrival>)
    ensures |Kept(arrivals)| + |Dropped(arrivals)| == |arrivals|
  {
    if arrivals != [] {
      KeptOrDropped(arrivals[..|arrivals| - 1]);
    }
  }

  /** What the machine allows of late loads: any tail or head that there has been since the last load,
      and of a word any value written to its place, unless the loaded head tells of a later one. */
  lemma {:induction false} LateLoadsAreAllowed(s: State, e: Event, out: Event, t: int, h: int)
    requires Reachable(s)
    ensures s.reader.Waiting? && s.seenTail <= t <= s.tail ==> Enabled(s, Arrive(e, t))
    ensures s.popper.Resting? && 0 <= s.seenHead <= h <= Pushed(s.head) ==> Enabled(s, Pop(out, h))
    ensures s.popper.Resting? && s.head < 0 ==> Enabled(s, Pop(out, s.head))
  {
  }

  lemma {:induction false} LateWordsAreAllowed(s: State, i: nat, j: nat)
    requires s.popper.Draining? && i < 6 && i !in s.popper.read
    requires j < |s.log| && s.log[j].i == i && (s.log[j].event - s.tail) % 4096 == 0
    requires forall k :: j < k < |s.log| && s.log[k].i == i ==> s.log[k].event >= Pushed(s.seenHead)
    ensures Enabled(s, ReadWord(i, s.log[j].value))
  {
    assert Slot(s.log[j].event) == Slot(s.tail);
    assert Aims(s, s.log[j], i) && NotOverwritten(s, i, j + 1);
  }

  /** The zero that the ring starts with may be read as late as any word. */
  lemma {:induction false} FirstZeroIsAllowed(s: State, i: nat)
    requires s.popper.Draining? && i < 6 && i !in s.popper.read
    requires forall k :: 0 <= k < |s.log| && s.log[k].i == i ==> s.log[k].event >= Pushed(s.seenHead)
    ensures Enabled(s, ReadWord(i, 0))
  {
    assert NotOverwritten(s, i, 0);
  }

  /** With a tail that is not late, an event is dropped exactly when the ring is full. */
  lemma {:induction false} FreshTailDropsOnlyWhenFull(s: State, e: Event)
    requires Reachable(s) && s.reader.Waiting?
    ensures Enabled(s, Arrive(e, s.tail))
    ensures Step(s, Arrive(e, s.tail)).reader.Waiting? <==> Pushed(s.head) == s.tail + 4096
  {
    ReachableInv(s);
  }

  /** The pop answers -1 only when the input has closed and every accepted event has been popped,
      and from then on it answers nothing else. */
  lemma {:induction false} EndIsTheEnd(s: State, i: nat)
    requires Reachable(s) && i < |s.answers| && s.answers[i] == -1
    ensures s.head < 0 && s.popped == s.accepted == Kept(s.arrivals)
    ensures forall j :: i <= j < |s.answers| ==> s.answers[j] == -1
  {
    ReachableInv(s);
    assert s.accepted[..|s.accepted|] == s.accepted;
    assert s.accepted + [] == s.accepted;
  }

  /** The encoding of a closed head loses no count, zero included, and is never mistaken. */
  lemma {:induction false} CloseKeepsTheCount(h: int)
    requires h >= 0
    ensures -h - 1 < 0 && Pushed(-h - 1) == h == Pushed(h)
  {
  }

  // ----- whole calls ------------------------------------------------------------------------------------

  lemma {:induction false} RunAppend(s: State, a: seq<Action>, b: seq<Action>)
    requires Run(s, a).Some?
    ensures Run(s, a + b) == Run(Run(s, a).value, b)
    decreases |a|
  {
    hide Enabled, Step;
    if a == [] {
      assert a + b == b;
    } else {
      assert (a + b)[0] == a[0] && (a + b)[1..] == a[1..] + b;
      RunAppend(Step(s, a[0]), a[1..], b);
    }
  }

  lemma {:induction false} RunSnoc(s: State, actions: seq<Action>, a: Action)
    requires Run(s, actions).Some? && Enabled(Run(s, actions).value, a)
    ensures Run(s, actions + [a]) == Some(Step(Run(s, actions).value, a))
  {
    RunAppend(s, actions, [a]);
    assert [a][1..] == [];
  }

  /** The copies of the first n words of an event. */
  function Reads(e: Event, n: nat): seq<Action>
    requires n <= WORDS
  {
    seq(n, i requires 0 <= i < n => ReadWord(i, e[i]))
  }

  function Writes(n: nat): seq<Action> { seq(n, i requires 0 <= i < n => WriteWord(i)) }

  /** The first n words copied over. */
  function Patch(onto: Event, e: Event, n: nat): Event
    requires n <= WORDS
  {
    e[..n] + onto[n..]
  }

  lemma {:induction false} PatchNext(onto: Event, e: Event, n: nat)
    requires n < WORDS
    ensures Patch(onto, e, n)[n := e[n]] == Patch(onto, e, n + 1)
  {
  }

  lemma {:induction false} UptoNext(n: nat)
    ensures Upto(n) + {n} == Upto(n + 1) && n !in Upto(n)
  {
  }

  /** After n of its copies, a popper that drains has the first n words of its event. */
  lemma {:induction false} ReadsRun(s: State, out: Event, n: nat)
    requires Safe(s) && s.popper == Draining(out, {}) && n <= WORDS
    ensures 0 <= s.tail < |s.accepted|
    ensures Run(s, Reads(s.accepted[s.tail], n))
         == Some(s.(popper := Draining(Patch(out, s.accepted[s.tail], n), Upto(n))))
  {
    var e := s.accepted[s.tail];
    if n > 0 {
      ReadsRun(s, out, n - 1);
      var m := s.(popper := Draining(Patch(out, e, n - 1), Upto(n - 1)));
      assert Reads(e, n) == Reads(e, n - 1) + [ReadWord(n - 1, e[n - 1])];
      MemoryIsReadable(s, n - 1);
      assert s.ring[Slot(s.tail)] == e;
      SameMemory(s, m, n - 1, e[n - 1]);
      RunSnoc(s, Reads(e, n - 1), ReadWord(n - 1, e[n - 1]));
      PatchNext(out, e, n - 1);
      UptoNext(n - 1);
    } else {
      assert Upto(0) == {};
      assert Patch(out, e, 0) == out;
    }
  }

  lemma {:induction false} SameMemory(s: State, m: State, i: nat, value: Word)
    requires m.log == s.log && m.tail == s.tail && m.seenHead == s.seenHead && MayReadWord(s, i, value)
    ensures MayReadWord(m, i, value)
  {
    if NotOverwritten(s, i, 0) {
      assert NotOverwritten(m, i, 0);
    }
    if j :| 0 <= j < |s.log| && Aims(s, s.log[j], i) && s.log[j].value == value && NotOverwritten(s, i, j + 1) {
      assert Aims(m, m.log[j], i) && NotOverwritten(m, i, j + 1);
    }
  }

  /** One whole pop that finds an event. */
  function PopOne(out: Event, h: int, e: Event): seq<Action> { [Pop(out, h)] + (Reads(e, WORDS) + [Release]) }

  function AfterPop(s: State, h: int, e: Event): State {
    s.(seenHead := h, tail := s.tail + 1, popper := Resting, popped := s.popped + [e], answers := s.answers + [1])
  }

  lemma {:induction false} PopTakesTheNext(s: State, out: Event, h: int)
    requires Safe(s) && Enabled(s, Pop(out, h)) && s.tail < Pushed(h)
    ensures 0 <= s.tail < |s.accepted|
    ensures Run(s, PopOne(out, h, s.accepted[s.tail])) == Some(AfterPop(s, h, s.accepted[s.tail]))
  {
    var e, n := s.accepted[s.tail], Answered(s, out, h);
    PopKeeps(s, out, h);
    ReadsRun(n, out, WORDS);
    assert Patch(out, e, WORDS) == e;
    RunSnoc(n, Reads(e, WORDS), Release);
    var all := PopOne(out, h, e);
    assert all[0] == Pop(out, h) && all[1..] == Reads(e, WORDS) + [Release];
  }

  lemma {:induction false} WritesRun(s: State, e: Event, n: nat)
    requires s.reader == Filling(e, s.head, {}) && n <= WORDS
    ensures Run(s, Writes(n)).Some?
    ensures var r := Run(s, Writes(n)).value;
      r == s.(reader := Filling(e, s.head, Upto(n)), ring := r.ring, log := r.log)
      && r.ring == s.ring[Slot(s.head) := Patch(s.ring[Slot(s.head)], e, n)]
  {
    if n > 0 {
      WritesRun(s, e, n - 1);
      assert Writes(n) == Writes(n - 1) + [WriteWord(n - 1)];
      RunSnoc(s, Writes(n - 1), WriteWord(n - 1));
      PatchNext(s.ring[Slot(s.head)], e, n - 1);
      UptoNext(n - 1);
    } else {
      assert Patch(s.ring[Slot(s.head)], e, 0) == s.ring[Slot(s.head)];
    }
  }

  /** One whole line of input that is kept. */
  function Offer(e: Event, t: int): seq<Action> { [Arrive(e, t)] + (Writes(WORDS) + [Publish]) }

  lemma {:induction false} OfferAppends(s: State, e: Event, t: int)
    requires Safe(s) && Enabled(s, Arrive(e, t)) && s.head - t < RING
    ensures Run(s, Offer(e, t)).Some?
    ensures var r := Run(s, Offer(e, t)).value;
      && r.head == s.head + 1 && r.reader.Waiting? && r.accepted == s.accepted + [e]
      && r.ring == s.ring[Slot(s.head) := e]
      && r.tail == s.tail && r.popped == s.popped && r.popper == s.popper
  {
    var n := Arrived(s, e, t);
    WritesRun(n, e, WORDS);
    assert Patch(s.ring[Slot(s.head)], e, WORDS) == e;
    RunSnoc(n, Writes(WORDS), Publish);
    var all := Offer(e, t);
    assert all[0] == Arrive(e, t) && all[1..] == Writes(WORDS) + [Publish];
  }

  /** The pops that empty a closed ring. */
  function DrainAll(s: State): seq<Action>
    requires 0 <= s.tail && |s.accepted| == Pushed(s.head)
    decreases Pushed(s.head) - s.tail
  {
    if s.tail < Pushed(s.head) then
      PopOne(ZERO, s.head, s.accepted[s.tail]) + DrainAll(AfterPop(s, s.head, s.accepted[s.tail]))
    else [Pop(ZERO, s.head)]
  }

  /** Closing loses nothing: whenever the input has closed, pops alone bring out every event that was
      accepted, and then the answer is -1; also when nothing was ever accepted. */
  lemma {:induction false} ClosedRingDrains(s: State)
    requires Safe(s) && s.reader.Finished? && s.popper.Resting?
    ensures Run(s, DrainAll(s)).Some?
    ensures var r := Run(s, DrainAll(s)).value;
      r.popped == s.accepted == r.accepted && r.answers == s.answers + seq(Pushed(s.head) - s.tail, i => 1) + [-1]
    decreases Pushed(s.head) - s.tail
  {
    if s.tail < Pushed(s.head) {
      var e := s.accepted[s.tail];
      var n := AfterPop(s, s.head, e);
      PopTakesTheNext(s, ZERO, s.head);
      RunKeepsSafe(s, PopOne(ZERO, s.head, e));
      ClosedRingDrains(n);
      RunAppend(s, PopOne(ZERO, s.head, e), DrainAll(n));
      assert seq(Pushed(s.head) - s.tail, i => 1) == [1] + seq(Pushed(s.head) - n.tail, i => 1);
      assert s.answers + ([1] + seq(Pushed(s.head) - n.tail, i => 1)) + [-1]
          == n.answers + seq(Pushed(s.head) - n.tail, i => 1) + [-1];
    } else {
      var all := [Pop(ZERO, s.head)];
      assert all[1..] == [];
      assert s.popped == s.accepted;
      assert s.answers + seq(0, i => 1) + [-1] == s.answers + [-1];
    }
  }

  lemma {:induction false} RunKeepsSafe(s: State, actions: seq<Action>)
    requires Safe(s)
    ensures Run(s, actions).Some? ==> Safe(Run(s, actions).value)
    decreases |actions|
  {
    hide Safe, Enabled, Step;
    if actions != [] && Enabled(s, actions[0]) {
      StepKeepsSafe(s, actions[0]);
      RunKeepsSafe(Step(s, actions[0]), actions[1..]);
    }
  }

  lemma {:induction false} OneStep(s: State, a: Action)
    requires Enabled(s, a)
    ensures Run(s, [a]) == Some(Step(s, a))
  {
    assert [a][1..] == [];
  }

  lemma {:induction false} WritesNext(n: nat)
    ensures Writes(n + 1) == Writes(n) + [WriteWord(n)]
  {
  }

  /** The steps of a kept line, put together. */
  lemma {:induction false} OfferIsItsSteps(s: State, e: Event, t: int, m: State)
    requires Enabled(s, Arrive(e, t)) && Run(Arrived(s, e, t), Writes(WORDS)) == Some(m) && Enabled(m, Publish)
    ensures Run(s, Offer(e, t)) == Some(Published(m))
  {
    RunSnoc(Arrived(s, e, t), Writes(WORDS), Publish);
    var all := Offer(e, t);
    assert all[0] == Arrive(e, t) && all[1..] == Writes(WORDS) + [Publish];
  }

  lemma {:induction false} Nothing(s: State)
    ensures Upto(0) == {}
    ensures Run(s, Writes(0)) == Some(s)
  {
  }

  lemma {:induction false} InvIsSafe(s: State)
    requires Inv(s)
    ensures Safe(s)
  {
  }

  /** A popper that has copied every word has its event. */
  lemma {:induction false} AllRead(s: State)
    requires Inv(s) && s.popper.Draining? && s.popper.read == Upto(WORDS)
    ensures 0 <= s.tail < |s.accepted| && s.popper.out == s.accepted[s.tail]
  {
    assert forall i :: 0 <= i < WORDS ==> i in s.popper.read;
  }

  /** So once the input has closed, nothing that was kept is lost, however late both threads were. */
  lemma {:induction false} ClosedInputComesOutWhole(s: State)
    requires Reachable(s) && s.reader.Finished? && s.popper.Resting?
    ensures s.tail <= |s.accepted|
    ensures exists pops ::
      && Run(s, pops).Some? && Run(s, pops).value.popped == Kept(s.arrivals)
      && Run(s, pops).value.answers == s.answers + seq(|s.accepted| - s.tail, i => 1) + [-1]
  {
    ReachableInv(s);
    ClosedRingDrains(s);
    assert s.accepted + [] == s.accepted;
    assert Run(s, DrainAll(s)).Some?;
  }
}
