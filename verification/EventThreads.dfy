/**
 The code of the two threads over the shared ring. Every access to shared memory is followed by
 the step of the state machine that it is; the contracts say which run of steps each call makes,
 so an interleaving of the two threads is an interleaving of these runs.
 */
module EventThreads {
  import opened Options
  import opened EventRing

  class Ring {
    var slots: array2<Word>
    var head: int
    var tail: int
    /** Where the state machine stands. */
    ghost var state: State

    ghost predicate Mirrors()
      reads this, slots
    {
      && slots.Length0 == RING && slots.Length1 == WORDS
      && head == state.head && tail == state.tail
      && forall i, j :: 0 <= i < RING && 0 <= j < WORDS ==> slots[i, j] == state.ring[i][j]
    }

    /** The memory is that of the state machine, whose invariant holds. */
    ghost predicate Valid()
      reads this, slots
    {
      Mirrors() && Inv(state)
    }

    constructor ()
      ensures Valid() && fresh(slots) && state == Initial()
    {
      slots := new Word[RING, WORDS]((i, j) => 0);
      head, tail := 0, 0;
      state := Initial();
      new;
      InitialHolds();
    }

    /** The reader's turn for one parsed line, when its load of the tail returns `seen`: the event is
        dropped, or copied in word by word and published. */
    method Offer(event: Event, seen: int)
      requires Valid() && state.reader.Waiting? && MayLoadTail(state, seen)
      modifies this, slots
      ensures Valid() && slots == old(slots) && state.reader.Waiting? && state.popper == old(state.popper)
      ensures tail == old(tail)
      ensures old(head) - seen >= RING ==>
        head == old(head) && state.accepted == old(state.accepted)
        && Run(old(state), [Arrive(event, seen)]) == Some(state)
      ensures old(head) - seen < RING ==>
        head == old(head) + 1 && state.accepted == old(state.accepted) + [event]
        && Run(old(state), EventRing.Offer(event, seen)) == Some(state)
    {
      hide Inv, Run, MayReadWord, MayLoadHead, EventRing.Offer, Writes;
      ghost var start := state;
      var h := head;
      StepKeeps(state, Arrive(event, seen));
      OneStep(state, Arrive(event, seen));
      state := Arrived(state, event, seen);
      if h - seen >= RING {
        return;
      }
      CopyIn(event, h);
      OfferIsItsSteps(start, event, seen, state);
      StepKeeps(state, Publish);
      head := h + 1;
      state := Published(state);
    }

    /** The copy into a slot. */
    method CopyIn(event: Event, h: int)
      requires Valid() && state.reader == Filling(event, h, {})
      modifies slots, this`state
      ensures Valid() && state.reader == Filling(event, h, ALL_WORDS)
      ensures Run(old(state), Writes(WORDS)) == Some(state)
      ensures state.accepted == old(state).accepted && state.popper == old(state).popper
    {
      hide Inv, Run, MayReadWord, MayLoadHead, Writes, Upto;
      Nothing(state);
      for i := 0 to WORDS
        invariant Valid() && state.reader == Filling(event, h, Upto(i))
        invariant Run(old(state), Writes(i)) == Some(state)
        invariant state.accepted == old(state).accepted && state.popper == old(state).popper
      {
        UptoNext(i);
        RunSnoc(old(state), Writes(i), WriteWord(i));
        StepKeeps(state, WriteWord(i));
        WritesNext(i);
        slots[h % RING, i] := event[i];
        state := Written(state, i);
      }
    }

    /** The end of the input. */
    method CloseInput()
      requires Valid() && state.reader.Waiting?
      modifies this`head, this`state
      ensures Valid() && Run(old(state), [Close]) == Some(state)
      ensures head < 0 && Pushed(head) == old(head) && state.accepted == old(state.accepted)
    {
      assert head >= 0;
      hide Inv, MayReadWord, MayLoadHead, MayLoadTail;
      StepKeeps(state, Close);
      OneStep(state, Close);
      head := -head - 1;
      state := Step(state, Close);
    }

    /** The pop, when its load of the head returns `seen`. */
    method PopEvent(out: array<Word>, seen: int) returns (answer: int)
      requires Valid() && state.popper.Resting? && MayLoadHead(state, seen) && out.Length == WORDS
      modifies this`tail, this`state, out
      ensures Valid() && state.popper.Resting? && state.reader == old(state.reader)
      ensures head == old(head) && state.accepted == old(state.accepted)
      ensures state.answers == old(state.answers) + [answer]
      ensures answer == if old(tail) < Pushed(seen) then 1 else if seen < 0 then -1 else 0
      ensures answer == 1 ==>
        && tail == old(tail) + 1 && 0 <= old(tail) < |old(state.accepted)|
        && out[..] == old(state.accepted)[old(tail)]
        && Run(old(state), PopOne(old(out[..]), seen, out[..])) == Some(state)
      ensures answer != 1 ==>
        && tail == old(tail) && out[..] == old(out[..])
        && Run(old(state), [Pop(old(out[..]), seen)]) == Some(state)
    {
      hide Inv, Safe, Run, MayReadWord, MayLoadHead, PopOne, Reads;
      ghost var buffer: Event := out[..];
      ghost var start := state;
      StepKeeps(state, Pop(buffer, seen));
      OneStep(state, Pop(buffer, seen));
      state := Answered(state, buffer, seen);
      var closed := seen < 0;
      var h := if closed then -seen - 1 else seen;
      if tail >= h {
        return if closed then -1 else 0;
      }
      CopyOut(out, buffer);
      InvIsSafe(start);
      PopTakesTheNext(start, buffer, seen);
      StepKeeps(state, Release);
      tail := tail + 1;
      state := Released(state);
      return 1;
    }

    /** The copy out of a slot. */
    method CopyOut(out: array<Word>, ghost buffer: Event)
      requires Valid() && state.popper == Draining(buffer, {}) && out.Length == WORDS && out[..] == buffer
      modifies out, this`state
      ensures Valid() && 0 <= tail < |state.accepted|
      ensures out[..] == state.accepted[tail]
      ensures state == old(state).(popper := Draining(out[..], ALL_WORDS))
    {
      hide Inv, Safe, Run, MayReadWord, MayLoadHead, Upto;
      Nothing(state);
      for i := 0 to WORDS
        invariant Mirrors() && Inv(state) && state.popper.Draining?
        invariant out[..] == state.popper.out
        invariant state == old(state).(popper := Draining(out[..], Upto(i)))
      {
        UptoNext(i);
        InvIsSafe(state);
        MemoryIsReadable(state, i);
        StepKeeps(state, ReadWord(i, slots[tail % RING, i]));
        out[i] := slots[tail % RING, i];
        state := Read(state, i, slots[tail % RING, i]);
      }
      AllRead(state);
    }
  }
}
