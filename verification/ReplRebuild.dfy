/** A session run again from its history, on a new instance (host/session.ts:740-780, 833-871). */
module ReplRebuild {
  import opened ByteStrings
  import opened JournalEvents
  import opened JournalRecorder
  import opened JournalRecord
  import opened JournalReplay
  import opened Options

  /** The whole program: its storage when instantiated, the guest of each numbered input, and the reset. */
  datatype Program<!S> = Program(hash: Hash, start: S, guest: nat -> Guest<S>, reset: S -> S)

  type Texts = map<nat, seq<Byte>>

  predicate Skipped(input: RecordedInput) {
    input.end.Some? && ByStop(input.end.value)
  }

  /** The storage after an input repeats itself over `s`, if it does. */
  function Repeat<S>(program: Program<S>, texts: Texts, s: S, input: RecordedInput): Option<S> {
    if input.number !in texts || program.hash(texts[input.number]) != input.source then None
    else
      var o := Serve(program.hash, program.guest(input.number), s, 0, input.events);
      if !Accepted(o, input.end) then None
      else Some(if o.end == Exit(0) then o.state else program.reset(o.state))
  }

  /** Inputs that all repeat, one after another. */
  function RepeatAll<S>(program: Program<S>, texts: Texts, s: S, inputs: seq<RecordedInput>): Option<S>
    decreases |inputs|
  {
    if inputs == [] then Some(s)
    else
      match Repeat(program, texts, s, inputs[0])
      case None => None
      case Some(next) => RepeatAll(program, texts, next, inputs[1..])
  }

  /** The inputs that were not stopped or cancelled. */
  function Unskipped(inputs: seq<RecordedInput>): seq<RecordedInput>
    decreases |inputs|
  {
    if inputs == [] then []
    else (if Skipped(inputs[0]) then [] else [inputs[0]]) + Unskipped(inputs[1..])
  }

  /** What is kept are all the inputs that no stop request ended. */
  lemma {:induction false} UnskippedMeans(inputs: seq<RecordedInput>, input: RecordedInput)
    ensures input in Unskipped(inputs) <==> input in inputs && input.end != Some(Stopped) && input.end != Some(Cancelled)
    decreases |inputs|
  {
    if inputs != [] {
      UnskippedMeans(inputs[1..], input);
      assert inputs == [inputs[0]] + inputs[1..];
    }
  }

  lemma {:induction false} UnskippedJoins(a: seq<RecordedInput>, b: seq<RecordedInput>)
    ensures Unskipped(a + b) == Unskipped(a) + Unskipped(b)
    decreases |a|
  {
    hide Skipped;
    if a == [] {
      assert a + b == b;
      assert Unskipped(b) == [] + Unskipped(b);
    } else {
      assert (a + b)[0] == a[0] && (a + b)[1..] == a[1..] + b;
      UnskippedJoins(a[1..], b);
      var first := if Skipped(a[0]) then [] else [a[0]];
      assert first + (Unskipped(a[1..]) + Unskipped(b)) == first + Unskipped(a[1..]) + Unskipped(b);
    }
  }

  lemma {:induction false} RepeatsJoin<S>(program: Program<S>, texts: Texts, s: S, a: seq<RecordedInput>, b: seq<RecordedInput>)
    ensures RepeatAll(program, texts, s, a + b) ==
            match RepeatAll(program, texts, s, a) { case None => None case Some(t) => RepeatAll(program, texts, t, b) }
    decreases |a|
  {
    hide Repeat;
    if a == [] {
      assert a + b == b;
    } else {
      assert (a + b)[0] == a[0] && (a + b)[1..] == a[1..] + b;
      match Repeat(program, texts, s, a[0])
      case None =>
      case Some(next) => RepeatsJoin(program, texts, next, a[1..], b);
    }
  }

  lemma OneRepeats<S>(program: Program<S>, texts: Texts, s: S, input: RecordedInput)
    ensures RepeatAll(program, texts, s, [input]) == Repeat(program, texts, s, input)
    ensures Unskipped([input]) == if Skipped(input) then [] else [input]
  {
    hide Repeat, Skipped;
    assert [input][1..] == [];
  }

  /** How many inputs from the start were kept or skipped, and the storage the kept ones leave. */
  datatype Kept<S> = Kept(kept: seq<RecordedInput>, upTo: nat, state: S)

  /**
   * `replayHistory`: the inputs up to the first that does not repeat itself. Its storage is that of the kept ones,
   * before the failing one ran.
   */
  method ReplayHistory<S>(program: Program<S>, texts: Texts, inputs: seq<RecordedInput>) returns (k: Kept<S>)
    ensures k.upTo <= |inputs| && k.kept == Unskipped(inputs[..k.upTo])
    ensures RepeatAll(program, texts, program.start, k.kept) == Some(k.state)
    ensures k.upTo < |inputs| ==> !Skipped(inputs[k.upTo]) && Repeat(program, texts, k.state, inputs[k.upTo]) == None
  {
    hide Repeat, Skipped, RepeatAll, Unskipped;
    var kept: seq<RecordedInput>, s := [], program.start;
    assert RepeatAll(program, texts, s, kept) == Some(s) && Unskipped([]) == [] by { NoneRepeat(program, texts, s); }
    for at := 0 to |inputs|
      invariant kept == Unskipped(inputs[..at])
      invariant RepeatAll(program, texts, program.start, kept) == Some(s)
    {
      var input := inputs[at];
      assert inputs[..at + 1] == inputs[..at] + [input];
      UnskippedJoins(inputs[..at], [input]);
      OneRepeats(program, texts, s, input);
      if Skipped(input) {
        assert kept + [] == kept;
        continue;
      }
      var next := Repeat(program, texts, s, input);
      if next.None? {
        return Kept(kept, at, s);
      }
      RepeatsJoin(program, texts, program.start, kept, [input]);
      kept, s := kept + [input], next.value;
    }
    assert inputs[..|inputs|] == inputs;
    return Kept(kept, |inputs|, s);
  }

  lemma NoneRepeat<S>(program: Program<S>, texts: Texts, s: S)
    ensures RepeatAll(program, texts, s, []) == Some(s) && Unskipped([]) == []
  {}

  /** `repeatKept`, which throws when an input does not repeat itself. */
  method RepeatKept<S>(program: Program<S>, texts: Texts, kept: seq<RecordedInput>) returns (r: Option<S>)
    ensures r == RepeatAll(program, texts, program.start, kept)
  {
    hide Repeat;
    var s := program.start;
    for at := 0 to |kept|
      invariant RepeatAll(program, texts, program.start, kept) == RepeatAll(program, texts, s, kept[at..])
    {
      assert kept[at..][0] == kept[at] && kept[at..][1..] == kept[at + 1..];
      var next := Repeat(program, texts, s, kept[at]);
      if next.None? {
        return None;
      }
      s := next.value;
    }
    return Some(s);
  }

  /**
   * The session after its history ran again: what was kept and dropped, the storage that is left, and whether the
   * next input runs over it.
   */
  datatype Rerun<S> = Rerun(kept: seq<RecordedInput>, dropped: seq<nat>, state: S, goesOn: bool) | Unrepeated

  function NumbersOf(inputs: seq<RecordedInput>): (numbers: seq<nat>)
    ensures |numbers| == |inputs| && forall i :: 0 <= i < |inputs| ==> numbers[i] == inputs[i].number
  {
    seq(|inputs|, i requires 0 <= i < |inputs| => inputs[i].number)
  }

  /**
   * The history runs again, and when an input is dropped, the kept ones run once more on a new instance. That
   * never fails to repeat: the next input runs over what exactly the kept inputs leave, from nothing. It does not run
   * exactly when a dropped input is still in the program.
   */
  method RunHistory<S>(program: Program<S>, texts: Texts, inputs: seq<RecordedInput>) returns (r: Rerun<S>)
    ensures r.Rerun? && RepeatAll(program, texts, program.start, r.kept) == Some(r.state)
    ensures |r.dropped| <= |inputs| && r.kept == Unskipped(inputs[..|inputs| - |r.dropped|])
    ensures r.dropped == NumbersOf(inputs[|inputs| - |r.dropped|..])
    ensures r.dropped != [] ==> var first := inputs[|inputs| - |r.dropped|];
              !Skipped(first) && Repeat(program, texts, r.state, first) == None
    ensures r.goesOn <==> forall i :: |inputs| - |r.dropped| <= i < |inputs| ==> inputs[i].number !in texts
  {
    hide Repeat, RepeatAll, Unskipped, Skipped;
    var k := ReplayHistory(program, texts, inputs);
    var dropped := NumbersOf(inputs[k.upTo..]);
    var state := k.state;
    if dropped != [] {
      var again := RepeatKept(program, texts, k.kept);
      if again.None? {
        return Unrepeated;
      }
      state := again.value;
    }
    assert forall i :: k.upTo <= i < |inputs| ==> dropped[i - k.upTo] == inputs[i].number;
    return Rerun(k.kept, dropped, state, forall i :: 0 <= i < |dropped| ==> dropped[i] !in texts);
  }

  /** The input's text is the one it ran, and its record one that its guest could have left over `s`. */
  ghost predicate Recordable<S(!new)>(program: Program<S>, texts: Texts, s: S, input: RecordedInput) {
    && input.number in texts && program.hash(texts[input.number]) == input.source
    && input.end.Some? && Lives(program.hash, program.guest(input.number), s, input.events, input.end.value) && !ByStop(input.end.value)
  }

  /** An input repeats itself exactly when its text is known and its record is one its guest could have left. */
  lemma RepeatExactly<S(!new)>(program: Program<S>, texts: Texts, s: S, input: RecordedInput)
    requires AllKept(input.events)
    ensures Repeat(program, texts, s, input).Some? <==> Recordable(program, texts, s, input)
  {
    hide Serve, Lives, AllKept;
    if input.end.Some? {
      ReplayExactly(program.hash, program.guest(input.number), s, input.events, input.end.value);
    }
  }

  /** A repeated input leaves what any live run with its record leaves, reset after any other end than status 0. */
  lemma RepeatLeaves<S>(program: Program<S>, texts: Texts, s: S, input: RecordedInput, answers: seq<Answer>)
    requires input.number in texts && program.hash(texts[input.number]) == input.source
    requires var t := Live(program.hash, program.guest(input.number), s, 0, answers);
             t.Trace? && t.events == input.events && input.end == Some(t.end) && !ByStop(t.end)
    ensures var t, r := Live(program.hash, program.guest(input.number), s, 0, answers), Repeat(program, texts, s, input);
            && (t.end == Exit(0) ==> r == Some(t.state))
            && (t.end != Exit(0) ==> r == Some(program.reset(t.state)))
  {
    hide Live, Serve;
    LiveServes(program.hash, program.guest(input.number), s, 0, answers);
  }
}
