/** A session's linked inputs: checkpoints, cancelled inputs and rebuilds (host/session.ts:459-708). */
module ReplSession {
  import opened ByteStrings
  import opened JournalRows
  import opened JournalEvents
  import opened JournalRecorder
  import opened JournalRecord
  import opened JournalJoin
  import opened JournalArchive
  import opened JournalReplay
  import opened LinkedStorage
  import opened Options

  /** An input: its number, its source text and its module. */
  datatype Part = Part(number: nat, source: seq<Byte>, code: seq<Byte>)

  /**
   * The engine: the storage before any input, what instantiating the last of some modules does to it, the guest
   * that those modules are, and the reset after an input that did not end with status 0; the snapshot of a storage
   * and what restoring it over new instances of some modules gives; and which storages some modules can have left.
   */
  datatype Engine<!S> = Engine(
    hash: Hash, empty: S, extend: (seq<Part>, S) -> S, guest: seq<Part> -> Guest<S>, reset: S -> S,
    capture: S -> Snapshot, reopen: (seq<Part>, Snapshot) -> S, fits: (seq<Part>, S) -> bool)

  /** An input that ran: what the host answered, and the rows and the end it left. */
  datatype Past = Past(part: Part, answers: seq<Answer>, events: seq<Event>, end: End)

  function Parts(history: seq<Past>): (parts: seq<Part>)
    ensures |parts| == |history|
  {
    seq(|history|, i requires 0 <= i < |history| => history[i].part)
  }

  /** The storage an input leaves. */
  function Left<S>(engine: Engine<S>, end: End, state: S): S {
    if end == Exit(0) then state else engine.reset(state)
  }

  /** The live run of the last of the modules `code` over the storage `s`. */
  function LiveRun<S>(engine: Engine<S>, code: seq<Part>, s: S, answers: seq<Answer>): Trace<S> {
    Live(engine.hash, engine.guest(code), engine.extend(code, s), 0, answers)
  }

  function Served<S>(engine: Engine<S>, code: seq<Part>, s: S, events: seq<Event>): Outcome<S> {
    Serve(engine.hash, engine.guest(code), engine.extend(code, s), 0, events)
  }

  /** The storage after all the inputs, each run once, in order, from nothing. */
  function FromScratch<S>(engine: Engine<S>, history: seq<Past>): S {
    if history == [] then engine.empty
    else
      var n := |history| - 1;
      match LiveRun(engine, Parts(history), FromScratch(engine, history[..n]), history[n].answers)
      case Trace(_, end, state) => Left(engine, end, state)
      case Stuck => engine.empty
  }

  /** Each input, run from scratch, leaves its rows and comes to an end of its own. */
  predicate Genuine<S>(engine: Engine<S>, history: seq<Past>) {
    history == [] ||
    var n := |history| - 1;
    var t := LiveRun(engine, Parts(history), FromScratch(engine, history[..n]), history[n].answers);
    && Genuine(engine, history[..n])
    && t.Trace? && t.events == history[n].events && t.end == history[n].end && !ByStop(t.end)
  }

  lemma {:induction false} GenuineBefore<S>(engine: Engine<S>, history: seq<Past>, n: nat)
    requires Genuine(engine, history) && n <= |history|
    ensures Genuine(engine, history[..n])
    decreases |history|
  {
    hide LiveRun, FromScratch;
    if n == |history| {
      assert history[..n] == history;
    } else {
      var before := history[..|history| - 1];
      GenuineBefore(engine, before, n);
      assert before[..n] == history[..n];
    }
  }

  /** What the journal has of an input that ran. */
  function InputOf(hash: Hash, past: Past): RecordedInput {
    RecordedInput(past.part.number, hash(past.part.source), hash(past.part.code), past.events, Some(Ending(past.end)))
  }

  function InputsOf(hash: Hash, history: seq<Past>): (inputs: seq<RecordedInput>)
    ensures |inputs| == |history|
  {
    seq(|history|, i requires 0 <= i < |history| => InputOf(hash, history[i]))
  }

  // ----- what a live run leaves in the journal -----

  lemma {:induction false} LiveRows<S>(hash: Hash, g: Guest<S>, s: S, polls: nat, answers: seq<Answer>)
    requires Live(hash, g, s, polls, answers).Trace?
    ensures var es := Live(hash, g, s, polls, answers).events;
            AllKept(es) && forall i :: 0 <= i < |es| ==> !es[i].Input? && !es[i].Ended? && !es[i].Header?
    decreases |answers|, if polls == 0 then 1 else 0
  {
    hide RequestOf, Wrapped, LiveTurnOf;
    var ask, t := g.ask(s), LiveTurnOf(hash, g.ask(s), polls, answers);
    LiveTurnRow(hash, ask, polls, answers);
    if t.Row? {
      LiveRows(hash, g, g.resume(s, t.answer), Polls(ask, polls), answers[1..]);
    } else if t.Ready? {
      LiveRows(hash, g, g.resume(s, Polled), 1, answers);
    }
  }

  lemma LiveTurnRow(hash: Hash, ask: Ask, polls: nat, answers: seq<Answer>)
    ensures var t := LiveTurnOf(hash, ask, polls, answers);
            && (t.Row? ==> !t.event.Input? && !t.event.Ended? && !t.event.Header?)
            && (t.Row? && (t.event.Call? || t.event.Finish?) ==> Kept(t.event.reply) == t.event.reply)
            && (t.Ends? ==> |t.rows| <= 1 && (t.rows != [] ==> t.rows[0].Cancel?))
  {
    hide RequestOf, Wrapped;
    var t := LiveTurnOf(hash, ask, polls, answers);
    if t.Row? && (t.event.Call? || t.event.Finish?) {
      WrappedTwice(answers[0].reply.value);
    }
  }

  /** A genuine input's record is accepted again exactly when its status fits a byte, and leads to the same storage. */
  lemma PastReplays<S>(engine: Engine<S>, history: seq<Past>)
    requires history != [] && Genuine(engine, history)
    ensures var n := |history| - 1;
            var o := Served(engine, Parts(history), FromScratch(engine, history[..n]), history[n].events);
            && (Accepted(o, Some(Ending(history[n].end))) <==> Ending(history[n].end) == history[n].end)
            && o.Came? && o.end == history[n].end && Left(engine, o.end, o.state) == FromScratch(engine, history)
    ensures AllKept(history[|history| - 1].events) && Within(InputOf(engine.hash, history[|history| - 1]))
    ensures NoHeaders(history[|history| - 1].events) == history[|history| - 1].events
  {
    hide Live, Serve, AllKept, NoHeaders;
    var n := |history| - 1;
    var code, s := Parts(history), FromScratch(engine, history[..n]);
    LiveServes(engine.hash, engine.guest(code), engine.extend(code, s), 0, history[n].answers);
    LiveRows(engine.hash, engine.guest(code), engine.extend(code, s), 0, history[n].answers);
    NoHeadersFrom(history[n].events);
  }

  /** What the next input starts from: what the last run left, reset after any other end than status 0. */
  lemma ScratchLeaves<S>(engine: Engine<S>, history: seq<Past>, past: Past)
    requires Genuine(engine, history + [past])
    ensures var code := Parts(history) + [past.part];
            var t := Live(engine.hash, engine.guest(code), engine.extend(code, FromScratch(engine, history)), 0, past.answers);
            && t.Trace? && t.end == past.end
            && (past.end == Exit(0) ==> FromScratch(engine, history + [past]) == t.state)
            && (past.end != Exit(0) ==> FromScratch(engine, history + [past]) == engine.reset(t.state))
    ensures FromScratch(engine, []) == engine.empty
  {
    hide Live;
    var longer := history + [past];
    assert longer[..|history|] == history && Parts(longer) == Parts(history) + [past.part];
  }

  /** The rows of a cancelled or stopped input too are within it. */
  lemma LiveWithin<S>(engine: Engine<S>, code: seq<Part>, s: S, past: Past)
    requires var t := LiveRun(engine, code, s, past.answers); t.Trace? && t.events == past.events
    ensures Within(InputOf(engine.hash, past)) && NoHeaders(past.events) == past.events
  {
    hide Live, AllKept, NoHeaders;
    NoHeadersFrom(past.events);
    LiveRows(engine.hash, engine.guest(code), engine.extend(code, s), 0, past.answers);
  }

  // ----- what the engine keeps -----

  /** A snapshot holds one instance a module; restored over new instances of the modules, it gives the storage. */
  ghost predicate Reopens<S>(engine: Engine<S>, code: seq<Part>, s: S) {
    code != [] && engine.fits(code, s) ==>
      engine.capture(s).epochs == |code| && engine.reopen(code, engine.capture(s)) == s
  }

  /** A run of the last module over what the others left leaves what all can leave. */
  predicate StaysFit<S>(engine: Engine<S>, code: seq<Part>, s: S, answers: seq<Answer>) {
    code != [] && engine.fits(code[..|code| - 1], s) ==>
      match LiveRun(engine, code, s, answers)
      case Trace(_, end, state) => engine.fits(code, Left(engine, end, state))
      case Stuck => true
  }

  ghost predicate Lawful<S(!new)>(engine: Engine<S>) {
    && engine.fits([], engine.empty)
    && (forall code, s :: Reopens(engine, code, s))
    && (forall code, s, answers :: StaysFit(engine, code, s, answers))
  }

  /** The storage from scratch is one that its modules can have left. */
  lemma {:induction false} ScratchFits<S(!new)>(engine: Engine<S>, history: seq<Past>)
    requires Lawful(engine) && Genuine(engine, history)
    ensures engine.fits(Parts(history), FromScratch(engine, history))
    decreases |history|
  {
    hide LiveRun, Parts;
    if history == [] {
      assert Parts(history) == [];
    } else {
      var n := |history| - 1;
      ScratchFits(engine, history[..n]);
      PartsBefore(history, n);
      assert StaysFit(engine, Parts(history), FromScratch(engine, history[..n]), history[n].answers);
    }
  }

  lemma PartsBefore(history: seq<Past>, n: nat)
    requires n <= |history|
    ensures Parts(history)[..n] == Parts(history[..n])
  {}

  /** A snapshot taken after the first inputs gives the storage after them again. */
  lemma ScratchReopens<S(!new)>(engine: Engine<S>, history: seq<Past>)
    requires Lawful(engine) && Genuine(engine, history) && history != []
    ensures var snapshot := engine.capture(FromScratch(engine, history));
            snapshot.epochs == |history| && engine.reopen(Parts(history), snapshot) == FromScratch(engine, history)
  {
    hide Parts, FromScratch, Genuine;
    ScratchFits(engine, history);
    assert Reopens(engine, Parts(history), FromScratch(engine, history));
    assert |Parts(history)| == |history|;
  }

  // ----- rebuilding from a snapshot -----

  datatype Refusal = Mismatch | Unrepeated | Unexpected | WrongEpoch

  datatype Built<S> = Built(state: S, rows: seq<Event>) | Refused(why: Refusal)

  /** The rows of an input replayed and recorded again. */
  function Again(hash: Hash, part: Part, events: seq<Event>, end: End): seq<Event> {
    EventsOf(RecordedInput(part.number, hash(part.source), hash(part.code), events, Some(Ending(end))))
  }

  /** The modules past the first `count` + `offset`, replayed over `s` from the recorded `tail`. */
  function RebuildFrom<S>(engine: Engine<S>, modules: seq<Part>, count: nat, s: S, tail: seq<RecordedInput>, offset: nat): Built<S>
    requires count + offset <= |modules|
    decreases |modules| - offset
  {
    if count + offset == |modules| then (if |tail| == |modules| - count then Built(s, []) else Refused(Refusal.Unexpected))
    else
      var part := modules[count + offset];
      if offset >= |tail| || tail[offset].number != part.number || tail[offset].source != engine.hash(part.source) then
        Refused(Mismatch)
      else
        var o := Served(engine, modules[..count + offset + 1], s, tail[offset].events);
        if !Accepted(o, tail[offset].end) then Refused(Unrepeated)
        else
          match RebuildFrom(engine, modules, count, Left(engine, o.end, o.state), tail, offset + 1)
          case Refused(why) => Refused(why)
          case Built(state, rows) => Built(state, Again(engine.hash, part, tail[offset].events, o.end) + rows)
  }

  /** The loop of `restoreLinked` (host/session.ts:559-566). */
  method Rebuild<S>(engine: Engine<S>, modules: seq<Part>, count: nat, start: S, tail: seq<RecordedInput>) returns (b: Built<S>)
    requires count <= |modules|
    ensures b == RebuildFrom(engine, modules, count, start, tail, 0)
  {
    hide Served, Again;
    var s, rows: seq<Event> := start, [];
    for offset := 0 to |modules| - count
      invariant RebuildFrom(engine, modules, count, start, tail, 0) ==
                match RebuildFrom(engine, modules, count, s, tail, offset)
                case Refused(why) => Refused(why)
                case Built(state, more) => Built(state, rows + more)
    {
      var part := modules[count + offset];
      if offset >= |tail| || tail[offset].number != part.number || tail[offset].source != engine.hash(part.source) {
        return Refused(Mismatch);
      }
      var o := Served(engine, modules[..count + offset + 1], s, tail[offset].events);
      if !Accepted(o, tail[offset].end) {
        return Refused(Unrepeated);
      }
      var again := Again(engine.hash, part, tail[offset].events, o.end);
      ghost var next := RebuildFrom(engine, modules, count, Left(engine, o.end, o.state), tail, offset + 1);
      assert next.Built? ==> rows + (again + next.rows) == rows + again + next.rows;
      rows := rows + again;
      s := Left(engine, o.end, o.state);
    }
    if |tail| != |modules| - count {
      return Refused(Refusal.Unexpected);
    }
    assert rows + [] == rows;
    return Built(s, rows);
  }

  /** The recorded statuses from input n on are the inputs' own. */
  ghost predicate StatusesHold(history: seq<Past>, n: nat) {
    forall i :: n <= i < |history| ==> Ending(history[i].end) == history[i].end
  }

  lemma UngroupFirst(input: RecordedInput, rest: seq<RecordedInput>)
    ensures Ungroup([input] + rest) == EventsOf(input) + Ungroup(rest)
  {
    hide EventsOf;
    UngroupJoins([input], rest);
    assert [input][..0] == [] && Ungroup([]) + EventsOf(input) == EventsOf(input);
  }

  /** One turn of the rebuild over a matching record. */
  lemma RebuildTurn<S>(engine: Engine<S>, modules: seq<Part>, count: nat, s: S, tail: seq<RecordedInput>, offset: nat)
    requires count + offset < |modules| && offset < |tail|
    requires tail[offset].number == modules[count + offset].number && tail[offset].source == engine.hash(modules[count + offset].source)
    ensures var o := Served(engine, modules[..count + offset + 1], s, tail[offset].events);
            var b := RebuildFrom(engine, modules, count, s, tail, offset);
            if !Accepted(o, tail[offset].end) then b == Refused(Unrepeated)
            else
              var rest := RebuildFrom(engine, modules, count, Left(engine, o.end, o.state), tail, offset + 1);
              var again := Again(engine.hash, modules[count + offset], tail[offset].events, o.end);
              b == if rest.Refused? then rest else Built(rest.state, again + rest.rows)
  {
    hide Served, Accepted, Again;
  }

  /** The record and the module of input `cut` + `offset`. */
  lemma TailRow(hash: Hash, history: seq<Past>, cut: nat, offset: nat)
    requires cut + offset < |history|
    ensures var n := cut + offset;
            && |InputsOf(hash, history[cut..])| == |history| - cut && InputsOf(hash, history[cut..])[offset] == InputOf(hash, history[n])
            && Parts(history)[n] == history[n].part && Parts(history[..n + 1]) == Parts(history)[..n + 1]
            && history[..n + 1][..n] == history[..n] && |history[..n + 1]| == n + 1 && history[..n + 1][n] == history[n]
            && InputsOf(hash, history[n..]) == [InputOf(hash, history[n])] + InputsOf(hash, history[n + 1..])
  {}

  lemma NoneLeft(hash: Hash, history: seq<Past>)
    ensures history[..|history|] == history && InputsOf(hash, history[|history|..]) == [] && Ungroup([]) == []
  {}

  /**
   * Snapshot and tail replay give what running every input from scratch gives: exactly when every replayed
   * input's status fits the byte it is kept in.
   */
  lemma {:induction false} RebuildsHistory<S>(engine: Engine<S>, history: seq<Past>, cut: nat, offset: nat)
    requires Genuine(engine, history) && cut + offset <= |history|
    ensures RebuildFrom(engine, Parts(history), cut, FromScratch(engine, history[..cut + offset]), InputsOf(engine.hash, history[cut..]), offset)
            == if StatusesHold(history, cut + offset)
               then Built(FromScratch(engine, history), Ungroup(InputsOf(engine.hash, history[cut + offset..])))
               else Refused(Unrepeated)
    decreases |history| - offset
  {
    hide FromScratch, Genuine, Served, EventsOf, Ungroup, AllKept, NoHeaders, InputsOf, Parts, RebuildFrom, Left, Within, Ending, Accepted;
    var n, modules, tail := cut + offset, Parts(history), InputsOf(engine.hash, history[cut..]);
    if n == |history| {
      NoneLeft(engine.hash, history);
      assert RebuildFrom(engine, modules, cut, FromScratch(engine, history), tail, offset) == Built(FromScratch(engine, history), []) by {
        RebuildEnds(engine, modules, cut, FromScratch(engine, history), tail, offset);
      }
    } else {
      var past, s := history[n], FromScratch(engine, history[..n]);
      TailRow(engine.hash, history, cut, offset);
      GenuineBefore(engine, history, n + 1);
      PastReplays(engine, history[..n + 1]);
      RebuildTurn(engine, modules, cut, s, tail, offset);
      RebuildsHistory(engine, history, cut, offset + 1);
      UngroupFirst(InputOf(engine.hash, past), InputsOf(engine.hash, history[n + 1..]));
      assert StatusesHold(history, n) <==> StatusesHold(history, n + 1) && Ending(past.end) == past.end;
    }
  }

  lemma RebuildEnds<S>(engine: Engine<S>, modules: seq<Part>, count: nat, s: S, tail: seq<RecordedInput>, offset: nat)
    requires count + offset == |modules| && |tail| == |modules| - count
    ensures RebuildFrom(engine, modules, count, s, tail, offset) == Built(s, [])
  {}

  // ----- the cancelled input -----

  /** The inputs that were not cancelled (host/session.ts:540-542). */
  function Uncancelled(inputs: seq<RecordedInput>, cancelled: Option<nat>): seq<RecordedInput> {
    if inputs == [] then []
    else
      var n := |inputs| - 1;
      Uncancelled(inputs[..n], cancelled) + if cancelled == Some(inputs[n].number) then [] else [inputs[n]]
  }

  lemma {:induction false} UncancelledAll(inputs: seq<RecordedInput>, cancelled: Option<nat>)
    requires forall i :: 0 <= i < |inputs| ==> cancelled != Some(inputs[i].number)
    ensures Uncancelled(inputs, cancelled) == inputs
  {
    if inputs != [] {
      var n := |inputs| - 1;
      UncancelledAll(inputs[..n], cancelled);
      assert inputs == inputs[..n] + [inputs[n]];
    }
  }

  lemma UncancelledTail(inputs: seq<RecordedInput>, undone: seq<RecordedInput>, cancelled: Option<nat>)
    requires forall i :: 0 <= i < |inputs| ==> cancelled != Some(inputs[i].number)
    requires undone == [] || (|undone| == 1 && cancelled == Some(undone[0].number))
    ensures Uncancelled(inputs + undone, cancelled) == inputs
  {
    UncancelledAll(inputs, cancelled);
    if undone == [] {
      assert inputs + undone == inputs;
    } else {
      assert (inputs + undone)[..|inputs|] == inputs;
    }
  }

  // ----- the session -----

  /** The committed inputs ran from scratch, in order, and their modules are kept. */
  ghost predicate Committed<S>(engine: Engine<S>, history: seq<Past>, modules: seq<Part>) {
    Genuine(engine, history) && Increasing(history) && modules == Parts(history)
  }

  /** The checkpoint is of the storage after the archived inputs. */
  ghost predicate Checkpointed<S>(engine: Engine<S>, history: seq<Past>, cut: nat, checkpoint: Option<Snapshot>) {
    && cut <= |history|
    && if checkpoint.None? then cut == 0
       else cut > 0 && checkpoint.value == engine.capture(FromScratch(engine, history[..cut]))
  }

  /** The active journal holds the inputs that are not archived, and the cancelled one. */
  ghost predicate Journaled(hash: Hash, execution: seq<Byte>, history: seq<Past>, cut: nat, undone: seq<Past>, rows: seq<Event>) {
    && cut <= |history|
    && var tail := InputsOf(hash, history[cut..]) + InputsOf(hash, undone);
      rows == RunOf(execution, tail) && Sealed(tail)
  }

  /** The archives hold the others. */
  ghost predicate Filed(hash: Hash, execution: seq<Byte>, history: seq<Past>, cut: nat, archives: seq<seq<Byte>>, archived: seq<seq<RecordedInput>>) {
    && cut <= |history|
    && archives == ChunksOf(execution, archived) && Flat(archived) == InputsOf(hash, history[..cut])
    && forall i :: 0 <= i < |archived| ==> Sealed(archived[i])
  }

  class Session<!S(!new)> {
    const engine: Engine<S>
    const execution: seq<Byte>
    const cap: int
    /** The initialized storage of the live instances, and how many they are. */
    var state: S
    var epochs: nat
    var modules: seq<Part>
    var checkpoint: Option<Snapshot>
    var archives: seq<seq<Byte>>
    /** The rows of the active journal. */
    var rows: seq<Event>
    var cancelled: Option<nat>
    /** The committed inputs; how many of them are archived, and in which archives; the cancelled input. */
    ghost var history: seq<Past>
    ghost var cut: nat
    ghost var archived: seq<seq<RecordedInput>>
    ghost var undone: seq<Past>

    /** The inputs of the active journal. */
    ghost function Tail(): seq<RecordedInput>
      reads this
      requires cut <= |history|
    {
      InputsOf(engine.hash, history[cut..]) + InputsOf(engine.hash, undone)
    }

    ghost predicate Valid()
      reads this
    {
      && Lawful(engine) && cut <= |history|
      && Committed(engine, history, modules)
      && Checkpointed(engine, history, cut, checkpoint)
      && Journaled(engine.hash, execution, history, cut, undone, rows)
      && Filed(engine.hash, execution, history, cut, archives, archived)
      && if cancelled.None? then undone == [] && state == FromScratch(engine, history) && epochs == |history|
         else |undone| == 1 && undone[0].part.number == cancelled.value && Above(history, cancelled.value)
    }

    constructor (engine: Engine<S>, execution: seq<Byte>, cap: int)
      requires Lawful(engine)
      ensures Valid() && history == [] && cancelled == None && this.engine == engine && this.execution == execution && this.cap == cap
    {
      this.engine, this.execution, this.cap := engine, execution, cap;
      state, epochs, modules, checkpoint, archives := engine.empty, 0, [], None, [];
      rows, cancelled := [Header(1, execution)], None;
      history, cut, archived, undone := [], 0, [], [];
      new;
      hide Lawful, FromScratch, Committed, Checkpointed, Journaled, Filed;
      NothingRun(engine, execution);
    }

    /**
     * Rebuilds the storage without the cancelled input. It is refused exactly when an input since the checkpoint
     * ended with a status that its record does not hold, and then nothing changes.
     */
    method RestoreLinked() returns (refused: Option<Refusal>)
      requires Valid() && Clean(rows)
      modifies this`state, this`epochs, this`rows, this`cancelled, this`undone
      ensures Valid() && (refused == None <==> StatusesHold(history, cut))
      ensures refused == None ==> cancelled == None
      ensures refused.Some? ==> state == old(state) && epochs == old(epochs) && rows == old(rows) && cancelled == old(cancelled)
    {
      hide Lawful, FromScratch, Genuine, RebuildFrom, RecordIn, Sealed, Clean, JournalOf, InputsOf, Parts, Uncancelled, StatusesHold, Above,
        Committed, Checkpointed, Journaled, Filed, Ungroup;
      JournalOpens(engine.hash, execution, history, cut, undone, rows, cancelled);
      var record := Recorded(JournalOf(rows));
      var tail := Uncancelled(record.value.inputs, cancelled);
      var count := if checkpoint.None? then 0 else checkpoint.value.epochs;
      CheckpointOpens(engine, history, modules, cut, checkpoint);
      var start := if checkpoint.None? then engine.empty else engine.reopen(modules[..count], checkpoint.value);
      HistoryRebuilds(engine, history, modules, cut);
      var built := Rebuild(engine, modules, count, start, tail);
      if built.Refused? {
        return Some(built.why);
      }
      state, epochs, cancelled := built.state, |modules|, None;
      rows := [Header(1, execution)] + built.rows;
      undone := [];
      JournalWithout(engine.hash, execution, history, cut, old(undone), old(rows));
      return None;
    }

    /**
     * Runs an input over the initialized storage. Wherever checkpoints fell and whatever was cancelled before,
     * it runs as it would after every committed input was run from scratch; a stopped one is not committed.
     */
    method RunLinkedInput(part: Part, epoch: nat, answers: seq<Answer>) returns (refused: Option<Refusal>, ran: Trace<S>)
      requires Valid() && Above(history, part.number) && (cancelled.Some? ==> Clean(rows))
      requires LiveRun(engine, Parts(history) + [part], FromScratch(engine, history), answers).Trace?
      modifies this
      ensures Valid()
      ensures refused == None <==> (old(cancelled).Some? ==> StatusesHold(old(history), old(cut))) && epoch == |old(history)|
      ensures refused.Some? ==> history == old(history)
      ensures refused == None ==>
                var code := Parts(old(history)) + [part];
                ran == Live(engine.hash, engine.guest(code), engine.extend(code, FromScratch(engine, old(history))), 0, answers)
      ensures refused == None ==> ran.Trace? && (ran.end == Exit(0) ==> state == ran.state)
      ensures refused == None ==> ran.Trace? && (ran.end != Exit(0) ==> state == engine.reset(ran.state))
      ensures refused == None ==>
                history == if ByStop(ran.end) then old(history) else old(history) + [Past(part, answers, ran.events, ran.end)]
      ensures refused == None ==> cancelled == if ByStop(ran.end) then Some(part.number) else None
    {
      hide Lawful, FromScratch, Clean, Parts, StatusesHold, Above, Live, Committed, Checkpointed, Journaled, Filed;
      ran := Stuck;
      if cancelled.Some? {
        refused := RestoreLinked();
        if refused.Some? {
          return;
        }
      }
      if epoch != epochs {
        return Some(WrongEpoch), Stuck;
      }
      refused := None;
      ran := RunExtended(part, answers);
    }

    /** The input's run over the storage, and its commit unless a stop request ended it. */
    method RunExtended(part: Part, answers: seq<Answer>) returns (ran: Trace<S>)
      requires Valid() && cancelled.None? && Above(history, part.number)
      requires LiveRun(engine, Parts(history) + [part], FromScratch(engine, history), answers).Trace?
      modifies this
      ensures Valid()
      ensures var code := Parts(old(history)) + [part];
              ran == Live(engine.hash, engine.guest(code), engine.extend(code, FromScratch(engine, old(history))), 0, answers)
      ensures ran.end == Exit(0) ==> state == ran.state
      ensures ran.end != Exit(0) ==> state == engine.reset(ran.state)
      ensures history == if ByStop(ran.end) then old(history) else old(history) + [Past(part, answers, ran.events, ran.end)]
      ensures cancelled == if ByStop(ran.end) then Some(part.number) else None
    {
      hide Lawful, FromScratch, JournalOf, Parts, Above, Live, Committed, Checkpointed, Journaled, Filed;
      var code := modules + [part];
      ModulesAre(engine, history, modules);
      ran := LiveRun(engine, code, state, answers);
      ghost var past := Past(part, answers, ran.events, ran.end);
      var input := RecordedInput(part.number, engine.hash(part.source), engine.hash(part.code), ran.events, Some(Ending(ran.end)));
      JournalGrows(engine, execution, history, cut, rows, past, input);
      rows := rows + EventsOf(input);
      state, epochs := Left(engine, ran.end, ran.state), epochs + 1;
      if ran.end.Stopped? || ran.end.Cancelled? {
        cancelled, undone := Some(part.number), [past];
        return;
      }
      RunCommits(engine, history, modules, past);
      RunKeeps(engine, execution, history, cut, checkpoint, archives, archived, past);
      modules := code;
      history := history + [past];
      if |JournalOf(rows)| > cap {
        Archive();
      }
    }

    /** The session's whole journal: the archives and the active one, joined. */
    method HistoryJournal() returns (r: Result<seq<Byte>>)
      requires Valid()
      ensures r == if archives == [] then Ok(JournalOf(rows)) else Joined(archives + [JournalOf(rows)])
      ensures Readable() ==> r.Ok? && RecordIn(r.value) == Ok(Record(execution, Everything(this)))
    {
      hide *;
      if Readable() {
        HistoryReads(this);
      }
      if archives == [] {
        return Ok(JournalOf(rows));
      }
      r := JoinJournals(archives + [JournalOf(rows)]);
    }

    /** The active journal, each archive and all of them joined stay within the widths, and no two methods share a key. */
    ghost predicate Readable()
      reads this
    {
      && cut <= |history| && Clean(rows) && Clean(RunOf(execution, Everything(this)))
      && forall i :: 0 <= i < |archived| ==> Clean(RunOf(execution, archived[i]))
    }

    /** The checkpoint: the storage's snapshot is kept, the journal archived, and a new one started. */
    method Archive()
      requires Valid() && cancelled.None? && history != []
      modifies this`checkpoint, this`archives, this`rows, this`cut, this`archived
      ensures Valid() && cut == |history|
    {
      hide Lawful, FromScratch, JournalOf, Committed, Checkpointed, Journaled, Filed, InputsOf;
      ModulesAre(engine, history, modules);
      checkpoint := Some(engine.capture(state));
      archives := archives + [JournalOf(rows)];
      archived := archived + [InputsOf(engine.hash, history[cut..])];
      rows := [Header(1, execution)];
      AllFiled(engine, execution, history, old(cut), old(rows), old(archives), old(archived), checkpoint);
      cut := |history|;
    }
  }

  // ----- what a run, a checkpoint and a restore do to the parts of a session -----

  lemma ModulesAre<S>(engine: Engine<S>, history: seq<Past>, modules: seq<Part>)
    requires Committed(engine, history, modules)
    ensures modules == Parts(history) && |modules| == |history|
  {}

  /** The input's rows follow in the journal, whether it is committed or cancelled. */
  lemma JournalGrows<S>(engine: Engine<S>, execution: seq<Byte>, history: seq<Past>, cut: nat, rows: seq<Event>, past: Past, input: RecordedInput)
    requires Journaled(engine.hash, execution, history, cut, [], rows) && input == InputOf(engine.hash, past)
    requires var t := LiveRun(engine, Parts(history) + [past.part], FromScratch(engine, history), past.answers);
             t.Trace? && t.events == past.events
    ensures Journaled(engine.hash, execution, history, cut, [past], rows + EventsOf(input))
    ensures Journaled(engine.hash, execution, history + [past], cut, [], rows + EventsOf(input))
  {
    hide FromScratch, Sealed, InputsOf, Parts, LiveRun, RunOf, EventsOf, NoHeaders, Within;
    var inputs, one := InputsOf(engine.hash, history[cut..]), InputsOf(engine.hash, [past]);
    NoInputs(engine.hash);
    assert inputs + [] == inputs;
    LiveWithin(engine, Parts(history) + [past.part], FromScratch(engine, history), past);
    InputsGrow(engine.hash, execution, history, past, cut);
    assert (inputs + one) + [] == inputs + one;
  }

  lemma RunCommits<S>(engine: Engine<S>, history: seq<Past>, modules: seq<Part>, past: Past)
    requires Committed(engine, history, modules) && Above(history, past.part.number)
    requires var t := LiveRun(engine, Parts(history) + [past.part], FromScratch(engine, history), past.answers);
             t.Trace? && t.events == past.events && t.end == past.end && !ByStop(t.end)
    ensures Committed(engine, history + [past], modules + [past.part])
    ensures var t := LiveRun(engine, Parts(history) + [past.part], FromScratch(engine, history), past.answers);
            FromScratch(engine, history + [past]) == Left(engine, t.end, t.state)
  {
    hide Genuine, FromScratch, Parts, LiveRun, Above, Increasing;
    HistoryGrows(engine, history, past);
  }

  /** A committed input leaves the checkpoint and the archives as they are. */
  lemma RunKeeps<S>(engine: Engine<S>, execution: seq<Byte>, history: seq<Past>, cut: nat, checkpoint: Option<Snapshot>,
      archives: seq<seq<Byte>>, archived: seq<seq<RecordedInput>>, past: Past)
    requires Checkpointed(engine, history, cut, checkpoint) && Filed(engine.hash, execution, history, cut, archives, archived)
    ensures Checkpointed(engine, history + [past], cut, checkpoint) && Filed(engine.hash, execution, history + [past], cut, archives, archived)
  {
    hide FromScratch, InputsOf, Sealed, ChunksOf, Flat;
    SameBefore(history, past, cut);
  }

  /** A checkpoint of the whole history: the active journal is one more archive, and a new one is empty. */
  lemma AllFiled<S>(engine: Engine<S>, execution: seq<Byte>, history: seq<Past>, cut: nat, rows: seq<Event>, archives: seq<seq<Byte>>,
      archived: seq<seq<RecordedInput>>, checkpoint: Option<Snapshot>)
    requires history != [] && Journaled(engine.hash, execution, history, cut, [], rows)
    requires Filed(engine.hash, execution, history, cut, archives, archived)
    requires checkpoint == Some(engine.capture(FromScratch(engine, history)))
    ensures Checkpointed(engine, history, |history|, checkpoint)
    ensures Journaled(engine.hash, execution, history, |history|, [], [Header(1, execution)])
    ensures Filed(engine.hash, execution, history, |history|, archives + [JournalOf(rows)], archived + [InputsOf(engine.hash, history[cut..])])
  {
    hide FromScratch, InputsOf, Sealed, ChunksOf, Flat, JournalOf, RunOf;
    var inputs := InputsOf(engine.hash, history[cut..]);
    NoInputs(engine.hash);
    assert inputs + [] == inputs;
    assert history[..|history|] == history && history[|history|..] == [];
    ChunksGrow(execution, archived, inputs);
    InputsJoin(engine.hash, history, cut);
    NothingSealed(execution);
    var none: seq<RecordedInput> := [];
    assert none + none == none;
  }

  /** The active journal reads as its inputs, and without the cancelled one they are those after the checkpoint. */
  lemma JournalOpens(hash: Hash, execution: seq<Byte>, history: seq<Past>, cut: nat, undone: seq<Past>, rows: seq<Event>, cancelled: Option<nat>)
    requires Journaled(hash, execution, history, cut, undone, rows) && Clean(rows)
    requires if cancelled.None? then undone == []
             else |undone| == 1 && undone[0].part.number == cancelled.value && Above(history, cancelled.value)
    ensures var record := RecordIn(JournalOf(rows));
            record.Ok? && Uncancelled(record.value.inputs, cancelled) == InputsOf(hash, history[cut..])
  {
    hide Sealed, InputsOf, Clean, RecordIn, JournalOf, RunOf, Above, Uncancelled;
    ActiveTail(hash, execution, history, cut, undone, cancelled);
  }

  /** The snapshot restored over new instances of the modules it holds is the storage from scratch. */
  lemma CheckpointOpens<S(!new)>(engine: Engine<S>, history: seq<Past>, modules: seq<Part>, cut: nat, checkpoint: Option<Snapshot>)
    requires Lawful(engine) && Committed(engine, history, modules) && Checkpointed(engine, history, cut, checkpoint)
    ensures cut <= |history| == |modules| && cut == if checkpoint.None? then 0 else checkpoint.value.epochs
    ensures FromScratch(engine, history[..cut]) ==
            if checkpoint.None? then engine.empty else engine.reopen(modules[..cut], checkpoint.value)
  {
    hide Lawful, FromScratch, Parts, Genuine, Increasing;
    assert |modules| == |history|;
    if checkpoint.None? {
      ScratchEmpty(engine, history);
    } else {
      GenuineBefore(engine, history, cut);
      ScratchReopens(engine, history[..cut]);
      PartsBefore(history, cut);
    }
  }

  lemma HistoryRebuilds<S>(engine: Engine<S>, history: seq<Past>, modules: seq<Part>, cut: nat)
    requires Committed(engine, history, modules) && cut <= |history| == |modules|
    ensures RebuildFrom(engine, modules, cut, FromScratch(engine, history[..cut]), InputsOf(engine.hash, history[cut..]), 0)
            == if StatusesHold(history, cut) then Built(FromScratch(engine, history), Ungroup(InputsOf(engine.hash, history[cut..])))
               else Refused(Unrepeated)
  {
    hide FromScratch, Parts, Genuine, Increasing, RebuildFrom, InputsOf, Ungroup, StatusesHold;
    RebuildsHistory(engine, history, cut, 0);
  }

  /** The rows written again while the tail replays are a journal without the cancelled input. */
  lemma JournalWithout(hash: Hash, execution: seq<Byte>, history: seq<Past>, cut: nat, undone: seq<Past>, rows: seq<Event>)
    requires Journaled(hash, execution, history, cut, undone, rows)
    ensures Journaled(hash, execution, history, cut, [], [Header(1, execution)] + Ungroup(InputsOf(hash, history[cut..])))
  {
    hide Sealed, InputsOf, Ungroup;
    var inputs := InputsOf(hash, history[cut..]);
    SealedPart(inputs, InputsOf(hash, undone));
    NoInputs(hash);
    assert inputs + [] == inputs;
  }

  /** The active journal is read as its inputs; without the cancelled one they are the committed ones. */
  lemma ActiveTail(hash: Hash, execution: seq<Byte>, history: seq<Past>, cut: nat, undone: seq<Past>, cancelled: Option<nat>)
    requires cut <= |history|
    requires if cancelled.None? then undone == []
             else |undone| == 1 && undone[0].part.number == cancelled.value && Above(history, cancelled.value)
    requires var all := InputsOf(hash, history[cut..]) + InputsOf(hash, undone); Sealed(all) && Clean(RunOf(execution, all))
    ensures var inputs, all := InputsOf(hash, history[cut..]), InputsOf(hash, history[cut..]) + InputsOf(hash, undone);
            && RecordIn(JournalOf(RunOf(execution, all))) == Ok(Record(execution, all))
            && Uncancelled(all, cancelled) == inputs && Sealed(inputs)
  {
    hide RecordIn, JournalOf, Clean, AllWithin, AllEnded, Headerless, Uncancelled, RunOf;
    var inputs, later := InputsOf(hash, history[cut..]), InputsOf(hash, undone);
    RunDecodes(execution, inputs + later);
    SealedPart(inputs, later);
    if cancelled.Some? {
      forall i | 0 <= i < |inputs|
        ensures cancelled != Some(inputs[i].number)
      {
        assert history[cut..][i] == history[cut + i];
      }
    }
    UncancelledTail(inputs, later, cancelled);
  }

  lemma NoInputs(hash: Hash)
    ensures InputsOf(hash, []) == []
  {}

  ghost predicate Increasing(history: seq<Past>) {
    forall i, j :: 0 <= i < j < |history| ==> history[i].part.number < history[j].part.number
  }

  ghost predicate Above(history: seq<Past>, number: nat) {
    forall i :: 0 <= i < |history| ==> history[i].part.number < number
  }

  /** Inputs whole in themselves: ended, without headers, starts or ends inside. */
  ghost predicate Sealed(inputs: seq<RecordedInput>) {
    AllWithin(inputs) && AllEnded(inputs) && Headerless(inputs)
  }

  lemma SealedPart(a: seq<RecordedInput>, b: seq<RecordedInput>)
    ensures Sealed(a + b) <==> Sealed(a) && Sealed(b)
  {
    hide NoHeaders, Within;
    var s := a + b;
    assert forall i :: 0 <= i < |a| ==> s[i] == a[i];
    assert forall i :: 0 <= i < |b| ==> s[|a| + i] == b[i];
  }

  lemma ScratchEmpty<S>(engine: Engine<S>, history: seq<Past>)
    ensures FromScratch(engine, history[..0]) == engine.empty
  {
    assert history[..0] == [];
  }

  /** A run over the storage from scratch extends a genuine history. */
  lemma HistoryGrows<S>(engine: Engine<S>, history: seq<Past>, past: Past)
    requires Genuine(engine, history) && Above(history, past.part.number) && Increasing(history)
    requires var t := LiveRun(engine, Parts(history) + [past.part], FromScratch(engine, history), past.answers);
             t.Trace? && t.events == past.events && t.end == past.end && !ByStop(t.end)
    ensures Genuine(engine, history + [past]) && Increasing(history + [past])
    ensures Parts(history + [past]) == Parts(history) + [past.part]
    ensures var t := LiveRun(engine, Parts(history) + [past.part], FromScratch(engine, history), past.answers);
            FromScratch(engine, history + [past]) == Left(engine, t.end, t.state)
  {
    hide LiveRun;
    var longer := history + [past];
    assert longer[..|history|] == history;
    assert Parts(longer) == Parts(history) + [past.part];
  }

  lemma SameBefore(history: seq<Past>, past: Past, cut: nat)
    requires cut <= |history|
    ensures (history + [past])[..cut] == history[..cut]
  {}

  /** The rows of one more input are the rows of the inputs with it. */
  lemma InputsGrow(hash: Hash, execution: seq<Byte>, history: seq<Past>, past: Past, cut: nat)
    requires cut <= |history| && Sealed(InputsOf(hash, history[cut..]))
    requires Within(InputOf(hash, past)) && NoHeaders(past.events) == past.events
    ensures var inputs, one := InputsOf(hash, history[cut..]), InputsOf(hash, [past]);
            && InputsOf(hash, (history + [past])[cut..]) == inputs + one && one == [InputOf(hash, past)]
            && RunOf(execution, inputs) + EventsOf(InputOf(hash, past)) == RunOf(execution, inputs + one)
            && Sealed(inputs + one)
  {
    hide EventsOf, Ungroup, NoHeaders, Within;
    var longer, inputs, one := history + [past], InputsOf(hash, history[cut..]), InputsOf(hash, [past]);
    assert longer[cut..] == history[cut..] + [past];
    assert InputsOf(hash, longer[cut..]) == inputs + one;
    assert one == [InputOf(hash, past)];
    UngroupJoins(inputs, one);
    UngroupFirst(one[0], []);
    NoneWithin();
    assert one + [] == one;
    assert Ungroup(one) == EventsOf(one[0]);
    SealedPart(inputs, one);
  }

  lemma InputsJoin(hash: Hash, history: seq<Past>, cut: nat)
    requires cut <= |history|
    ensures InputsOf(hash, history[..cut]) + InputsOf(hash, history[cut..]) == InputsOf(hash, history[..|history|])
  {}

  lemma {:induction false} ChunksGrow(execution: seq<Byte>, parts: seq<seq<RecordedInput>>, part: seq<RecordedInput>)
    ensures ChunksOf(execution, parts + [part]) == ChunksOf(execution, parts) + [JournalOf(RunOf(execution, part))]
    ensures Flat(parts + [part]) == Flat(parts) + part
    decreases |parts|
  {
    hide JournalOf, RunOf;
    if parts == [] {
      assert (parts + [part])[1..] == [];
    } else {
      assert (parts + [part])[0] == parts[0] && (parts + [part])[1..] == parts[1..] + [part];
      ChunksGrow(execution, parts[1..], part);
    }
  }

  lemma NothingRun<S>(engine: Engine<S>, execution: seq<Byte>)
    ensures Genuine(engine, []) && FromScratch(engine, []) == engine.empty && Parts([]) == [] && Increasing([])
    ensures var none: seq<Past> := []; none[0..] == none && none[..0] == none
    ensures InputsOf(engine.hash, []) == [] && InputsOf(engine.hash, []) + InputsOf(engine.hash, []) == []
    ensures ChunksOf(execution, []) == [] && Flat([]) == [] && Sealed([]) && RunOf(execution, []) == [Header(1, execution)]
  {
    NothingSealed(execution);
  }

  lemma NothingSealed(execution: seq<Byte>)
    ensures Sealed([]) && RunOf(execution, []) == [Header(1, execution)]
  {
    NoneWithin();
  }

  // ----- the whole history -----

  lemma {:induction false} NoStartsAscend(last: int, es: seq<Event>)
    requires forall i :: 0 <= i < |es| ==> !es[i].Input?
    ensures Ascending(last, es) && Latest(last, es) == last
    decreases |es|
  {
    if es != [] {
      NoStartsAscend(last, es[1..]);
    }
  }

  lemma InputAscends(last: int, input: RecordedInput)
    requires Within(input) && last < input.number
    ensures Ascending(last, EventsOf(input)) && Latest(last, EventsOf(input)) == input.number
  {
    var es := EventsOf(input);
    assert forall i :: 0 < i < |es| ==> !es[i].Input?;
    NoStartsAscend(input.number, es[1..]);
  }

  lemma {:induction false} InputsAscend(inputs: seq<RecordedInput>)
    requires AllWithin(inputs) && forall i, j :: 0 <= i < j < |inputs| ==> inputs[i].number < inputs[j].number
    ensures Ascending(-1, Ungroup(inputs))
    ensures Latest(-1, Ungroup(inputs)) == if inputs == [] then -1 else inputs[|inputs| - 1].number
  {
    hide EventsOf, Within;
    if inputs != [] {
      var n := |inputs| - 1;
      InputsAscend(inputs[..n]);
      InputAscends(Latest(-1, Ungroup(inputs[..n])), inputs[n]);
      AscendingSplits(-1, Ungroup(inputs[..n]), EventsOf(inputs[n]));
    }
  }

  /** All the inputs the session's journals hold: the committed ones, and one cancelled since. */
  ghost function Everything<S(!new)>(session: Session<S>): seq<RecordedInput>
    reads session
  {
    InputsOf(session.engine.hash, session.history) + InputsOf(session.engine.hash, session.undone)
  }

  lemma EverythingAscends<S(!new)>(session: Session<S>)
    requires session.Valid()
    ensures Everything(session) == InputsOf(session.engine.hash, session.history[..session.cut]) + session.Tail()
    ensures forall i, j :: 0 <= i < j < |Everything(session)| ==> Everything(session)[i].number < Everything(session)[j].number
  {
    hide Genuine, FromScratch, RunOf, Sealed, ChunksOf, Flat;
    var hash, all := session.engine.hash, Everything(session);
    InputsJoin(hash, session.history, session.cut);
    assert session.history[..|session.history|] == session.history;
    forall i, j | 0 <= i < j < |all|
      ensures all[i].number < all[j].number
    {
      if j < |session.history| {
        assert session.history[i].part.number < session.history[j].part.number;
      }
    }
  }

  /**
   * The history journal is read as all the session's inputs in order, wherever its archives were cut, when each
   * journal and the whole fit their rows and the keys tell the methods apart.
   */
  lemma HistoryReads<S(!new)>(session: Session<S>)
    requires session.Valid() && session.Readable()
    ensures var r := if session.archives == [] then Ok(JournalOf(session.rows)) else Joined(session.archives + [JournalOf(session.rows)]);
            r.Ok? && RecordIn(r.value) == Ok(Record(session.execution, Everything(session)))
  {
    hide Genuine, FromScratch, RunOf, ChunksOf, Flat, Clean, RecordIn, Joined, JournalOf, InputsOf, Increasing, Above, Sealed;
    EverythingAscends(session);
    ArchivesRead(session.execution, session.archived, session.Tail(), Everything(session));
  }

  lemma ArchivesRead(execution: seq<Byte>, archived: seq<seq<RecordedInput>>, tail: seq<RecordedInput>, all: seq<RecordedInput>)
    requires forall i :: 0 <= i < |archived| ==> Sealed(archived[i]) && Clean(RunOf(execution, archived[i]))
    requires Sealed(tail) && Clean(RunOf(execution, tail)) && all == Flat(archived) + tail && Clean(RunOf(execution, all))
    requires forall i, j :: 0 <= i < j < |all| ==> all[i].number < all[j].number
    ensures var archives := ChunksOf(execution, archived);
            var last := JournalOf(RunOf(execution, tail));
            var r := if archives == [] then Ok(last) else Joined(archives + [last]);
            r.Ok? && RecordIn(r.value) == Ok(Record(execution, all))
  {
    hide RunOf, ChunksOf, Flat, Clean, RecordIn, Joined, JournalOf, Sealed, Ascending, Ungroup;
    var parts := archived + [tail];
    ChunksGrow(execution, archived, tail);
    if ChunksOf(execution, archived) == [] {
      NoneFlat();
      assert archived == [] && all == tail;
      SealedIs(execution, tail);
      RunDecodes(execution, tail);
    } else {
      forall i | 0 <= i < |parts|
        ensures Archived(execution, parts[i])
      {
        SealedIs(execution, parts[i]);
      }
      FlatHeaderless(execution, parts);
      InputsAscend(Flat(parts));
      SplitAnywhere(execution, parts);
    }
  }

  lemma SealedIs(execution: seq<Byte>, part: seq<RecordedInput>)
    requires Sealed(part) && Clean(RunOf(execution, part))
    ensures Archived(execution, part) && AllWithin(part)
  {
    hide Clean, RunOf, AllWithin, AllEnded, Headerless;
  }

  lemma NoneFlat()
    ensures Flat([]) == []
  {}
}
