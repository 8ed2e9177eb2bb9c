/**
 * A session over the storage of linked modules: its snapshots give the storage back, as ReplSession asks of an engine
 * (host/session.ts:459-579).
 */
module ReplStorage {
  import opened ByteStrings
  import opened JournalEvents
  import opened JournalRecorder
  import opened JournalReplay
  import opened LinkedStorage
  import opened ReplSession

  /** How modules compile, and what their code does: the guests, the reset, the allocator and the relocation. */
  datatype Program = Program(
    hash: Hash, compile: seq<Byte> -> Code, guest: seq<Part> -> Guest<Storage>, reset: Storage -> Storage,
    alloc: (seq<Part>, Storage) -> Storage, relocate: (seq<Part>, Storage) -> Storage)

  function Codes(p: Program, parts: seq<Part>): (codes: seq<Code>)
    ensures |codes| == |parts|
  {
    seq(|parts|, i requires 0 <= i < |parts| => p.compile(parts[i].code))
  }

  /** Running code changes memories and session globals only. */
  predicate Only(s: Storage, t: Storage) {
    Paged(s.memories) ==> Touches(s, t)
  }

  ghost predicate Tame(p: Program) {
    && (forall code :: ValidCode(p.compile(code)))
    && (forall parts, s, a :: Only(s, p.guest(parts).resume(s, a)))
    && (forall s :: Only(s, p.reset(s)))
    && (forall parts, s :: Only(s, p.alloc(parts, s)))
    && (forall parts, s :: Only(s, p.relocate(parts, s)))
  }

  /** The last module instantiated over what the others left: room for its data, its instance, its data in place. */
  function Extended(p: Program, parts: seq<Part>, s: Storage): Storage {
    if parts == [] then s
    else
      var code := p.compile(parts[|parts| - 1].code);
      if |parts| == 1 then Instantiated(code, s) else p.relocate(parts, Instantiated(code, p.alloc(parts, s)))
  }

  /** The engine of these modules, with the snapshots of the source. */
  ghost function EngineOf(p: Program): Engine<Storage> {
    Engine(
      p.hash, Storage([], [], []), (parts, s) => Extended(p, parts, s), p.guest, p.reset,
      s => Capture(s), (parts, snapshot) => Restored(Codes(p, parts), snapshot), (parts, s) => Shape(Codes(p, parts), s))
  }

  lemma OnlyKeeps(codes: seq<Code>, s: Storage, t: Storage)
    requires codes != [] && Shape(codes, s) && Only(s, t)
    ensures Shape(codes, t)
  {
    hide Touches, TableOf, ValidCode, SameExports;
    TouchKeeps(codes, s, t);
  }

  /** A run changes memories and session globals only. */
  lemma {:induction false} LiveKeeps(p: Program, parts: seq<Part>, codes: seq<Code>, s: Storage, polls: nat, answers: seq<Answer>)
    requires Tame(p) && codes != [] && Shape(codes, s)
    ensures var t := Live(p.hash, p.guest(parts), s, polls, answers); t.Trace? ==> Shape(codes, t.state)
    decreases |answers|, if polls == 0 then 1 else 0
  {
    hide Shape, Only, ValidCode, LiveTurnOf;
    var g := p.guest(parts);
    var t := LiveTurnOf(p.hash, g.ask(s), polls, answers);
    if t.Row? {
      OnlyKeeps(codes, s, g.resume(s, t.answer));
      LiveKeeps(p, parts, codes, g.resume(s, t.answer), Polls(g.ask(s), polls), answers[1..]);
    } else if t.Ready? {
      OnlyKeeps(codes, s, g.resume(s, Polled));
      LiveKeeps(p, parts, codes, g.resume(s, Polled), 1, answers);
    }
  }

  lemma CodesMore(p: Program, parts: seq<Part>)
    requires parts != []
    ensures Codes(p, parts) == Codes(p, parts[..|parts| - 1]) + [p.compile(parts[|parts| - 1].code)]
  {}

  lemma ExtendedKeeps(p: Program, parts: seq<Part>, s: Storage)
    requires Tame(p) && parts != [] && Shape(Codes(p, parts[..|parts| - 1]), s)
    ensures Shape(Codes(p, parts), Extended(p, parts, s))
  {
    hide Shape, Only, ValidCode, Codes, Instantiated;
    var before, code := Codes(p, parts[..|parts| - 1]), p.compile(parts[|parts| - 1].code);
    CodesMore(p, parts);
    if |parts| == 1 {
      InstantiatingKeeps(before, code, s);
    } else {
      OnlyKeeps(before, s, p.alloc(parts, s));
      InstantiatingKeeps(before, code, p.alloc(parts, s));
      OnlyKeeps(Codes(p, parts), Instantiated(code, p.alloc(parts, s)), Extended(p, parts, s));
    }
  }

  lemma RunKeepsShape(p: Program, parts: seq<Part>, s: Storage, answers: seq<Answer>)
    requires Tame(p)
    ensures StaysFit(EngineOf(p), parts, s, answers)
  {
    var engine := EngineOf(p);
    if parts != [] && engine.fits(parts[..|parts| - 1], s) {
      hide Shape, Only, ValidCode, Codes, Live, Extended, Restored, Capture;
      ExtendedKeeps(p, parts, s);
      var start := Extended(p, parts, s);
      LiveKeeps(p, parts, Codes(p, parts), start, 0, answers);
      var t := Live(p.hash, p.guest(parts), start, 0, answers);
      assert t == LiveRun(engine, parts, s, answers);
      if t.Trace? {
        OnlyKeeps(Codes(p, parts), t.state, p.reset(t.state));
      }
    }
  }

  lemma NothingFits(p: Program)
    ensures EngineOf(p).fits([], EngineOf(p).empty)
  {
    assert Codes(p, []) == [] && TableOf([]) == [];
  }

  /**
   * The three memories, the session's globals and the table's length are enough: whatever the modules are, if their
   * code changes nothing else, a session's snapshots give the storage back.
   */
  lemma StorageLawful(p: Program)
    requires Tame(p)
    ensures Lawful(EngineOf(p))
  {
    var engine := EngineOf(p);
    forall parts, s
      ensures Reopens(engine, parts, s)
    {
      hide Codes, Restored, TableOf, ValidCode, SameExports, SavedAll;
      if parts != [] && engine.fits(parts, s) {
        CaptureRestores(Codes(p, parts), s);
      }
    }
    forall parts, s, answers
      ensures StaysFit(engine, parts, s, answers)
    {
      RunKeepsShape(p, parts, s, answers);
    }
    NothingFits(p);
  }
}
