/** An input run again from its record: `Replay` and the calls a session serves from it (host/journal.ts:1038-1146). */
module JournalReplay {
  import opened ByteStrings
  import opened JournalEvents
  import opened JournalRecorder
  import opened JournalRecord
  import opened Options

  // ----- the guest -----

  /** How a guest ends on its own. */
  type OwnEnd = e: End | e.Exit? || e.Trapped? || e.Failed? witness Trapped

  /** What a guest does next: a host call, a pause (its entry returned, or it waits for a wake), or its end. */
  datatype Ask =
    | AskCall(names: Names, args: seq<Byte>)
    | AskFinish(handle: nat)
    | AskAbort(handle: nat)
    | AskBlock
    | Pause
    | Over(end: OwnEnd)

  /** What the host does: reply, wake, go on, find nothing pending, or end the wait on a stop request. */
  datatype Answer =
    | Replied(reply: Reply)
    | Woken(handles: seq<nat>)
    | Done
    | Polled
    | Nothing
    | Stop(cancels: bool)

  datatype Guest<!S> = Guest(ask: S -> Ask, resume: (S, Answer) -> S)

  /** The reply a journal keeps. */
  function Kept(reply: Reply): Reply {
    Reply(Wrapped(reply.value), reply.result)
  }

  /** It is written as the same bytes, and its result is the reply's own. */
  lemma KeptReply(reply: Reply)
    ensures ReplyBytes(Kept(reply)) == ReplyBytes(reply) && Kept(reply).result == reply.result && ValidValue(Kept(reply).value)
  {
    hide ReplyBytes, Wrapped;
    WrappedReply(reply.value, reply.result);
  }

  // ----- a live run -----

  /** The host's turn: it answers and leaves a row, polls, ends the run, or its answer does not fit the ask. */
  datatype LiveTurn = Row(event: Event, answer: Answer) | Ready | Ends(rows: seq<Event>, end: End) | Unfit

  /**
   * The turn after `polls` polls of a host that answers with `answers`. A wait that finds nothing pending is a
   * deadlock, which traps (host/core.ts:1320-1373, host/session.ts:285-307).
   */
  function LiveTurnOf(hash: Hash, ask: Ask, polls: nat, answers: seq<Answer>): (t: LiveTurn)
    ensures t.Row? ==> answers != []
    ensures t.Ready? ==> polls == 0 && ask.Pause?
  {
    if ask.Over? then (if answers == [] then Ends([], ask.end) else Unfit)
    else if ask.Pause? && polls == 0 then Ready
    else if answers == [] then Unfit
    else
      match (ask, answers[0])
      case (Pause, Woken(handles)) => Row(Wake(polls, handles), answers[0])
      case (Pause, Stop(cancels)) =>
        if |answers| > 1 then Unfit else if cancels then Ends([Cancel(polls)], Cancelled) else Ends([], Stopped)
      case (Pause, Nothing) => if |answers| > 1 then Unfit else Ends([], Trapped)
      case (AskBlock, Woken(handles)) => Row(Block(handles), answers[0])
      case (AskBlock, Nothing) => if |answers| > 1 then Unfit else Ends([], Trapped)
      case (AskAbort(handle), Done) => Row(Abort(handle), Done)
      case (AskCall(names, args), Replied(reply)) => Row(Call(names, RequestOf(hash, args), Kept(reply)), Replied(Kept(reply)))
      case (AskFinish(handle), Replied(reply)) => Row(Finish(handle, Kept(reply)), Replied(Kept(reply)))
      case _ => Unfit
  }

  /** The polls after an answer. */
  function Polls(ask: Ask, polls: nat): nat {
    if ask.Pause? then polls + 1 else polls
  }

  /** What a run leaves: its rows, its end and the guest's state, or nothing if the answers do not fit the asks. */
  datatype Trace<S> = Trace(events: seq<Event>, end: End, state: S) | Stuck

  function Then<S>(e: Event, rest: Trace<S>): Trace<S> {
    match rest
    case Trace(events, end, state) => Trace([e] + events, end, state)
    case Stuck => Stuck
  }

  /** The guest's run from `s`, the host giving `answers`. */
  function Live<S>(hash: Hash, g: Guest<S>, s: S, polls: nat, answers: seq<Answer>): Trace<S>
    decreases |answers|, if polls == 0 then 1 else 0
  {
    match LiveTurnOf(hash, g.ask(s), polls, answers)
    case Row(e, a) => Then(e, Live(hash, g, g.resume(s, a), Polls(g.ask(s), polls), answers[1..]))
    case Ready => Live(hash, g, g.resume(s, Polled), 1, answers)
    case Ends(rows, end) => Trace(rows, end, s)
    case Unfit => Stuck
  }

  // ----- the replayer -----

  /** Why an input diverged: what it asked, and the record's next row. */
  datatype Divergence =
    | OtherArguments(names: Names)
    | Unexpected(asked: Ask, polls: nat, front: Option<Event>)
    | EndedEarly(end: End, row: Event)
    | CutShort(end: End)
    | OtherEnd(end: End, before: End)

  datatype Served<+T> = Gave(value: T) | Diverged

  function Front(es: seq<Event>): Option<Event> {
    if es == [] then None else Some(es[0])
  }

  class Replay {
    const number: nat
    var events: seq<Event>
    var polls: nat
    var diverged: Option<Divergence>

    constructor (input: RecordedInput)
      ensures number == input.number && events == input.events && polls == 0 && diverged == None
    {
      number, events, polls, diverged := input.number, input.events, 0, None;
    }

    /** The first message is kept. */
    method Diverge(why: Divergence)
      modifies this`diverged
      ensures diverged == if old(diverged).Some? then old(diverged) else Some(why)
    {
      if diverged.None? {
        diverged := Some(why);
      }
    }

    /** A method serves the front row, or keeps it and diverges, `why` if nothing diverged before. */
    twostate predicate Gives<T>(fits: bool, new r: Served<T>, new value: T, new why: Divergence)
      reads this
    {
      && polls == old(polls)
      && if fits then old(events) != [] && r == Gave(value) && events == old(events)[1..] && diverged == old(diverged)
         else r == Diverged && events == old(events) && diverged == if old(diverged).Some? then old(diverged) else Some(why)
    }

    method Call(hash: Hash, names: Names, args: seq<Byte>) returns (r: Served<Reply>)
      modifies this`events, this`diverged
      ensures var fits := FitsCall(hash, old(events), names, args);
              Gives(fits, r, if fits then old(events)[0].reply else Reply(Void, None), CallWhy(names, args, polls, old(events)))
      ensures forall recorded: seq<Byte> :: FrontCalls(hash, old(events), names, recorded) ==>
                (r.Gave? <==> args == recorded || Collide(hash, args, recorded))
    {
      hide RequestOf;
      ArgumentsTell(hash, events, names, args);
      if events != [] && events[0].Call? && events[0].names == names {
        if events[0].request != RequestOf(hash, args) {
          Diverge(OtherArguments(names));
          return Diverged;
        }
        r := Gave(events[0].reply);
        events := events[1..];
        return;
      }
      Diverge(Unexpected(AskCall(names, args), polls, Front(events)));
      return Diverged;
    }

    method Finish(handle: nat) returns (r: Served<Reply>)
      modifies this`events, this`diverged
      ensures var fits := FitsFinish(old(events), handle);
              Gives(fits, r, if fits then old(events)[0].reply else Reply(Void, None), Unexpected(AskFinish(handle), polls, Front(old(events))))
    {
      if events != [] && events[0].Finish? && events[0].handle == handle {
        r := Gave(events[0].reply);
        events := events[1..];
        return;
      }
      Diverge(Unexpected(AskFinish(handle), polls, Front(events)));
      return Diverged;
    }

    /** Nothing more in the record: the block finds nothing pending. */
    method Block() returns (r: Served<Option<seq<nat>>>)
      modifies this`events, this`diverged
      ensures if old(events) == [] then r == Gave(None) && events == [] && diverged == old(diverged)
              else Gives(old(events)[0].Block?, r, if old(events)[0].Block? then Some(old(events)[0].handles) else None,
                         Unexpected(AskBlock, polls, Some(old(events)[0])))
    {
      if events == [] {
        return Gave(None);
      }
      if events[0].Block? {
        r := Gave(Some(events[0].handles));
        events := events[1..];
        return;
      }
      Diverge(Unexpected(AskBlock, polls, Front(events)));
      return Diverged;
    }

    method Abort(handle: nat) returns (r: Served<()>)
      modifies this`events, this`diverged
      ensures Gives(FitsAbort(old(events), handle), r, (), Unexpected(AskAbort(handle), polls, Front(old(events))))
    {
      if events != [] && events[0].Abort? && events[0].handle == handle {
        events := events[1..];
        return Gave(());
      }
      Diverge(Unexpected(AskAbort(handle), polls, Front(events)));
      return Diverged;
    }

    method Poll()
      modifies this`polls
      ensures polls == old(polls) + 1
    {
      polls := polls + 1;
    }

    predicate WakeNext()
      reads this
    {
      events != [] && events[0].Wake?
    }

    method Wake() returns (r: Served<seq<nat>>)
      modifies this`events, this`diverged
      ensures var fits := FitsWake(old(events), polls);
              Gives(fits, r, if fits then old(events)[0].handles else [], Unexpected(Pause, polls, Front(old(events))))
    {
      if WakeNext() && events[0].poll == polls {
        r := Gave(events[0].handles);
        events := events[1..];
        return;
      }
      Diverge(Unexpected(Pause, polls, Front(events)));
      return Diverged;
    }

    /** The input's end is the record's, after every row was served. */
    method End(end: End, before: Option<End>) returns (same: bool)
      modifies this`diverged
      ensures same <==> old(diverged).None? && events == [] && before == Some(end)
      ensures same <==> diverged.None?
      ensures diverged == if old(diverged).Some? then old(diverged)
                          else if events != [] then Some(EndedEarly(end, events[0]))
                          else if before.None? then Some(Divergence.CutShort(end))
                          else if end != before.value then Some(OtherEnd(end, before.value))
                          else None
    {
      if diverged.Some? {
        return false;
      }
      if events != [] {
        Diverge(EndedEarly(end, events[0]));
        return false;
      }
      if before.None? {
        Diverge(Divergence.CutShort(end));
        return false;
      }
      if end != before.value {
        Diverge(OtherEnd(end, before.value));
        return false;
      }
      return true;
    }
  }

  predicate FitsCall(hash: Hash, es: seq<Event>, names: Names, args: seq<Byte>) {
    es != [] && es[0].Call? && es[0].names == names && es[0].request == RequestOf(hash, args)
  }

  /** The front row records a call of the method with the arguments `recorded`. */
  predicate FrontCalls(hash: Hash, es: seq<Event>, names: Names, recorded: seq<Byte>) {
    es != [] && es[0].Call? && es[0].names == names && es[0].request == RequestOf(hash, recorded)
  }

  /** Why a call diverges: its own method with other arguments, or another row. */
  function CallWhy(names: Names, args: seq<Byte>, polls: nat, es: seq<Event>): Divergence {
    if es != [] && es[0].Call? && es[0].names == names then OtherArguments(names) else Unexpected(AskCall(names, args), polls, Front(es))
  }

  /** A recorded call fits its own arguments, and others only when they collide with them. */
  lemma ArgumentsTell(hash: Hash, es: seq<Event>, names: Names, args: seq<Byte>)
    ensures forall recorded: seq<Byte> :: FrontCalls(hash, es, names, recorded) ==>
              (FitsCall(hash, es, names, args) <==> args == recorded || Collide(hash, args, recorded))
  {
    hide RequestOf, Collide;
    forall recorded: seq<Byte> | FrontCalls(hash, es, names, recorded)
      ensures FitsCall(hash, es, names, args) <==> args == recorded || Collide(hash, args, recorded)
    {
      RequestsTell(hash, args, recorded);
    }
  }

  predicate FitsFinish(es: seq<Event>, handle: nat) {
    es != [] && es[0].Finish? && es[0].handle == handle
  }

  predicate FitsAbort(es: seq<Event>, handle: nat) {
    es != [] && es[0] == JournalEvents.Abort(handle)
  }

  predicate FitsWake(es: seq<Event>, polls: nat) {
    es != [] && es[0].Wake? && es[0].poll == polls
  }

  // ----- a replayed run -----

  /** The record's turn: it serves its front row, polls, leaves the run at its end, or holds another row. */
  datatype Turn = Serves(answer: Answer) | Goes | Leaves(end: End) | Strays

  function TurnOf(hash: Hash, ask: Ask, polls: nat, es: seq<Event>): (t: Turn)
    ensures t.Serves? ==> es != []
    ensures t.Goes? ==> polls == 0 && ask.Pause?
  {
    match ask
    case Over(end) => Leaves(end)
    case Pause =>
      if polls == 0 then Goes
      else if es == [] || !es[0].Wake? then Leaves(Trapped)
      else if FitsWake(es, polls) then Serves(Woken(es[0].handles))
      else Strays
    case AskBlock =>
      if es == [] then Leaves(Trapped)
      else if es[0].Block? then Serves(Woken(es[0].handles))
      else Strays
    case AskAbort(handle) => if FitsAbort(es, handle) then Serves(Done) else Strays
    case AskCall(names, args) => if FitsCall(hash, es, names, args) then Serves(Replied(es[0].reply)) else Strays
    case AskFinish(handle) => if FitsFinish(es, handle) then Serves(Replied(es[0].reply)) else Strays
  }

  /** How the run ended, the guest's state, and the rows not served; or a divergence after serving some. */
  datatype Outcome<S> = Came(end: End, state: S, rest: seq<Event>) | Strayed

  /** The guest's run from `s`, its host calls and wakes served from the rows `es`. */
  function Serve<S>(hash: Hash, g: Guest<S>, s: S, polls: nat, es: seq<Event>): Outcome<S>
    decreases |es|, if polls == 0 then 1 else 0
  {
    match TurnOf(hash, g.ask(s), polls, es)
    case Serves(a) => Serve(hash, g, g.resume(s, a), Polls(g.ask(s), polls), es[1..])
    case Goes => Serve(hash, g, g.resume(s, Polled), 1, es)
    case Leaves(end) => Came(end, s, es)
    case Strays => Strayed
  }

  /** The replay ends without a divergence. */
  predicate Accepted<S>(o: Outcome<S>, before: Option<End>) {
    o.Came? && o.rest == [] && before == Some(o.end)
  }

  // ----- a replay accepts exactly the records of live runs -----

  lemma WrappedTwice(v: Value)
    ensures Wrapped(Wrapped(v)) == Wrapped(v)
  {
    match v
    case Void =>
    case Int(n) => SignedUnsigned(Signed(n, U64), U64); SignedTwice(n, U64);
    case Bits(_) =>
    case Pair(l, r) => SignedTwice(l, U32); SignedTwice(r, U32);
  }

  lemma SignedTwice(n: int, width: nat)
    requires width == U32 || width == U64
    ensures Signed(Signed(n, width), width) == Signed(n, width)
  {
    if width == U32 {
    } else {
    }
  }

  predicate ByStop(e: End) {
    e.Stopped? || e.Cancelled?
  }

  /** A row that a live turn leaves is served in its place; a live end comes when the record is at its end. */
  lemma LiveTurnServes(hash: Hash, ask: Ask, polls: nat, answers: seq<Answer>, rest: seq<Event>)
    ensures var t := LiveTurnOf(hash, ask, polls, answers);
            && (t.Row? ==> TurnOf(hash, ask, polls, [t.event] + rest) == Serves(t.answer))
            && (t.Ready? ==> TurnOf(hash, ask, polls, rest) == Goes)
            && (t.Ends? && !ByStop(t.end) ==> t.rows == [] && TurnOf(hash, ask, polls, []) == Leaves(t.end))
  {
    hide RequestOf, Wrapped;
  }

  /** What a live run recorded is served back, to the same end and state. */
  lemma {:induction false} LiveServes<S>(hash: Hash, g: Guest<S>, s: S, polls: nat, answers: seq<Answer>)
    requires var t := Live(hash, g, s, polls, answers); t.Trace? && !ByStop(t.end)
    ensures var t := Live(hash, g, s, polls, answers); Serve(hash, g, s, polls, t.events) == Came(t.end, t.state, [])
    decreases |answers|, if polls == 0 then 1 else 0
  {
    hide TurnOf, LiveTurnOf;
    var ask, t := g.ask(s), LiveTurnOf(hash, g.ask(s), polls, answers);
    if t.Row? {
      var rest := Live(hash, g, g.resume(s, t.answer), Polls(ask, polls), answers[1..]);
      LiveTurnServes(hash, ask, polls, answers, rest.events);
      LiveServes(hash, g, g.resume(s, t.answer), Polls(ask, polls), answers[1..]);
      assert ([t.event] + rest.events)[1..] == rest.events;
    } else if t.Ready? {
      LiveTurnServes(hash, ask, polls, answers, Live(hash, g, s, polls, answers).events);
      LiveServes(hash, g, g.resume(s, Polled), 1, answers);
    } else {
      LiveTurnServes(hash, ask, polls, answers, []);
    }
  }

  /** The replies of the rows are as a journal keeps them. */
  ghost predicate AllKept(es: seq<Event>) {
    forall i :: 0 <= i < |es| && (es[i].Call? || es[i].Finish?) ==> Kept(es[i].reply) == es[i].reply
  }

  lemma AllKeptRest(es: seq<Event>)
    requires AllKept(es) && es != []
    ensures AllKept(es[1..]) && (es[0].Call? || es[0].Finish? ==> Kept(es[0].reply) == es[0].reply)
  {
    hide Wrapped;
  }

  /** A row served is one a live turn leaves; where the record ends, the live run would have ended alike. */
  lemma TurnLives(hash: Hash, ask: Ask, polls: nat, es: seq<Event>, more: seq<Answer>)
    requires AllKept(es)
    ensures var t := TurnOf(hash, ask, polls, es);
            && (t.Serves? ==> LiveTurnOf(hash, ask, polls, [t.answer] + more) == Row(es[0], t.answer))
            && (t.Goes? ==> LiveTurnOf(hash, ask, polls, more) == Ready)
            && (t.Leaves? && es == [] ==> LiveTurnOf(hash, ask, polls, if ask.Over? then [] else [Nothing]) == Ends([], t.end))
  {
    hide RequestOf, Wrapped;
    if es != [] {
      AllKeptRest(es);
    }
  }

  /** Rows served to the last are those of a live run: of the host that answers with them. */
  lemma {:induction false} ServedLives<S>(hash: Hash, g: Guest<S>, s: S, polls: nat, es: seq<Event>) returns (answers: seq<Answer>)
    requires AllKept(es)
    requires var o := Serve(hash, g, s, polls, es); o.Came? && o.rest == []
    ensures var o := Serve(hash, g, s, polls, es); Live(hash, g, s, polls, answers) == Trace(es, o.end, o.state)
    decreases |es|, if polls == 0 then 1 else 0
  {
    hide TurnOf, LiveTurnOf, AllKept;
    var ask, t := g.ask(s), TurnOf(hash, g.ask(s), polls, es);
    if t.Serves? {
      AllKeptRest(es);
      var more := ServedLives(hash, g, g.resume(s, t.answer), Polls(ask, polls), es[1..]);
      answers := [t.answer] + more;
      TurnLives(hash, ask, polls, es, more);
      assert answers[1..] == more && es == [es[0]] + es[1..];
    } else if t.Goes? {
      answers := ServedLives(hash, g, g.resume(s, Polled), 1, es);
      TurnLives(hash, ask, polls, es, answers);
    } else {
      answers := if ask.Over? then [] else [Nothing];
      TurnLives(hash, ask, polls, es, []);
    }
  }

  /** A guest is served to its own end or to a deadlock, never to a stop. */
  lemma {:induction false} ServedOwnEnd<S>(hash: Hash, g: Guest<S>, s: S, polls: nat, es: seq<Event>)
    ensures var o := Serve(hash, g, s, polls, es); o.Came? ==> !ByStop(o.end)
    decreases |es|, if polls == 0 then 1 else 0
  {
    hide RequestOf;
    var ask, t := g.ask(s), TurnOf(hash, g.ask(s), polls, es);
    if t.Serves? {
      ServedOwnEnd(hash, g, g.resume(s, t.answer), Polls(ask, polls), es[1..]);
    } else if t.Goes? {
      ServedOwnEnd(hash, g, g.resume(s, Polled), 1, es);
    }
  }

  /** Some host's answers make the guest leave this record. */
  ghost predicate Lives<S(!new)>(hash: Hash, g: Guest<S>, s: S, es: seq<Event>, end: End) {
    exists answers :: var t := Live(hash, g, s, 0, answers); t.Trace? && t.events == es && t.end == end
  }

  /**
   * A replay ends without a divergence exactly when the record is one that a live run of the guest could have
   * left, whatever the host answered, and no stop request ended it.
   */
  lemma ReplayExactly<S(!new)>(hash: Hash, g: Guest<S>, s: S, es: seq<Event>, end: End)
    requires AllKept(es)
    ensures Accepted(Serve(hash, g, s, 0, es), Some(end)) <==> Lives(hash, g, s, es, end) && !ByStop(end)
  {
    hide Live, Serve, AllKept;
    if Accepted(Serve(hash, g, s, 0, es), Some(end)) {
      ServedOwnEnd(hash, g, s, 0, es);
      var answers := ServedLives(hash, g, s, 0, es);
    }
    if Lives(hash, g, s, es, end) && !ByStop(end) {
      var answers :| var t := Live(hash, g, s, 0, answers); t.Trace? && t.events == es && t.end == end;
      LiveServes(hash, g, s, 0, answers);
    }
  }

  /**
   * A live run no stop request ended is accepted again from its own record exactly when its status survives the
   * record's one byte: one above 255 or below 0 is recorded as another, and its replay diverges at the end.
   */
  lemma RecordReplays<S(!new)>(hash: Hash, g: Guest<S>, s: S, answers: seq<Answer>)
    requires var t := Live(hash, g, s, 0, answers); t.Trace? && !ByStop(t.end)
    ensures var t := Live(hash, g, s, 0, answers);
            Accepted(Serve(hash, g, s, 0, t.events), Some(Ending(t.end))) <==> (t.end.Exit? ==> 0 <= t.end.status < 256)
  {
    hide Live, Serve;
    LiveServes(hash, g, s, 0, answers);
  }

  /** A guest that ends at once, with its state as the status. */
  const ENDING: Guest<int> := Guest((status: int) => Over(Exit(status)), (status: int, answer: Answer) => status)

  /** A run that ends with status 256 is recorded as one that ended with 0, and does not replay; nor with -1. */
  lemma StatusCanFail(hash: Hash, status: int)
    requires status == 256 || status == -1
    ensures Live(hash, ENDING, status, 0, []) == Trace([], Exit(status), status)
    ensures Ending(Exit(status)) == Exit(if status == 256 then 0 else 255)
    ensures Serve(hash, ENDING, status, 0, []).Came? && !Accepted(Serve(hash, ENDING, status, 0, []), Some(Ending(Exit(status))))
  {
    assert ENDING.ask(status) == Over(Exit(status));
  }

  // ----- the replay, recorded again -----

  /** The rows a replay serves before it ends or strays. */
  function Asked<S>(hash: Hash, g: Guest<S>, s: S, polls: nat, es: seq<Event>): seq<Event>
    decreases |es|, if polls == 0 then 1 else 0
  {
    match TurnOf(hash, g.ask(s), polls, es)
    case Serves(a) => [es[0]] + Asked(hash, g, g.resume(s, a), Polls(g.ask(s), polls), es[1..])
    case Goes => Asked(hash, g, g.resume(s, Polled), 1, es)
    case Leaves(_) => []
    case Strays => []
  }

  /** A replay that ends has served all rows but the rest. */
  lemma {:induction false} AskedAll<S>(hash: Hash, g: Guest<S>, s: S, polls: nat, es: seq<Event>)
    ensures var o := Serve(hash, g, s, polls, es); o.Came? ==> es == Asked(hash, g, s, polls, es) + o.rest
    decreases |es|, if polls == 0 then 1 else 0
  {
    hide TurnOf;
    var ask, t := g.ask(s), TurnOf(hash, g.ask(s), polls, es);
    if t.Serves? {
      AskedAll(hash, g, g.resume(s, t.answer), Polls(ask, polls), es[1..]);
      assert es == [es[0]] + es[1..];
    } else if t.Goes? {
      AskedAll(hash, g, g.resume(s, Polled), 1, es);
    }
  }

  /**
   * One call of a replayed input, or its wait: served from the record, then recorded again
   * (host/session.ts:160-176, 236-307). Recording may stop at the cap.
   */
  method Site(hash: Hash, ask: Ask, replay: Replay, recorder: Recorder) returns (t: Turn)
    requires recorder.Valid() && recorder.hash == hash && recorder.polls == replay.polls
    requires replay.diverged.None? && AllKept(replay.events)
    modifies replay, recorder
    ensures t == TurnOf(hash, ask, old(replay.polls), old(replay.events))
    ensures recorder.Valid() && (t.Strays? <==> replay.diverged.Some?)
    ensures t.Serves? || t.Goes? ==> recorder.polls == replay.polls == Polls(ask, old(replay.polls))
    ensures replay.events == if t.Serves? then old(replay.events)[1..] else old(replay.events)
    ensures recorder.state == On ==> old(recorder.state) == On
    ensures recorder.state == On ==> recorder.log == old(recorder.log) + if t.Serves? then [old(replay.events)[0]] else []
  {
    hide RequestOf, Wrapped, JournalOf, Numbers, TableAfter, AllKept;
    assert old(recorder.log) + [] == old(recorder.log);
    if replay.events != [] {
      AllKeptRest(replay.events);
    }
    match ask
    case Over(end) =>
      t := Leaves(end);
    case Pause =>
      t := WaitSite(hash, replay, recorder);
    case AskBlock =>
      var r := replay.Block();
      if r.Diverged? {
        t := Strays;
      } else if r.value.None? {
        t := Leaves(Trapped);
      } else {
        recorder.Block(r.value.value);
        t := Serves(Woken(r.value.value));
      }
    case AskAbort(handle) =>
      var r := replay.Abort(handle);
      if r.Gave? {
        recorder.Abort(handle);
      }
      t := if r.Gave? then Serves(Done) else Strays;
    case AskCall(names, args) =>
      var r := replay.Call(hash, names, args);
      if r.Gave? {
        recorder.Call(names, args, r.value.value, r.value.result);
      }
      t := if r.Gave? then Serves(Replied(r.value)) else Strays;
    case AskFinish(handle) =>
      var r := replay.Finish(handle);
      if r.Gave? {
        recorder.Finish(handle, r.value.value, r.value.result);
      }
      t := if r.Gave? then Serves(Replied(r.value)) else Strays;
  }

  /** A replayed input waits when its record wakes it next; else the wait is a deadlock. */
  method WaitSite(hash: Hash, replay: Replay, recorder: Recorder) returns (t: Turn)
    requires recorder.Valid() && recorder.hash == hash && recorder.polls == replay.polls && replay.diverged.None?
    modifies replay, recorder
    ensures t == TurnOf(hash, Pause, old(replay.polls), old(replay.events))
    ensures recorder.Valid() && (t.Strays? <==> replay.diverged.Some?)
    ensures t.Serves? || t.Goes? ==> recorder.polls == replay.polls == old(replay.polls) + 1
    ensures replay.events == if t.Serves? then old(replay.events)[1..] else old(replay.events)
    ensures recorder.state == On ==> old(recorder.state) == On
    ensures recorder.state == On ==> recorder.log == old(recorder.log) + if t.Serves? then [old(replay.events)[0]] else []
  {
    hide RequestOf, Wrapped, JournalOf, Numbers, TableAfter;
    assert old(recorder.log) + [] == old(recorder.log);
    if replay.polls == 0 {
      t := Goes;
    } else if !replay.WakeNext() {
      return Leaves(Trapped);
    } else {
      var r := replay.Wake();
      if r.Diverged? {
        return Strays;
      }
      recorder.Wake(r.value);
      t := Serves(Woken(r.value));
    }
    recorder.Poll();
    replay.Poll();
  }

  /** How a run that a session drives went: a divergence ends it as failed. */
  datatype Drive<S> = Drive(end: End, state: S)

  /** One turn of a replay. */
  lemma ReplayTurn<S>(hash: Hash, g: Guest<S>, s: S, polls: nat, es: seq<Event>)
    ensures var t := TurnOf(hash, g.ask(s), polls, es);
            && (t.Leaves? ==> Serve(hash, g, s, polls, es) == Came(t.end, s, es))
            && (t.Strays? ==> Serve(hash, g, s, polls, es) == Strayed)
            && (t.Leaves? || t.Strays? ==> Asked(hash, g, s, polls, es) == [])
            && (t.Goes? ==> Serve(hash, g, s, polls, es) == Serve(hash, g, g.resume(s, Polled), 1, es))
            && (t.Goes? ==> Asked(hash, g, s, polls, es) == Asked(hash, g, g.resume(s, Polled), 1, es))
            && (t.Serves? ==>
                  Serve(hash, g, s, polls, es) == Serve(hash, g, g.resume(s, t.answer), Polls(g.ask(s), polls), es[1..]))
            && (t.Serves? ==>
                  var later := Asked(hash, g, g.resume(s, t.answer), Polls(g.ask(s), polls), es[1..]);
                  Asked(hash, g, s, polls, es) == [es[0]] + later)
  {
    hide TurnOf;
  }

  /** A replayed input, to its end or its divergence. */
  method DriveReplay<S>(hash: Hash, g: Guest<S>, start: S, replay: Replay, recorder: Recorder) returns (d: Drive<S>)
    requires recorder.Valid() && recorder.hash == hash && recorder.polls == 0
    requires replay.polls == 0 && replay.diverged.None? && AllKept(replay.events)
    modifies replay, recorder
    ensures recorder.Valid()
    ensures match Serve(hash, g, start, 0, old(replay.events))
            case Came(end, state, rest) => d == Drive(end, state) && replay.events == rest && replay.diverged.None?
            case Strayed => d.end == Failed && replay.diverged.Some?
    ensures recorder.state == On ==> old(recorder.state) == On
    ensures recorder.state == On ==> recorder.log == old(recorder.log) + Asked(hash, g, start, 0, old(replay.events))
  {
    hide TurnOf, AllKept, JournalOf, Numbers, TableAfter, Serve, Asked;
    var s := start;
    ghost var done: seq<Event> := [];
    assert old(recorder.log) + [] == old(recorder.log);
    while true
      invariant recorder.Valid() && recorder.polls == replay.polls && replay.diverged.None? && AllKept(replay.events)
      invariant Serve(hash, g, start, 0, old(replay.events)) == Serve(hash, g, s, replay.polls, replay.events)
      invariant Asked(hash, g, start, 0, old(replay.events)) == done + Asked(hash, g, s, replay.polls, replay.events)
      invariant recorder.state == On ==> old(recorder.state) == On && recorder.log == old(recorder.log) + done
      decreases |replay.events|, if replay.polls == 0 then 1 else 0
    {
      ghost var es := replay.events;
      if es != [] {
        AllKeptRest(es);
      }
      ReplayTurn(hash, g, s, replay.polls, es);
      var t := Site(hash, g.ask(s), replay, recorder);
      if t.Leaves? {
        return Drive(t.end, s);
      }
      if t.Strays? {
        return Drive(Failed, s);
      }
      if t.Goes? {
        s := g.resume(s, Polled);
      } else {
        ghost var later := Asked(hash, g, g.resume(s, t.answer), replay.polls, replay.events);
        assert done + ([es[0]] + later) == done + [es[0]] + later;
        assert old(recorder.log) + (done + [es[0]]) == old(recorder.log) + done + [es[0]];
        done := done + [es[0]];
        s := g.resume(s, t.answer);
      }
    }
  }

  /**
   * Runs an input again from its record and records it again (host/session.ts:350-382, 402-419). It is accepted
   * exactly when the replay is, and then its rows and end are in the new journal as they were in the old.
   */
  method ReplayInput<S>(hash: Hash, g: Guest<S>, start: S, input: RecordedInput, source: seq<Byte>, code: seq<Byte>,
      recorder: Recorder) returns (accepted: bool, d: Drive<S>)
    requires recorder.Valid() && recorder.hash == hash && AllKept(input.events)
    modifies recorder
    ensures recorder.Valid()
    ensures accepted <==> Accepted(Serve(hash, g, start, 0, input.events), input.end)
    ensures accepted ==> Serve(hash, g, start, 0, input.events) == Came(d.end, d.state, [])
    ensures var rows := [Input(input.number, hash(source), hash(code))] + input.events + [Ended(Ending(d.end))];
            accepted && recorder.state == On ==> recorder.log == old(recorder.log) + rows
  {
    hide Serve, Asked, AllKept, JournalOf, Numbers, TableAfter;
    var replay := new Replay(input);
    recorder.Input(input.number, source, code);
    d := DriveReplay(hash, g, start, replay, recorder);
    AskedAll(hash, g, start, 0, input.events);
    recorder.End(d.end);
    accepted := replay.End(d.end, input.end);
    if accepted {
      assert input.events == Asked(hash, g, start, 0, input.events) + [];
    }
  }
}
