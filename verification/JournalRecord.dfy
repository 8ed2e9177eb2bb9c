/** A journal read back as its inputs: `recorded` (host/journal.ts:928-958). */
module JournalRecord {
  import opened ByteStrings
  import opened JournalRows
  import opened JournalEvents
  import opened Options

  datatype Failure =
    | Undecodable | NoHeader | WrongFormat | OutsideInput
    | CutShort | Unfinished | OtherExecution | OutOfOrder | NoArchive

  datatype Result<+T> = Ok(value: T) | Fail(failure: Failure)

  /** An input and what happened while it ran; `end` is missing when the journal stops inside it. */
  datatype RecordedInput = RecordedInput(number: nat, source: nat, code: nat, events: seq<Event>, end: Option<End>)

  datatype Record = Record(execution: seq<Byte>, inputs: seq<RecordedInput>)

  /** One event joins the inputs so far. */
  function Step(inputs: seq<RecordedInput>, e: Event): Result<seq<RecordedInput>> {
    if e.Input? then Ok(inputs + [RecordedInput(e.number, e.source, e.code, [], None)])
    else if inputs == [] || inputs[|inputs| - 1].end.Some? then Fail(OutsideInput)
    else
      var last := inputs[|inputs| - 1];
      Ok(inputs[..|inputs| - 1] +
         [if e.Ended? then last.(end := Some(e.end)) else last.(events := last.events + [e])])
  }

  function Group(inputs: seq<RecordedInput>, es: seq<Event>): Result<seq<RecordedInput>>
    decreases |es|
  {
    if es == [] then Ok(inputs)
    else
      match Step(inputs, es[0])
      case Fail(f) => Fail(f)
      case Ok(next) => Group(next, es[1..])
  }

  function RecordOf(es: seq<Event>): Result<Record> {
    if es == [] || !es[0].Header? then Fail(NoHeader)
    else if es[0].format != 1 then Fail(WrongFormat)
    else
      match Group([], es[1..])
      case Fail(f) => Fail(f)
      case Ok(inputs) => Ok(Record(es[0].execution, inputs))
  }

  function RecordIn(bytes: seq<Byte>): Result<Record> {
    match DecodeRows(ReadRows(bytes).rows)
    case None => Fail(Undecodable)
    case Some(es) => RecordOf(es)
  }

  method Recorded(bytes: seq<Byte>) returns (r: Result<Record>)
    ensures r == RecordIn(bytes)
  {
    hide ReadRows, DecodeRows;
    var decoded := DecodeRows(ReadRows(bytes).rows);
    if decoded.None? {
      return Fail(Undecodable);
    }
    var es := decoded.value;
    if es == [] || !es[0].Header? {
      return Fail(NoHeader);
    }
    if es[0].format != 1 {
      return Fail(WrongFormat);
    }
    var inputs: seq<RecordedInput> := [];
    for i := 1 to |es|
      invariant Group([], es[1..]) == Group(inputs, es[i..])
    {
      var e := es[i];
      assert es[i..][1..] == es[i + 1..];
      if e.Input? {
        inputs := inputs + [RecordedInput(e.number, e.source, e.code, [], None)];
        continue;
      }
      if inputs == [] || inputs[|inputs| - 1].end.Some? {
        return Fail(OutsideInput);
      }
      var last := |inputs| - 1;
      if e.Ended? {
        inputs := inputs[..last] + [inputs[last].(end := Some(e.end))];
      } else {
        inputs := inputs[..last] + [inputs[last].(events := inputs[last].events + [e])];
      }
    }
    return Ok(Record(es[0].execution, inputs));
  }

  // ----- what the inputs say -----

  /** The events that make an input. */
  function EventsOf(input: RecordedInput): seq<Event> {
    [Input(input.number, input.source, input.code)] + input.events + if input.end.Some? then [Ended(input.end.value)] else []
  }

  function Ungroup(inputs: seq<RecordedInput>): seq<Event> {
    if inputs == [] then [] else Ungroup(inputs[..|inputs| - 1]) + EventsOf(inputs[|inputs| - 1])
  }

  /** An input holds no start or end of an input. */
  ghost predicate Within(input: RecordedInput) {
    forall i :: 0 <= i < |input.events| ==> !input.events[i].Input? && !input.events[i].Ended?
  }

  ghost predicate AllWithin(inputs: seq<RecordedInput>) {
    forall i :: 0 <= i < |inputs| ==> Within(inputs[i])
  }

  lemma StepKeeps(inputs: seq<RecordedInput>, e: Event)
    requires Step(inputs, e).Ok? && AllWithin(inputs)
    ensures Ungroup(Step(inputs, e).value) == Ungroup(inputs) + [e] && AllWithin(Step(inputs, e).value)
  {
    var next := Step(inputs, e).value;
    var n := |next| - 1;
    if e.Input? {
      assert next[..n] == inputs;
      assert EventsOf(next[n]) == [e];
    } else {
      assert next[..n] == inputs[..n];
      assert EventsOf(next[n]) == EventsOf(inputs[n]) + [e];
      assert Ungroup(inputs[..n]) + (EventsOf(inputs[n]) + [e]) == Ungroup(inputs[..n]) + EventsOf(inputs[n]) + [e];
      assert Within(inputs[n]);
    }
  }

  lemma {:induction false} GroupKeeps(inputs: seq<RecordedInput>, es: seq<Event>)
    requires Group(inputs, es).Ok? && AllWithin(inputs)
    ensures Ungroup(Group(inputs, es).value) == Ungroup(inputs) + es && AllWithin(Group(inputs, es).value)
    decreases |es|
  {
    hide Step, Ungroup, AllWithin;
    if es == [] {
      assert Ungroup(inputs) + es == Ungroup(inputs);
    } else {
      var next := Step(inputs, es[0]).value;
      StepKeeps(inputs, es[0]);
      GroupKeeps(next, es[1..]);
      assert Ungroup(inputs) + [es[0]] + es[1..] == Ungroup(inputs) + es;
    }
  }

  lemma {:induction false} GroupSplits(inputs: seq<RecordedInput>, a: seq<Event>, b: seq<Event>)
    ensures Group(inputs, a + b) ==
            match Group(inputs, a) { case Fail(f) => Fail(f) case Ok(middle) => Group(middle, b) }
    decreases |a|
  {
    hide Step;
    if a == [] {
      assert a + b == b;
    } else {
      assert (a + b)[0] == a[0] && (a + b)[1..] == a[1..] + b;
      match Step(inputs, a[0])
      case Fail(_) =>
      case Ok(next) => GroupSplits(next, a[1..], b);
    }
  }

  /** The events of an input under way join it one by one. */
  lemma {:induction false} GroupBody(before: seq<RecordedInput>, input: RecordedInput, es: seq<Event>)
    requires input.end.None? && forall i :: 0 <= i < |es| ==> !es[i].Input? && !es[i].Ended?
    ensures Group(before + [input], es) == Ok(before + [input.(events := input.events + es)])
    decreases |es|
  {
    if es == [] {
      assert input.events + es == input.events;
    } else {
      var grown := input.(events := input.events + [es[0]]);
      assert (before + [input])[..|before|] == before;
      GroupBody(before, grown, es[1..]);
      assert grown.events + es[1..] == input.events + es;
    }
  }

  lemma GroupInput(before: seq<RecordedInput>, input: RecordedInput)
    requires Within(input)
    ensures Group(before, EventsOf(input)) == Ok(before + [input])
  {
    var start := Input(input.number, input.source, input.code);
    var open := RecordedInput(input.number, input.source, input.code, [], None);
    var end := if input.end.Some? then [Ended(input.end.value)] else [];
    assert EventsOf(input) == [start] + (input.events + end);
    assert Group(before, [start]) == Ok(before + [open]) by { assert [start][1..] == []; }
    GroupSplits(before, [start], input.events + end);
    GroupSplits(before + [open], input.events, end);
    GroupBody(before, open, input.events);
    var body := open.(events := [] + input.events);
    assert body.events == input.events;
    if input.end.Some? {
      assert (before + [body])[..|before|] == before;
      assert end[1..] == [];
      assert Group(before + [body], end) == Ok(before + [body.(end := input.end)]);
    }
  }

  lemma {:induction false} GroupUngroup(inputs: seq<RecordedInput>)
    requires AllWithin(inputs)
    ensures Group([], Ungroup(inputs)) == Ok(inputs)
    decreases |inputs|
  {
    hide Step, EventsOf, Within, Group;
    if inputs == [] {
      assert Group([], []) == Ok([]) by { GroupNothing(); }
    } else {
      var n := |inputs| - 1;
      GroupUngroup(inputs[..n]);
      GroupSplits([], Ungroup(inputs[..n]), EventsOf(inputs[n]));
      GroupInput(inputs[..n], inputs[n]);
      assert inputs == inputs[..n] + [inputs[n]];
    }
  }

  lemma GroupNothing()
    ensures Group([], []) == Ok([])
  {}

  /** Grouping loses and invents nothing: it gives exactly the inputs that the events spell out. */
  lemma GroupExactly(es: seq<Event>, inputs: seq<RecordedInput>)
    ensures Group([], es) == Ok(inputs) <==> Ungroup(inputs) == es && AllWithin(inputs)
  {
    hide Group, Ungroup, AllWithin;
    if Group([], es) == Ok(inputs) {
      assert AllWithin([]) by { NoneWithin(); }
      GroupKeeps([], es);
      assert Ungroup([]) + es == es by { NoneWithin(); }
    }
    if Ungroup(inputs) == es && AllWithin(inputs) {
      GroupUngroup(inputs);
    }
  }

  lemma NoneWithin()
    ensures AllWithin([]) && Ungroup([]) == []
  {}

  lemma {:induction false} UngroupJoins(a: seq<RecordedInput>, b: seq<RecordedInput>)
    ensures Ungroup(a + b) == Ungroup(a) + Ungroup(b)
    decreases |b|
  {
    hide EventsOf;
    if b == [] {
      assert a + b == a;
      assert Ungroup(a) + Ungroup(b) == Ungroup(a);
    } else {
      var n := |b| - 1;
      var s := a + b;
      assert s[..|s| - 1] == a + b[..n] && s[|s| - 1] == b[n];
      UngroupJoins(a, b[..n]);
      assert Ungroup(a) + Ungroup(b[..n]) + EventsOf(b[n]) == Ungroup(a) + (Ungroup(b[..n]) + EventsOf(b[n]));
    }
  }

  // ----- headers inside inputs -----

  /** The events that are not headers. */
  function NoHeaders(es: seq<Event>): seq<Event> {
    if es == [] then [] else NoHeaders(es[..|es| - 1]) + if es[|es| - 1].Header? then [] else [es[|es| - 1]]
  }

  function Bare(input: RecordedInput): RecordedInput {
    input.(events := NoHeaders(input.events))
  }

  function BareAll(inputs: seq<RecordedInput>): (r: seq<RecordedInput>)
    ensures |r| == |inputs|
  {
    seq(|inputs|, i requires 0 <= i < |inputs| => Bare(inputs[i]))
  }

  lemma {:induction false} NoHeadersJoins(a: seq<Event>, b: seq<Event>)
    ensures NoHeaders(a + b) == NoHeaders(a) + NoHeaders(b)
    decreases |b|
  {
    if b == [] {
      assert a + b == a;
      assert NoHeaders(a) + NoHeaders(b) == NoHeaders(a);
    } else {
      var s, n := a + b, |b| - 1;
      assert s[..|s| - 1] == a + b[..n] && s[|s| - 1] == b[n];
      NoHeadersJoins(a, b[..n]);
    }
  }

  lemma {:induction false} NoHeadersIn(es: seq<Event>)
    ensures forall e <- NoHeaders(es) :: e in es && !e.Header?
    decreases |es|
  {
    if es != [] {
      var n := |es| - 1;
      NoHeadersIn(es[..n]);
    }
  }

  lemma {:induction false} NoHeadersLess(es: seq<Event>)
    ensures |NoHeaders(es)| <= |es|
    ensures NoHeaders(es) == es <==> forall i :: 0 <= i < |es| ==> !es[i].Header?
    decreases |es|
  {
    if es != [] {
      var n := |es| - 1;
      var before := es[..n];
      NoHeadersLess(before);
      assert es == before + [es[n]];
      assert forall i :: 0 <= i < n ==> before[i] == es[i];
      if !es[n].Header? {
        SameEnd(NoHeaders(before), before, es[n]);
      }
    }
  }

  lemma SameEnd(a: seq<Event>, b: seq<Event>, e: Event)
    ensures a + [e] == b + [e] <==> a == b
  {
    if a + [e] == b + [e] {
      assert (a + [e])[..|a|] == a && (b + [e])[..|b|] == b;
    }
  }

  lemma NoHeadersFrom(es: seq<Event>)
    ensures forall i :: 0 <= i < |NoHeaders(es)| ==> NoHeaders(es)[i] in es && !NoHeaders(es)[i].Header?
    ensures NoHeaders(es) == es <==> forall i :: 0 <= i < |es| ==> !es[i].Header?
    ensures |NoHeaders(es)| <= |es|
  {
    hide NoHeaders;
    NoHeadersIn(es);
    NoHeadersLess(es);
  }

  lemma BareEvents(input: RecordedInput)
    ensures EventsOf(Bare(input)) == NoHeaders(EventsOf(input))
    ensures Within(input) ==> Within(Bare(input))
  {
    var start := [Input(input.number, input.source, input.code)];
    var end := if input.end.Some? then [Ended(input.end.value)] else [];
    NoHeadersJoins(start + input.events, end);
    NoHeadersJoins(start, input.events);
    NoHeadersFrom(input.events);
    NoHeadersFrom(start);
    NoHeadersFrom(end);
  }

  lemma {:induction false} BareUngroup(inputs: seq<RecordedInput>)
    ensures Ungroup(BareAll(inputs)) == NoHeaders(Ungroup(inputs))
    ensures AllWithin(inputs) ==> AllWithin(BareAll(inputs))
    decreases |inputs|
  {
    hide EventsOf, Bare, Within;
    if inputs != [] {
      var n := |inputs| - 1;
      BareUngroup(inputs[..n]);
      BareEvents(inputs[n]);
      assert BareAll(inputs)[..n] == BareAll(inputs[..n]);
      NoHeadersJoins(Ungroup(inputs[..n]), EventsOf(inputs[n]));
      if AllWithin(inputs) {
        forall i | 0 <= i < |inputs|
          ensures Within(BareAll(inputs)[i])
        {
          BareEvents(inputs[i]);
        }
      }
    }
  }
}
