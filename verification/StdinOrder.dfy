/** The order of the bytes inside one read, over runs of the standard input worker (host/input.ts:52-73, 123-154). */
module StdinOrder {
  import opened ByteStrings
  import opened Reservations
  import opened StdinQueue

  // ----- one take -----

  ghost predicate Full(ps: seq<Piece>) {
    forall k :: 0 <= k < |ps| ==> ps[k].bytes != []
  }

  /** The read holds nothing yet, or the queue is empty or starts at or after the end of what the read holds. */
  predicate Follows(parts: seq<Piece>, queue: seq<Piece>) {
    parts != [] && queue != [] ==> parts[|parts| - 1].End() <= queue[0].at
  }

  lemma SortedMore(parts: seq<Piece>, p: Piece)
    requires Sorted(parts)
    ensures Sorted(parts + [p]) <==> parts == [] || parts[|parts| - 1].End() <= p.at
  {
    var more := parts + [p];
    if parts != [] && parts[|parts| - 1].End() <= p.at {
      forall j, k | 0 <= j < k < |more| ensures more[j].End() <= more[k].at {
        if k == |parts| && j < |parts| - 1 {
          assert parts[j].End() <= parts[|parts| - 1].at;
        }
      }
    } else if parts != [] {
      assert more[|parts| - 1] == parts[|parts| - 1] && more[|parts|] == p;
    }
  }

  /** A read keeps what it already holds in front of what it takes, and takes from the front of the queue. */
  lemma {:induction false} TakesFront(kind: Kind, queue: seq<Piece>, parts: seq<Piece>)
    requires Full(queue) && queue != []
    ensures var got := TakeFor(kind, queue, parts).parts;
            |got| > |parts| && got[..|parts|] == parts && got[|parts|].at == queue[0].at
    decreases |queue|
  {
    hide LineEnd;
    TakeTurn(kind, queue, parts);
    var first := TakeFront(queue, Takes(kind, queue[0].bytes)).0;
    var more := parts + [first];
    assert more[..|parts|] == parts;
    if !StopsAt(kind, queue[0].bytes) && queue[1..] != [] {
      TakesFront(kind, queue[1..], more);
      var got := TakeFor(kind, queue[1..], more).parts;
      assert got[..|parts|] == got[..|more|][..|parts|] && got[|parts|] == got[..|more|][|parts|];
    } else if !StopsAt(kind, queue[0].bytes) {
      TakeNothing(kind, more);
    }
  }

  lemma {:induction false} TakesSorted(kind: Kind, queue: seq<Piece>, parts: seq<Piece>)
    requires Full(queue) && Sorted(queue) && Sorted(parts) && Follows(parts, queue)
    ensures Sorted(TakeFor(kind, queue, parts).parts)
    decreases |queue|
  {
    hide LineEnd;
    if queue == [] {
      TakeNothing(kind, parts);
    } else {
      TakeTurn(kind, queue, parts);
      var first := TakeFront(queue, Takes(kind, queue[0].bytes)).0;
      SortedMore(parts, first);
      if !StopsAt(kind, queue[0].bytes) {
        assert queue[0].bytes[..|queue[0].bytes|] == queue[0].bytes;
        SortedRest(queue);
        TakesSorted(kind, queue[1..], parts + [first]);
      }
    }
  }

  /**
   * A read that holds its bytes in order still does after it takes more exactly when the queue does not start with
   * bytes from before the ones it holds.
   */
  lemma OrderExactly(kind: Kind, queue: seq<Piece>, parts: seq<Piece>)
    requires Full(queue) && Sorted(queue) && Sorted(parts)
    ensures Sorted(TakeFor(kind, queue, parts).parts) <==> Follows(parts, queue)
  {
    hide LineEnd;
    if Follows(parts, queue) {
      TakesSorted(kind, queue, parts);
    } else {
      TakesFront(kind, queue, parts);
      var got := TakeFor(kind, queue, parts).parts;
      assert got[|parts| - 1] == got[..|parts|][|parts| - 1] == parts[|parts| - 1];
    }
  }

  /** What a read leaves of a sorted queue is sorted, and lies no lower. */
  lemma {:induction false} TakesRest(kind: Kind, queue: seq<Piece>, parts: seq<Piece>, n: nat)
    requires Full(queue) && Sorted(queue) && From(queue, n)
    ensures var rest := TakeFor(kind, queue, parts).queue; Full(rest) && Sorted(rest) && From(rest, n)
    ensures !TakeFor(kind, queue, parts).newline ==> TakeFor(kind, queue, parts).queue == []
    decreases |queue|
  {
    hide LineEnd;
    if queue == [] {
      TakeNothing(kind, parts);
    } else {
      TakeTurn(kind, queue, parts);
      SortedRest(queue);
      if StopsAt(kind, queue[0].bytes) {
        FrontCut(queue, Takes(kind, queue[0].bytes), n);
      } else {
        TakesRest(kind, queue[1..], parts + [queue[0]], n);
      }
    }
  }

  ghost predicate From(queue: seq<Piece>, n: nat) {
    forall k :: 0 <= k < |queue| ==> queue[k].at >= n
  }

  lemma FrontCut(queue: seq<Piece>, count: nat, n: nat)
    requires Full(queue) && Sorted(queue) && From(queue, n) && queue != [] && count <= |queue[0].bytes|
    ensures var rest := TakeFront(queue, count).1; Full(rest) && Sorted(rest) && From(rest, n)
  {
    var rest := TakeFront(queue, count).1;
    forall j, k | 0 <= j < k < |rest|
      ensures rest[j].End() <= rest[k].at
    {
      if count == |queue[0].bytes| {
        assert rest[j] == queue[j + 1] && rest[k] == queue[k + 1];
      } else {
        assert rest[j].End() == queue[j].End() && rest[k] == queue[k];
      }
    }
  }

  // ----- serving every read -----

  ghost predicate AllSorted(states: seq<InputState>) {
    forall k :: 0 <= k < |states| ==> Sorted(states[k].parts)
  }

  /** At each pending read's turn, from the k-th read on, the queue follows what the read holds. */
  ghost predicate InTurn(states: seq<InputState>, k: nat, queue: seq<Piece>)
    requires k <= |states|
    decreases |states| - k
  {
    k == |states| ||
    if states[k].result != Waiting then InTurn(states, k + 1, queue)
    else Follows(states[k].parts, queue) && InTurn(states, k + 1, TakeFor(states[k].kind, queue, states[k].parts).queue)
  }

  lemma {:induction false} TurnsAlike(a: seq<InputState>, b: seq<InputState>, k: nat, queue: seq<Piece>)
    requires |a| == |b| && k <= |a| && forall j :: k <= j < |a| ==> a[j] == b[j]
    ensures InTurn(a, k, queue) <==> InTurn(b, k, queue)
    decreases |a| - k
  {
    hide TakeFor, Follows;
    if k < |a| {
      TurnsAlike(a, b, k + 1, if a[k].result != Waiting then queue else TakeFor(a[k].kind, queue, a[k].parts).queue);
    }
  }

  /** Reads before the k-th are not served again. */
  lemma {:induction false} ServesLater(states: seq<InputState>, k: nat, queue: seq<Piece>, failure: int, failed: bool, ended: bool)
    requires k <= |states|
    ensures var r := ServeFrom(states, k, queue, failure, failed, ended).0;
            |r| == |states| && forall j :: 0 <= j < k ==> r[j] == states[j]
    decreases |states| - k
  {
    hide ServeOne;
    if k < |states| {
      var (read, rest) := ServeOne(states[k], queue, failure, failed, ended);
      ServesLater(states[k := read], k + 1, rest, failure, failed, ended);
    }
  }

  lemma ServedOne(read: InputState, queue: seq<Piece>, failure: int, failed: bool, ended: bool)
    requires Full(queue) && Sorted(queue) && Sorted(read.parts)
    ensures var (after, rest) := ServeOne(read, queue, failure, failed, ended);
            && Full(rest) && Sorted(rest)
            && (Sorted(after.parts) <==> read.result != Waiting || Follows(read.parts, queue))
            && rest == if read.result != Waiting then queue else TakeFor(read.kind, queue, read.parts).queue
    ensures read.result != Waiting ==> ServeOne(read, queue, failure, failed, ended).0 == read
  {
    hide TakeFor, Follows, Completed, Sorted;
    if read.result == Waiting {
      OrderExactly(read.kind, queue, read.parts);
      TakesRest(read.kind, queue, read.parts, 0);
    }
  }

  /** Serving keeps every read's bytes in order exactly when at each pending read's turn the queue follows what it holds. */
  lemma {:induction false} ServesInOrder(states: seq<InputState>, k: nat, queue: seq<Piece>, failure: int, failed: bool, ended: bool)
    requires k <= |states| && Full(queue) && Sorted(queue) && forall j :: k <= j < |states| ==> Sorted(states[j].parts)
    ensures var r := ServeFrom(states, k, queue, failure, failed, ended).0;
            |r| == |states| && ((forall j :: k <= j < |states| ==> Sorted(r[j].parts)) <==> InTurn(states, k, queue))
    decreases |states| - k
  {
    hide ServeOne, TakeFor, Follows, Sorted, Full;
    ServesLater(states, k, queue, failure, failed, ended);
    if k < |states| {
      var (read, rest) := ServeOne(states[k], queue, failure, failed, ended);
      var next := states[k := read];
      ServedOne(states[k], queue, failure, failed, ended);
      ServesInOrder(next, k + 1, rest, failure, failed, ended);
      ServesLater(next, k + 1, rest, failure, failed, ended);
      TurnsAlike(states, next, k + 1, rest);
      var r := ServeFrom(states, k, queue, failure, failed, ended).0;
      assert r == ServeFrom(next, k + 1, rest, failure, failed, ended).0 && r[k] == read;
    }
  }

  /** A read still waits only when the queue is empty. */
  ghost predicate Settled(states: seq<InputState>, queue: seq<Piece>) {
    forall k :: 0 <= k < |states| && states[k].result == Waiting ==> queue == []
  }

  lemma {:induction false} ServesSettled(states: seq<InputState>, k: nat, queue: seq<Piece>, failure: int, failed: bool, ended: bool)
    requires k <= |states| && forall j :: 0 <= j < k && states[j].result == Waiting ==> queue == []
    ensures var (r, rest) := ServeFrom(states, k, queue, failure, failed, ended); Settled(r, rest)
    decreases |states| - k
  {
    hide ServeOne, TakeFor;
    if k < |states| {
      var (read, rest) := ServeOne(states[k], queue, failure, failed, ended);
      WaitsForMore(states[k], queue, failure, failed, ended);
      ServesSettled(states[k := read], k + 1, rest, failure, failed, ended);
    }
  }

  lemma WaitsForMore(read: InputState, queue: seq<Piece>, failure: int, failed: bool, ended: bool)
    ensures var (after, rest) := ServeOne(read, queue, failure, failed, ended);
            (after.result == Waiting ==> rest == []) && (queue == [] ==> rest == [])
  {
    hide TakeFor, Newlines, WithoutLast, Bytes;
    if read.result == Waiting {
      TakesUntil(read.kind, queue, read.parts);
      TakeNothing(read.kind, read.parts);
    }
  }

  lemma {:induction false} TakesUntil(kind: Kind, queue: seq<Piece>, parts: seq<Piece>)
    ensures !TakeFor(kind, queue, parts).newline ==> TakeFor(kind, queue, parts).queue == []
    decreases |queue|
  {
    hide LineEnd;
    if queue == [] {
      TakeNothing(kind, parts);
    } else {
      TakeTurn(kind, queue, parts);
      if !StopsAt(kind, queue[0].bytes) {
        TakesUntil(kind, queue[1..], parts + [queue[0]]);
      }
    }
  }

  // ----- runs -----

  function Run(w: Input, steps: seq<Step>): Input
    decreases |steps|
  {
    if steps == [] then w else Run(Stepped(w, steps[0]), steps[1..])
  }

  const START := Input([], [], 0, 1, false, 0, false)

  /** In every run a read waits only for bytes that have not come. */
  lemma StaysSettled(w: Input, step: Step)
    requires Settled(w.states, w.available)
    ensures Settled(Stepped(w, step).states, Stepped(w, step).available)
  {
    hide ServeFrom, SortIn, IndexOf;
    match step
    case Arrival(bytes) =>
      ServesSettled(w.states, 0, w.available + [Piece(w.offset, bytes)], w.failure, w.failed, w.ended);
    case Ending => ServesSettled(w.states, 0, w.available, w.failure, w.failed, true);
    case Failing(errno) => ServesSettled(w.states, 0, w.available, errno, true, w.ended);
    case Start(kind) =>
      ServesSettled(w.states + [InputState(w.nextOperation, kind, [], Waiting)], 0, w.available, w.failure, w.failed, w.ended);
    case Taking(id) =>
    case Aborting(id) =>
      var k := IndexOf(w.states, id);
      if k < |w.states| {
        ServesSettled(Without(w.states, k), 0, SortIn(w.available, w.states[k].parts), w.failure, w.failed, w.ended);
      }
  }

  /** A queue that lies past what every pending read holds follows it at every turn. */
  lemma {:induction false} PastTurns(states: seq<InputState>, k: nat, queue: seq<Piece>, n: nat)
    requires k <= |states| && Full(queue) && Sorted(queue) && From(queue, n)
    requires forall j :: k <= j < |states| && states[j].result == Waiting ==> queue == [] || Until(states[j].parts, n)
    ensures InTurn(states, k, queue)
    decreases |states| - k
  {
    hide TakeFor, Sorted, Full;
    if k < |states| {
      if states[k].result == Waiting {
        TakesRest(states[k].kind, queue, states[k].parts, n);
        TakeNothing(states[k].kind, states[k].parts);
        PastTurns(states, k + 1, TakeFor(states[k].kind, queue, states[k].parts).queue, n);
      } else {
        PastTurns(states, k + 1, queue, n);
      }
    }
  }

  ghost predicate Until(parts: seq<Piece>, n: nat) {
    forall k :: 0 <= k < |parts| ==> parts[k].End() <= n
  }

  // ----- runs without an abort -----

  /** Everything lies below the offset, in order; and a read waits only for bytes that have not come. */
  ghost predicate Steady(w: Input) {
    && Full(w.available) && Sorted(w.available) && Until(w.available, w.offset)
    && Settled(w.states, w.available) && AllSorted(w.states)
    && forall k :: 0 <= k < |w.states| ==> Until(w.states[k].parts, w.offset)
  }

  lemma {:induction false} TakesBelow(kind: Kind, queue: seq<Piece>, parts: seq<Piece>, n: nat)
    requires Until(queue, n) && Until(parts, n)
    ensures Until(TakeFor(kind, queue, parts).queue, n) && Until(TakeFor(kind, queue, parts).parts, n)
    decreases |queue|
  {
    hide LineEnd;
    if queue == [] {
      TakeNothing(kind, parts);
    } else {
      TakeTurn(kind, queue, parts);
      if !StopsAt(kind, queue[0].bytes) {
        assert queue[0].bytes[..|queue[0].bytes|] == queue[0].bytes;
        TakesBelow(kind, queue[1..], parts + [queue[0]], n);
      }
    }
  }

  lemma {:induction false} ServesBelow(states: seq<InputState>, k: nat, queue: seq<Piece>, failure: int, failed: bool, ended: bool, n: nat)
    requires k <= |states| && Full(queue) && Sorted(queue) && Until(queue, n)
    requires forall j :: 0 <= j < |states| ==> Until(states[j].parts, n)
    ensures var (r, rest) := ServeFrom(states, k, queue, failure, failed, ended);
            Full(rest) && Sorted(rest) && Until(rest, n) && forall j :: 0 <= j < |r| ==> Until(r[j].parts, n)
    decreases |states| - k
  {
    hide TakeFor, Completed, Full, Sorted, Until;
    if k < |states| {
      var (read, rest) := ServeOne(states[k], queue, failure, failed, ended);
      if states[k].result == Waiting {
        AllAbove(queue);
        TakesRest(states[k].kind, queue, states[k].parts, 0);
        TakesBelow(states[k].kind, queue, states[k].parts, n);
      }
      ServesBelow(states[k := read], k + 1, rest, failure, failed, ended, n);
    }
  }

  lemma AllAbove(queue: seq<Piece>)
    ensures From(queue, 0)
  {}

  /** What one serving of steady reads gives, when the queue follows at each turn. */
  lemma ServedSteady(w: Input)
    requires Full(w.available) && Sorted(w.available) && Until(w.available, w.offset) && AllSorted(w.states)
    requires forall k :: 0 <= k < |w.states| ==> Until(w.states[k].parts, w.offset)
    requires InTurn(w.states, 0, w.available)
    ensures Steady(Served(w))
  {
    hide ServeFrom, InTurn, Full, Sorted, Until;
    ServesInOrder(w.states, 0, w.available, w.failure, w.failed, w.ended);
    ServesBelow(w.states, 0, w.available, w.failure, w.failed, w.ended, w.offset);
    ServesSettled(w.states, 0, w.available, w.failure, w.failed, w.ended);
  }

  /** Only an abort can lose the order: every other step keeps the bytes of every read in the order they arrived. */
  lemma OthersKeepOrder(w: Input, step: Step)
    requires Steady(w) && !step.Aborting? && (step.Arrival? ==> step.bytes != [])
    ensures Steady(Stepped(w, step))
  {
    hide Served, IndexOf, InTurn, SortIn;
    match step
    case Arrival(bytes) => ArrivalSteady(w, bytes);
    case Ending => ServesAgain(w.states, w.available); ServedSteady(w.(ended := true));
    case Failing(errno) => ServesAgain(w.states, w.available); ServedSteady(w.(failed := true, failure := errno));
    case Start(kind) =>
      var states := w.states + [InputState(w.nextOperation, kind, [], Waiting)];
      PastTurns(states, 0, w.available, 0);
      ServedSteady(w.(states := states, nextOperation := w.nextOperation + 1));
    case Taking(id) =>
  }

  lemma ArrivalSteady(w: Input, bytes: seq<Byte>)
    requires Steady(w) && bytes != []
    ensures Steady(Stepped(w, Arrival(bytes)))
  {
    hide Served, InTurn;
    var p := Piece(w.offset, bytes);
    SortedMore(w.available, p);
    ServesArrived(w.states, w.available, w.available + [p], w.offset, bytes);
    ServedSteady(w.(available := w.available + [p], offset := w.offset + |bytes|));
  }

  lemma {:induction false} RunStaysSteady(w: Input, steps: seq<Step>)
    requires Steady(w)
    requires forall k :: 0 <= k < |steps| ==> !steps[k].Aborting? && (steps[k].Arrival? ==> steps[k].bytes != [])
    ensures Steady(Run(w, steps))
    decreases |steps|
  {
    hide Steady, Stepped;
    if steps != [] {
      OthersKeepOrder(w, steps[0]);
      RunStaysSteady(Stepped(w, steps[0]), steps[1..]);
    }
  }

  /** In every run without an abort each read has its bytes in the order they arrived. */
  lemma RunKeepsOrder(steps: seq<Step>)
    requires forall k :: 0 <= k < |steps| ==> !steps[k].Aborting? && (steps[k].Arrival? ==> steps[k].bytes != [])
    ensures AllSorted(Run(START, steps).states)
  {
    hide Run, Sorted;
    Steadied();
    RunStaysSteady(START, steps);
  }

  lemma ServesAgain(states: seq<InputState>, queue: seq<Piece>)
    requires Full(queue) && Sorted(queue) && Settled(states, queue)
    ensures InTurn(states, 0, queue)
  {
    PastTurns(states, 0, queue, 0);
  }

  lemma ServesArrived(states: seq<InputState>, before: seq<Piece>, queue: seq<Piece>, n: nat, bytes: seq<Byte>)
    requires Settled(states, before) && queue == before + [Piece(n, bytes)] && Full(queue) && Sorted(queue)
    requires forall k :: 0 <= k < |states| ==> Until(states[k].parts, n)
    ensures InTurn(states, 0, queue)
  {
    hide Full, Sorted;
    PastTurns(states, 0, queue, if before == [] then n else 0);
  }

  // ----- an abort -----

  /**
   * An abort keeps the order exactly when at each pending read's turn the bytes put back, in the order they arrived,
   * follow what the read holds.
   */
  lemma AbortExactly(stdin: Stdin, id: nat)
    requires stdin.Valid() && AllSorted(stdin.states)
    ensures var w, k := stdin.Now(), IndexOf(stdin.states, id);
            k < |w.states| ==>
              (AllSorted(Stepped(w, Aborting(id)).states)
               <==> InTurn(Without(w.states, k), 0, SortIn(w.available, w.states[k].parts)))
  {
    var w, k := stdin.Now(), IndexOf(stdin.states, id);
    if k < |w.states| {
      hide ServeFrom, SortIn, IndexOf, InTurn, Sorted;
      var states, queue := Without(w.states, k), SortIn(w.available, w.states[k].parts);
      PutBackInPlace(stdin, k);
      ServesInOrder(states, 0, queue, w.failure, w.failed, w.ended);
      assert Stepped(w, Aborting(id)).states == ServeFrom(states, 0, queue, w.failure, w.failed, w.ended).0;
    }
  }

  lemma PutBackInPlace(stdin: Stdin, k: nat)
    requires stdin.Valid() && k < |stdin.states|
    ensures var queue := SortIn(stdin.available, stdin.states[k].parts); Full(queue) && Sorted(queue)
  {
    hide Held, SortIn, Covering, Disjoint, CoversSome;
    HeldAt(stdin.states, k);
    var owner := PartsRestored(stdin.received, stdin.owner, stdin.available, Held(stdin.states), stdin.delivered, stdin.states[k].id);
  }

  /** A line read has its line, and a text read has the bytes after it. The first is aborted, and input ends. */
  function Losing(a: Byte, b: Byte): seq<Step> {
    [Start(Line), Start(All), Arrival([a, LF]), Arrival([b]), Aborting(1), Ending]
  }

  lemma ServesPair(x: InputState, y: InputState, queue: seq<Piece>, ended: bool)
    ensures var (x', rest) := ServeOne(x, queue, 0, false, ended);
            var (y', none) := ServeOne(y, rest, 0, false, ended);
            ServeFrom([x, y], 0, queue, 0, false, ended) == ([x', y'], none)
  {
    hide ServeOne;
    var (x', rest) := ServeOne(x, queue, 0, false, ended);
    var (y', none) := ServeOne(y, rest, 0, false, ended);
    assert [x, y][0 := x'] == [x', y] && [x', y][1 := y'] == [x', y'];
    assert ServeFrom([x', y'], 2, none, 0, false, ended) == ([x', y'], none);
    assert ServeFrom([x', y], 1, rest, 0, false, ended) == ServeFrom([x', y'], 2, none, 0, false, ended);
  }

  lemma ServesSingle(x: InputState, queue: seq<Piece>, ended: bool)
    ensures var (x', rest) := ServeOne(x, queue, 0, false, ended);
            ServeFrom([x], 0, queue, 0, false, ended) == ([x'], rest)
  {
    hide ServeOne;
    var (x', rest) := ServeOne(x, queue, 0, false, ended);
    assert [x][0 := x'] == [x'];
    assert ServeFrom([x'], 1, rest, 0, false, ended) == ([x'], rest);
  }

  /** A text read takes the one piece there is. */
  lemma TakesText(p: Piece, parts: seq<Piece>)
    ensures TakeFor(All, [p], parts) == Taken([], parts + [p], false)
  {
    TakeNothing(All, parts + [p]);
    assert [p][1..] == [];
  }

  lemma LineIs(a: Byte)
    requires a != LF
    ensures LineEnd([a, LF]) == 2
  {
    assert [a, LF][1..] == [LF];
    assert LineEnd([LF]) == 1;
  }

  lemma TakesLine(a: Byte)
    requires a != LF
    ensures var p := Piece(0, [a, LF]); TakeFor(Line, [p], []) == Taken([], [p], true)
  {
    var p := Piece(0, [a, LF]);
    LineIs(a);
    hide LineEnd;
    TakeTurn(Line, [p], []);
    assert [a, LF][..2] == [a, LF] && [p][1..] == [] && [] + [p] == [p];
  }

  lemma LineText(a: Byte)
    requires a != LF && a != CR
    ensures Completed(Line, [Piece(0, [a, LF])], true) == Text([a])
  {
    var p := Piece(0, [a, LF]);
    assert [p][..0] == [] && Flatten([]) == [] && Flatten([p]) == [] + [a, LF] == [a, LF];
    assert [a, LF][..1] == [a];
  }

  lemma Steadied()
    ensures Steady(START)
  {}

  lemma LosesText(a: Byte, b: Byte)
    requires a != LF && a != CR && b != LF
    ensures Completed(All, [Piece(2, [b]), Piece(0, [a, LF])], false) == Text([b, a, LF])
  {
    var p, q := Piece(0, [a, LF]), Piece(2, [b]);
    assert [q, p][..1] == [q] && [q][..0] == [] && Flatten([q]) == [b];
    assert Flatten([q, p]) == [b] + [a, LF] == [b, a, LF];
    assert [b, a, LF][1..] == [a, LF] && [a, LF][1..] == [LF];
    assert Newlines([a, LF]) == [a] + Newlines([LF]);
  }

  /** Inside one read the order can be lost: here the program gets the third byte first. */
  lemma OrderCanFail(a: Byte, b: Byte)
    requires a != LF && a != CR && b != LF
    ensures Run(START, Losing(a, b)).states == [InputState(2, All, [Piece(2, [b]), Piece(0, [a, LF])], Text([b, a, LF]))]
  {
    hide TakeFor, Completed, ServeFrom, Newlines, LineEnd, Flatten;
    var p, q, steps := Piece(0, [a, LF]), Piece(2, [b]), Losing(a, b);
    var line, text := InputState(1, Line, [], Waiting), InputState(2, All, [], Waiting);
    var had := line.(parts := [p], result := Text([a]));
    var w1, w2 := START.(states := [line], nextOperation := 2), START.(states := [line, text], nextOperation := 3);
    var w3, w4 := w2.(states := [had, text], offset := 2), w2.(states := [had, text.(parts := [q])], offset := 3);
    var w5 := w2.(states := [text.(parts := [q, p])], offset := 3);
    assert Stepped(START, Start(Line)) == w1 by {
      assert [] + [line] == [line];
      ServesSingle(line, [], false);
      TakeNothing(Line, []);
    }
    assert Stepped(w1, Start(All)) == w2 by {
      assert [line] + [text] == [line, text];
      ServesPair(line, text, [], false);
      TakeNothing(Line, []);
      TakeNothing(All, []);
    }
    assert Stepped(w2, Arrival([a, LF])) == w3 by {
      assert [] + [p] == [p];
      ServesPair(line, text, [p], false);
      TakesLine(a);
      LineText(a);
      TakeNothing(All, []);
    }
    assert Stepped(w3, Arrival([b])) == w4 by {
      assert [] + [q] == [q];
      ServesPair(had, text, [q], false);
      TakesText(q, []);
    }
    assert Stepped(w4, Aborting(1)) == w5 by {
      PutsBack(p, had, text.(parts := [q]));
      ServesSingle(text.(parts := [q]), [p], false);
      TakesText(p, [q]);
      assert [q] + [p] == [q, p];
    }
    assert Stepped(w5, Ending).states == [text.(parts := [q, p], result := Text([b, a, LF]))] by {
      ServesSingle(text.(parts := [q, p]), [], true);
      TakeNothing(All, [q, p]);
      LosesText(a, b);
    }
    RunsSix(START, steps);
  }

  lemma PutsBack(p: Piece, x: InputState, y: InputState)
    requires x.id == 1 && x.parts == [p]
    ensures IndexOf([x, y], 1) == 0 && Without([x, y], 0) == [y] && SortIn([], x.parts) == [p]
  {
    IndexIs([x, y], 1, 0);
    assert [x, y][..0] == [] && [x, y][1..] == [y];
    assert [p][1..] == [] && Position([], p) == 0;
  }

  lemma RunsSix(w: Input, steps: seq<Step>)
    requires |steps| == 6
    ensures Run(w, steps) ==
            Stepped(Stepped(Stepped(Stepped(Stepped(Stepped(w, steps[0]), steps[1]), steps[2]), steps[3]), steps[4]), steps[5])
  {
    hide Stepped;
    RunsTwo(w, steps);
    RunsTwo(Stepped(Stepped(w, steps[0]), steps[1]), steps[2..]);
    RunsTwo(Stepped(Stepped(Stepped(Stepped(w, steps[0]), steps[1]), steps[2]), steps[3]), steps[4..]);
  }

  lemma RunsTwo(w: Input, steps: seq<Step>)
    requires |steps| >= 2
    ensures Run(w, steps) == Run(Stepped(Stepped(w, steps[0]), steps[1]), steps[2..])
  {
    hide Stepped;
    assert steps[1..][1..] == steps[2..];
  }
}
