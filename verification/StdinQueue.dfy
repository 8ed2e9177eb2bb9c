/** The guest's standard input: reads reserve bytes until they are finished or aborted (host/input.ts:29-79, 123-157). */
module StdinQueue {
  import opened ByteStrings
  import opened Reservations

  datatype Kind = Line | All

  /** A read's result: a line, no line at the end, the whole text, or the error number. */
  datatype Result = Waiting | Text(text: seq<Byte>) | NoLine | Error(errno: int)

  datatype InputState = InputState(id: nat, kind: Kind, parts: seq<Piece>, result: Result)

  const LF: Byte := 10
  const CR: Byte := 13

  // ----- serving reads -----

  /** How many bytes lead up to the first newline and over it, or none. */
  function LineEnd(bytes: seq<Byte>): (n: nat)
    ensures n <= |bytes|
    ensures n == 0 <==> LF !in bytes
    ensures n > 0 ==> bytes[n - 1] == LF && LF !in bytes[..n - 1]
  {
    if bytes == [] then 0
    else if bytes[0] == LF then 1
    else
      var n := LineEnd(bytes[1..]);
      assert n > 0 ==> bytes[..n] == [bytes[0]] + bytes[1..][..n - 1];
      if n == 0 then 0 else n + 1
  }

  /** How many bytes of a queued piece a read takes: a line stops at its newline. */
  function Takes(kind: Kind, bytes: seq<Byte>): (n: nat)
    ensures n <= |bytes| && (bytes != [] ==> n > 0)
  {
    if kind == All || LineEnd(bytes) == 0 then |bytes| else LineEnd(bytes)
  }

  predicate StopsAt(kind: Kind, bytes: seq<Byte>) {
    kind == Line && LineEnd(bytes) > 0
  }

  datatype Taken = Taken(queue: seq<Piece>, parts: seq<Piece>, newline: bool)

  /** `take`: the first `n` bytes of the queue move to the read (host/input.ts:29-37). */
  function TakeFront(queue: seq<Piece>, n: nat): (r: (Piece, seq<Piece>))
    requires queue != [] && n <= |queue[0].bytes|
  {
    var p := queue[0];
    (Piece(p.at, p.bytes[..n]), if n == |p.bytes| then queue[1..] else [Piece(p.at + n, p.bytes[n..])] + queue[1..])
  }

  /** The queued bytes that a read takes (host/input.ts:58-67). */
  function TakeFor(kind: Kind, queue: seq<Piece>, parts: seq<Piece>): Taken
    decreases |queue|
  {
    if queue == [] then Taken(queue, parts, false)
    else
      var bytes := queue[0].bytes;
      var (first, rest) := TakeFront(queue, Takes(kind, bytes));
      if StopsAt(kind, bytes) then Taken(rest, parts + [first], true)
      else TakeFor(kind, queue[1..], parts + [queue[0]])
  }

  /** The bytes of a read's parts, in the order it took them. */
  function Bytes(parts: seq<Piece>): seq<Byte> {
    Flatten(parts)
  }

  function WithoutLast(s: seq<Byte>, b: Byte): seq<Byte> {
    if s != [] && s[|s| - 1] == b then s[..|s| - 1] else s
  }

  /** Each CR LF is an LF. */
  function Newlines(s: seq<Byte>): seq<Byte> {
    if |s| < 2 then s
    else if s[0] == CR && s[1] == LF then [LF] + Newlines(s[2..])
    else [s[0]] + Newlines(s[1..])
  }

  /** `complete` (host/input.ts:38-51). */
  function Completed(kind: Kind, parts: seq<Piece>, newline: bool): (r: Result)
    ensures r != Waiting
  {
    var bytes := Bytes(parts);
    if kind == All then Text(Newlines(bytes))
    else if newline then Text(WithoutLast(if bytes == [] then bytes else bytes[..|bytes| - 1], CR))
    else if bytes == [] then NoLine
    else Text(bytes)
  }

  /** What a pending read is served. */
  function ServeOne(read: InputState, queue: seq<Piece>, failure: int, failed: bool, ended: bool): (r: (InputState, seq<Piece>))
    ensures r.0.id == read.id && r.0.kind == read.kind
  {
    if read.result != Waiting then (read, queue)
    else
      var t := TakeFor(read.kind, queue, read.parts);
      var result := if failed then Error(failure)
                    else if t.newline || ended then Completed(read.kind, t.parts, t.newline)
                    else Waiting;
      (read.(parts := t.parts, result := result), t.queue)
  }

  /** `serve`: the pending reads from the k-th on take what is queued, in the order they started. */
  function ServeFrom(states: seq<InputState>, k: nat, queue: seq<Piece>, failure: int, failed: bool, ended: bool): (r: (seq<InputState>, seq<Piece>))
    requires k <= |states|
    decreases |states| - k
  {
    if k == |states| then (states, queue)
    else
      var (read, rest) := ServeOne(states[k], queue, failure, failed, ended);
      ServeFrom(states[k := read], k + 1, rest, failure, failed, ended)
  }

  // ----- what a turn of a pending read does -----

  /** A line ends with its only newline. */
  predicate IsLine(bytes: seq<Byte>) {
    bytes != [] && bytes[|bytes| - 1] == LF && LF !in bytes[..|bytes| - 1]
  }

  /** The read is for a line, and there is a newline in the queue. */
  predicate Stops(read: InputState, queue: seq<Piece>) {
    read.kind == Line && LF in Flatten(queue)
  }

  /** The first queued bytes move to the read: a line's up to and over the first newline, otherwise all of them. */
  ghost predicate Moves(before: InputState, after: InputState, queue: seq<Piece>, rest: seq<Piece>, taken: seq<Byte>) {
    && Flatten(queue) == taken + Flatten(rest) && Flatten(after.parts) == Flatten(before.parts) + taken
    && if Stops(before, queue) then IsLine(taken) else rest == []
  }

  /** The line in `bytes`, without its newline and a carriage return before that. */
  predicate IsLineText(bytes: seq<Byte>, text: seq<Byte>) {
    LF !in text && (bytes == text + [CR, LF] || (bytes == text + [LF] && (text != [] ==> text[|text| - 1] != CR)))
  }

  /** The result of a read that had its turn. */
  ghost predicate Results(read: InputState, stops: bool, failure: int, failed: bool, ended: bool) {
    var bytes := Flatten(read.parts);
    if failed then read.result == Error(failure)
    else if stops then read.result.Text? && IsLineText(bytes, read.result.text)
    else if !ended then read.result == Waiting
    else if read.kind == All then read.result == Text(Newlines(bytes))
    else read.result == if bytes == [] then NoLine else Text(bytes)
  }

  /** A read with a result stays; a pending one takes its bytes and may have its result. */
  ghost predicate Turn(before: InputState, after: InputState, queue: seq<Piece>, rest: seq<Piece>, failure: int, failed: bool, ended: bool) {
    if before.result != Waiting then after == before && rest == queue
    else
      && after.id == before.id && after.kind == before.kind
      && (exists taken :: Moves(before, after, queue, rest, taken))
      && Results(after, Stops(before, queue), failure, failed, ended)
  }

  /** The reads have their turns one after the other, each over the queue that the one before left. */
  ghost predicate Turns(before: seq<InputState>, after: seq<InputState>, queues: seq<seq<Piece>>, n: nat, failure: int, failed: bool, ended: bool) {
    && |after| == |before| && n <= |before| && |queues| == n + 1
    && forall k :: 0 <= k < n ==> Turn(before[k], after[k], queues[k], queues[k + 1], failure, failed, ended)
  }

  lemma TurnsMore(before: seq<InputState>, after: seq<InputState>, queues: seq<seq<Piece>>, n: nat, failure: int, failed: bool, ended: bool,
      read: InputState, queue: seq<Piece>)
    requires Turns(before, after, queues, n, failure, failed, ended) && n < |before|
    requires Turn(before[n], read, queues[n], queue, failure, failed, ended)
    ensures Turns(before, after[n := read], queues + [queue], n + 1, failure, failed, ended)
  {
    hide Turn;
  }

  lemma NoTurns(states: seq<InputState>, queue: seq<Piece>, failure: int, failed: bool, ended: bool)
    ensures Turns(states, states, [queue], 0, failure, failed, ended)
  {}

  ghost predicate InTurn(before: seq<InputState>, after: seq<InputState>, queue: seq<Piece>, rest: seq<Piece>, failure: int, failed: bool,
      ended: bool)
  {
    exists queues: seq<seq<Piece>> ::
      Turns(before, after, queues, |before|, failure, failed, ended) && queues[0] == queue && queues[|before|] == rest
  }

  /** No pending line read holds a newline. */
  ghost predicate Unended(states: seq<InputState>) {
    forall k :: 0 <= k < |states| && states[k].kind == Line && states[k].result == Waiting ==> LF !in Flatten(states[k].parts)
  }

  lemma UnendedUpdate(states: seq<InputState>, k: nat, read: InputState)
    requires Unended(states) && k < |states|
    requires read.kind == Line && read.result == Waiting ==> LF !in Flatten(read.parts)
    ensures Unended(states[k := read])
  {
    hide Flatten;
  }

  lemma UnendedAt(states: seq<InputState>, k: nat)
    requires Unended(states) && k < |states|
    ensures states[k].kind == Line && states[k].result == Waiting ==> LF !in Flatten(states[k].parts)
  {
    hide Flatten;
  }

  lemma UnendedMore(states: seq<InputState>, id: nat, kind: Kind)
    requires Unended(states)
    ensures Unended(states + [InputState(id, kind, [], Waiting)])
  {
    assert Flatten([]) == [];
    hide Flatten;
  }

  lemma UnendedWithout(states: seq<InputState>, k: nat)
    requires Unended(states) && k < |states|
    ensures Unended(Without(states, k))
  {
    hide Flatten;
  }

  lemma FrontSplits(queue: seq<Piece>, n: nat)
    requires queue != [] && n <= |queue[0].bytes|
    ensures var (first, rest) := TakeFront(queue, n);
            first.bytes == queue[0].bytes[..n] && Flatten(queue) == first.bytes + Flatten(rest)
    ensures Flatten(queue) == queue[0].bytes + Flatten(queue[1..])
  {
    hide Flatten;
    var p := queue[0];
    assert queue == [p] + queue[1..];
    FlattenFirst(p, queue[1..]);
    if n < |p.bytes| {
      FlattenFirst(Piece(p.at + n, p.bytes[n..]), queue[1..]);
      assert p.bytes[..n] + (p.bytes[n..] + Flatten(queue[1..])) == p.bytes + Flatten(queue[1..]);
    } else {
      assert p.bytes[..n] == p.bytes;
    }
  }

  lemma PartsGrow(parts: seq<Piece>, p: Piece)
    ensures Flatten(parts + [p]) == Flatten(parts) + p.bytes
  {
    assert (parts + [p])[..|parts|] == parts;
  }

  lemma LineOver(bytes: seq<Byte>, more: seq<Byte>)
    requires LF !in bytes && IsLine(more)
    ensures IsLine(bytes + more)
  {
    assert (bytes + more)[..|bytes| + |more| - 1] == bytes + more[..|more| - 1];
  }

  /** What a read takes are the first queued bytes: a line's up to and over the first newline, otherwise all. */
  lemma {:induction false} TakenBytes(kind: Kind, queue: seq<Piece>, parts: seq<Piece>) returns (taken: seq<Byte>)
    ensures var t := TakeFor(kind, queue, parts);
            && Flatten(queue) == taken + Flatten(t.queue) && Flatten(t.parts) == Flatten(parts) + taken
            && (t.newline <==> kind == Line && LF in Flatten(queue))
            && if t.newline then IsLine(taken) else t.queue == []
    decreases |queue|
  {
    hide LineEnd, Flatten, TakeFor, IsLine;
    if queue == [] {
      taken := [];
      TakeNothing(kind, parts);
      NoBytes();
    } else {
      var bytes := queue[0].bytes;
      var (first, rest) := TakeFront(queue, Takes(kind, bytes));
      TakeTurn(kind, queue, parts);
      FrontSplits(queue, Takes(kind, bytes));
      PartsGrow(parts, first);
      if StopsAt(kind, bytes) {
        taken := first.bytes;
        FirstLine(bytes);
      } else {
        assert bytes[..|bytes|] == bytes;
        var more := TakenBytes(kind, queue[1..], parts + [first]);
        taken := bytes + more;
        if TakeFor(kind, queue, parts).newline {
          LineOver(bytes, more);
        }
      }
    }
  }

  lemma NoBytes()
    ensures Flatten([]) == []
  {}

  lemma FirstLine(bytes: seq<Byte>)
    requires LineEnd(bytes) > 0
    ensures IsLine(bytes[..LineEnd(bytes)]) && LF in bytes[..LineEnd(bytes)]
  {
    var n := LineEnd(bytes);
    assert bytes[..n][..n - 1] == bytes[..n - 1] && bytes[..n][n - 1] == LF;
  }

  lemma LineTextOf(parts: seq<Piece>, taken: seq<Byte>, held: seq<Byte>)
    requires Flatten(parts) == held + taken && IsLine(taken) && LF !in held
    ensures var r := Completed(Line, parts, true); r.Text? && IsLineText(Flatten(parts), r.text)
  {
    hide Flatten, Newlines;
    var bytes := Flatten(parts);
    var line := bytes[..|bytes| - 1];
    assert line == held + taken[..|taken| - 1] && bytes == line + [LF];
    if line != [] && line[|line| - 1] == CR {
      assert bytes == line[..|line| - 1] + [CR, LF];
    }
  }

  /** What `ServeOne` gives is such a turn. */
  lemma ServesTurn(read: InputState, queue: seq<Piece>, failure: int, failed: bool, ended: bool)
    requires read.kind == Line && read.result == Waiting ==> LF !in Flatten(read.parts)
    ensures var (after, rest) := ServeOne(read, queue, failure, failed, ended);
            && Turn(read, after, queue, rest, failure, failed, ended)
            && (after.kind == Line && after.result == Waiting ==> LF !in Flatten(after.parts))
  {
    hide Flatten, TakeFor, Newlines;
    if read.result == Waiting {
      var t := TakeFor(read.kind, queue, read.parts);
      var taken := TakenBytes(read.kind, queue, read.parts);
      var after := ServeOne(read, queue, failure, failed, ended).0;
      assert Moves(read, after, queue, t.queue, taken);
      if t.newline {
        LineTextOf(t.parts, taken, Flatten(read.parts));
      }
    }
  }

  // ----- the newlines of a text -----

  predicate HasCrLf(s: seq<Byte>) {
    exists i :: 0 <= i < |s| - 1 && s[i] == CR && s[i + 1] == LF
  }

  /** A text without CR LF stays; elsewhere each CR LF becomes an LF. */
  lemma {:induction false} NewlinesKeep(s: seq<Byte>)
    requires !HasCrLf(s)
    ensures Newlines(s) == s
  {
    if |s| >= 2 {
      forall i | 0 <= i < |s[1..]| - 1
        ensures !(s[1..][i] == CR && s[1..][i + 1] == LF)
      {
        assert s[1..][i] == s[i + 1] && s[1..][i + 1] == s[i + 2];
      }
      NewlinesKeep(s[1..]);
    }
  }

  lemma {:induction false} NewlinesReplace(a: seq<Byte>, b: seq<Byte>)
    ensures Newlines(a + [CR, LF] + b) == Newlines(a) + [LF] + Newlines(b)
    decreases |a|
  {
    hide Newlines;
    var s := a + [CR, LF] + b;
    NewlinesTurn(s);
    NewlinesTurn(a);
    if a == [] {
      assert s[2..] == b;
      assert [] + [LF] + Newlines(b) == [LF] + Newlines(b);
    } else if |a| >= 2 && a[0] == CR && a[1] == LF {
      assert s[2..] == a[2..] + [CR, LF] + b;
      NewlinesReplace(a[2..], b);
      assert [LF] + (Newlines(a[2..]) + [LF] + Newlines(b)) == ([LF] + Newlines(a[2..])) + [LF] + Newlines(b);
    } else {
      assert s[1..] == a[1..] + [CR, LF] + b;
      NewlinesReplace(a[1..], b);
      assert [a[0]] + (Newlines(a[1..]) + [LF] + Newlines(b)) == ([a[0]] + Newlines(a[1..])) + [LF] + Newlines(b);
    }
  }

  lemma NewlinesTurn(s: seq<Byte>)
    ensures s == [] ==> Newlines(s) == []
    ensures |s| >= 2 && s[0] == CR && s[1] == LF ==> Newlines(s) == [LF] + Newlines(s[2..])
    ensures s != [] && !(|s| >= 2 && s[0] == CR && s[1] == LF) ==> Newlines(s) == [s[0]] + Newlines(s[1..])
  {}

  // ----- each step keeps every byte in one place -----

  lemma FrontReserved(received: seq<Byte>, owner: seq<Place>, queue: seq<Piece>, held: map<nat, seq<Piece>>, delivered: seq<Piece>,
      id: nat, n: nat) returns (owner': seq<Place>)
    requires Partition(received, owner, queue, held, delivered) && queue != [] && id in held && 0 < n <= |queue[0].bytes|
    ensures var (first, rest) := TakeFront(queue, n);
            Partition(received, owner', rest, held[id := held[id] + [first]], delivered)
  {
    hide Partition, Assign;
    var p := queue[0];
    if n == |p.bytes| {
      assert p.bytes[..n] == p.bytes;
      Reserves(received, owner, queue, held, delivered, id);
      owner' := Assign(owner, p, Reserved(id));
    } else {
      var first, rest := Piece(p.at, p.bytes[..n]), Piece(p.at + n, p.bytes[n..]);
      CutsQueue(received, owner, queue, held, delivered, n);
      var cut := [first, rest] + queue[1..];
      Reserves(received, owner, cut, held, delivered, id);
      owner' := Assign(owner, first, Reserved(id));
      assert cut[1..] == [rest] + queue[1..];
    }
  }

  lemma QueueFull(received: seq<Byte>, owner: seq<Place>, queue: seq<Piece>, held: map<nat, seq<Piece>>, delivered: seq<Piece>)
    requires Partition(received, owner, queue, held, delivered)
    ensures forall k :: 0 <= k < |queue| ==> queue[k].bytes != []
  {
    hide Covering, Disjoint;
  }

  lemma {:induction false} TakenReserved(received: seq<Byte>, owner: seq<Place>, kind: Kind, queue: seq<Piece>, parts: seq<Piece>,
      held: map<nat, seq<Piece>>, delivered: seq<Piece>, id: nat) returns (owner': seq<Place>)
    requires Partition(received, owner, queue, held, delivered) && id in held && held[id] == parts
    ensures var t := TakeFor(kind, queue, parts); Partition(received, owner', t.queue, held[id := t.parts], delivered)
    decreases |queue|
  {
    hide Partition, LineEnd;
    QueueFull(received, owner, queue, held, delivered);
    if queue == [] {
      owner' := owner;
      assert held[id := parts] == held;
    } else {
      var bytes := queue[0].bytes;
      var n := Takes(kind, bytes);
      var next := FrontReserved(received, owner, queue, held, delivered, id, n);
      if StopsAt(kind, bytes) {
        owner' := next;
      } else {
        assert n == |bytes| && bytes[..n] == bytes;
        var more := held[id := parts + [queue[0]]];
        owner' := TakenReserved(received, next, kind, queue[1..], parts + [queue[0]], more, delivered, id);
        var t := TakeFor(kind, queue, parts);
        assert more[id := t.parts] == held[id := t.parts];
      }
    }
  }

  // ----- putting parts back -----

  /** Where a part goes in a queue sorted by offset. */
  function Position(queue: seq<Piece>, p: Piece): (at: nat)
    ensures at <= |queue|
  {
    if queue == [] || queue[0].at > p.at then 0 else 1 + Position(queue[1..], p)
  }

  lemma {:induction false} PositionFits(queue: seq<Piece>, p: Piece)
    ensures GoesAt(queue, p, Position(queue, p))
    decreases |queue|
  {
    if queue != [] && queue[0].at <= p.at {
      PositionFits(queue[1..], p);
      var at := Position(queue[1..], p);
      forall k | 0 <= k < at + 1
        ensures queue[k].at <= p.at
      {
        if k > 0 {
          assert queue[k] == queue[1..][k - 1];
        }
      }
    }
  }

  /** The queue and the parts, sorted by offset. */
  function SortIn(queue: seq<Piece>, parts: seq<Piece>): seq<Piece>
    decreases |parts|
  {
    if parts == [] then queue
    else
      var at := Position(queue, parts[0]);
      SortIn(queue[..at] + [parts[0]] + queue[at..], parts[1..])
  }

  lemma {:induction false} PartsRestored(received: seq<Byte>, owner: seq<Place>, queue: seq<Piece>, held: map<nat, seq<Piece>>,
      delivered: seq<Piece>, id: nat) returns (owner': seq<Place>)
    requires Partition(received, owner, queue, held, delivered) && id in held
    ensures Partition(received, owner', SortIn(queue, held[id]), held[id := []], delivered)
    decreases |held[id]|
  {
    hide Partition, GoesAt, Position;
    var parts := held[id];
    if parts == [] {
      owner' := owner;
      assert held[id := []] == held;
    } else {
      var p, at := parts[0], Position(queue, parts[0]);
      PositionFits(queue, p);
      assert parts == [] + [p] + parts[1..] && [] + parts[1..] == parts[1..];
      Restores(received, owner, queue, held, delivered, id, [], p, parts[1..], at);
      var fewer := held[id := parts[1..]];
      owner' := PartsRestored(received, Assign(owner, p, Queued), queue[..at] + [p] + queue[at..], fewer, delivered, id);
      assert fewer[id := []] == held[id := []];
    }
  }

  lemma {:induction false} PartsDelivered(received: seq<Byte>, owner: seq<Place>, queue: seq<Piece>, held: map<nat, seq<Piece>>,
      delivered: seq<Piece>, id: nat) returns (owner': seq<Place>)
    requires Partition(received, owner, queue, held, delivered) && id in held
    ensures Partition(received, owner', queue, held[id := []], delivered + held[id])
    decreases |held[id]|
  {
    hide Partition;
    var parts := held[id];
    if parts == [] {
      owner' := owner;
      assert held[id := []] == held && delivered + parts == delivered;
    } else {
      var p := parts[0];
      assert parts == [] + [p] + parts[1..] && [] + parts[1..] == parts[1..];
      Delivers(received, owner, queue, held, delivered, id, [], p, parts[1..]);
      var fewer := held[id := parts[1..]];
      owner' := PartsDelivered(received, Assign(owner, p, Delivered), queue, fewer, delivered + [p], id);
      assert fewer[id := []] == held[id := []];
      assert delivered + [p] + parts[1..] == delivered + parts;
    }
  }

  // ----- the reads -----

  /** The parts of each read. */
  function Held(states: seq<InputState>): map<nat, seq<Piece>>
    decreases |states|
  {
    if states == [] then map[] else Held(states[..|states| - 1])[states[|states| - 1].id := states[|states| - 1].parts]
  }

  ghost predicate Ordered(states: seq<InputState>) {
    forall j, k :: 0 <= j < k < |states| ==> states[j].id < states[k].id
  }

  lemma {:induction false} HeldAt(states: seq<InputState>, k: nat)
    requires Ordered(states) && k < |states|
    ensures states[k].id in Held(states) && Held(states)[states[k].id] == states[k].parts
    decreases |states|
  {
    var n := |states| - 1;
    if k < n {
      HeldAt(states[..n], k);
    }
  }

  lemma {:induction false} HeldOnly(states: seq<InputState>, id: nat)
    requires forall k :: 0 <= k < |states| ==> states[k].id != id
    ensures id !in Held(states)
    decreases |states|
  {
    if states != [] {
      HeldOnly(states[..|states| - 1], id);
    }
  }

  lemma MapTwice(m: map<nat, seq<Piece>>, a: nat, x: seq<Piece>, b: nat, y: seq<Piece>)
    requires a != b
    ensures m[a := x][b := y] == m[b := y][a := x]
  {}

  lemma {:induction false} HeldUpdate(states: seq<InputState>, k: nat, read: InputState)
    requires Ordered(states) && k < |states| && read.id == states[k].id
    ensures Ordered(states[k := read]) && Held(states[k := read]) == Held(states)[read.id := read.parts]
    decreases |states|
  {
    var n, next := |states| - 1, states[k := read];
    if k < n {
      HeldUpdate(states[..n], k, read);
      assert next[..n] == states[..n][k := read];
      MapTwice(Held(states[..n]), read.id, read.parts, states[n].id, states[n].parts);
    } else {
      assert next[..n] == states[..n];
    }
  }

  /** The reads without the k-th. */
  function Without(states: seq<InputState>, k: nat): seq<InputState>
    requires k < |states|
  {
    states[..k] + states[k + 1..]
  }

  lemma WithoutLater(states: seq<InputState>, k: nat)
    requires k < |states| - 1
    ensures var n := |states| - 1; Without(states, k) == Without(states[..n], k) + [states[n]]
  {}

  lemma OrderedWithout(states: seq<InputState>, k: nat)
    requires Ordered(states) && k < |states|
    ensures Ordered(Without(states, k)) && Ordered(states[..|states| - 1])
    ensures forall j :: 0 <= j < |states| && j != k ==> states[j].id != states[k].id
  {}

  lemma MapRemoves(m: map<nat, seq<Piece>>, a: nat, b: nat, y: seq<Piece>)
    ensures a != b ==> (m - {a})[b := y] == m[b := y] - {a}
    ensures a !in m ==> m[a := y] - {a} == m
  {}

  lemma {:induction false} HeldRemove(states: seq<InputState>, k: nat)
    requires Ordered(states) && k < |states|
    ensures Ordered(Without(states, k)) && Held(Without(states, k)) == Held(states) - {states[k].id}
    decreases |states|
  {
    hide Ordered, Held, Without;
    var n := |states| - 1;
    var before, last := states[..n], states[n];
    OrderedWithout(states, k);
    assert states == before + [last];
    HeldMore(before, last);
    if k < n {
      HeldRemove(before, k);
      WithoutLater(states, k);
      HeldMore(Without(before, k), last);
      MapRemoves(Held(before), states[k].id, last.id, last.parts);
    } else {
      assert Without(states, k) == before by { LastGone(states); }
      HeldOnly(before, last.id);
      MapRemoves(Held(before), last.id, last.id, last.parts);
    }
  }

  lemma LastGone(states: seq<InputState>)
    requires states != []
    ensures Without(states, |states| - 1) == states[..|states| - 1]
  {}

  /** The index of a read, or their number. */
  function IndexOf(states: seq<InputState>, id: nat): (k: nat)
    ensures k <= |states| && (k < |states| ==> states[k].id == id)
    ensures forall j :: 0 <= j < k ==> states[j].id != id
  {
    if states == [] || states[0].id == id then 0 else 1 + IndexOf(states[1..], id)
  }

  lemma {:induction false} IndexIs(states: seq<InputState>, id: nat, k: nat)
    requires k <= |states| && (k < |states| ==> states[k].id == id) && forall j :: 0 <= j < k ==> states[j].id != id
    ensures IndexOf(states, id) == k
  {
    var i := IndexOf(states, id);
    assert !(i < k) && !(k < i);
  }

  // ----- the steps of a run -----

  /** What the worker holds. */
  datatype Input = Input(
    states: seq<InputState>, available: seq<Piece>, offset: nat, nextOperation: nat, failed: bool, failure: int, ended: bool)

  datatype Step = Arrival(bytes: seq<Byte>) | Ending | Failing(errno: int) | Start(kind: Kind) | Taking(id: nat) | Aborting(id: nat)

  /** The reads are served. */
  function Served(w: Input): Input {
    var (states, available) := ServeFrom(w.states, 0, w.available, w.failure, w.failed, w.ended);
    w.(states := states, available := available)
  }

  function Stepped(w: Input, step: Step): Input {
    match step
    case Arrival(bytes) => Served(w.(available := w.available + [Piece(w.offset, bytes)], offset := w.offset + |bytes|))
    case Ending => Served(w.(ended := true))
    case Failing(errno) => Served(w.(failed := true, failure := errno))
    case Start(kind) =>
      Served(w.(states := w.states + [InputState(w.nextOperation, kind, [], Waiting)], nextOperation := w.nextOperation + 1))
    case Taking(id) =>
      var k := IndexOf(w.states, id);
      if k < |w.states| && w.states[k].result != Waiting then w.(states := Without(w.states, k)) else w
    case Aborting(id) =>
      var k := IndexOf(w.states, id);
      if k == |w.states| then w
      else Served(w.(states := Without(w.states, k), available := SortIn(w.available, w.states[k].parts)))
  }

  // ----- the worker -----

  class Stdin {
    /** The reads in the order they started, by increasing number. */
    var states: seq<InputState>
    var nextOperation: nat
    var available: seq<Piece>
    var offset: nat
    var ended: bool
    var failed: bool
    var failure: int
    ghost var received: seq<Byte>
    ghost var owner: seq<Place>
    ghost var delivered: seq<Piece>

    ghost predicate Valid()
      reads this
    {
      && Ordered(states) && (forall k :: 0 <= k < |states| ==> states[k].id < nextOperation) && offset == |received|
      && Unended(states)
      && Partition(received, owner, available, Held(states), delivered)
    }

    ghost function Now(): Input
      reads this
    {
      Input(states, available, offset, nextOperation, failed, failure, ended)
    }

    constructor ()
      ensures Valid() && Now() == Input([], [], 0, 1, false, 0, false) && states == [] && available == [] && received == [] && delivered == [] && !ended && !failed
    {
      states, nextOperation, available, offset, ended, failed, failure := [], 1, [], 0, false, false, 0;
      received, owner, delivered := [], [], [];
    }

    method Serve()
      requires Valid()
      modifies this`states, this`available, this`owner
      ensures Valid() && (states, available) == ServeFrom(old(states), 0, old(available), failure, failed, ended)
      ensures |states| == |old(states)|
      ensures forall k :: 0 <= k < |states| ==> states[k].id == old(states)[k].id && states[k].kind == old(states)[k].kind
      ensures forall k :: 0 <= k < |states| && old(states)[k].result != Waiting ==> states[k] == old(states)[k]
      ensures forall k :: 0 <= k < |states| && states[k].result == Waiting ==> !failed && !ended
      ensures InTurn(old(states), states, old(available), available, failure, failed, ended)
    {
      hide Partition, Held, ServeOne, Ordered, Turn, Turns, Unended, Flatten;
      ghost var queues: seq<seq<Piece>> := [available];
      NoTurns(states, available, failure, failed, ended);
      for k := 0 to |states|
        invariant Valid() && |states| == |old(states)|
        invariant ServeFrom(old(states), 0, old(available), failure, failed, ended) ==
                  ServeFrom(states, k, available, failure, failed, ended)
        invariant forall j :: k <= j < |states| ==> states[j] == old(states)[j]
        invariant forall j :: 0 <= j < k ==> states[j].id == old(states)[j].id && states[j].kind == old(states)[j].kind
        invariant forall j :: 0 <= j < k && old(states)[j].result != Waiting ==> states[j] == old(states)[j]
        invariant forall j :: 0 <= j < k && states[j].result == Waiting ==> !failed && !ended
        invariant |queues| == k + 1 && queues[0] == old(available) && queues[k] == available
        invariant Turns(old(states), states, queues, k, failure, failed, ended)
      {
        ghost var served := states;
        if states[k].result == Waiting {
          ServeRead(k);
        } else {
          Unserved(states[k], available, failure, failed, ended);
          assert states[k := states[k]] == states;
        }
        TurnsMore(old(states), served, queues, k, failure, failed, ended, states[k], available);
        queues := queues + [available];
      }
    }

    /** One pending read takes what is queued; at a newline, the end or an error it has its result. */
    method ServeRead(k: nat)
      requires Valid() && k < |states| && states[k].result == Waiting
      modifies this`states, this`available, this`owner
      ensures Valid()
      ensures var (read, rest) := ServeOne(old(states)[k], old(available), failure, failed, ended);
              states == old(states)[k := read] && available == rest
      ensures states == old(states)[k := states[k]] && Turn(old(states)[k], states[k], old(available), available, failure, failed, ended)
      ensures states[k].result == Waiting ==> !failed && !ended
    {
      hide Partition, Held, TakeFor, Flatten, Turn, Unended, Completed;
      UnendedAt(states, k);
      ServesTurn(states[k], available, failure, failed, ended);
      HeldAt(states, k);
      var read := states[k];
      ghost var owner' := TakenReserved(received, owner, read.kind, available, read.parts, Held(states), delivered, read.id);
      var parts, newline := read.parts, false;
      ghost var all := TakeFor(read.kind, available, read.parts);
      while available != []
        invariant states == old(states) && owner == old(owner)
        invariant if newline then all == Taken(available, parts, true) else all == TakeFor(read.kind, available, parts)
        decreases |available|, !newline
      {
        if newline {
          break;
        }
        var bytes := available[0].bytes;
        var n := Takes(read.kind, bytes);
        TakeTurn(read.kind, available, parts);
        var (first, rest) := TakeFront(available, n);
        newline := StopsAt(read.kind, bytes);
        parts, available := parts + [first], rest;
        if newline {
          break;
        }
      }
      TakeNothing(read.kind, parts);
      var result := if failed then Error(failure) else if newline || ended then Completed(read.kind, parts, newline) else Waiting;
      HeldUpdate(states, k, read.(parts := parts, result := result));
      UnendedUpdate(states, k, read.(parts := parts, result := result));
      states := states[k := read.(parts := parts, result := result)];
      owner := owner';
    }

    /** Bytes arrive; a chunk is never empty. */
    method Data(bytes: seq<Byte>)
      requires Valid() && bytes != []
      modifies this`states, this`available, this`offset, this`received, this`owner
      ensures Valid() && received == old(received) + bytes && Now() == Stepped(old(Now()), Arrival(bytes))
    {
      hide Partition, Held, ServeFrom, InTurn, Unended;
      Arrives(received, owner, available, Held(states), delivered, bytes);
      available := available + [Piece(offset, bytes)];
      offset := offset + |bytes|;
      received, owner := received + bytes, owner + seq(|bytes|, i => Queued);
      Serve();
    }

    method End()
      requires Valid()
      modifies this`states, this`available, this`owner, this`ended
      ensures Valid() && Now() == Stepped(old(Now()), Ending)
      ensures forall k :: 0 <= k < |states| ==> states[k].result != Waiting
    {
      hide Partition, Held, ServeFrom, InTurn, Unended;
      ended := true;
      Serve();
    }

    method Fail(errno: int)
      requires Valid()
      modifies this`states, this`available, this`owner, this`failed, this`failure
      ensures Valid() && Now() == Stepped(old(Now()), Failing(errno))
      ensures forall k :: 0 <= k < |states| ==> states[k].result != Waiting
    {
      hide Partition, Held, ServeFrom, InTurn, Unended;
      failed, failure := true, errno;
      Serve();
    }

    method WaitStart(kind: Kind) returns (id: nat)
      requires Valid()
      modifies this`states, this`nextOperation, this`available, this`owner
      ensures Valid() && id == old(nextOperation) && Now() == Stepped(old(Now()), Start(kind))
    {
      hide Partition, Held, ServeFrom, InTurn, Unended;
      id := nextOperation;
      nextOperation := nextOperation + 1;
      HeldOnly(states, id);
      Starts(received, owner, available, Held(states), delivered, id);
      HeldMore(states, InputState(id, kind, [], Waiting));
      UnendedMore(states, id, kind);
      states := states + [InputState(id, kind, [], Waiting)];
      Serve();
    }

    method Find(id: nat) returns (k: nat)
      ensures k == IndexOf(states, id)
    {
      k := 0;
      while k < |states| && states[k].id != id
        invariant k <= |states| && forall j :: 0 <= j < k ==> states[j].id != id
      {
        k := k + 1;
      }
      IndexIs(states, id, k);
    }

    /** The program takes a result: the read's bytes are delivered. */
    method WaitFinish(id: nat) returns (finished: bool)
      requires Valid()
      modifies this`states, this`owner, this`delivered
      ensures Valid() && Now() == Stepped(old(Now()), Taking(id))
      ensures var k := IndexOf(old(states), id);
              && (finished <==> k < |old(states)| && old(states)[k].result != Waiting)
              && delivered == old(delivered) + if finished then old(states)[k].parts else []
    {
      hide Partition, Held, ServeFrom, InTurn, Unended;
      var i := Find(id);
      if i == |states| || states[i].result == Waiting {
        return false;
      }
      ghost var held := Held(states);
      HeldAt(states, i);
      ghost var owner' := PartsDelivered(received, owner, available, held, delivered, id);
      Leaves(received, owner', available, held[id := []], delivered + states[i].parts, id);
      assert held[id := []] - {id} == held - {id};
      HeldRemove(states, i);
      UnendedWithout(states, i);
      owner, delivered := owner', delivered + states[i].parts;
      states := Without(states, i);
      return true;
    }

    /** The program gives a read up: its bytes go back by offset, and the other reads are served. */
    method WaitAbort(id: nat)
      requires Valid()
      modifies this`states, this`available, this`owner
      ensures Valid() && Now() == Stepped(old(Now()), Aborting(id))
    {
      hide Partition, Held, ServeFrom, InTurn, Unended;
      var i := Find(id);
      if i == |states| {
        return;
      }
      ghost var held := Held(states);
      HeldAt(states, i);
      ghost var owner' := PartsRestored(received, owner, available, held, delivered, id);
      Leaves(received, owner', SortIn(available, held[id]), held[id := []], delivered, id);
      assert held[id := []] - {id} == held - {id};
      HeldRemove(states, i);
      UnendedWithout(states, i);
      available := SortIn(available, states[i].parts);
      owner := owner';
      states := Without(states, i);
      Serve();
    }
  }

  lemma HeldMore(states: seq<InputState>, read: InputState)
    ensures Held(states + [read]) == Held(states)[read.id := read.parts]
  {
    assert (states + [read])[..|states|] == states;
  }

  lemma TakeTurn(kind: Kind, queue: seq<Piece>, parts: seq<Piece>)
    requires queue != []
    ensures var (first, rest) := TakeFront(queue, Takes(kind, queue[0].bytes));
            if StopsAt(kind, queue[0].bytes) then TakeFor(kind, queue, parts) == Taken(rest, parts + [first], true)
            else rest == queue[1..] && TakeFor(kind, queue, parts) == TakeFor(kind, rest, parts + [first])
  {
    hide LineEnd;
    assert queue[0].bytes[..|queue[0].bytes|] == queue[0].bytes;
  }

  lemma TakeNothing(kind: Kind, parts: seq<Piece>)
    ensures TakeFor(kind, [], parts) == Taken([], parts, false)
  {}

  lemma Unserved(read: InputState, queue: seq<Piece>, failure: int, failed: bool, ended: bool)
    requires read.result != Waiting
    ensures ServeOne(read, queue, failure, failed, ended) == (read, queue)
    ensures Turn(read, read, queue, queue, failure, failed, ended)
  {}

  /**
   * Once no read is under way, the queue holds in order exactly the received bytes that the program did not take.
   */
  lemma AbortsRestore(stdin: Stdin)
    requires stdin.Valid() && stdin.states == []
    ensures |stdin.owner| == |stdin.received|
    ensures Flatten(stdin.available) == Select(stdin.received, stdin.owner, Queued)
    ensures forall i :: 0 <= i < |stdin.owner| ==> (stdin.owner[i] == Queued <==> !CoversSome(stdin.delivered, i))
  {
    hide Select, Flatten, CoversSome;
    UntakenInOrder(stdin.received, stdin.owner, stdin.available, Held(stdin.states), stdin.delivered);
  }
}
