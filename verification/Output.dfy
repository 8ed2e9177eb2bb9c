/**
 * Program output: writes go straight to their descriptors until one is full, then through the writer thread until
 * its queue is empty (host/output.ts:103-195, host/output-worker.ts:37-131).
 */
module Output {
  import opened ByteStrings

  /** What a descriptor does with a write: takes some of it, none for now, or fails. */
  datatype Outcome = Wrote(count: nat) | Full | Broken

  /** Any behaviour of the descriptors: what the n-th write to one comes to. */
  type Descriptors = nat -> Outcome

  /** A queued write, of which `offset` bytes are written. */
  datatype Entry = Entry(fd: nat, bytes: seq<Byte>, offset: nat, wait: bool)

  /** A write the program called for: how much of it reached its descriptor, and whether it failed. */
  datatype Call = Call(fd: nat, bytes: seq<Byte>, written: nat, failed: bool)

  /** A byte at a descriptor. */
  datatype Out = Out(fd: nat, byte: Byte)

  function Tag(fd: nat, bytes: seq<Byte>): (outs: seq<Out>)
    ensures |outs| == |bytes|
  {
    seq(|bytes|, i requires 0 <= i < |bytes| => Out(fd, bytes[i]))
  }

  function Min(a: nat, b: nat): (m: nat)
    ensures m <= a && m <= b && (m == a || m == b)
  {
    if a < b then a else b
  }

  // ----- what reaches the descriptors -----

  /** The written part of each call, in the order of the calls. */
  function Emission(calls: seq<Call>): seq<Out>
    requires forall i :: 0 <= i < |calls| ==> calls[i].written <= |calls[i].bytes|
  {
    if calls == [] then []
    else
      var last := calls[|calls| - 1];
      Emission(calls[..|calls| - 1]) + Tag(last.fd, last.bytes[..last.written])
  }

  ghost predicate Sane(calls: seq<Call>) {
    forall i :: 0 <= i < |calls| ==> calls[i].written <= |calls[i].bytes|
  }

  lemma EmissionLast(calls: seq<Call>, c: Call)
    requires Sane(calls) && c.written <= |c.bytes|
    ensures Sane(calls + [c]) && Emission(calls + [c]) == Emission(calls) + Tag(c.fd, c.bytes[..c.written])
  {
    hide Tag;
    assert (calls + [c])[..|calls|] == calls;
  }

  lemma EmissionNothing(a: seq<Call>)
    ensures Emission([]) == [] && a + [] == a
  {}

  lemma SaneParts(a: seq<Call>, b: seq<Call>)
    requires Sane(a) && Sane(b)
    ensures Sane(a + b) && forall n :: 0 <= n <= |b| ==> Sane(b[..n])
  {}

  lemma {:induction false} EmissionJoins(a: seq<Call>, b: seq<Call>)
    requires Sane(a) && Sane(b)
    ensures Sane(a + b) && Emission(a + b) == Emission(a) + Emission(b)
    decreases |b|
  {
    hide Emission, Tag;
    SaneParts(a, b);
    EmissionNothing(a);
    if b != [] {
      var n := |b| - 1;
      assert b == b[..n] + [b[n]] && a + b == a + b[..n] + [b[n]];
      EmissionJoins(a, b[..n]);
      EmissionLast(a + b[..n], b[n]);
      EmissionLast(b[..n], b[n]);
      var t := Tag(b[n].fd, b[n].bytes[..b[n].written]);
      assert Emission(a) + (Emission(b[..n]) + t) == Emission(a) + Emission(b[..n]) + t;
    }
  }

  lemma {:induction false} NothingYet(calls: seq<Call>)
    requires forall i :: 0 <= i < |calls| ==> calls[i].written == 0
    ensures Emission(calls) == []
    decreases |calls|
  {
    if calls != [] {
      NothingYet(calls[..|calls| - 1]);
    }
  }

  lemma TagMore(fd: nat, bytes: seq<Byte>, from: nat, to: nat)
    requires from <= to <= |bytes|
    ensures Tag(fd, bytes[..to]) == Tag(fd, bytes[..from]) + Tag(fd, bytes[from..to])
  {}

  lemma Cut(calls: seq<Call>, at: nat, d: Call)
    requires at < |calls|
    ensures calls == calls[..at] + [calls[at]] + calls[at + 1..] && calls[at := d] == calls[..at] + [d] + calls[at + 1..]
    ensures Sane(calls) ==> Sane(calls[..at]) && Sane(calls[at + 1..]) && calls[at].written <= |calls[at].bytes|
  {}

  /** What one call among others, the later ones not begun, makes of the emission. */
  lemma EmissionUpTo(before: seq<Call>, c: Call, after: seq<Call>)
    requires Sane(before) && Sane(after) && c.written <= |c.bytes| && forall i :: 0 <= i < |after| ==> after[i].written == 0
    ensures Sane(before + [c] + after) && Emission(before + [c] + after) == Emission(before) + Tag(c.fd, c.bytes[..c.written])
  {
    hide Emission, Tag;
    NothingYet(after);
    OneCall(c);
    assert Sane([c]);
    EmissionJoins(before, [c]);
    EmissionJoins(before + [c], after);
    assert Emission(before) + Tag(c.fd, c.bytes[..c.written]) + [] == Emission(before) + Tag(c.fd, c.bytes[..c.written]);
  }

  /** The first unfinished call writes more. */
  lemma EmissionGrows(calls: seq<Call>, at: nat, count: nat)
    requires Sane(calls) && at < |calls| && calls[at].written + count <= |calls[at].bytes|
    requires forall i :: at < i < |calls| ==> calls[i].written == 0
    ensures var c := calls[at];
            var next := calls[at := c.(written := c.written + count)];
            Sane(next) && Emission(next) == Emission(calls) + Tag(c.fd, c.bytes[c.written..c.written + count])
  {
    hide Emission, Tag;
    var c := calls[at];
    var d := c.(written := c.written + count);
    var before, after := calls[..at], calls[at + 1..];
    Cut(calls, at, d);
    EmissionUpTo(before, c, after);
    EmissionUpTo(before, d, after);
    TagMore(c.fd, c.bytes, c.written, d.written);
    assert Emission(before) + (Tag(c.fd, c.bytes[..c.written]) + Tag(c.fd, c.bytes[c.written..d.written]))
        == Emission(before) + Tag(c.fd, c.bytes[..c.written]) + Tag(c.fd, c.bytes[c.written..d.written]);
  }

  lemma OneCall(c: Call)
    requires c.written <= |c.bytes|
    ensures Emission([c]) == Tag(c.fd, c.bytes[..c.written])
  {
    assert [c][..0] == [];
  }

  /** Failing a call changes nothing that was written. */
  lemma {:induction false} EmissionFails(calls: seq<Call>, at: nat)
    requires Sane(calls) && at < |calls|
    ensures var next := calls[at := calls[at].(failed := true)]; Sane(next) && Emission(next) == Emission(calls)
    decreases |calls|
  {
    var n, next := |calls| - 1, calls[at := calls[at].(failed := true)];
    if at < n {
      EmissionFails(calls[..n], at);
      assert next[..n] == calls[..n][at := calls[at].(failed := true)];
    } else {
      assert next[..n] == calls[..n];
    }
  }

  predicate Finished(c: Call) {
    c.failed || c.written == |c.bytes|
  }

  /** A queued entry and the call it is the rest of. */
  predicate Rest(entry: Entry, call: Call) {
    && entry.fd == call.fd && !call.failed && entry.offset <= |entry.bytes| && call.written <= |call.bytes|
    && entry.bytes[entry.offset..] == call.bytes[call.written..]
  }

  /** The queue holds the unfinished calls in order, of which only the first has started. */
  ghost predicate Queues(queue: seq<Entry>, calls: seq<Call>, done: nat) {
    && done + |queue| == |calls|
    && (forall i :: 0 <= i < done ==> Finished(calls[i]))
    && (forall k :: 0 <= k < |queue| ==> Rest(queue[k], calls[done + k]))
    && forall i :: done < i < |calls| ==> calls[i].written == 0
  }

  /** The same calls, with as much or more of them written. */
  ghost predicate Extends(before: seq<Call>, after: seq<Call>) {
    && |before| <= |after|
    && forall i :: 0 <= i < |before| ==>
         && after[i].fd == before[i].fd && after[i].bytes == before[i].bytes && before[i].written <= after[i].written
         && (before[i].failed ==> after[i] == before[i])
  }

  lemma ExtendsSame(calls: seq<Call>)
    ensures Extends(calls, calls)
  {}

  lemma ExtendsThrough(a: seq<Call>, b: seq<Call>, c: seq<Call>)
    requires Extends(a, b) && Extends(b, c)
    ensures Extends(a, c)
  {}

  lemma RestMoves(entry: Entry, call: Call, count: nat)
    requires Rest(entry, call) && entry.offset + count <= |entry.bytes|
    ensures |entry.bytes| - entry.offset == |call.bytes| - call.written
    ensures Rest(entry.(offset := entry.offset + count), call.(written := call.written + count))
  {
    assert |entry.bytes[entry.offset..]| == |call.bytes[call.written..]|;
    assert entry.bytes[entry.offset + count..] == entry.bytes[entry.offset..][count..];
    assert call.bytes[call.written + count..] == call.bytes[call.written..][count..];
  }

  lemma RestEntry(entry: Entry, call: Call)
    requires Rest(entry, call)
    ensures entry.offset <= |entry.bytes|
  {}

  lemma RestWhole(entry: Entry, call: Call)
    requires Rest(entry, call) && entry.offset >= |entry.bytes|
    ensures Finished(call)
  {
    RestMoves(entry, call, 0);
  }

  /** The first entry moves on with its call. */
  lemma FirstMoves(queue: seq<Entry>, calls: seq<Call>, done: nat, entry: Entry, call: Call)
    requires Queues(queue, calls, done) && queue != [] && Rest(entry, call)
    ensures Queues(queue[0 := entry], calls[done := call], done)
  {
    hide Rest;
  }

  /** The first call is finished, and its entry leaves the queue. */
  lemma FirstLeaves(queue: seq<Entry>, calls: seq<Call>, done: nat, call: Call)
    requires Queues(queue, calls, done) && queue != [] && Finished(call)
    ensures Queues(queue[1..], calls[done := call], done + 1)
  {
    hide Rest;
    forall k | 0 <= k < |queue| - 1
      ensures Rest(queue[1..][k], calls[done := call][done + 1 + k])
    {
      var j := k + 1;
      assert Rest(queue[j], calls[done + j]);
    }
  }

  /** A new call waits behind the others. */
  lemma LastJoins(queue: seq<Entry>, calls: seq<Call>, done: nat, fd: nat, bytes: seq<Byte>, wait: bool)
    requires Queues(queue, calls, done) && Sane(calls)
    ensures var more := calls + [Call(fd, bytes, 0, false)];
            && Queues(queue + [Entry(fd, bytes, 0, wait)], more, done) && Sane(more) && Emission(more) == Emission(calls)
            && Extends(calls, more)
  {
    hide Emission;
    var c := Call(fd, bytes, 0, false);
    var e := Entry(fd, bytes, 0, wait);
    EmissionJoins(calls, [c]);
    NothingYet([c]);
    assert Emission(calls) + [] == Emission(calls);
    assert Rest(e, c);
    forall k | 0 <= k < |queue| + 1
      ensures Rest((queue + [e])[k], (calls + [c])[done + k])
    {
      if k < |queue| {
        assert Rest(queue[k], calls[done + k]);
      }
    }
  }

  /** What an entry hands over: its unwritten rest. */
  function Unwritten(e: Entry): Entry {
    if e.offset <= |e.bytes| then Entry(e.fd, e.bytes[e.offset..], 0, e.wait) else e
  }

  function HandedOver(queue: seq<Entry>): (r: seq<Entry>)
    ensures |r| == |queue|
  {
    seq(|queue|, k requires 0 <= k < |queue| => Unwritten(queue[k]))
  }

  lemma HandedRuns(queue: seq<Entry>)
    requires Runs(queue) && queue != []
    ensures Running(HandedOver(queue)) && HandedOver(queue)[|queue| - 1].wait == queue[|queue| - 1].wait
  {}

  lemma HandsOver(queue: seq<Entry>, calls: seq<Call>, done: nat)
    requires Queues(queue, calls, done)
    ensures Queues(HandedOver(queue), calls, done)
  {
    forall k | 0 <= k < |queue|
      ensures Rest(HandedOver(queue)[k], calls[done + k])
    {
      assert Rest(queue[k], calls[done + k]);
    }
  }

  /** The result of the last waiting call. */
  datatype Result = Ok | Failed | Blocked

  /** How the last call came out. */
  function Came(calls: seq<Call>): Result {
    if calls != [] && calls[|calls| - 1].failed then Failed else Ok
  }

  class Writer {
    const descriptors: Descriptors
    /** Writes go through the thread while `remote`; `pinned` keeps them there. */
    var remote: bool
    var pinned: bool
    var local: seq<Entry>
    /** The writer thread's queue; a write of its first entry is under way. */
    var queue: seq<Entry>
    /** The result of a write whose caller waits for it. */
    var result: Result
    var writes: nat
    /** The program's calls, how many are finished, and what reached the descriptors. */
    ghost var calls: seq<Call>
    ghost var done: nat
    ghost var emitted: seq<Out>

    /** The queue that is in use: the thread's while remote, else the direct one; the other is empty. */
    ghost predicate Sound()
      reads this
    {
      && Sane(calls) && emitted == Emission(calls)
      && (if remote then local == [] else queue == [])
      && Queues(if remote then queue else local, calls, done)
      && (pinned ==> remote)
    }

    /** Between calls the direct queue is empty, only the last write can be waited for, and the first is not empty. */
    ghost predicate Valid()
      reads this
    {
      Sound() && local == [] && Running(queue)
    }

    /** The program waits for the last write. */
    predicate Waiting()
      reads this
    {
      queue != [] && queue[|queue| - 1].wait
    }

    /** The calls are the same, with more of them written, and what was emitted stays. */
    twostate predicate Advanced()
      reads this
    {
      Extends(old(calls), calls) && old(done) <= done && old(emitted) <= emitted
    }

    constructor (descriptors: Descriptors, shared: bool)
      ensures Valid() && calls == [] && emitted == [] && queue == [] && remote == pinned == shared
    {
      this.descriptors := descriptors;
      remote, pinned, local, queue, result := shared, shared, [], [], Ok;
      writes, calls, done, emitted := 0, [], 0, [];
    }

    /** One write of at most `most` bytes of the first entry to its descriptor. */
    method WriteSome(entry: Entry, most: nat) returns (outcome: Outcome)
      requires Sane(calls) && emitted == Emission(calls) && done < |calls| && Rest(entry, calls[done])
      requires forall i :: done < i < |calls| ==> calls[i].written == 0
      modifies this`writes, this`calls, this`emitted
      ensures Sane(calls) && emitted == Emission(calls) && Advanced()
      ensures outcome.Wrote? ==> outcome.count <= Min(most, |entry.bytes| - entry.offset)
      ensures outcome.Wrote? ==> calls == old(calls)[done := old(calls)[done].(written := old(calls)[done].written + outcome.count)]
      ensures outcome.Wrote? ==> Rest(entry.(offset := entry.offset + outcome.count), calls[done])
      ensures !outcome.Wrote? ==> calls == old(calls)
    {
      hide Emission, Tag, Rest;
      var o := descriptors(writes);
      writes := writes + 1;
      if !o.Wrote? {
        return o;
      }
      RestEntry(entry, calls[done]);
      var count := Min(o.count, Min(most, |entry.bytes| - entry.offset));
      ghost var c := calls[done];
      RestMoves(entry, c, count);
      EmissionGrows(calls, done, count);
      emitted := emitted + Tag(c.fd, c.bytes[c.written..c.written + count]);
      calls := calls[done := c.(written := c.written + count)];
      return Wrote(count);
    }

    /** `handOff`: the direct queue moves to the thread, in order (host/output.ts:103-115). */
    method HandOff()
      requires Sound() && !remote && Runs(local)
      modifies this`remote, this`local, this`queue
      ensures Sound() && remote && local == [] && queue == HandedOver(old(local))
    {
      hide Emission, Queues;
      HandsOver(local, calls, done);
      var entries := local;
      remote, local := true, [];
      for i := 0 to |entries|
        invariant queue == HandedOver(entries)[..i] && local == [] && remote
      {
        queue := queue + [Entry(entries[i].fd, entries[i].bytes[entries[i].offset..], 0, entries[i].wait)];
      }
      assert HandedOver(entries)[..|entries|] == HandedOver(entries);
    }

    /** The direct writes of the first entry: done, failed, or a full descriptor. */
    method PumpFirst() returns (outcome: Outcome)
      requires Sound() && !remote && local != []
      modifies this`local, this`writes, this`calls, this`emitted
      ensures Sane(calls) && emitted == Emission(calls) && Advanced() && |calls| == |old(calls)| && |local| == |old(local)|
      ensures forall k :: 0 <= k < |local| ==> local[k].wait == old(local)[k].wait
      ensures if outcome == Full then Sound() && local[0].offset < |local[0].bytes| else Queues(local[1..], calls, done + 1)
      ensures outcome != Full ==> (outcome == Broken <==> calls[done].failed)
    {
      hide Emission, Queues, Sane, Rest, Extends;
      ExtendsSame(calls);
      while local[0].offset < |local[0].bytes|
        invariant Sound() && !remote && Advanced() && |calls| == |old(calls)| && |local| == |old(local)|
        invariant forall k :: 0 <= k < |local| ==> local[k].wait == old(local)[k].wait
        decreases |local[0].bytes| - local[0].offset
      {
        FirstRest(local, calls, done);
        ghost var before := calls;
        outcome := WriteSome(local[0], |local[0].bytes| - local[0].offset);
        ExtendsThrough(old(calls), before, calls);
        if outcome == Full || outcome == Wrote(0) {
          StillQueued(local, before, calls, done);
          return Full;
        }
        if outcome == Broken {
          FailFirst(local);
          return Broken;
        }
        FirstMoves(local, before, done, local[0].(offset := local[0].offset + outcome.count), calls[done]);
        assert before[done := calls[done]] == calls;
        local := local[0 := local[0].(offset := local[0].offset + outcome.count)];
      }
      FirstRest(local, calls, done);
      FirstEnds(local, calls, done);
      return Wrote(0);
    }

    /** The first call failed: what is left of it is dropped. */
    ghost method FailFirst(entries: seq<Entry>)
      requires Sane(calls) && emitted == Emission(calls) && Queues(entries, calls, done) && entries != []
      modifies this`calls
      ensures Sane(calls) && emitted == Emission(calls) && |calls| == |old(calls)| && Queues(entries[1..], calls, done + 1)
      ensures done < |calls| && calls[done].failed && Extends(old(calls), calls)
      ensures forall before :: Extends(before, old(calls)) && |before| == |calls| ==> Extends(before, calls)
    {
      hide Emission;
      FirstRest(entries, calls, done);
      ghost var failed := calls[done].(failed := true);
      FirstLeaves(entries, calls, done, failed);
      EmissionFails(calls, done);
      calls := calls[done := failed];
    }

    /** `pump` of the main thread: direct writes until the queue is empty or a descriptor is full (host/output.ts:118-143). */
    method Pump()
      requires Sound() && !remote && LastWaits(local)
      modifies this`remote, this`local, this`queue, this`result, this`writes, this`calls, this`done, this`emitted
      ensures Valid() && Advanced() && |calls| == |old(calls)|
      ensures old(local) != [] && queue != [] ==> queue[|queue| - 1].wait == old(local)[|old(local)| - 1].wait
      ensures old(local) != [] && queue == [] ==> result == Came(calls)
      ensures old(local) == [] ==> queue == []
    {
      hide Emission, Queues, Sane, Extends, HandedOver, Finished;
      ExtendsSame(calls);
      while local != []
        invariant Sound() && !remote && Advanced() && |calls| == |old(calls)| && LastWaits(local)
        invariant local != [] ==> old(local) != [] && local[|local| - 1].wait == old(local)[|old(local)| - 1].wait
        invariant old(local) != [] && local == [] ==> result == Came(calls)
        decreases |local|
      {
        ghost var before := calls;
        var outcome := PumpFirst();
        ExtendsThrough(old(calls), before, calls);
        if outcome == Full {
          FirstRuns(local, calls, done);
          HandedRuns(local);
          HandOff();
          return;
        }
        LengthOf(local[1..], calls, done + 1);
        local := local[1..];
        done := done + 1;
        result := if outcome == Broken then Failed else Ok;
      }
    }

    /** `direct`: whether a write may go direct; the thread, if it took over, has written all it was given (host/output.ts:146-155). */
    method Direct() returns (yes: bool)
      requires Valid()
      modifies this`remote
      ensures Valid() && yes == !remote
      ensures remote <==> old(remote) && (pinned || queue != [])
    {
      hide Emission;
      if !remote {
        return true;
      }
      if pinned || queue != [] {
        return false;
      }
      remote := false;
      return true;
    }

    /** The thread leaves finished entries behind; a waiting caller gets its result (host/output-worker.ts:40-58). */
    method Settle()
      requires Sound() && remote && local == [] && LastWaits(queue)
      modifies this`queue, this`done, this`result
      ensures Valid() && remote && done >= old(done) && |queue| <= |old(queue)|
      ensures queue != [] ==> queue[|queue| - 1].wait == old(queue)[|old(queue)| - 1].wait
      ensures queue == [] && old(queue) != [] && old(queue)[|old(queue)| - 1].wait ==> result == Came(calls)
      ensures old(queue) == [] ==> result == old(result)
    {
      hide Emission, Queues, Sane;
      while queue != [] && queue[0].offset == |queue[0].bytes|
        invariant Sound() && remote && local == [] && LastWaits(queue) && done >= old(done) && |queue| <= |old(queue)|
        invariant queue != [] ==> old(queue) != [] && queue[|queue| - 1].wait == old(queue)[|old(queue)| - 1].wait
        invariant queue == [] && old(queue) != [] && old(queue)[|old(queue)| - 1].wait ==> result == Came(calls)
        invariant old(queue) == [] ==> queue == [] && result == old(result)
        decreases |queue|
      {
        FirstEnds(queue, calls, done);
        LengthOf(queue, calls, done);
        if queue[0].wait {
          result := Ok;
        }
        queue := queue[1..];
        done := done + 1;
      }
      FirstRuns(queue, calls, done);
    }

    /** The write of the first entry comes back to the thread (host/output-worker.ts:55-81). */
    method WorkerEvent()
      requires Valid() && queue != []
      modifies this`queue, this`result, this`writes, this`calls, this`done, this`emitted
      ensures Valid() && Advanced() && |calls| == |old(calls)|
      ensures old(Waiting()) && !Waiting() ==> queue == [] && result == Came(calls)
    {
      hide Emission, Queues, Sane, Rest, Extends, Finished, Tag;
      FirstRest(queue, calls, done);
      LengthOf(queue, calls, done);
      ghost var before := calls;
      var outcome := WriteSome(queue[0], Min(65536, |queue[0].bytes| - queue[0].offset));
      if outcome == Full {
        return;
      }
      if outcome == Broken {
        FailFirst(queue);
        if queue[0].wait {
          result := Failed;
        }
        queue := queue[1..];
        done := done + 1;
      } else {
        FirstMoves(queue, before, done, queue[0].(offset := queue[0].offset + outcome.count), calls[done]);
        assert before[done := calls[done]] == calls;
        queue := queue[0 := queue[0].(offset := queue[0].offset + outcome.count)];
      }
      Settle();
    }

    /** A call that the thread takes. */
    method Enqueue(fd: nat, bytes: seq<Byte>, wait: bool)
      requires Valid() && remote && !Waiting()
      modifies this`queue, this`result, this`calls, this`done
      ensures Valid() && Advanced() && Asked(old(calls), calls, fd, bytes)
      ensures queue != [] ==> queue[|queue| - 1].wait == wait
      ensures queue == [] && wait ==> result == Came(calls)
    {
      hide Emission, Queues, Sane;
      LastJoins(queue, calls, done, fd, bytes, wait);
      queue := queue + [Entry(fd, bytes, 0, wait)];
      calls := calls + [Call(fd, bytes, 0, false)];
      Settle();
    }

    /** A call that goes direct. */
    method Queue(fd: nat, bytes: seq<Byte>, wait: bool)
      requires Valid() && !remote
      modifies this`remote, this`local, this`queue, this`result, this`writes, this`calls, this`done, this`emitted
      ensures Valid() && Advanced() && Asked(old(calls), calls, fd, bytes)
      ensures queue != [] ==> queue[|queue| - 1].wait == wait
      ensures queue == [] ==> result == Came(calls)
    {
      hide Emission, Queues, Sane;
      LastJoins(local, calls, done, fd, bytes, wait);
      local := local + [Entry(fd, bytes, 0, wait)];
      calls := calls + [Call(fd, bytes, 0, false)];
      ghost var before := calls;
      Pump();
      ExtendsThrough(old(calls), before, calls);
    }

    /** `out` and `err`: a write that nobody waits for (host/output.ts:163-169). */
    method Send(fd: nat, bytes: seq<Byte>)
      requires Valid() && !Waiting()
      modifies this`remote, this`local, this`queue, this`result, this`writes, this`calls, this`done, this`emitted
      ensures Valid() && Advanced() && Asked(old(calls), calls, fd, bytes) && !Waiting()
    {
      hide Emission, Queues, Sane;
      var yes := Direct();
      if yes {
        Queue(fd, bytes, false);
      } else {
        Enqueue(fd, bytes, false);
      }
    }

    /** A console write: its result once its descriptor took every byte; until then the program waits (host/output.ts:179-185). */
    method Write(fd: nat, bytes: seq<Byte>) returns (r: Result)
      requires Valid() && !Waiting()
      modifies this`remote, this`local, this`queue, this`result, this`writes, this`calls, this`done, this`emitted
      ensures Valid() && Advanced() && Asked(old(calls), calls, fd, bytes)
      ensures r == if Waiting() then Blocked else Came(calls)
      ensures !Waiting() ==> queue == []
    {
      hide Emission, Queues, Sane;
      var yes := Direct();
      if yes {
        Queue(fd, bytes, true);
      } else {
        Enqueue(fd, bytes, true);
      }
      return if queue == [] then result else Blocked;
    }

    /** `connection`: from now on the thread writes everything (host/output.ts:186-195). */
    method Connection()
      requires Valid() && !Waiting()
      modifies this`remote, this`pinned, this`local, this`queue
      ensures Valid() && pinned && remote && queue == old(queue)
    {
      hide Emission, Queues;
      if !remote {
        HandOff();
      }
      pinned := true;
    }
  }

  /** One more call, of these bytes to this descriptor. */
  ghost predicate Asked(before: seq<Call>, after: seq<Call>, fd: nat, bytes: seq<Byte>) {
    |after| == |before| + 1 && after[|before|].fd == fd && after[|before|].bytes == bytes
  }

  ghost predicate LastWaits(queue: seq<Entry>) {
    forall k :: 0 <= k < |queue| - 1 ==> !queue[k].wait
  }

  ghost predicate Runs(queue: seq<Entry>) {
    && LastWaits(queue) && (queue != [] ==> queue[0].offset < |queue[0].bytes|)
    && forall k :: 0 <= k < |queue| ==> queue[k].offset <= |queue[k].bytes|
  }

  ghost predicate Running(queue: seq<Entry>) {
    LastWaits(queue) && (queue != [] ==> queue[0].offset < |queue[0].bytes|)
  }

  lemma StillQueued(queue: seq<Entry>, before: seq<Call>, calls: seq<Call>, done: nat)
    requires Queues(queue, before, done) && done < |before|
    requires calls == before || calls == before[done := before[done].(written := before[done].written + 0)]
    ensures Queues(queue, calls, done)
  {
    assert before[done := before[done].(written := before[done].written + 0)] == before;
  }

  lemma LengthOf(queue: seq<Entry>, calls: seq<Call>, done: nat)
    requires Queues(queue, calls, done)
    ensures done + |queue| == |calls| && forall i :: 0 <= i < done ==> Finished(calls[i])
  {}

  lemma FirstRest(queue: seq<Entry>, calls: seq<Call>, done: nat)
    requires Queues(queue, calls, done) && queue != []
    ensures done < |calls| && Rest(queue[0], calls[done]) && forall i :: done < i < |calls| ==> calls[i].written == 0
  {
    assert Rest(queue[0], calls[done + 0]);
  }

  lemma FirstEnds(queue: seq<Entry>, calls: seq<Call>, done: nat)
    requires Queues(queue, calls, done) && queue != [] && queue[0].offset >= |queue[0].bytes|
    ensures Queues(queue[1..], calls, done + 1) && done < |calls| && !calls[done].failed
  {
    FirstRest(queue, calls, done);
    RestWhole(queue[0], calls[done]);
    FirstLeaves(queue, calls, done, calls[done]);
    assert calls[done := calls[done]] == calls;
  }

  lemma FirstRuns(queue: seq<Entry>, calls: seq<Call>, done: nat)
    requires Queues(queue, calls, done)
    ensures forall k :: 0 <= k < |queue| ==> queue[k].offset <= |queue[k].bytes|
  {
    forall k | 0 <= k < |queue|
      ensures queue[k].offset <= |queue[k].bytes|
    {
      assert Rest(queue[k], calls[done + k]);
    }
  }

  // ----- what every run gives -----

  /** The bytes at one descriptor. */
  function At(outs: seq<Out>, fd: nat): seq<Byte> {
    if outs == [] then [] else At(outs[..|outs| - 1], fd) + if outs[|outs| - 1].fd == fd then [outs[|outs| - 1].byte] else []
  }

  /** What the program called for at one descriptor, as far as it was written. */
  function WrittenAt(calls: seq<Call>, fd: nat): seq<Byte>
    requires forall i :: 0 <= i < |calls| ==> calls[i].written <= |calls[i].bytes|
  {
    if calls == [] then []
    else
      var last := calls[|calls| - 1];
      WrittenAt(calls[..|calls| - 1], fd) + if last.fd == fd then last.bytes[..last.written] else []
  }

  lemma {:induction false} AtJoins(a: seq<Out>, b: seq<Out>, fd: nat)
    ensures At(a + b, fd) == At(a, fd) + At(b, fd)
    decreases |b|
  {
    if b == [] {
      assert a + b == a;
      assert At(a, fd) + [] == At(a, fd);
    } else {
      var n := |b| - 1;
      assert (a + b)[..|a| + n] == a + b[..n];
      AtJoins(a, b[..n], fd);
    }
  }

  lemma TagSnoc(tagged: nat, bytes: seq<Byte>, b: Byte)
    ensures Tag(tagged, bytes + [b]) == Tag(tagged, bytes) + [Out(tagged, b)]
  {}

  lemma AtSnoc(outs: seq<Out>, o: Out, fd: nat)
    ensures At(outs + [o], fd) == At(outs, fd) + if o.fd == fd then [o.byte] else []
  {
    assert (outs + [o])[..|outs|] == outs;
  }

  lemma {:induction false} AtTag(tagged: nat, bytes: seq<Byte>, fd: nat)
    ensures At(Tag(tagged, bytes), fd) == if tagged == fd then bytes else []
    decreases |bytes|
  {
    if bytes != [] {
      hide At, Tag;
      var n := |bytes| - 1;
      assert bytes == bytes[..n] + [bytes[n]];
      AtTag(tagged, bytes[..n], fd);
      TagSnoc(tagged, bytes[..n], bytes[n]);
      AtSnoc(Tag(tagged, bytes[..n]), Out(tagged, bytes[n]), fd);
    }
  }

  lemma {:induction false} EmissionAt(calls: seq<Call>, fd: nat)
    requires Sane(calls)
    ensures At(Emission(calls), fd) == WrittenAt(calls, fd)
    decreases |calls|
  {
    hide Tag, At;
    if calls == [] {
      assert At([], fd) == [] by { AtNothing(fd); }
    } else {
      var n := |calls| - 1;
      var last := calls[n];
      EmissionAt(calls[..n], fd);
      AtJoins(Emission(calls[..n]), Tag(last.fd, last.bytes[..last.written]), fd);
      AtTag(last.fd, last.bytes[..last.written], fd);
    }
  }

  lemma AtNothing(fd: nat)
    ensures At([], fd) == []
  {}

  /**
   * At every moment, whatever the descriptors did and however often writes moved to the thread and back: what
   * reached the descriptors is the written part of each call, in the order of the calls; the calls up to some point
   * are finished, and those after the next have not begun.
   */
  lemma InCallOrder(writer: Writer, fd: nat)
    requires writer.Valid()
    ensures Sane(writer.calls) && writer.emitted == Emission(writer.calls) && At(writer.emitted, fd) == WrittenAt(writer.calls, fd)
    ensures writer.done <= |writer.calls| && forall i :: 0 <= i < writer.done ==> Finished(writer.calls[i])
    ensures forall i :: writer.done < i < |writer.calls| ==> writer.calls[i].written == 0
  {
    hide Emission, WrittenAt, At;
    EmissionAt(writer.calls, fd);
  }

  /** Each call with all its bytes. */
  function Whole(c: Call): Call {
    c.(written := |c.bytes|)
  }

  /** Once nothing is queued and nothing failed, every byte the program wrote is out, once and in order. */
  lemma AllOut(writer: Writer)
    requires writer.Valid() && writer.queue == [] && forall i :: 0 <= i < |writer.calls| ==> !writer.calls[i].failed
    ensures forall i :: 0 <= i < |writer.calls| ==> Whole(writer.calls[i]) == writer.calls[i]
    ensures writer.emitted == Emission(writer.calls)
  {
    hide Emission;
    forall i | 0 <= i < |writer.calls|
      ensures Whole(writer.calls[i]) == writer.calls[i]
    {
      assert Finished(writer.calls[i]);
    }
  }

  /** A console write that came back without an error has all its bytes out, behind every earlier call. */
  lemma WriteIsOut(writer: Writer)
    requires writer.Valid() && !writer.Waiting() && writer.queue == [] && writer.calls != [] && Came(writer.calls) == Ok
    ensures var last := writer.calls[|writer.calls| - 1]; last.written == |last.bytes|
    ensures forall i :: 0 <= i < |writer.calls| ==> Finished(writer.calls[i])
  {
    hide Emission;
    assert Finished(writer.calls[|writer.calls| - 1]);
  }
}
