/** Pending host operations: started, reported ready, then finished or aborted (host/core.ts:527-536, 1092-1190, 1501-1512). */
module Operations {
  import opened Options

  /** An import's module and method; an operation started without one is finished by handle alone. */
  type Method = Option<string>

  /** A pending operation: when it is due, whether a probe tells that it is ready, and its result once completed. */
  datatype Op = Op(at: int, starter: Method, polled: bool, completed: bool, value: int)

  /** How an operation ended. */
  datatype How = Taken(starter: string) | Finished | Aborted

  datatype Ending = Ending(handle: nat, how: How)

  ghost predicate Distinct(s: seq<nat>) {
    forall i, j :: 0 <= i < j < |s| ==> s[i] != s[j]
  }

  function HandlesOf(es: seq<Ending>): (hs: seq<nat>)
    ensures |hs| == |es|
  {
    seq(|es|, i requires 0 <= i < |es| => es[i].handle)
  }

  lemma DistinctMore(s: seq<nat>, t: seq<nat>)
    requires Distinct(s) && Distinct(t) && forall h :: h in s ==> h !in t
    ensures Distinct(s + t)
  {
    forall i, j | 0 <= i < j < |s + t|
      ensures (s + t)[i] != (s + t)[j]
    {
      if i < |s| && j >= |s| {
        assert s[i] in s && t[j - |s|] in t;
      }
    }
  }

  // ----- the order of completion -----

  /** Due earlier, or as early and started earlier. */
  predicate Before(ops: map<nat, Op>, a: nat, b: nat)
    requires a in ops && b in ops
  {
    ops[a].at < ops[b].at || (ops[a].at == ops[b].at && a < b)
  }

  ghost predicate InOrder(ops: map<nat, Op>, hs: seq<nat>) {
    && (forall h :: h in hs ==> h in ops)
    && forall i, j :: 0 <= i < j < |hs| ==> hs[i] in ops && hs[j] in ops && Before(ops, hs[i], hs[j])
  }

  lemma OrderDistinct(ops: map<nat, Op>, hs: seq<nat>)
    requires InOrder(ops, hs)
    ensures Distinct(hs)
  {}

  /** A handle takes its place among ordered ones. */
  function Insert(ops: map<nat, Op>, hs: seq<nat>, h: nat): seq<nat>
    requires h in ops && forall k :: k in hs ==> k in ops
    decreases |hs|
  {
    if hs == [] || Before(ops, h, hs[0]) then [h] + hs else [hs[0]] + Insert(ops, hs[1..], h)
  }

  lemma {:induction false} InsertKeeps(ops: map<nat, Op>, hs: seq<nat>, h: nat)
    requires InOrder(ops, hs) && h in ops && h !in hs
    ensures InOrder(ops, Insert(ops, hs, h)) && forall k :: k in Insert(ops, hs, h) <==> k in hs || k == h
    decreases |hs|
  {
    var r := Insert(ops, hs, h);
    if hs == [] || Before(ops, h, hs[0]) {
      assert r == [h] + hs;
    } else {
      var rest := Insert(ops, hs[1..], h);
      InsertKeeps(ops, hs[1..], h);
      assert r == [hs[0]] + rest;
      forall k
        ensures k in r <==> k in hs || k == h
      {
        assert k in hs <==> k == hs[0] || k in hs[1..];
      }
      forall k | k in rest
        ensures Before(ops, hs[0], k)
      {
        if k != h {
          var i :| 0 <= i < |hs[1..]| && hs[1..][i] == k;
          assert hs[i + 1] == k;
        }
      }
    }
  }

  /** An operation that `complete` looks at, and one that it finds ready. */
  predicate Due(op: Op, now: int) {
    !op.completed && (op.polled || op.at <= now)
  }

  predicate IsReady(op: Op, h: nat, now: int, ready: nat -> bool) {
    Due(op, now) && (op.polled ==> ready(h))
  }

  /** Ordered handles: by the time they are due, and by handle at one time. */
  lemma OrderMeans(ops: map<nat, Op>, hs: seq<nat>, i: nat, j: nat)
    requires InOrder(ops, hs) && i < j < |hs|
    ensures hs[i] in ops && hs[j] in ops
    ensures ops[hs[i]].at <= ops[hs[j]].at && (ops[hs[i]].at == ops[hs[j]].at ==> hs[i] < hs[j])
  {}

  /** The handles that are due, in order. */
  method Sorted(ops: map<nat, Op>, now: int) returns (due: seq<nat>)
    ensures InOrder(ops, due) && forall h :: h in due <==> h in ops && Due(ops[h], now)
  {
    due := [];
    var left := ops.Keys;
    while left != {}
      invariant left <= ops.Keys && InOrder(ops, due)
      invariant forall h :: h in due <==> h in ops && h !in left && Due(ops[h], now)
      decreases |left|
    {
      var h :| h in left;
      left := left - {h};
      if Due(ops[h], now) {
        InsertKeeps(ops, due, h);
        due := Insert(ops, due, h);
      }
    }
  }

  /** Every handle was given once, and is pending until its operation ends. */
  ghost predicate Handed(ops: map<nat, Op>, nextHandle: nat, started: map<nat, Method>, ended: seq<Ending>) {
    && (forall h <- started :: 0 < h < nextHandle)
    && (forall h <- ops :: h in started && ops[h].starter == started[h])
    && (forall h <- started :: h in ops <==> h !in HandlesOf(ended))
    && (forall h :: h in HandlesOf(ended) ==> h in started)
    && Distinct(HandlesOf(ended))
  }

  /** The completed operations are those reported ready, each once. */
  ghost predicate Told(ops: map<nat, Op>, started: map<nat, Method>, reported: seq<nat>) {
    && (forall h <- ops :: ops[h].completed <==> h in reported)
    && (forall h :: h in reported ==> h in started)
    && Distinct(reported)
  }

  /** A result was taken by the method that started the operation, after it was reported. */
  predicate TakenWell(e: Ending, started: map<nat, Method>, reported: seq<nat>) {
    e.how.Taken? ==> e.handle in reported && e.handle in started && started[e.handle] == Some(e.how.starter)
  }

  /** What the loop of `complete` makes of the operations. */
  ghost predicate Probed(before: map<nat, Op>, after: map<nat, Op>, looked: seq<nat>, due: seq<nat>, retry: nat -> int, done: nat -> int) {
    && after.Keys == before.Keys
    && forall h <- before :: after[h] ==
         if h in due then before[h].(completed := true, value := done(h))
         else if h in looked then before[h].(at := retry(h))
         else before[h]
  }

  method Probe(ops: map<nat, Op>, all: seq<nat>, now: int, retry: nat -> int, ready: nat -> bool, done: nat -> int)
    returns (after: map<nat, Op>, due: seq<nat>)
    requires InOrder(ops, all) && forall h :: h in all ==> Due(ops[h], now)
    ensures InOrder(ops, due) && Probed(ops, after, all, due, retry, done)
    ensures forall h :: h in due <==> h in all && IsReady(ops[h], h, now, ready)
  {
    OrderDistinct(ops, all);
    after, due := ops, [];
    for i := 0 to |all|
      invariant InOrder(ops, due) && Probed(ops, after, all[..i], due, retry, done)
      invariant forall h :: h in due <==> h in all[..i] && IsReady(ops[h], h, now, ready)
    {
      var h := all[i];
      NextIsNew(all, i);
      if after[h].polled && !ready(h) {
        after := after[h := after[h].(at := retry(h))];
      } else {
        LaterThan(ops, all, i, due);
        OrderSnoc(ops, due, h);
        due := due + [h];
        after := after[h := after[h].(completed := true, value := done(h))];
      }
    }
    assert all[..|all|] == all;
  }

  lemma NextIsNew(all: seq<nat>, i: nat)
    requires Distinct(all) && i < |all|
    ensures all[i] !in all[..i] && forall h :: h in all[..i + 1] <==> h in all[..i] || h == all[i]
  {
    assert all[..i + 1] == all[..i] + [all[i]];
  }

  lemma LaterThan(ops: map<nat, Op>, all: seq<nat>, i: nat, due: seq<nat>)
    requires InOrder(ops, all) && i < |all| && forall k :: k in due ==> k in all[..i]
    ensures forall k :: k in due ==> k in ops && Before(ops, k, all[i])
  {
    forall k | k in due
      ensures k in ops && Before(ops, k, all[i])
    {
      var j :| 0 <= j < i && all[..i][j] == k;
      assert all[j] == k;
    }
  }

  /** Reporting keeps the handles and the endings as they are. */
  lemma ReportsKeep(ops: map<nat, Op>, after: map<nat, Op>, nextHandle: nat, started: map<nat, Method>, ended: seq<Ending>,
      reported: seq<nat>, looked: seq<nat>, due: seq<nat>, retry: nat -> int, done: nat -> int)
    requires Handed(ops, nextHandle, started, ended) && Told(ops, started, reported)
    requires Probed(ops, after, looked, due, retry, done) && Distinct(due) && forall h :: h in due ==> h in ops && !ops[h].completed
    ensures Handed(after, nextHandle, started, ended) && Told(after, started, reported + due)
  {
    DistinctMore(reported, due);
  }

  /** An ending takes the operation out of the table. */
  lemma EndKeeps(ops: map<nat, Op>, nextHandle: nat, started: map<nat, Method>, ended: seq<Ending>, reported: seq<nat>, e: Ending)
    requires Handed(ops, nextHandle, started, ended) && Told(ops, started, reported) && e.handle in ops
    ensures Handed(ops - {e.handle}, nextHandle, started, ended + [e]) && Told(ops - {e.handle}, started, reported)
  {
    EndsMore(ended, e);
    assert e.handle in started && e.handle !in HandlesOf(ended);
    DistinctMore(HandlesOf(ended), [e.handle]);
  }

  class Host {
    var ops: map<nat, Op>
    var nextHandle: nat
    var closed: bool
    /** The method of each operation ever started, the handles reported ready, and how operations ended, in order. */
    ghost var started: map<nat, Method>
    ghost var reported: seq<nat>
    ghost var ended: seq<Ending>

    ghost predicate Valid()
      reads this
    {
      && Handed(ops, nextHandle, started, ended) && Told(ops, started, reported) && nextHandle > 0
      && forall i :: 0 <= i < |ended| ==> TakenWell(ended[i], started, reported)
    }

    constructor ()
      ensures Valid() && started == map[] && reported == [] && ended == [] && !closed
    {
      ops, nextHandle, closed := map[], 1, false;
      started, reported, ended := map[], [], [];
    }

    /** `pending`: an operation starts, under a handle no other ever had. */
    method Pending(at: int, starter: Method, polled: bool) returns (handle: nat)
      requires Valid()
      modifies this`ops, this`nextHandle, this`started
      ensures Valid() && handle !in old(started) && started == old(started)[handle := starter]
      ensures ops == old(ops)[handle := Op(at, starter, polled, false, 0)]
    {
      handle := nextHandle;
      nextHandle := nextHandle + 1;
      ops := ops[handle := Op(at, starter, polled, false, 0)];
      started := started[handle := starter];
    }

    /**
     * `complete`: every due operation whose probe, if it has one, says so is reported ready, the earliest first; a
     * probe that does not is tried again at its `retry`.
     */
    method Complete(now: int, retry: nat -> int, ready: nat -> bool, done: nat -> int) returns (due: seq<nat>)
      requires Valid()
      modifies this`ops, this`reported
      ensures Valid() && reported == old(reported) + due && (forall h :: h in due ==> h in old(ops))
      ensures forall i, j :: 0 <= i < j < |due| ==>
                var a, b := old(ops)[due[i]].at, old(ops)[due[j]].at; a < b || (a == b && due[i] < due[j])
      ensures forall h <- old(ops) ::
                h in due <==> !old(ops)[h].completed && if old(ops)[h].polled then ready(h) else old(ops)[h].at <= now
      ensures ops.Keys == old(ops).Keys
      ensures forall h <- ops :: ops[h] ==
                if h in due then old(ops)[h].(completed := true, value := done(h))
                else if old(ops)[h].polled && !old(ops)[h].completed then old(ops)[h].(at := retry(h))
                else old(ops)[h]
    {
      hide Handed, Told;
      var all := Sorted(ops, now);
      var after;
      after, due := Probe(ops, all, now, retry, ready, done);
      OrderDistinct(ops, due);
      ReportsKeep(ops, after, nextHandle, started, ended, reported, all, due, retry, done);
      ops := after;
      reported := reported + due;
    }

    /**
     * `finished`: the result of a completed operation, for the method that started it alone; `delivered` is what
     * its delivery hook gives in the result's place.
     */
    method TakeResult(handle: nat, starter: string, delivered: Option<int>) returns (r: Option<int>)
      requires Valid()
      modifies this`ops, this`ended
      ensures Valid()
      ensures r.Some? <==> handle in old(ops) && old(ops)[handle].starter == Some(starter) && old(ops)[handle].completed
      ensures r.Some? ==> r.value == (if delivered.Some? then delivered.value else old(ops)[handle].value)
      ensures ops == if r.Some? then old(ops) - {handle} else old(ops)
      ensures ended == old(ended) + if r.Some? then [Ending(handle, Taken(starter))] else []
    {
      HandOut(ops, nextHandle, started, ended, reported, handle);
      if handle !in ops || ops[handle].starter != Some(starter) || !ops[handle].completed {
        return None;
      }
      var value := if delivered.Some? then delivered.value else ops[handle].value;
      End(handle, Taken(starter));
      return Some(value);
    }

    /** An operation leaves the table. */
    method End(handle: nat, how: How)
      requires Valid() && handle in ops && TakenWell(Ending(handle, how), started, reported)
      modifies this`ops, this`ended
      ensures Valid() && ops == old(ops) - {handle} && ended == old(ended) + [Ending(handle, how)]
    {
      hide Handed, Told;
      EndKeeps(ops, nextHandle, started, ended, reported, Ending(handle, how));
      ops := ops - {handle};
      ended := ended + [Ending(handle, how)];
    }

    /** `finish`: a provider of its own ends an operation by its handle. */
    method Finish(handle: nat)
      requires Valid()
      modifies this`ops, this`ended
      ensures Valid() && ops == old(ops) - {handle}
      ensures ended == old(ended) + if handle in old(ops) then [Ending(handle, Finished)] else []
    {
      if handle in ops {
        End(handle, Finished);
      }
    }

    /** `abortOperation`. */
    method Abort(handle: nat)
      requires Valid()
      modifies this`ops, this`ended
      ensures Valid() && ops == old(ops) - {handle}
      ensures ended == old(ended) + if handle in old(ops) then [Ending(handle, Aborted)] else []
    {
      if handle in ops {
        End(handle, Aborted);
      }
    }

    /** `clearOperations`: what is still pending is aborted. */
    method Clear()
      requires Valid()
      modifies this`ops, this`ended
      ensures Valid() && ops == map[] && old(ended) <= ended
      ensures forall i :: |old(ended)| <= i < |ended| ==> ended[i].how == Aborted && ended[i].handle in old(ops)
    {
      hide Handed, Told;
      while ops != map[]
        invariant Valid() && ops.Keys <= old(ops).Keys && old(ended) <= ended
        invariant forall i :: |old(ended)| <= i < |ended| ==> ended[i].how == Aborted && ended[i].handle in old(ops)
        decreases |ops|
      {
        SomeKey(ops);
        var handle :| handle in ops;
        assert (ops - {handle}).Keys == ops.Keys - {handle};
        Abort(handle);
      }
    }

    /** `close`: every operation ever started has ended, exactly once. */
    method Close()
      requires Valid()
      modifies this`ops, this`ended, this`closed
      ensures Valid() && closed && ops == map[] && old(ended) <= ended
      ensures Distinct(HandlesOf(ended)) && forall h :: h in HandlesOf(ended) <==> h in started
    {
      closed := true;
      Clear();
    }
  }

  lemma HandOut(ops: map<nat, Op>, nextHandle: nat, started: map<nat, Method>, ended: seq<Ending>, reported: seq<nat>, handle: nat)
    requires Handed(ops, nextHandle, started, ended) && Told(ops, started, reported)
    ensures handle in ops ==> handle in started && started[handle] == ops[handle].starter
    ensures handle in ops && ops[handle].completed ==> handle in reported
  {}

  lemma SomeKey(ops: map<nat, Op>)
    requires ops != map[]
    ensures ops.Keys != {}
  {}

  lemma EndsMore(ended: seq<Ending>, e: Ending)
    ensures HandlesOf(ended + [e]) == HandlesOf(ended) + [e.handle]
  {}

  lemma OrderSnoc(ops: map<nat, Op>, hs: seq<nat>, h: nat)
    requires InOrder(ops, hs) && h in ops && forall k :: k in hs ==> Before(ops, k, h)
    ensures InOrder(ops, hs + [h])
  {
    var r := hs + [h];
    forall i, j | 0 <= i < j < |r|
      ensures r[i] in ops && r[j] in ops && Before(ops, r[i], r[j])
    {
      if j == |hs| {
        assert hs[i] in hs;
      }
    }
  }

  /**
   * In every run: an operation is reported ready at most once, ends at most once, and its result is taken only by
   * the method that started it, after it was reported.
   */
  lemma LifeCycle(host: Host, i: nat, j: nat)
    requires host.Valid()
    ensures i < j < |host.reported| ==> host.reported[i] != host.reported[j]
    ensures i < j < |host.ended| ==> host.ended[i].handle != host.ended[j].handle
    ensures i < |host.ended| && host.ended[i].how.Taken? ==>
              host.ended[i].handle in host.reported && host.started[host.ended[i].handle] == Some(host.ended[i].how.starter)
    ensures i < |host.ended| ==> host.ended[i].handle !in host.ops
  {
    if i < j < |host.ended| {
      assert HandlesOf(host.ended)[i] != HandlesOf(host.ended)[j];
    }
    if i < |host.ended| {
      assert HandlesOf(host.ended)[i] in HandlesOf(host.ended);
    }
  }
}
