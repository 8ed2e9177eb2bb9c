/**
 * The storage that linked inputs share, its snapshot, and its restoration over new instances of the same modules
 * (host/session.ts:459-534, 543-558).
 */
module LinkedStorage {
  import opened ByteStrings
  import opened Options

  /** A page of memory: 64 KiB. */
  const PAGE: nat := 65536

  /** The memories `hd.x`, `hd.session.heap` and `hd.session.stack`, in this order. */
  type Memories = seq<seq<Byte>>

  /** What an instance exports: a global of the session, whose value may change, or something its module fixes. */
  datatype Export = Global(name: string, value: int) | Fixed(name: string, value: int)

  /** A slot of the function table: empty, or the function put there. */
  type Slot = Option<nat>

  datatype Storage = Storage(memories: Memories, instances: seq<seq<Export>>, table: seq<Slot>)

  /** A write of a module's active element segments. */
  datatype Put = Put(at: nat, slot: Slot)

  /**
   * A module: the memories it starts with if it is the first, what its active data segments do to the memories, its
   * exports as they start, the table's length that it needs, and what its element segments put there.
   */
  datatype Code = Code(
    memories: Memories, load: Memories -> Memories, exports: seq<Export>, tableLength: nat, puts: seq<Put>)

  predicate SameSizes(a: Memories, b: Memories) {
    |a| == |b| && forall i :: 0 <= i < |a| ==> |a[i]| == |b[i]|
  }

  predicate Distinct(exports: seq<Export>) {
    forall i, j :: 0 <= i < j < |exports| ==> exports[i].name != exports[j].name
  }

  /** Whole pages, three of the memories. */
  predicate Paged(memories: Memories) {
    |memories| == 3 && forall i :: 0 <= i < 3 ==> |memories[i]| % PAGE == 0
  }

  /** Data segments do not grow a memory. */
  ghost predicate LoadKeeps(code: Code) {
    forall ms :: SameSizes(ms, code.load(ms))
  }

  /** Element segments lie within the table that the module asks for. */
  predicate PutsFit(code: Code) {
    forall i :: 0 <= i < |code.puts| ==> code.puts[i].at < code.tableLength
  }

  ghost predicate ValidCode(code: Code) {
    Paged(code.memories) && LoadKeeps(code) && PutsFit(code) && Distinct(code.exports)
  }

  // ----- the snapshot -----

  datatype Saved = Saved(epoch: nat, name: string, value: int)

  datatype Snapshot = Snapshot(memories: Memories, globals: seq<Saved>, epochs: nat, tableLength: nat)

  /** The session globals of one instance. */
  function SavedOf(epoch: nat, exports: seq<Export>): seq<Saved> {
    if exports == [] then []
    else
      var n := |exports| - 1;
      SavedOf(epoch, exports[..n]) + if exports[n].Global? then [Saved(epoch, exports[n].name, exports[n].value)] else []
  }

  function SavedAll(instances: seq<seq<Export>>): seq<Saved> {
    if instances == [] then []
    else
      var n := |instances| - 1;
      SavedAll(instances[..n]) + SavedOf(n, instances[n])
  }

  /** `captureLinked` (host/session.ts:459-479). */
  function Capture(s: Storage): Snapshot {
    Snapshot(s.memories, SavedAll(s.instances), |s.instances|, |s.table|)
  }

  // ----- the restoration -----

  /** `memory.grow` to the pages of the snapshot, if they are more. */
  function Grown(memory: seq<Byte>, size: nat): (m: seq<Byte>)
    ensures |m| == if |memory| < size then size else |memory|
    ensures forall k :: 0 <= k < |m| ==> m[k] == if k < |memory| then memory[k] else 0
  {
    if |memory| < size then memory + seq(size - |memory|, i => 0) else memory
  }

  function GrownAll(memories: Memories, sizes: Memories): (ms: Memories)
    ensures |ms| == |memories|
  {
    seq(|memories|, i requires 0 <= i < |memories| => if i < |sizes| then Grown(memories[i], |sizes[i]|) else memories[i])
  }

  /** `table.grow`, if the table is shorter. */
  function GrownTable(table: seq<Slot>, length: nat): (t: seq<Slot>)
    ensures |t| == if |table| < length then length else |table|
    ensures forall k :: 0 <= k < |t| ==> t[k] == if k < |table| then table[k] else None
  {
    if |table| < length then table + seq(length - |table|, i => None) else table
  }

  /** The element segments write the table. */
  function Filled(table: seq<Slot>, puts: seq<Put>): (t: seq<Slot>)
    ensures |t| == |table|
  {
    if puts == [] then table
    else
      var n := |puts| - 1;
      var t := Filled(table, puts[..n]);
      if puts[n].at < |t| then t[puts[n].at := puts[n].slot] else t
  }

  /**
   * `instantiateLinked` of the modules with a snapshot (host/session.ts:484-534): the first one's memories grow to
   * the snapshot's, and the table to its length before the second.
   */
  function Reopened(codes: seq<Code>, snapshot: Snapshot): (s: Storage)
    ensures |s.instances| == |codes|
  {
    if codes == [] then Storage([], [], [])
    else
      var n := |codes| - 1;
      var code := codes[n];
      if n == 0 then
        var table := Filled(GrownTable([], code.tableLength), code.puts);
        Storage(GrownAll(code.load(code.memories), snapshot.memories), [code.exports], table)
      else
        var before := Reopened(codes[..n], snapshot);
        var table := Filled(GrownTable(before.table, snapshot.tableLength), code.puts);
        Storage(code.load(before.memories), before.instances + [code.exports], table)
  }

  /** A slot that nothing is put in stays. */
  lemma {:induction false} FilledElsewhere(table: seq<Slot>, puts: seq<Put>, k: nat)
    requires k < |table| && forall i :: 0 <= i < |puts| ==> puts[i].at != k
    ensures Filled(table, puts)[k] == table[k]
    decreases |puts|
  {
    if puts != [] {
      FilledElsewhere(table, puts[..|puts| - 1], k);
    }
  }

  /** Another holds what was put there last. */
  lemma {:induction false} FilledLast(table: seq<Slot>, puts: seq<Put>, i: nat)
    requires i < |puts| && puts[i].at < |table| && forall j :: i < j < |puts| ==> puts[j].at != puts[i].at
    ensures Filled(table, puts)[puts[i].at] == puts[i].slot
    decreases |puts|
  {
    var n := |puts| - 1;
    if i < n {
      FilledLast(table, puts[..n], i);
    }
  }

  /** The snapshot's bytes over the start of a memory. */
  function Overlaid(memory: seq<Byte>, bytes: seq<Byte>): (r: seq<Byte>)
    ensures |r| == |memory|
    ensures |bytes| <= |memory| ==> forall k :: 0 <= k < |r| ==> r[k] == if k < |bytes| then bytes[k] else memory[k]
  {
    if |bytes| <= |memory| then bytes + memory[|bytes|..] else memory
  }

  function OverlaidAll(memories: Memories, saved: Memories): (ms: Memories)
    ensures |ms| == |memories|
  {
    seq(|memories|, i requires 0 <= i < |memories| => if i < |saved| then Overlaid(memories[i], saved[i]) else memories[i])
  }

  function SetGlobal(exports: seq<Export>, name: string, value: int): (r: seq<Export>)
    ensures |r| == |exports|
  {
    seq(|exports|, i requires 0 <= i < |exports| =>
      if exports[i].Global? && exports[i].name == name then Global(name, value) else exports[i])
  }

  /** The snapshot's globals, set one after another. */
  function Assigned(instances: seq<seq<Export>>, saved: seq<Saved>): (r: seq<seq<Export>>)
    ensures |r| == |instances|
  {
    if saved == [] then instances
    else
      var n := |saved| - 1;
      var r, g := Assigned(instances, saved[..n]), saved[n];
      if g.epoch < |r| then r[g.epoch := SetGlobal(r[g.epoch], g.name, g.value)] else r
  }

  /** The first half of `restoreLinked`: new instances, then the snapshot over them (host/session.ts:546-558). */
  function Restored(codes: seq<Code>, snapshot: Snapshot): Storage {
    var s := Reopened(codes, snapshot);
    Storage(OverlaidAll(s.memories, snapshot.memories), Assigned(s.instances, snapshot.globals), s.table)
  }

  // ----- the storage of live instances -----

  /** The table that the modules leave when each is instantiated in its turn. */
  function TableOf(codes: seq<Code>): seq<Slot> {
    if codes == [] then []
    else
      var n := |codes| - 1;
      Filled(GrownTable(TableOf(codes[..n]), codes[n].tableLength), codes[n].puts)
  }

  /** The same exports, session globals in the same places, whatever their values. */
  predicate SameExports(a: seq<Export>, b: seq<Export>) {
    |a| == |b| && forall i :: 0 <= i < |a| ==> a[i].name == b[i].name && (a[i] == b[i] || (a[i].Global? && b[i].Global?))
  }

  /** What live instances of the modules hold: memories only grow, exports and the table are the modules' own. */
  ghost predicate Shape(codes: seq<Code>, s: Storage) {
    && (forall i :: 0 <= i < |codes| ==> ValidCode(codes[i]))
    && |s.instances| == |codes| && (forall i :: 0 <= i < |codes| ==> SameExports(codes[i].exports, s.instances[i]))
    && s.table == TableOf(codes)
    && (codes != [] ==> Paged(s.memories) && forall i :: 0 <= i < 3 ==> |codes[0].memories[i]| <= |s.memories[i]|)
  }

  lemma SetOne(exports: seq<Export>, k: nat, value: int)
    requires Distinct(exports) && k < |exports| && exports[k].Global?
    ensures SetGlobal(exports, exports[k].name, value) == exports[k := Global(exports[k].name, value)]
  {}

  lemma {:induction false} AssignedJoins(instances: seq<seq<Export>>, a: seq<Saved>, b: seq<Saved>)
    ensures Assigned(instances, a + b) == Assigned(Assigned(instances, a), b)
    decreases |b|
  {
    if b == [] {
      assert a + b == a;
    } else {
      assert (a + b)[..|a + b| - 1] == a + b[..|b| - 1];
      AssignedJoins(instances, a, b[..|b| - 1]);
    }
  }

  /** The first n of `a`, then `b` from there. */
  function Mixed<T>(a: seq<T>, b: seq<T>, n: nat): (r: seq<T>)
    requires n <= |a| == |b|
    ensures |r| == |a|
  {
    a[..n] + b[n..]
  }

  lemma MixedMore<T>(a: seq<T>, b: seq<T>, n: nat)
    requires n < |a| == |b|
    ensures Mixed(a, b, n)[n] == b[n] && Mixed(a, b, n)[n := a[n]] == Mixed(a, b, n + 1)
    ensures a[..n + 1][..n] == a[..n] && a[..n + 1][n] == a[n]
  {}

  lemma MixedEnds<T>(a: seq<T>, b: seq<T>)
    requires |a| == |b|
    ensures Mixed(a, b, 0) == b && Mixed(a, b, |a|) == a && a[..|a|] == a
  {}

  /** The saved globals of the first k exports of an instance. */
  lemma {:induction false} AssignsExports(instances: seq<seq<Export>>, epoch: nat, live: seq<Export>, k: nat)
    requires epoch < |instances| && Distinct(instances[epoch]) && SameExports(instances[epoch], live) && k <= |live|
    ensures Assigned(instances, SavedOf(epoch, live[..k])) == instances[epoch := Mixed(live, instances[epoch], k)]
    decreases k
  {
    var exports := instances[epoch];
    hide Mixed, Distinct, SetGlobal;
    if k == 0 {
      MixedEnds(live, exports);
    } else {
      AssignsExports(instances, epoch, live, k - 1);
      MixedMore(live, exports, k - 1);
      var before, part := SavedOf(epoch, live[..k - 1]), Mixed(live, exports, k - 1);
      if live[k - 1].Global? {
        AssignedOne(instances, before, Saved(epoch, live[k - 1].name, live[k - 1].value));
        MixedDistinct(exports, live, k - 1);
        SetOne(part, k - 1, live[k - 1].value);
      } else {
        assert SavedOf(epoch, live[..k]) == before + [] == before;
        assert part[k - 1 := live[k - 1]] == part;
      }
    }
  }

  lemma AssignedOne(instances: seq<seq<Export>>, saved: seq<Saved>, g: Saved)
    requires g.epoch < |instances|
    ensures var r := Assigned(instances, saved);
            Assigned(instances, saved + [g]) == r[g.epoch := SetGlobal(r[g.epoch], g.name, g.value)]
  {
    assert (saved + [g])[..|saved|] == saved;
  }

  lemma MixedDistinct(exports: seq<Export>, live: seq<Export>, k: nat)
    requires Distinct(exports) && SameExports(exports, live) && k <= |live|
    ensures Distinct(Mixed(live, exports, k))
  {
    assert forall i :: 0 <= i < |live| ==> Mixed(live, exports, k)[i].name == exports[i].name;
  }

  lemma {:induction false} AssignsAll(instances: seq<seq<Export>>, live: seq<seq<Export>>, n: nat)
    requires |instances| == |live| && n <= |live|
    requires forall i :: 0 <= i < |live| ==> Distinct(instances[i]) && SameExports(instances[i], live[i])
    ensures Assigned(instances, SavedAll(live[..n])) == Mixed(live, instances, n)
    decreases n
  {
    hide SavedOf, Distinct, SameExports, Mixed, Assigned;
    if n == 0 {
      MixedEnds(live, instances);
      AssignedNone(instances);
    } else {
      AssignsAll(instances, live, n - 1);
      MixedMore(live, instances, n - 1);
      AssignedJoins(instances, SavedAll(live[..n - 1]), SavedOf(n - 1, live[n - 1]));
      SameLength(instances[n - 1], live[n - 1]);
      MixedEnds(live[n - 1], instances[n - 1]);
      AssignsExports(Mixed(live, instances, n - 1), n - 1, live[n - 1], |live[n - 1]|);
    }
  }

  lemma AssignedNone(instances: seq<seq<Export>>)
    ensures Assigned(instances, []) == instances
  {}

  lemma SameLength(a: seq<Export>, b: seq<Export>)
    requires SameExports(a, b)
    ensures |a| == |b|
  {}

  lemma {:induction false} FilledGrows(table: seq<Slot>, puts: seq<Put>, length: nat)
    requires forall i :: 0 <= i < |puts| ==> puts[i].at < |table|
    ensures Filled(GrownTable(table, length), puts) == GrownTable(Filled(table, puts), length)
    decreases |puts|
  {
    if puts != [] {
      FilledGrows(table, puts[..|puts| - 1], length);
    }
  }

  /** The table grown at once to the length it came to in the end holds the same slots. */
  lemma {:induction false} ReopensTable(codes: seq<Code>, snapshot: Snapshot)
    requires codes != [] && forall i :: 0 <= i < |codes| ==> PutsFit(codes[i])
    requires |TableOf(codes)| <= snapshot.tableLength
    ensures Reopened(codes, snapshot).table == if |codes| == 1 then TableOf(codes) else GrownTable(TableOf(codes), snapshot.tableLength)
    decreases |codes|
  {
    hide GrownAll, Filled;
    var n, length := |codes| - 1, snapshot.tableLength;
    var code := codes[n];
    if n == 0 {
      assert TableOf(codes[..0]) == [];
    } else {
      var before := TableOf(codes[..n]);
      ReopensTable(codes[..n], snapshot);
      var table := GrownTable(before, code.tableLength);
      FilledGrows(table, code.puts, length);
      assert GrownTable(table, length) == GrownTable(before, length) == GrownTable(GrownTable(before, length), length);
    }
  }

  /** New instances have memories of the snapshot's sizes. */
  lemma {:induction false} ReopensSizes(codes: seq<Code>, snapshot: Snapshot)
    requires codes != [] && forall i :: 0 <= i < |codes| ==> LoadKeeps(codes[i])
    requires |codes[0].memories| == |snapshot.memories|
    requires forall i :: 0 <= i < |snapshot.memories| ==> |codes[0].memories[i]| <= |snapshot.memories[i]|
    ensures SameSizes(Reopened(codes, snapshot).memories, snapshot.memories)
    decreases |codes|
  {
    hide Filled, GrownTable;
    var n := |codes| - 1;
    if n == 0 {
      assert SameSizes(codes[n].memories, codes[n].load(codes[n].memories));
    } else {
      ReopensSizes(codes[..n], snapshot);
      var before := Reopened(codes[..n], snapshot).memories;
      assert SameSizes(before, codes[n].load(before));
    }
  }

  lemma {:induction false} ReopensExports(codes: seq<Code>, snapshot: Snapshot)
    ensures forall i :: 0 <= i < |codes| ==> Reopened(codes, snapshot).instances[i] == codes[i].exports
    decreases |codes|
  {
    hide Filled, GrownTable, GrownAll;
    if codes != [] {
      ReopensExports(codes[..|codes| - 1], snapshot);
    }
  }

  lemma OverlaysAll(memories: Memories, saved: Memories)
    requires SameSizes(memories, saved)
    ensures OverlaidAll(memories, saved) == saved
  {
    forall i | 0 <= i < |saved|
      ensures Overlaid(memories[i], saved[i]) == saved[i]
    {
      assert saved[i] + memories[i][|saved[i]|..] == saved[i];
    }
  }

  /**
   * Restoring a snapshot over new instances of the modules gives back the storage it was taken of: what the modules'
   * own segments wrote meanwhile is overwritten, and what is not saved is the modules' own.
   */
  lemma CaptureRestores(codes: seq<Code>, s: Storage)
    requires codes != [] && Shape(codes, s)
    ensures Restored(codes, Capture(s)) == s
  {
    hide TableOf, Reopened, SavedAll, SameExports, Distinct, Assigned, PutsFit, LoadKeeps, OverlaidAll, GrownTable;
    var snapshot := Capture(s);
    var r := Reopened(codes, snapshot);
    ReopensTable(codes, snapshot);
    FullTable(s.table);
    ReopensSizes(codes, snapshot);
    OverlaysAll(r.memories, s.memories);
    ReopensExports(codes, snapshot);
    AssignsAll(r.instances, s.instances, |codes|);
    MixedEnds(s.instances, r.instances);
  }

  lemma FullTable(table: seq<Slot>)
    ensures GrownTable(table, |table|) == table
  {}

  // ----- what keeps the shape -----

  /** What running code does: memories change and grow by pages, session globals change, nothing else does. */
  predicate Touches(s: Storage, t: Storage) {
    && |s.instances| == |t.instances| && (forall i :: 0 <= i < |s.instances| ==> SameExports(s.instances[i], t.instances[i]))
    && s.table == t.table
    && Paged(t.memories) && |s.memories| == 3 && forall i :: 0 <= i < 3 ==> |s.memories[i]| <= |t.memories[i]|
  }

  lemma TouchKeeps(codes: seq<Code>, s: Storage, t: Storage)
    requires codes != [] && Shape(codes, s) && Touches(s, t)
    ensures Shape(codes, t) && Paged(s.memories)
    ensures forall i :: 0 <= i < 3 ==> |t.memories[i]| % (64 * 1024) == 0
  {
    hide ValidCode, TableOf;
    forall i | 0 <= i < |codes|
      ensures SameExports(codes[i].exports, t.instances[i])
    {
      assert SameExports(codes[i].exports, s.instances[i]) && SameExports(s.instances[i], t.instances[i]);
    }
  }

  /** `instantiateLinked` of one more module over live instances (host/session.ts:494-533). */
  function Instantiated(code: Code, s: Storage): Storage {
    Storage(
      code.load(if s.instances == [] then code.memories else s.memories), s.instances + [code.exports],
      Filled(GrownTable(s.table, code.tableLength), code.puts))
  }

  /** The modules instantiated one after another. */
  function Instances(codes: seq<Code>): Storage {
    if codes == [] then Storage([], [], []) else Instantiated(codes[|codes| - 1], Instances(codes[..|codes| - 1]))
  }

  lemma NothingGrows(memories: Memories)
    ensures GrownAll(memories, []) == memories
  {}

  /** Without a snapshot's memories, new instances are the modules instantiated one after another. */
  lemma {:induction false} ReopensAfresh(codes: seq<Code>, snapshot: Snapshot)
    requires snapshot.memories == []
    ensures Reopened(codes, snapshot).memories == Instances(codes).memories
    ensures Reopened(codes, snapshot).instances == Instances(codes).instances && |Instances(codes).instances| == |codes|
    ensures TableOf(codes) == Instances(codes).table
    decreases |codes|
  {
    hide Filled, GrownTable, GrownAll;
    if codes != [] {
      var n := |codes| - 1;
      ReopensAfresh(codes[..n], snapshot);
      NothingGrows(codes[n].load(codes[n].memories));
    }
  }

  lemma InstantiatingKeeps(codes: seq<Code>, code: Code, s: Storage)
    requires Shape(codes, s) && ValidCode(code)
    ensures Shape(codes + [code], Instantiated(code, s))
  {
    hide Filled, GrownTable, PutsFit, Distinct, LoadKeeps;
    var all, t := codes + [code], Instantiated(code, s);
    assert all[..|codes|] == codes;
    LoadsSizes(code, if codes == [] then code.memories else s.memories);
  }

  lemma LoadsSizes(code: Code, memories: Memories)
    requires LoadKeeps(code)
    ensures SameSizes(memories, code.load(memories))
  {}
}
