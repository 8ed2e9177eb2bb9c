/** Archived journals made into one: `joinJournals` (host/journal.ts:960-1034). */
module JournalJoin {
  import opened ByteStrings
  import opened JournalRows
  import opened JournalEvents
  import opened JournalRecorder
  import opened JournalRecord
  import opened Options

  /** A row of a chunk and the event it holds. */
  datatype Item = Item(kind: Byte, payload: seq<Byte>, event: Event)

  function ItemsOf(rows: seq<Row>, es: seq<Event>): (items: seq<Item>)
    requires |rows| == |es|
    ensures |items| == |es|
  {
    seq(|es|, i requires 0 <= i < |es| => Item(rows[i].kind, rows[i].payload, es[i]))
  }

  function Events(items: seq<Item>): (es: seq<Event>)
    ensures |es| == |items|
  {
    seq(|items|, i requires 0 <= i < |items| => items[i].event)
  }

  /** The number of the last input, or -1. */
  function LastNumber(items: seq<Item>): int {
    if items == [] then -1
    else
      var e := items[|items| - 1].event;
      if e.Input? then e.number else LastNumber(items[..|items| - 1])
  }

  function AddItem(items: seq<Item>, item: Item): Result<seq<Item>> {
    if item.event.Header? && items != [] then Ok(items)
    else if item.event.Input? && item.event.number <= LastNumber(items) then Fail(OutOfOrder)
    else Ok(items + [item])
  }

  function AddItems(items: seq<Item>, more: seq<Item>): Result<seq<Item>>
    decreases |more|
  {
    if more == [] then Ok(items)
    else
      match AddItem(items, more[0])
      case Fail(f) => Fail(f)
      case Ok(next) => AddItems(next, more[1..])
  }

  predicate AllEnded(inputs: seq<RecordedInput>) {
    forall i :: 0 <= i < |inputs| ==> inputs[i].end.Some?
  }

  predicate SameExecution(items: seq<Item>, execution: seq<Byte>) {
    items == [] || (items[0].event.Header? && items[0].event.execution == execution)
  }

  /** The rows kept so far and one more chunk. */
  function AddChunk(items: seq<Item>, bytes: seq<Byte>): Result<seq<Item>> {
    var read := ReadRows(bytes);
    if read.valid != |bytes| then Fail(CutShort)
    else
      match RecordIn(bytes)
      case Fail(f) => Fail(f)
      case Ok(record) =>
        if !AllEnded(record.inputs) then Fail(Unfinished)
        else if !SameExecution(items, record.execution) then Fail(OtherExecution)
        else AddItems(items, ChunkItems(bytes))
  }

  function ChunkEvents(bytes: seq<Byte>): seq<Event> {
    match DecodeRows(ReadRows(bytes).rows)
    case None => []
    case Some(es) => es
  }

  function ChunkItems(bytes: seq<Byte>): seq<Item> {
    var rows, es := ReadRows(bytes).rows, ChunkEvents(bytes);
    if |rows| == |es| then ItemsOf(rows, es) else []
  }

  function AddChunks(items: seq<Item>, chunks: seq<seq<Byte>>): Result<seq<Item>>
    decreases |chunks|
  {
    if chunks == [] then Ok(items)
    else
      match AddChunk(items, chunks[0])
      case Fail(f) => Fail(f)
      case Ok(next) => AddChunks(next, chunks[1..])
  }

  /** Every row is copied but a call, which is written again under the joined method numbers. */
  function CopyOf(table: seq<Names>, item: Item): Content {
    if item.event.Call? then ContentOf(table, item.event) else Content(item.kind, item.payload)
  }

  function Copies(table: seq<Names>, items: seq<Item>): (cs: seq<Content>)
    ensures |cs| == |items|
    decreases |items|
  {
    if items == [] then [] else [CopyOf(table, items[0])] + Copies(After(table, items[0].event), items[1..])
  }

  function Joined(chunks: seq<seq<Byte>>): Result<seq<Byte>> {
    match AddChunks([], chunks)
    case Fail(f) => Fail(f)
    case Ok(items) => if items == [] then Fail(NoArchive) else Ok(Journal(Copies([], items)))
  }

  // ----- the loops -----

  lemma {:induction false} CopiesAppend(table: seq<Names>, items: seq<Item>, item: Item)
    ensures Copies(table, items + [item]) == Copies(table, items) + [CopyOf(TableAfter(table, Events(items)), item)]
    ensures TableAfter(table, Events(items + [item])) == After(TableAfter(table, Events(items)), item.event)
    decreases |items|
  {
    hide CopyOf, After;
    var es := Events(items + [item]);
    if items == [] {
      assert (items + [item])[1..] == [];
      assert es[1..] == [] && es[0] == item.event;
      assert Events(items) == [];
    } else {
      var rest := items[1..];
      assert (items + [item])[0] == items[0] && (items + [item])[1..] == rest + [item];
      assert es[0] == items[0].event && es[1..] == Events(rest + [item]);
      assert Events(items)[1..] == Events(rest);
      CopiesAppend(After(table, items[0].event), rest, item);
    }
  }

  lemma JournalCopies(items: seq<Item>, item: Item)
    ensures Journal(Copies([], items + [item])) ==
            Journal(Copies([], items)) + RowBytes(CopyOf(TableAfter([], Events(items)), item), |items|)
  {
    hide Copies, CopyOf, RowBytes, TableAfter;
    CopiesAppend([], items, item);
    var cs := Copies([], items + [item]);
    assert cs[..|cs| - 1] == Copies([], items);
  }

  /** `archivedCall` (host/journal.ts:960-985). */
  method ArchivedCall(e: Event, methods: map<seq<Byte>, nat>, ghost table: seq<Names>)
    returns (payload: seq<Byte>, after: map<seq<Byte>, nat>)
    requires e.Call? && Numbers(methods, table)
    ensures payload == Payload(table, e) && Numbers(after, After(table, e))
  {
    hide Numbers, Find, MethodBytes, RequestBytes, ReplyBytes;
    payload, after := PutMethod(methods, table, e.names);
    var request := ArchivedRequest(e.request);
    payload := [] + payload + request + ReplyBytes(e.reply);
    CallWritten(table, e);
  }

  method ArchivedRequest(r: Request) returns (out: seq<Byte>)
    ensures out == RequestBytes(r)
  {
    if r.Args? {
      out := Uleb(|r.args|);
      out := out + r.args;
    } else {
      out := Uleb(r.len);
      out := out + Le(r.digest, 8);
    }
  }

  class Joiner {
    var out: seq<Byte>
    var methods: map<seq<Byte>, nat>
    var execution: Option<seq<Byte>>
    var next: nat
    var last: int
    /** The rows kept so far. */
    ghost var items: seq<Item>

    ghost predicate Valid()
      reads this
    {
      && out == Journal(Copies([], items)) && next == |items| && last == LastNumber(items)
      && Numbers(methods, TableAfter([], Events(items)))
      && if items == [] then execution == None
         else items[0].event.Header? && execution == Some(items[0].event.execution)
    }

    constructor ()
      ensures Valid() && items == []
    {
      out, methods, execution, next, last, items := [], map[], None, 0, -1, [];
    }

    /** One row of a chunk: dropped, refused or written. */
    method Add(item: Item, chunk: seq<Byte>) returns (failed: Option<Failure>)
      requires Valid() && (execution.None? ==> item.event.Header? && item.event.execution == chunk)
      modifies this
      ensures match AddItem(old(items), item)
              case Fail(f) => failed == Some(f)
              case Ok(grown) => failed == None && Valid() && items == grown
    {
      hide Journal, Copies, LastNumber, RowBytes, Numbers, TableAfter, Events, Payload, Find;
      var e := item.event;
      ghost var table := TableAfter([], Events(items));
      ghost var grown := items + [item];
      if e.Header? {
        if execution.Some? {
          return None;
        }
        execution := Some(chunk);
      }
      if e.Input? {
        if e.number <= last {
          return Some(OutOfOrder);
        }
        last := e.number;
      }
      LastGrows(items, item);
      CopiesAppend([], items, item);
      JournalCopies(items, item);
      var payload := item.payload;
      if e.Call? {
        payload, methods := ArchivedCall(e, methods, table);
      }
      var content := Content(if e.Call? then 2 else item.kind, payload);
      assert content == CopyOf(table, item);
      out := out + RowBytes(content, next);
      next := next + 1;
      items := grown;
      return None;
    }

    /** The rows of one chunk. */
    method AddRows(rows: seq<Row>, es: seq<Event>, chunk: seq<Byte>) returns (failed: Option<Failure>)
      requires Valid() && |rows| == |es|
      requires execution.None? && es != [] ==> es[0].Header? && es[0].execution == chunk
      modifies this
      ensures match AddItems(old(items), ItemsOf(rows, es))
              case Fail(f) => failed == Some(f)
              case Ok(grown) => failed == None && Valid() && items == grown
    {
      hide Journal, Copies, LastNumber, Numbers, TableAfter, Events, AddItem;
      ghost var more := ItemsOf(rows, es);
      for i := 0 to |es|
        invariant Valid() && (execution.None? ==> old(execution).None?)
        invariant i > 0 ==> items != []
        invariant AddItems(old(items), more) == AddItems(items, more[i..])
      {
        assert more[i..][0] == more[i] && more[i..][1..] == more[i + 1..];
        AddedSome(items, more[i]);
        failed := Add(Item(rows[i].kind, rows[i].payload, es[i]), chunk);
        if failed.Some? {
          return;
        }
      }
      return None;
    }
  }

  lemma LastGrows(items: seq<Item>, item: Item)
    ensures LastNumber(items + [item]) == if item.event.Input? then item.event.number else LastNumber(items)
  {
    assert (items + [item])[..|items|] == items;
  }

  method JoinJournals(chunks: seq<seq<Byte>>) returns (r: Result<seq<Byte>>)
    ensures r == Joined(chunks)
  {
    hide ReadRows, RecordIn, DecodeRows, Journal, Copies, AddItems, ItemsOf, SameExecution, AllEnded, Numbers, TableAfter, Events;
    var state := new Joiner();
    for n := 0 to |chunks|
      invariant fresh(state) && state.Valid()
      invariant AddChunks([], chunks) == AddChunks(state.items, chunks[n..])
    {
      var bytes := chunks[n];
      assert chunks[n..][0] == bytes && chunks[n..][1..] == chunks[n + 1..];
      var read := ReadRows(bytes);
      if read.valid != |bytes| {
        return Fail(CutShort);
      }
      var record := Recorded(bytes);
      if record.Fail? {
        return Fail(record.failure);
      }
      if !AllEnded(record.value.inputs) {
        return Fail(Unfinished);
      }
      assert SameExecution(state.items, record.value.execution) <==>
             state.execution.Some? ==> state.execution.value == record.value.execution by { Same(state.items, record.value.execution); }
      if state.execution.Some? && state.execution.value != record.value.execution {
        return Fail(OtherExecution);
      }
      ChunkHasItems(bytes);
      var es := DecodeRows(read.rows).value;
      var failed := state.AddRows(read.rows, es, record.value.execution);
      if failed.Some? {
        return Fail(failed.value);
      }
    }
    if state.execution.None? {
      return Fail(NoArchive);
    }
    return Ok(state.out);
  }

  lemma Same(items: seq<Item>, execution: seq<Byte>)
    requires items == [] || items[0].event.Header?
    ensures SameExecution(items, execution) <==> (items == [] || items[0].event.execution == execution)
  {}

  lemma AddedSome(items: seq<Item>, item: Item)
    ensures AddItem(items, item).Ok? ==> AddItem(items, item).value != []
  {}

  lemma {:induction false} DecodesLength(rows: seq<Row>, table: seq<Names>)
    ensures DecodeFrom(rows, table).Some? ==> |DecodeFrom(rows, table).value| == |rows|
    decreases |rows|
  {
    hide DecodeRow;
    if rows != [] {
      var d := DecodeRow(rows[0].kind, rows[0].payload, table);
      if d.Some? {
        DecodesLength(rows[1..], d.value.table);
      }
    }
  }

  /** A chunk that is a record has an event for each row, the first its header. */
  lemma ChunkHasItems(bytes: seq<Byte>)
    requires RecordIn(bytes).Ok?
    ensures var rows := ReadRows(bytes).rows;
            && DecodeRows(rows) == Some(ChunkEvents(bytes)) && |ChunkEvents(bytes)| == |rows| > 0
            && ChunkItems(bytes) == ItemsOf(rows, ChunkEvents(bytes))
    ensures ChunkEvents(bytes)[0].Header? && ChunkEvents(bytes)[0].execution == RecordIn(bytes).value.execution
    ensures Group([], ChunkEvents(bytes)[1..]) == Ok(RecordIn(bytes).value.inputs)
  {
    hide ReadRows, DecodeFrom, Group, ItemsOf;
    DecodesLength(ReadRows(bytes).rows, []);
  }

  // ----- what a join accepts -----

  lemma {:induction false} AddItemsGrow(items: seq<Item>, more: seq<Item>)
    requires AddItems(items, more).Ok?
    ensures items <= AddItems(items, more).value
    ensures more != [] ==> AddItems(items, more).value != []
    ensures items == [] && more != [] ==> AddItems(items, more).value[0] == more[0]
    decreases |more|
  {
    hide LastNumber;
    if more != [] {
      var next := AddItem(items, more[0]).value;
      AddedSome(items, more[0]);
      AddItemsGrow(next, more[1..]);
    }
  }

  /** A chunk that is whole, of this execution, and whose inputs all ended. */
  ghost predicate WholeChunk(bytes: seq<Byte>, execution: seq<Byte>) {
    && ReadRows(bytes).valid == |bytes|
    && RecordIn(bytes).Ok? && RecordIn(bytes).value.execution == execution
    && forall k :: 0 <= k < |RecordIn(bytes).value.inputs| ==> RecordIn(bytes).value.inputs[k].end.Some?
  }

  lemma ChunkAdds(items: seq<Item>, bytes: seq<Byte>)
    requires AddChunk(items, bytes).Ok? && (items != [] ==> items[0].event.Header?)
    ensures var next := AddChunk(items, bytes).value;
            next != [] && next[0].event.Header? && WholeChunk(bytes, next[0].event.execution) && (items != [] ==> next[0] == items[0])
  {
    hide ReadRows, DecodeRows, AddItems, ItemsOf, ChunkEvents, RecordIn;
    ChunkHasItems(bytes);
    ChunkFirst(bytes);
    AddItemsGrow(items, ChunkItems(bytes));
  }

  lemma ChunkFirst(bytes: seq<Byte>)
    requires RecordIn(bytes).Ok?
    ensures ChunkItems(bytes) != [] && ChunkItems(bytes)[0].event == ChunkEvents(bytes)[0]
  {
    hide ReadRows, DecodeRows, RecordIn, ChunkEvents;
    ChunkHasItems(bytes);
  }

  lemma {:induction false} ChunksWhole(items: seq<Item>, chunks: seq<seq<Byte>>, n: nat)
    requires AddChunks(items, chunks).Ok? && n < |chunks| && (items != [] ==> items[0].event.Header?)
    ensures AddChunks(items, chunks).value != [] && AddChunks(items, chunks).value[0].event.Header?
    ensures WholeChunk(chunks[n], AddChunks(items, chunks).value[0].event.execution)
    ensures items != [] ==> AddChunks(items, chunks).value[0] == items[0]
    decreases |chunks|
  {
    hide AddChunk, WholeChunk;
    var next := AddChunk(items, chunks[0]).value;
    ChunkAdds(items, chunks[0]);
    if |chunks| > 1 {
      ChunksWhole(next, chunks[1..], if n == 0 then 0 else n - 1);
    }
  }

  /** Journals are joined only if each is read to its last byte, all are of one execution, and every input in them ended. */
  lemma JoinsWhole(chunks: seq<seq<Byte>>, m: nat, n: nat) returns (execution: seq<Byte>)
    requires Joined(chunks).Ok? && m < |chunks| && n < |chunks|
    ensures WholeChunk(chunks[m], execution) && WholeChunk(chunks[n], execution)
  {
    hide AddChunks, WholeChunk, Copies, Journal;
    ChunksWhole([], chunks, m);
    ChunksWhole([], chunks, n);
    execution := AddChunks([], chunks).value[0].event.execution;
  }
}
