/** What the joined journal says: the inputs of its chunks, one after another. */
module JournalArchive {
  import opened Powers
  import opened ByteStrings
  import opened JournalRows
  import opened JournalEvents
  import opened JournalRecorder
  import opened JournalRecord
  import opened JournalJoin
  import opened Options

  // ----- what was read can be written again -----

  lemma {:induction false} FromLeBound(s: seq<Byte>)
    ensures FromLe(s) < Pow(256, |s|)
  {
    if s != [] {
      FromLeBound(s[1..]);
    }
  }

  lemma ReadLeBound(input: seq<Byte>, at: nat)
    ensures ReadLe(input, at, 8).Got? ==> ReadLe(input, at, 8).value < U64
  {
    hide Pow, FromLe;
    if at + 8 <= |input| {
      FromLeBound(input[at..at + 8]);
      EightBytes();
    }
  }

  lemma ReadBlockBound(input: seq<Byte>, at: nat)
    ensures ReadBlock(input, at).Got? ==> |ReadBlock(input, at).value| < U32
  {
    hide ReadUleb;
  }

  lemma SignedBound(n: int, width: nat)
    requires width == U32 || width == U64
    ensures -(width as int) / 2 <= Signed(n, width) < width / 2
  {}

  lemma GetValueValid(tag: nat, input: seq<Byte>, at: nat)
    requires tag < 4 && at <= |input|
    ensures GetValue(tag, input, at).Got? ==> ValidValue(GetValue(tag, input, at).value)
  {
    hide ReadUleb, ReadLe, Signed;
    var v := GetValue(tag, input, at);
    ReadLeBound(input, at);
    if v.Got? && v.value.Int? {
      SignedBound(ReadUleb(input, at).value, U64);
    } else if v.Got? && v.value.Pair? {
      var l := ReadUleb(input, at);
      SignedBound(l.value, U32);
      SignedBound(ReadUleb(input, l.at).value, U32);
    }
  }

  lemma GetReplyValid(input: seq<Byte>, at: nat)
    ensures GetReply(input, at).Got? ==> ValidReply(GetReply(input, at).value)
  {
    hide GetValue, ReadBlock, ValidValue;
    if GetReply(input, at).Got? {
      var v := GetValue(input[at] % 4, input, at + 1);
      GetValueValid(input[at] % 4, input, at + 1);
      ReadBlockBound(input, v.at);
    }
  }

  /** All a decoded call can be: its request's length is not bounded by the encoding. */
  predicate CallRead(e: Event) {
    && e.Call? && |e.names.host| < U32 && |e.names.name| < U32 && ValidReply(e.reply)
    && match e.request { case Args(args) => |args| <= 8 case Digest(len, digest) => 8 < len && digest < U64 }
  }

  ghost predicate ShortNames(table: seq<Names>) {
    forall i :: 0 <= i < |table| ==> |table[i].host| < U32 && |table[i].name| < U32
  }

  lemma GetRequestRead(input: seq<Byte>, at: nat)
    ensures GetRequest(input, at).Got? ==>
            match GetRequest(input, at).value { case Args(args) => |args| <= 8 case Digest(len, digest) => 8 < len && digest < U64 }
  {
    hide ReadUleb, ReadLe;
    var k := ReadUleb(input, at);
    if k.Got? {
      ReadLeBound(input, k.at);
    }
  }

  lemma GetMethodShort(input: seq<Byte>, table: seq<Names>)
    requires ShortNames(table)
    ensures GetMethod(input, table).Got? ==>
            ShortNames(GetMethod(input, table).value) && MethodNumber(input).Got?
            && MethodNumber(input).value < |GetMethod(input, table).value|
  {
    hide ReadNum, ReadBlock;
    var i := ReadNum(input, 0);
    if i.Got? && i.value == |table| {
      var host := ReadBlock(input, i.at);
      ReadBlockBound(input, i.at);
      if host.Got? {
        ReadBlockBound(input, host.at);
      }
    }
  }

  lemma DecodeCallRead(input: seq<Byte>, table: seq<Names>)
    requires ShortNames(table)
    ensures DecodeCall(input, table).Got? ==>
            CallRead(DecodeCall(input, table).value.event) && ShortNames(DecodeCall(input, table).value.table)
  {
    hide GetMethod, MethodNumber, GetRequest, GetReply, ValidReply;
    GetMethodShort(input, table);
    var m := GetMethod(input, table);
    if m.Got? {
      GetRequestRead(input, m.at);
      var q := GetRequest(input, m.at);
      if q.Got? {
        GetReplyValid(input, q.at);
      }
    }
  }

  /** The item's event is what its row holds. */
  predicate Reads(item: Item) {
    if item.event.Call? then CallRead(item.event)
    else
      && item.kind != 2 && item.kind < KINDS && |item.payload| < U32
      && DecodePlain(item.kind, item.payload) == Got(item.event, |item.payload|)
  }

  predicate Bounded(row: Row) {
    row.kind < KINDS && |row.payload| < U32
  }

  lemma DecodeRowReads(row: Row, table: seq<Names>)
    requires Bounded(row) && ShortNames(table)
    ensures var d := DecodeRow(row.kind, row.payload, table);
            d.Some? ==> Reads(Item(row.kind, row.payload, d.value.event)) && ShortNames(d.value.table)
  {
    hide DecodeCall, DecodePlain, CallRead, ShortNames;
    DecodeCallRead(row.payload, table);
    PlainNotCall(row.kind, row.payload);
    CallReadIs(DecodeCall(row.payload, table));
  }

  lemma CallReadIs(d: Read<Decoded>)
    ensures d.Got? && CallRead(d.value.event) ==> d.value.event.Call?
  {
    hide ValidReply;
  }

  lemma PlainNotCall(kind: nat, input: seq<Byte>)
    ensures DecodePlain(kind, input).Got? ==> !DecodePlain(kind, input).value.Call?
  {
    hide ReadUleb, ReadNum, ReadLe, ReadBytes, GetReply, GetHandles;
  }

  lemma ReadRowBounded(bytes: seq<Byte>, at: nat, index: nat)
    ensures ReadRow(bytes, at, index).Got? ==> Bounded(ReadRow(bytes, at, index).value)
  {
    hide Crc.Checksum, ReadUleb, ReadLe;
  }

  lemma {:induction false} ReadFromBounded(bytes: seq<Byte>, at: nat, index: nat)
    requires at <= |bytes|
    ensures forall i :: 0 <= i < |ReadFrom(bytes, at, index).rows| ==> Bounded(ReadFrom(bytes, at, index).rows[i])
    decreases |bytes| - at
  {
    hide ReadRow, Bounded;
    var r := ReadRow(bytes, at, index);
    ReadRowBounded(bytes, at, index);
    if r.Got? {
      ReadFromBounded(bytes, r.at, index + 1);
    }
  }

  lemma {:induction false} RowsRead(rows: seq<Row>, table: seq<Names>)
    requires DecodeFrom(rows, table).Some? && ShortNames(table) && forall i :: 0 <= i < |rows| ==> Bounded(rows[i])
    ensures var es := DecodeFrom(rows, table).value;
            |es| == |rows| && forall i :: 0 <= i < |rows| ==> Reads(Item(rows[i].kind, rows[i].payload, es[i]))
    decreases |rows|
  {
    hide DecodeRow, Bounded, Reads, ShortNames;
    if rows != [] {
      var d := DecodeRow(rows[0].kind, rows[0].payload, table).value;
      DecodeRowReads(rows[0], table);
      RowsRead(rows[1..], d.table);
      var es, rest := DecodeFrom(rows, table).value, DecodeFrom(rows[1..], d.table).value;
      assert es == [d.event] + rest;
      forall i | 0 <= i < |rows|
        ensures Reads(Item(rows[i].kind, rows[i].payload, es[i]))
      {
        if i > 0 {
          assert rows[i] == rows[1..][i - 1] && es[i] == rest[i - 1];
        }
      }
    }
  }

  ghost predicate AllRead(items: seq<Item>) {
    forall i :: 0 <= i < |items| ==> Reads(items[i])
  }

  lemma ChunkRead(bytes: seq<Byte>)
    requires RecordIn(bytes).Ok?
    ensures AllRead(ChunkItems(bytes)) && Events(ChunkItems(bytes)) == ChunkEvents(bytes)
  {
    hide Reads, ReadRow, DecodeRow, Group;
    ChunkHasItems(bytes);
    ReadFromBounded(bytes, 0, 0);
    RowsRead(ReadRows(bytes).rows, []);
  }

  // ----- which rows are kept -----

  lemma EventsJoin(items: seq<Item>, item: Item)
    ensures Events(items + [item]) == Events(items) + [item.event]
  {}

  lemma {:induction false} AddedItems(items: seq<Item>, more: seq<Item>)
    requires AddItems(items, more).Ok? && AllRead(items) && AllRead(more) && items != []
    ensures var r := AddItems(items, more).value;
            AllRead(r) && r != [] && r[0] == items[0] && Events(r) == Events(items) + NoHeaders(Events(more))
    decreases |more|
  {
    hide Reads, LastNumber, NoHeaders;
    if more == [] {
      assert NoHeaders([]) == [] by { NoHeadersFrom([]); }
      assert Events(items) + [] == Events(items);
    } else {
      var next, e := AddItem(items, more[0]).value, more[0].event;
      assert Events(more) == [e] + Events(more[1..]);
      NoHeadersJoins([e], Events(more[1..]));
      assert NoHeaders([e]) == if e.Header? then [] else [e] by { OneEvent(e); }
      EventsJoin(items, more[0]);
      AddedItems(next, more[1..]);
      assert Events(items) + [e] + NoHeaders(Events(more[1..])) == Events(items) + ([e] + NoHeaders(Events(more[1..])));
      assert [] + NoHeaders(Events(more[1..])) == NoHeaders(Events(more[1..]));
    }
  }

  lemma OneEvent(e: Event)
    ensures NoHeaders([e]) == if e.Header? then [] else [e]
  {
    assert [e][..0] == [];
  }

  /** The inputs of all the chunks. */
  function Inputs(chunks: seq<seq<Byte>>): seq<RecordedInput>
    decreases |chunks|
  {
    if chunks == [] then []
    else (match RecordIn(chunks[0]) { case Ok(r) => r.inputs case Fail(_) => [] }) + Inputs(chunks[1..])
  }

  /** A chunk that is added contributes its inputs, and its header when it is the first. */
  lemma AddedChunk(items: seq<Item>, bytes: seq<Byte>)
    requires AddChunk(items, bytes).Ok? && AllRead(items) && (items != [] ==> items[0].event.Header?)
    ensures RecordIn(bytes).Ok? && AllWithin(RecordIn(bytes).value.inputs)
    ensures var r, record := AddChunk(items, bytes).value, RecordIn(bytes).value;
            && AllRead(r) && r != [] && r[0].event.Header? && (items != [] ==> r[0] == items[0])
            && (items == [] ==> r[0].event == Header(1, record.execution))
            && Events(r) == (if items == [] then [r[0].event] else Events(items)) + NoHeaders(Ungroup(record.inputs))
  {
    hide ReadRows, DecodeRows, RecordIn, AddItems, ChunkItems, Group, Reads, Ungroup, NoHeaders;
    var record, es, more := RecordIn(bytes).value, ChunkEvents(bytes), ChunkItems(bytes);
    ChunkHasItems(bytes);
    ChunkRead(bytes);
    GroupExactly(es[1..], record.inputs);
    FirstFormat(bytes);
    assert es == [es[0]] + es[1..];
    NoHeadersJoins([es[0]], es[1..]);
    OneEvent(es[0]);
    assert NoHeaders(es) == NoHeaders(es[1..]);
    if items != [] {
      AddedItems(items, more);
    } else {
      var rest := more[1..];
      assert Events(rest) == es[1..];
      FirstAdded(more);
      AddedItems([more[0]], rest);
      assert Events([more[0]]) == [es[0]];
    }
  }

  lemma FirstFormat(bytes: seq<Byte>)
    requires RecordIn(bytes).Ok?
    ensures ChunkEvents(bytes) != [] && ChunkEvents(bytes)[0] == Header(1, RecordIn(bytes).value.execution)
  {
    hide ReadRows, DecodeRows, Group;
  }

  lemma FirstAdded(more: seq<Item>)
    requires more != [] && more[0].event.Header?
    ensures AddItems([], more) == AddItems([more[0]], more[1..])
  {
    assert [] + [more[0]] == [more[0]];
  }

  lemma {:induction false} AddedChunks(items: seq<Item>, chunks: seq<seq<Byte>>)
    requires AddChunks(items, chunks).Ok? && AllRead(items) && (items != [] ==> items[0].event.Header?)
    ensures AllWithin(Inputs(chunks))
    ensures var r := AddChunks(items, chunks).value;
            && AllRead(r) && (items != [] || chunks != [] ==> r != [] && r[0].event.Header?)
            && (items != [] ==> r[0] == items[0] && Events(r) == Events(items) + NoHeaders(Ungroup(Inputs(chunks))))
            && (items == [] && chunks != [] ==>
                  RecordIn(chunks[0]).Ok? && r[0].event == Header(1, RecordIn(chunks[0]).value.execution)
                  && Events(r) == [r[0].event] + NoHeaders(Ungroup(Inputs(chunks))))
    decreases |chunks|
  {
    hide AddChunk, RecordIn, Ungroup, NoHeaders, Reads, Within, Events;
    if chunks == [] {
      NoneWithin();
      NoHeadersFrom([]);
      assert Events(items) + [] == Events(items);
    } else {
      var next := AddChunk(items, chunks[0]).value;
      AddedChunk(items, chunks[0]);
      var record := RecordIn(chunks[0]).value;
      AddedChunks(next, chunks[1..]);
      UngroupJoins(record.inputs, Inputs(chunks[1..]));
      NoHeadersJoins(Ungroup(record.inputs), Ungroup(Inputs(chunks[1..])));
      var a, b, c := if items == [] then [next[0].event] else Events(items), NoHeaders(Ungroup(record.inputs)), NoHeaders(Ungroup(Inputs(chunks[1..])));
      assert a + b + c == a + (b + c);
    }
  }

  // ----- the joined journal decodes -----

  /** Each call, written under the joined method numbers, fits a row. */
  predicate CallsFit(table: seq<Names>, items: seq<Item>)
    decreases |items|
  {
    items == [] ||
    (CallFits(table, items[0].event) && CallsFit(After(table, items[0].event), items[1..]))
  }

  predicate CallFits(table: seq<Names>, e: Event) {
    e.Call? ==> |Payload(table, e)| < U32 && (e.request.Digest? ==> e.request.len < U64)
  }

  lemma CopyDecodes(table: seq<Names>, item: Item)
    requires Reads(item) && CallFits(table, item.event) && |table| < U32
    ensures var c := CopyOf(table, item);
            && c.kind < KINDS && |c.payload| < U32
            && DecodeRow(c.kind, c.payload, table) == Some(Decoded(Named(table, item.event), After(table, item.event)))
  {
    hide DecodePlain, DecodeCall, Payload, Named, After, ValidReply;
    if item.event.Call? {
      assert ValidEvent(item.event);
      DecodesEvent(table, item.event);
    } else {
      assert Named(table, item.event) == item.event && After(table, item.event) == table by { NotCall(table, item.event); }
    }
  }

  lemma NotCall(table: seq<Names>, e: Event)
    requires !e.Call?
    ensures Named(table, e) == e && After(table, e) == table
  {}

  lemma {:induction false} CopiesDecode(rows: seq<Row>, table: seq<Names>, items: seq<Item>)
    requires AllRead(items) && CallsFit(table, items) && |table| + |items| <= U32
    ensures forall i :: 0 <= i < |items| ==> Copies(table, items)[i].kind < KINDS && |Copies(table, items)[i].payload| < U32
    ensures Carries(rows, Copies(table, items)) ==> DecodeFrom(rows, table) == Some(Canonical(table, Events(items)))
    decreases |items|
  {
    hide DecodeRow, CopyOf, After, Named, Reads, CallFits;
    if items == [] {
      assert Events(items) == [];
    } else {
      var next := After(table, items[0].event);
      var cs, rest := Copies(table, items), Copies(next, items[1..]);
      assert cs == [CopyOf(table, items[0])] + rest;
      CopyDecodes(table, items[0]);
      AfterGrows(table, items[0].event);
      assert Events(items)[0] == items[0].event && Events(items)[1..] == Events(items[1..]);
      if Carries(rows, cs) {
        CarriesTail(rows, cs);
        assert cs[1..] == rest;
        CopiesDecode(rows[1..], next, items[1..]);
      } else {
        CopiesDecode([], next, items[1..]);
      }
    }
  }

  /** The joined journal holds the kept events, each call under the names of its new method number. */
  lemma JoinedDecodes(items: seq<Item>)
    requires AllRead(items) && CallsFit([], items) && |items| <= U32
    ensures ReadRows(Journal(Copies([], items))).valid == |Journal(Copies([], items))|
    ensures DecodeRows(ReadRows(Journal(Copies([], items))).rows) == Some(Canonical([], Events(items)))
  {
    hide Copies, Canonical, ReadRows, RowsOf, Journal, DecodeFrom, Carries, CallsFit, AllRead, Events;
    CopiesDecode([], [], items);
    var cs: seq<Entry> := Copies([], items);
    JournalReads(cs);
    RowsCarry(cs);
    CopiesDecode(RowsOf(cs), [], items);
  }

  /** The execution and the inputs that a run of events starting with `h` spells out. */
  lemma RecordOfRun(h: Event, inputs: seq<RecordedInput>, es: seq<Event>)
    requires h.Header? && h.format == 1
    ensures RecordOf([h] + es) == Ok(Record(h.execution, inputs)) <==> Ungroup(inputs) == es && AllWithin(inputs)
  {
    hide Group, Ungroup, AllWithin;
    assert ([h] + es)[1..] == es;
    GroupExactly(es, inputs);
  }

  /**
   * The joined journal is read as the first chunk's execution and the chunks' inputs, one after another, without
   * the headers inside them, exactly when no two different methods among the kept calls share a key.
   */
  lemma JoinedInputs(chunks: seq<seq<Byte>>)
    requires chunks != [] && AddChunks([], chunks).Ok?
    requires var items := AddChunks([], chunks).value; CallsFit([], items) && |items| <= U32
    ensures RecordIn(chunks[0]).Ok? && Joined(chunks).Ok?
    ensures var record := Record(RecordIn(chunks[0]).value.execution, BareAll(Inputs(chunks)));
            RecordIn(Joined(chunks).value) == Ok(record) <==> !Clash(Events(AddChunks([], chunks).value))
  {
    hide AddChunks, CallsFit, Copies, Canonical, ReadRows, DecodeRows, Journal, RecordOf, Inputs, NoHeaders, Ungroup, BareAll, Clash, AllRead,
      AllWithin, Events, Reads;
    assert AllRead([]) by { NoneRead(); }
    AddedChunks([], chunks);
    var items := AddChunks([], chunks).value;
    var h, inputs := items[0].event, Inputs(chunks);
    var es := NoHeaders(Ungroup(inputs));
    JoinedDecodes(items);
    UnchangedExactly(Events(items));
    BareUngroup(inputs);
    RecordOfRun(h, BareAll(inputs), es);
    var read := Canonical([], Events(items));
    assert read == [h] + read[1..] by { HeaderStays(h, es); }
    RecordOfRun(h, BareAll(inputs), read[1..]);
  }

  lemma NoneRead()
    ensures AllRead([])
  {}

  lemma HeaderStays(h: Event, es: seq<Event>)
    requires h.Header?
    ensures Canonical([], [h] + es) == [h] + Canonical([], [h] + es)[1..]
  {
    hide After;
    assert Named([], h) == h;
  }

  // ----- a session split into archives anywhere -----

  /** Each input's number is above the ones before it, the first above `last`. */
  predicate Ascending(last: int, es: seq<Event>)
    decreases |es|
  {
    es == [] ||
    if es[0].Input? then last < es[0].number && Ascending(es[0].number, es[1..]) else Ascending(last, es[1..])
  }

  function Latest(last: int, es: seq<Event>): int
    decreases |es|
  {
    if es == [] then last else Latest(if es[0].Input? then es[0].number else last, es[1..])
  }

  lemma {:induction false} AscendingSplits(last: int, a: seq<Event>, b: seq<Event>)
    ensures Ascending(last, a + b) <==> Ascending(last, a) && Ascending(Latest(last, a), b)
    ensures Latest(last, a + b) == Latest(Latest(last, a), b)
    decreases |a|
  {
    if a == [] {
      assert a + b == b;
    } else {
      assert (a + b)[0] == a[0] && (a + b)[1..] == a[1..] + b;
      AscendingSplits(if a[0].Input? then a[0].number else last, a[1..], b);
    }
  }

  /** Rows are refused exactly for an input out of order. */
  lemma {:induction false} AddsInOrder(items: seq<Item>, more: seq<Item>)
    requires items != []
    ensures AddItems(items, more).Ok? <==> Ascending(LastNumber(items), Events(more))
    ensures AddItems(items, more).Ok? ==> LastNumber(AddItems(items, more).value) == Latest(LastNumber(items), Events(more))
    decreases |more|
  {
    hide LastNumber;
    if more != [] {
      var e := more[0].event;
      assert Events(more)[0] == e && Events(more)[1..] == Events(more[1..]);
      LastGrows(items, more[0]);
      if AddItem(items, more[0]).Ok? {
        AddsInOrder(AddItem(items, more[0]).value, more[1..]);
      }
    }
  }

  function Flat(parts: seq<seq<RecordedInput>>): seq<RecordedInput>
    decreases |parts|
  {
    if parts == [] then [] else parts[0] + Flat(parts[1..])
  }

  /** What a recorder writes for the inputs of one archive. */
  function RunOf(execution: seq<Byte>, part: seq<RecordedInput>): seq<Event> {
    [Header(1, execution)] + Ungroup(part)
  }

  function ChunksOf(execution: seq<Byte>, parts: seq<seq<RecordedInput>>): (chunks: seq<seq<Byte>>)
    ensures |chunks| == |parts|
    decreases |parts|
  {
    if parts == [] then [] else [JournalOf(RunOf(execution, parts[0]))] + ChunksOf(execution, parts[1..])
  }

  ghost predicate Headerless(inputs: seq<RecordedInput>) {
    forall i :: 0 <= i < |inputs| ==> NoHeaders(inputs[i].events) == inputs[i].events
  }

  /** The run fits a journal, and its keys tell its methods apart. */
  ghost predicate Clean(es: seq<Event>) {
    AllFit([], es) && |es| <= U32 && !Clash(es)
  }

  ghost predicate Archived(execution: seq<Byte>, part: seq<RecordedInput>) {
    AllWithin(part) && AllEnded(part) && Headerless(part) && Clean(RunOf(execution, part))
  }

  lemma RunDecodes(execution: seq<Byte>, part: seq<RecordedInput>)
    requires AllWithin(part) && Clean(RunOf(execution, part))
    ensures var bytes := JournalOf(RunOf(execution, part));
            && ReadRows(bytes).valid == |bytes| && ChunkEvents(bytes) == RunOf(execution, part)
            && RecordIn(bytes) == Ok(Record(execution, part))
  {
    hide ReadRows, DecodeRows, Journal, Contents, Canonical, AllFit, Clash, AllWithin, Ungroup, RecordOf;
    var es := RunOf(execution, part);
    JournalDecodes(es);
    UnchangedExactly(es);
    RecordOfRun(es[0], part, Ungroup(part));
  }

  lemma AddsArchive(items: seq<Item>, execution: seq<Byte>, part: seq<RecordedInput>)
    requires Archived(execution, part) && SameExecution(items, execution) && Ascending(LastNumber(items), Ungroup(part))
    ensures var r := AddChunk(items, JournalOf(RunOf(execution, part)));
            && r.Ok? && r.value != [] && SameExecution(r.value, execution)
            && LastNumber(r.value) == Latest(LastNumber(items), Ungroup(part))
  {
    hide ReadRows, DecodeRows, RecordIn, AddItems, JournalOf, ItemsOf, AllWithin, Clean, LastNumber, Ungroup, Headerless, Latest, Ascending,
      Events, ChunkEvents, AllRead;
    var bytes, h := JournalOf(RunOf(execution, part)), Header(1, execution);
    RunDecodes(execution, part);
    ChunkHasItems(bytes);
    ChunkRead(bytes);
    var more := ChunkItems(bytes);
    var start := if items == [] then [more[0]] else items;
    assert Events(more) == [h] + Ungroup(part);
    assert more[0].event == h && Events(more[1..]) == Ungroup(part) by { EventsSplit(more, h, Ungroup(part)); }
    HeaderSkipped(items, more);
    assert LastNumber(start) == LastNumber(items) by { OneHeader(more[0]); }
    AddsInOrder(start, more[1..]);
    AddedFirst(start, more[1..]);
  }

  lemma EventsSplit(more: seq<Item>, h: Event, es: seq<Event>)
    requires Events(more) == [h] + es
    ensures more != [] && more[0].event == h && Events(more[1..]) == es
  {
    assert |Events(more)| == |more| && Events(more)[0] == more[0].event == h;
    assert Events(more)[1..] == es == Events(more[1..]);
  }

  lemma HeaderSkipped(items: seq<Item>, more: seq<Item>)
    requires more != [] && more[0].event.Header?
    ensures AddItems(items, more) == AddItems(if items == [] then [more[0]] else items, more[1..])
  {
    assert [] + [more[0]] == [more[0]];
  }

  lemma OneHeader(item: Item)
    requires item.event.Header?
    ensures LastNumber([item]) == LastNumber([])
  {}

  lemma {:induction false} AddedFirst(items: seq<Item>, more: seq<Item>)
    requires items != []
    ensures var r := AddItems(items, more); r.Ok? ==> r.value != [] && r.value[0] == items[0]
    decreases |more|
  {
    hide LastNumber;
    if more != [] && AddItem(items, more[0]).Ok? {
      AddedFirst(AddItem(items, more[0]).value, more[1..]);
    }
  }

  lemma {:induction false} FlatEvents(parts: seq<seq<RecordedInput>>)
    requires parts != []
    ensures Ungroup(Flat(parts)) == Ungroup(parts[0]) + Ungroup(Flat(parts[1..]))
  {
    hide Ungroup;
    UngroupJoins(parts[0], Flat(parts[1..]));
  }

  lemma {:induction false} AddsArchives(items: seq<Item>, execution: seq<Byte>, parts: seq<seq<RecordedInput>>)
    requires forall i :: 0 <= i < |parts| ==> Archived(execution, parts[i])
    requires SameExecution(items, execution) && Ascending(LastNumber(items), Ungroup(Flat(parts)))
    ensures AddChunks(items, ChunksOf(execution, parts)).Ok? && Inputs(ChunksOf(execution, parts)) == Flat(parts)
    decreases |parts|
  {
    hide AddChunk, RecordIn, LastNumber, Ascending, Latest, Ungroup, Archived, SameExecution, JournalOf, RunOf;
    if parts != [] {
      var chunks := ChunksOf(execution, parts);
      assert chunks[0] == JournalOf(RunOf(execution, parts[0])) && chunks[1..] == ChunksOf(execution, parts[1..]);
      FlatEvents(parts);
      AscendingSplits(LastNumber(items), Ungroup(parts[0]), Ungroup(Flat(parts[1..])));
      AddsArchive(items, execution, parts[0]);
      assert RecordIn(chunks[0]) == Ok(Record(execution, parts[0])) by { ArchiveDecodes(execution, parts[0]); }
      AddsArchives(AddChunk(items, chunks[0]).value, execution, parts[1..]);
    }
  }

  lemma ArchiveDecodes(execution: seq<Byte>, part: seq<RecordedInput>)
    requires Archived(execution, part)
    ensures RecordIn(JournalOf(RunOf(execution, part))) == Ok(Record(execution, part))
  {
    hide RecordIn, JournalOf, RunOf, AllWithin, Clean, AllEnded, Headerless;
    RunDecodes(execution, part);
  }

  lemma {:induction false} FlatHeaderless(execution: seq<Byte>, parts: seq<seq<RecordedInput>>)
    requires forall i :: 0 <= i < |parts| ==> Archived(execution, parts[i])
    ensures Headerless(Flat(parts)) && AllWithin(Flat(parts))
    decreases |parts|
  {
    hide NoHeaders, Within, Clean;
    if parts != [] {
      FlatHeaderless(execution, parts[1..]);
      assert Archived(execution, parts[0]);
    }
  }

  lemma HeaderlessBare(inputs: seq<RecordedInput>)
    requires Headerless(inputs)
    ensures BareAll(inputs) == inputs
  {
    hide NoHeaders;
  }

  lemma {:induction false} FitCalls(table: seq<Names>, items: seq<Item>)
    requires AllFit(table, Events(items))
    ensures CallsFit(table, items)
    decreases |items|
  {
    hide After, Payload, ValidReply;
    if items != [] {
      assert Events(items)[0] == items[0].event && Events(items)[1..] == Events(items[1..]);
      FitCalls(After(table, items[0].event), items[1..]);
    }
  }

  /**
   * However a session's inputs are split into archives, the joined history is read as all of them in order:
   * exactly what one journal of the whole session is read as.
   */
  lemma SplitAnywhere(execution: seq<Byte>, parts: seq<seq<RecordedInput>>)
    requires parts != [] && forall i :: 0 <= i < |parts| ==> Archived(execution, parts[i])
    requires Ascending(-1, Ungroup(Flat(parts))) && Clean(RunOf(execution, Flat(parts)))
    ensures var history := Joined(ChunksOf(execution, parts));
            history.Ok? && RecordIn(history.value) == Ok(Record(execution, Flat(parts)))
    ensures RecordIn(JournalOf(RunOf(execution, Flat(parts)))) == Ok(Record(execution, Flat(parts)))
  {
    hide AddChunks, CallsFit, Copies, RecordIn, JournalOf, Inputs, NoHeaders, Ungroup, BareAll, Clash, AllRead, AllWithin, AllFit,
      Events, Reads, Ascending, LastNumber, Archived, Headerless, ChunksOf, Flat;
    var chunks, all := ChunksOf(execution, parts), Flat(parts);
    assert LastNumber([]) == -1 by { EmptyLast(); }
    AddsArchives([], execution, parts);
    FlatHeaderless(execution, parts);
    HeaderlessBare(all);
    BareUngroup(all);
    assert AllRead([]) by { NoneRead(); }
    AddedChunks([], chunks);
    var items := AddChunks([], chunks).value;
    FirstChunk(execution, parts);
    assert Events(items) == RunOf(execution, all);
    FitCalls([], items);
    assert |items| <= U32 by { assert |Events(items)| == |items|; }
    JoinedInputs(chunks);
    RunDecodes(execution, all);
  }

  lemma EmptyLast()
    ensures LastNumber([]) == -1
  {}

  lemma FirstChunk(execution: seq<Byte>, parts: seq<seq<RecordedInput>>)
    requires parts != [] && Archived(execution, parts[0])
    ensures ChunksOf(execution, parts) != [] && RecordIn(ChunksOf(execution, parts)[0]) == Ok(Record(execution, parts[0]))
  {
    hide RecordIn, JournalOf, RunOf, Archived;
    ArchiveDecodes(execution, parts[0]);
  }
}
