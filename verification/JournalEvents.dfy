/** The payloads of journal rows: what `Recorder` writes and `decodeRows` reads (host/journal.ts). */
module JournalEvents {
  import opened Powers
  import opened ByteStrings
  import opened JournalRows
  import opened Options

  /** A host call's value: nothing, an i64, the bits of an f64, or two i32s. */
  datatype Value = Void | Int(v: int) | Bits(bits: nat) | Pair(left: int, right: int)

  datatype Reply = Reply(value: Value, result: Option<seq<Byte>>)

  datatype End = Exit(status: int) | Trapped | Stopped | Cancelled | Failed

  /** Short arguments are kept; long ones as their length and digest. */
  datatype Request = Args(args: seq<Byte>) | Digest(len: nat, digest: nat)

  /** An import's module and name. */
  datatype Names = Names(host: seq<Byte>, name: seq<Byte>)

  datatype Event =
    | Header(format: nat, execution: seq<Byte>)
    | Input(number: nat, source: nat, code: nat)
    | Call(names: Names, request: Request, reply: Reply)
    | Finish(handle: nat, reply: Reply)
    | Wake(poll: nat, handles: seq<nat>)
    | Block(handles: seq<nat>)
    | Abort(handle: nat)
    | Cancel(poll: nat)
    | Ended(end: End)

  const U32: nat := 0x1_0000_0000
  const U64: nat := 0x1_0000_0000_0000_0000
  const U128: nat := 0x1_0000_0000_0000_0000_0000_0000_0000_0000

  // ----- the values a journal can hold -----

  predicate ValidValue(v: Value) {
    match v
    case Void => true
    case Int(n) => -(U64 as int) / 2 <= n < U64 / 2
    case Bits(b) => b < U64
    case Pair(l, r) => -(U32 as int) / 2 <= l < U32 / 2 && -(U32 as int) / 2 <= r < U32 / 2
  }

  predicate ValidReply(r: Reply) {
    ValidValue(r.value) && (r.result.Some? ==> |r.result.value| < U32)
  }

  predicate ValidRequest(r: Request) {
    match r
    case Args(args) => |args| <= 8
    case Digest(len, digest) => 8 < len < U64 && digest < U64
  }

  predicate ValidHandles(hs: seq<nat>) {
    |hs| < U32 && forall i :: 0 <= i < |hs| ==> hs[i] < U32
  }

  predicate ValidEvent(e: Event) {
    match e
    case Header(format, execution) => format < U64 && |execution| == 16
    case Input(number, source, code) => number < U32 && source < U128 && code < U128
    case Call(names, request, reply) => |names.host| < U32 && |names.name| < U32 && ValidRequest(request) && ValidReply(reply)
    case Finish(handle, reply) => handle < U32 && ValidReply(reply)
    case Wake(poll, handles) => poll < U64 && ValidHandles(handles)
    case Block(handles) => ValidHandles(handles)
    case Abort(handle) => handle < U32
    case Cancel(poll) => poll < U64
    case Ended(end) => end.Exit? ==> 0 <= end.status < 256
  }

  // ----- two's complement -----

  /** `BigInt.asUintN` */
  function Unsigned(n: int, width: nat): nat
    requires width > 0
  {
    n % width
  }

  /** `BigInt.asIntN` */
  function Signed(n: int, width: nat): int
    requires width > 0
  {
    var m := n % width;
    if m < width / 2 then m else m - width
  }

  // ----- replies -----

  function ValueTag(v: Value): nat {
    match v
    case Void => 0
    case Int(_) => 1
    case Bits(_) => 2
    case Pair(_, _) => 3
  }

  function ValueBytes(v: Value): seq<Byte> {
    match v
    case Void => []
    case Int(n) => Uleb(Unsigned(n, U64))
    case Bits(b) => Le(b, 8)
    case Pair(l, r) => Uleb(Unsigned(l, U32)) + Uleb(Unsigned(r, U32))
  }

  function ReplyTag(r: Reply): Byte {
    ValueTag(r.value) + if r.result.Some? then 4 else 0
  }

  /** `putReply` (host/journal.ts:530-544). */
  function ReplyBytes(r: Reply): seq<Byte> {
    [ReplyTag(r)] + (ValueBytes(r.value) + if r.result.Some? then ByteStrings.Block(r.result.value) else [])
  }

  function GetValue(tag: nat, input: seq<Byte>, at: nat): (v: Read<Value>)
    requires tag < 4 && at <= |input|
    ensures v.Got? ==> at <= v.at <= |input|
  {
    if tag == 0 then Got(Void, at)
    else if tag == 1 then
      var (n, end) :- ReadUleb(input, at);
      Got(Int(Signed(n, U64)), end)
    else if tag == 2 then
      var (b, end) :- ReadLe(input, at, 8);
      Got(Bits(b), end)
    else
      var (l, middle) :- ReadUleb(input, at);
      var (r, end) :- ReadUleb(input, middle);
      Got(Pair(Signed(l, U32), Signed(r, U32)), end)
  }

  /** `getReply` (host/journal.ts:546-594). */
  function GetReply(input: seq<Byte>, at: nat): (r: Read<Reply>)
    ensures r.Got? ==> at < r.at <= |input|
  {
    if at >= |input| then Bad
    else
      var tag := input[at];
      var (v, end) :- GetValue(tag % 4, input, at + 1);
      if tag / 4 == 0 then Got(Reply(v, None), end)
      else if tag / 4 == 1 then
        var (bytes, last) :- ReadBlock(input, end);
        Got(Reply(v, Some(bytes)), last)
      else Bad
  }

  lemma SignedUnsigned(n: int, width: nat)
    requires width == U32 || width == U64
    requires -(width as int) / 2 <= n < width / 2
    ensures Signed(Unsigned(n, width), width) == n && Unsigned(n, width) < width
  {
    if width == U32 {
    } else {
    }
  }

  lemma EightBytes()
    ensures Pow(256, 8) == U64 && Pow(256, 16) == U128
  {}

  lemma ReadsValue(input: seq<Byte>, at: nat, v: Value)
    requires ValidValue(v) && Holds(input, at, ValueBytes(v))
    ensures GetValue(ValueTag(v), input, at) == Got(v, at + |ValueBytes(v)|)
  {
    hide Holds, Uleb, Le, ReadUleb, ReadLe, Signed, Unsigned;
    match v
    case Void =>
    case Int(n) =>
      SignedUnsigned(n, U64);
      ReadsUleb(input, at, Unsigned(n, U64));
    case Bits(b) =>
      EightBytes();
      ReadsLe(input, at, b, 8);
    case Pair(l, r) =>
      SignedUnsigned(l, U32);
      SignedUnsigned(r, U32);
      HoldsSplit(input, at, Uleb(Unsigned(l, U32)), Uleb(Unsigned(r, U32)));
      ReadsUleb(input, at, Unsigned(l, U32));
      ReadsUleb(input, at + |Uleb(Unsigned(l, U32))|, Unsigned(r, U32));
  }

  lemma ReplyFromReads(input: seq<Byte>, at: nat, r: Reply, end: nat)
    requires at + 1 <= end <= |input| && input[at] == ReplyTag(r)
    requires GetValue(ValueTag(r.value), input, at + 1) == Got(r.value, end)
    requires r.result.Some? ==> ReadBlock(input, end).Got? && ReadBlock(input, end).value == r.result.value
    ensures GetReply(input, at) == Got(r, if r.result.Some? then ReadBlock(input, end).at else end)
  {
    hide GetValue, ReadBlock;
    assert input[at] % 4 == ValueTag(r.value);
  }

  lemma ReplySplits(input: seq<Byte>, at: nat, r: Reply)
    requires Holds(input, at, ReplyBytes(r))
    ensures Holds(input, at, [ReplyTag(r)])
    ensures Holds(input, at + 1, ValueBytes(r.value))
    ensures r.result.Some? ==> Holds(input, at + 1 + |ValueBytes(r.value)|, ByteStrings.Block(r.result.value))
    ensures |ReplyBytes(r)| == 1 + |ValueBytes(r.value)| + if r.result.Some? then |ByteStrings.Block(r.result.value)| else 0
  {
    hide Holds, ValueBytes, ByteStrings.Block;
    var tag := ReplyTag(r);
    var rest := if r.result.Some? then ByteStrings.Block(r.result.value) else [];
    HoldsSplit(input, at, [tag], ValueBytes(r.value) + rest);
    HoldsSplit(input, at + 1, ValueBytes(r.value), rest);
  }

  lemma ReadsResult(input: seq<Byte>, at: nat, result: Option<seq<Byte>>)
    requires result.Some? ==> |result.value| < U32 && Holds(input, at, ByteStrings.Block(result.value))
    ensures result.Some? ==> ReadBlock(input, at) == Got(result.value, at + |ByteStrings.Block(result.value)|)
  {
    hide Holds, ByteStrings.Block, ReadBlock;
    if result.Some? {
      ReadsBlock(input, at, result.value);
    }
  }

  lemma ValidReplyParts(r: Reply)
    requires ValidReply(r)
    ensures ValidValue(r.value) && (r.result.Some? ==> |r.result.value| < U32)
  {}

  lemma ReadsReply(input: seq<Byte>, at: nat, r: Reply)
    requires ValidReply(r) && Holds(input, at, ReplyBytes(r))
    ensures GetReply(input, at) == Got(r, at + |ReplyBytes(r)|)
  {
    hide *;
    var end := at + 1 + |ValueBytes(r.value)|;
    ValidReplyParts(r);
    ReplySplits(input, at, r);
    HeldByte(input, at, ReplyTag(r));
    HeldSlice(input, at + 1, ValueBytes(r.value));
    ReadsValue(input, at + 1, r.value);
    ReadsResult(input, end, r.result);
    ReplyFromReads(input, at, r, end);
  }

  // ----- requests -----

  function RequestBytes(r: Request): seq<Byte> {
    match r
    case Args(args) => Uleb(|args|) + args
    case Digest(len, digest) => Uleb(len) + Le(digest, 8)
  }

  /** The length, then `getRequest` (host/journal.ts:598-605). */
  function GetRequest(input: seq<Byte>, at: nat): (r: Read<Request>)
    ensures r.Got? ==> at < r.at <= |input|
  {
    var (len, start) :- ReadUleb(input, at);
    if len <= 8 then
      var (args, end) :- ReadBytes(input, start, len);
      Got(Args(args), end)
    else
      var (digest, end) :- ReadLe(input, start, 8);
      Got(Digest(len, digest), end)
  }

  lemma ReadsRequest(input: seq<Byte>, at: nat, r: Request)
    requires ValidRequest(r) && Holds(input, at, RequestBytes(r))
    ensures GetRequest(input, at) == Got(r, at + |RequestBytes(r)|)
  {
    EightBytes();
    hide Holds, Uleb, Le, ReadUleb, ReadLe, Pow;
    match r
    case Args(args) =>
      HoldsSplit(input, at, Uleb(|args|), args);
      ReadsUleb(input, at, |args|);
      HeldSlice(input, at + |Uleb(|args|)|, args);
    case Digest(len, digest) =>
      HoldsSplit(input, at, Uleb(len), Le(digest, 8));
      ReadsUleb(input, at, len);
      ReadsLe(input, at + |Uleb(len)|, digest, 8);
  }

  // ----- handle lists -----

  function HandleBytes(hs: seq<nat>): seq<Byte> {
    if hs == [] then [] else Uleb(hs[0]) + HandleBytes(hs[1..])
  }

  function ReadHandles(input: seq<Byte>, at: nat, count: nat): (r: Read<seq<nat>>)
    requires at <= |input|
    ensures r.Got? ==> at <= r.at <= |input|
    decreases count
  {
    if count == 0 then Got([], at)
    else
      var (h, next) :- ReadNum(input, at);
      var (rest, end) :- ReadHandles(input, next, count - 1);
      Got([h] + rest, end)
  }

  /** `handles` (host/journal.ts:425-439). */
  function GetHandles(input: seq<Byte>, at: nat): (r: Read<seq<nat>>)
    ensures r.Got? ==> at < r.at <= |input|
  {
    var (count, start) :- ReadNum(input, at);
    ReadHandles(input, start, count)
  }

  lemma {:induction false} ReadsHandles(input: seq<Byte>, at: nat, hs: seq<nat>)
    requires Holds(input, at, HandleBytes(hs)) && forall i :: 0 <= i < |hs| ==> hs[i] < U32
    ensures at <= |input| && ReadHandles(input, at, |hs|) == Got(hs, at + |HandleBytes(hs)|)
    decreases |hs|
  {
    hide Holds, Uleb, ReadNum, HandleBytes, ReadHandles;
    HeldSlice(input, at, HandleBytes(hs));
    if hs == [] {
      NoHandles(input, at);
    } else {
      var next := at + |Uleb(hs[0])|;
      MoreHandles(hs);
      HoldsSplit(input, at, Uleb(hs[0]), HandleBytes(hs[1..]));
      ReadsUleb(input, at, hs[0]);
      ReadsHandles(input, next, hs[1..]);
      HandleRead(input, at, |hs|, hs[0], next);
    }
  }

  lemma NoHandles(input: seq<Byte>, at: nat)
    requires at <= |input|
    ensures HandleBytes([]) == [] && ReadHandles(input, at, 0) == Got([], at)
  {}

  lemma MoreHandles(hs: seq<nat>)
    requires hs != []
    ensures HandleBytes(hs) == Uleb(hs[0]) + HandleBytes(hs[1..]) && hs == [hs[0]] + hs[1..]
  {
    hide Uleb;
  }

  lemma HandleRead(input: seq<Byte>, at: nat, count: nat, h: nat, next: nat)
    requires at <= |input| && next <= |input| && count > 0 && ReadNum(input, at) == Got(h, next)
    ensures var rest := ReadHandles(input, next, count - 1);
            ReadHandles(input, at, count) == if rest.Bad? then Bad else Got([h] + rest.value, rest.at)
  {
    hide ReadNum;
  }

  function HandleList(hs: seq<nat>): seq<Byte> {
    Uleb(|hs|) + HandleBytes(hs)
  }

  lemma ReadsHandleList(input: seq<Byte>, at: nat, hs: seq<nat>)
    requires ValidHandles(hs) && Holds(input, at, HandleList(hs))
    ensures GetHandles(input, at) == Got(hs, at + |HandleList(hs)|)
  {
    hide Holds, Uleb, ReadNum, HandleBytes, ReadHandles;
    HoldsSplit(input, at, Uleb(|hs|), HandleBytes(hs));
    ReadsUleb(input, at, |hs|);
    ReadsHandles(input, at + |Uleb(|hs|)|, hs);
  }

  // ----- the method table -----

  /** The key under which the recorder and the join find a method. */
  function Key(n: Names): seq<Byte> {
    n.host + [0] + n.name
  }

  /** The number of the first method with the key of `n`, or the next free one. */
  function Find(table: seq<Names>, n: Names): (i: nat)
    ensures i <= |table|
    ensures i < |table| ==> Key(table[i]) == Key(n)
  {
    if table == [] || Key(table[0]) == Key(n) then 0 else 1 + Find(table[1..], n)
  }

  lemma {:induction false} FindsFirst(table: seq<Names>, n: Names, j: nat)
    requires j < Find(table, n)
    ensures Key(table[j]) != Key(n)
    decreases j
  {
    if j > 0 {
      FindsFirst(table[1..], n, j - 1);
    }
  }

  function After(table: seq<Names>, e: Event): seq<Names> {
    if e.Call? && Find(table, e.names) == |table| then table + [e.names] else table
  }

  /** A call under the names its number stands for: the first pair with the same key. */
  function Named(table: seq<Names>, e: Event): Event {
    if e.Call? then e.(names := After(table, e)[Find(table, e.names)]) else e
  }

  // ----- payloads -----

  function KindOf(e: Event): (k: nat)
    ensures k < KINDS
  {
    match e
    case Header(_, _) => 0
    case Input(_, _, _) => 1
    case Call(_, _, _) => 2
    case Finish(_, _) => 3
    case Wake(_, _) => 4
    case Block(_) => 5
    case Abort(_) => 6
    case Cancel(_) => 7
    case Ended(_) => 8
  }

  function NamesBytes(n: Names): seq<Byte> {
    ByteStrings.Block(n.host) + ByteStrings.Block(n.name)
  }

  /** A call names its method by number, with the names on the number's first use. */
  function MethodBytes(table: seq<Names>, n: Names): seq<Byte> {
    var i := Find(table, n);
    Uleb(i) + if i == |table| then NamesBytes(n) else []
  }

  function EndTag(e: End): Byte {
    match e
    case Exit(_) => 0
    case Trapped => 1
    case Stopped => 2
    case Cancelled => 3
    case Failed => 4
  }

  /** What `Recorder` writes for an event (host/journal.ts:733-735, 756-861). */
  function Payload(table: seq<Names>, e: Event): seq<Byte> {
    match e
    case Header(format, execution) => Uleb(format) + execution
    case Input(number, source, code) => Uleb(number) + (Le(source, 16) + Le(code, 16))
    case Call(names, request, reply) => MethodBytes(table, names) + (RequestBytes(request) + ReplyBytes(reply))
    case Finish(handle, reply) => Uleb(handle) + ReplyBytes(reply)
    case Wake(poll, handles) => Uleb(poll) + HandleList(handles)
    case Block(handles) => HandleList(handles)
    case Abort(handle) => Uleb(handle)
    case Cancel(poll) => Uleb(poll)
    case Ended(end) => [EndTag(end)] + if end.Exit? then [end.status % 256] else []
  }

  // ----- reading payloads -----

  function GetNames(input: seq<Byte>, at: nat): (r: Read<Names>)
    ensures r.Got? ==> at < r.at <= |input|
  {
    var (host, middle) :- ReadBlock(input, at);
    var (name, end) :- ReadBlock(input, middle);
    Got(Names(host, name), end)
  }

  /** The method number of a call, and the table after it (host/journal.ts:611-621). */
  function GetMethod(input: seq<Byte>, table: seq<Names>): (r: Read<seq<Names>>)
    ensures r.Got? ==> r.at <= |input| && r.value != []
  {
    var (i, start) :- ReadNum(input, 0);
    if i == |table| then
      var (names, end) :- GetNames(input, start);
      Got(table + [names], end)
    else if i < |table| then Got(table, start)
    else Bad
  }

  function MethodNumber(input: seq<Byte>): Read<nat> {
    ReadNum(input, 0)
  }

  datatype Decoded = Decoded(event: Event, table: seq<Names>)

  /** The events whose payload does not touch the method table. */
  function DecodePlain(kind: nat, input: seq<Byte>): Read<Event> {
    if kind == 0 then
      var (format, a) :- ReadUleb(input, 0);
      var (execution, end) :- ReadBytes(input, a, 16);
      Got(Header(format, execution), end)
    else if kind == 1 then
      var (number, a) :- ReadNum(input, 0);
      var (source, b) :- ReadLe(input, a, 16);
      var (code, end) :- ReadLe(input, b, 16);
      Got(Input(number, source, code), end)
    else if kind == 3 then
      var (handle, a) :- ReadNum(input, 0);
      var (reply, end) :- GetReply(input, a);
      Got(Finish(handle, reply), end)
    else if kind == 4 then
      var (poll, a) :- ReadUleb(input, 0);
      var (handles, end) :- GetHandles(input, a);
      Got(Wake(poll, handles), end)
    else if kind == 5 then
      var (handles, end) :- GetHandles(input, 0);
      Got(Block(handles), end)
    else if kind == 6 then
      var (handle, end) :- ReadNum(input, 0);
      Got(Abort(handle), end)
    else if kind == 7 then
      var (poll, end) :- ReadUleb(input, 0);
      Got(Cancel(poll), end)
    else DecodeEnd(input)
  }

  /** `decodeEnd` (host/journal.ts:640-653). */
  function DecodeEnd(input: seq<Byte>): Read<Event> {
    if input == [] || input[0] >= 5 then Bad
    else if input[0] == 0 then (if |input| < 2 then Bad else Got(Ended(Exit(input[1])), 2))
    else Got(Ended(if input[0] == 1 then Trapped else if input[0] == 2 then Stopped
                   else if input[0] == 3 then Cancelled else Failed), 1)
  }

  /** `decodeCall` (host/journal.ts:607-632). */
  function DecodeCall(input: seq<Byte>, table: seq<Names>): Read<Decoded> {
    var (after, start) :- GetMethod(input, table);
    var i := MethodNumber(input).value;
    var (request, middle) :- GetRequest(input, start);
    var (reply, end) :- GetReply(input, middle);
    Got(Decoded(Call(after[i], request, reply), after), end)
  }

  /** `decodeRow` (host/journal.ts:655-690): the whole payload has to be used. */
  function DecodeRow(kind: nat, payload: seq<Byte>, table: seq<Names>): Option<Decoded> {
    if kind == 2 then
      var r := DecodeCall(payload, table);
      if r.Got? && r.at == |payload| then Some(r.value) else None
    else
      var r := DecodePlain(kind, payload);
      if r.Got? && r.at == |payload| then Some(Decoded(r.value, table)) else None
  }

  /**
   * What a payload decodes to is an event of the row's kind; only a call adds to the table, and only its own names;
   * and an end is decoded from nothing but the bytes written for it.
   */
  lemma DecodedIs(kind: nat, payload: seq<Byte>, table: seq<Names>)
    requires kind < KINDS && DecodeRow(kind, payload, table).Some?
    ensures var d := DecodeRow(kind, payload, table).value;
            && KindOf(d.event) == kind
            && (d.table == table || (d.event.Call? && d.table == table + [d.event.names]))
            && (d.event.Call? ==> d.event.names in d.table)
            && (d.event.Ended? ==> payload == Payload(table, d.event))
  {
    hide ReadNum, ReadUleb, ReadLe, ReadBytes, GetHandles, GetReply, GetRequest, GetNames, MethodBytes, RequestBytes, ReplyBytes, Uleb, Le;
    if kind == 8 {
      assert payload == [payload[0]] + payload[1..];
      assert |payload| == 2 ==> payload[1..] == [payload[1]];
    }
  }

  // ----- every payload decodes to its event -----

  lemma HoldsAll(s: seq<Byte>)
    ensures Holds(s, 0, s)
  {
    assert s[0..|s|] == s;
  }

  lemma DecodesHeader(format: nat, execution: seq<Byte>)
    requires format < U64 && |execution| == 16
    ensures var p := Uleb(format) + execution; DecodePlain(0, p) == Got(Header(format, execution), |p|)
  {
    var p := Uleb(format) + execution;
    hide Uleb, ReadUleb, Holds;
    HoldsAll(p);
    HoldsSplit(p, 0, Uleb(format), execution);
    ReadsUleb(p, 0, format);
    HeldSlice(p, |Uleb(format)|, execution);
  }

  lemma DecodesInput(number: nat, source: nat, code: nat)
    requires number < U32 && source < U128 && code < U128
    ensures var p := Uleb(number) + (Le(source, 16) + Le(code, 16));
            DecodePlain(1, p) == Got(Input(number, source, code), |p|)
  {
    var p := Uleb(number) + (Le(source, 16) + Le(code, 16));
    EightBytes();
    hide Uleb, Le, ReadNum, ReadLe, Holds, Pow;
    HoldsAll(p);
    HoldsSplit(p, 0, Uleb(number), Le(source, 16) + Le(code, 16));
    HoldsSplit(p, |Uleb(number)|, Le(source, 16), Le(code, 16));
    ReadsUleb(p, 0, number);
    ReadsLe(p, |Uleb(number)|, source, 16);
    ReadsLe(p, |Uleb(number)| + 16, code, 16);
  }

  lemma DecodesFinish(handle: nat, reply: Reply)
    requires handle < U32 && ValidReply(reply)
    ensures var p := Uleb(handle) + ReplyBytes(reply); DecodePlain(3, p) == Got(Finish(handle, reply), |p|)
  {
    var p := Uleb(handle) + ReplyBytes(reply);
    hide Uleb, ReadNum, Holds, ReplyBytes, GetReply, ValidReply;
    HoldsAll(p);
    HoldsSplit(p, 0, Uleb(handle), ReplyBytes(reply));
    ReadsUleb(p, 0, handle);
    ReadsReply(p, |Uleb(handle)|, reply);
  }

  lemma DecodesWake(poll: nat, handles: seq<nat>)
    requires poll < U64 && ValidHandles(handles)
    ensures var p := Uleb(poll) + HandleList(handles); DecodePlain(4, p) == Got(Wake(poll, handles), |p|)
    ensures DecodePlain(5, HandleList(handles)) == Got(Block(handles), |HandleList(handles)|)
  {
    var p := Uleb(poll) + HandleList(handles);
    hide Uleb, ReadUleb, Holds, HandleList, GetHandles, ValidHandles;
    HoldsAll(p);
    HoldsSplit(p, 0, Uleb(poll), HandleList(handles));
    ReadsUleb(p, 0, poll);
    ReadsHandleList(p, |Uleb(poll)|, handles);
    HoldsAll(HandleList(handles));
    ReadsHandleList(HandleList(handles), 0, handles);
  }

  lemma DecodesNumber(n: nat)
    requires n < U64
    ensures DecodePlain(7, Uleb(n)) == Got(Cancel(n), |Uleb(n)|)
    ensures n < U32 ==> DecodePlain(6, Uleb(n)) == Got(Abort(n), |Uleb(n)|)
  {
    hide Uleb, ReadUleb, ReadNum, Holds;
    HoldsAll(Uleb(n));
    ReadsUleb(Uleb(n), 0, n);
  }

  lemma ReadsNames(input: seq<Byte>, at: nat, n: Names)
    requires |n.host| < U32 && |n.name| < U32 && Holds(input, at, NamesBytes(n))
    ensures GetNames(input, at) == Got(n, at + |NamesBytes(n)|)
  {
    hide ByteStrings.Block, ReadBlock, Holds;
    HoldsSplit(input, at, ByteStrings.Block(n.host), ByteStrings.Block(n.name));
    ReadsBlock(input, at, n.host);
    ReadsBlock(input, at + |ByteStrings.Block(n.host)|, n.name);
  }

  lemma MethodFromReads(input: seq<Byte>, table: seq<Names>, e: Event, a: nat, b: nat)
    requires e.Call? && ReadNum(input, 0) == Got(Find(table, e.names), a)
    requires Find(table, e.names) == |table| ==> GetNames(input, a) == Got(e.names, b)
    requires Find(table, e.names) < |table| ==> b == a
    ensures GetMethod(input, table) == Got(After(table, e), b)
    ensures MethodNumber(input).Got? && MethodNumber(input).value == Find(table, e.names)
  {
    hide ReadNum, GetNames;
  }

  lemma ReadsMethod(input: seq<Byte>, table: seq<Names>, e: Event)
    requires e.Call? && |e.names.host| < U32 && |e.names.name| < U32 && |table| < U32
    requires Holds(input, 0, MethodBytes(table, e.names))
    ensures GetMethod(input, table) == Got(After(table, e), |MethodBytes(table, e.names)|)
    ensures MethodNumber(input).Got? && MethodNumber(input).value == Find(table, e.names)
  {
    hide Holds, Uleb, ReadNum, NamesBytes, GetNames, GetMethod, MethodNumber, MethodBytes, After, Find;
    var i := Find(table, e.names);
    var names := if i == |table| then NamesBytes(e.names) else [];
    assert MethodBytes(table, e.names) == Uleb(i) + names by { MethodSplits(table, e.names); }
    HoldsSplit(input, 0, Uleb(i), names);
    ReadsUleb(input, 0, i);
    if i == |table| {
      ReadsNames(input, |Uleb(i)|, e.names);
    }
    MethodFromReads(input, table, e, |Uleb(i)|, |Uleb(i)| + |names|);
  }

  lemma MethodSplits(table: seq<Names>, n: Names)
    ensures MethodBytes(table, n) == Uleb(Find(table, n)) + if Find(table, n) == |table| then NamesBytes(n) else []
  {
    hide Uleb, Find, NamesBytes;
  }

  lemma CallFromReads(input: seq<Byte>, table: seq<Names>, e: Event, a: nat, b: nat, c: nat)
    requires e.Call? && GetMethod(input, table) == Got(After(table, e), a)
    requires MethodNumber(input).Got? && MethodNumber(input).value == Find(table, e.names)
    requires GetRequest(input, a) == Got(e.request, b) && GetReply(input, b) == Got(e.reply, c)
    ensures DecodeCall(input, table) == Got(Decoded(Named(table, e), After(table, e)), c)
  {
    hide GetMethod, MethodNumber, GetRequest, GetReply, Find;
  }

  lemma CallParts(table: seq<Names>, e: Event)
    requires e.Call? && ValidEvent(e)
    ensures Payload(table, e) == MethodBytes(table, e.names) + (RequestBytes(e.request) + ReplyBytes(e.reply))
    ensures ValidRequest(e.request) && ValidReply(e.reply) && |e.names.host| < U32 && |e.names.name| < U32
  {
    hide MethodBytes, RequestBytes, ReplyBytes, ValidRequest, ValidReply;
  }

  lemma DecodesCall(table: seq<Names>, e: Event)
    requires e.Call? && ValidEvent(e) && |table| < U32
    ensures DecodeCall(Payload(table, e), table) == Got(Decoded(Named(table, e), After(table, e)), |Payload(table, e)|)
  {
    hide *;
    var p := Payload(table, e);
    var m, r, w := MethodBytes(table, e.names), RequestBytes(e.request), ReplyBytes(e.reply);
    CallParts(table, e);
    HoldsAll(p);
    HoldsSplit(p, 0, m, r + w);
    HoldsSplit(p, |m|, r, w);
    ReadsMethod(p, table, e);
    ReadsRequest(p, |m|, e.request);
    ReadsReply(p, |m| + |r|, e.reply);
    CallFromReads(p, table, e, |m|, |m| + |r|, |p|);
  }

  /** Decoding an event's payload gives back the event, under the names its number stands for. */
  lemma DecodesEvent(table: seq<Names>, e: Event)
    requires ValidEvent(e) && |table| < U32
    ensures DecodeRow(KindOf(e), Payload(table, e), table) == Some(Decoded(Named(table, e), After(table, e)))
  {
    hide DecodePlain, DecodeCall, Uleb, Le, ReplyBytes, HandleList, ValidReply, ValidHandles, ValidRequest, MethodBytes, Find;
    match e
    case Header(format, execution) => DecodesHeader(format, execution);
    case Input(number, source, code) => DecodesInput(number, source, code);
    case Call(_, _, _) => DecodesCall(table, e);
    case Finish(handle, reply) => DecodesFinish(handle, reply);
    case Wake(poll, handles) => DecodesWake(poll, handles);
    case Block(handles) => DecodesWake(0, handles);
    case Abort(handle) => DecodesNumber(handle);
    case Cancel(poll) => DecodesNumber(poll);
    case Ended(end) => DecodesEnd(end);
  }

  lemma DecodesEnd(end: End)
    requires end.Exit? ==> 0 <= end.status < 256
    ensures var p := [EndTag(end)] + if end.Exit? then [end.status % 256] else [];
            DecodePlain(8, p) == Got(Ended(end), |p|)
  {}

  // ----- whole journals -----

  /** The table after a run of events. */
  function TableAfter(table: seq<Names>, es: seq<Event>): seq<Names>
    decreases |es|
  {
    if es == [] then table else TableAfter(After(table, es[0]), es[1..])
  }

  /** The events under the names their method numbers stand for. */
  function Canonical(table: seq<Names>, es: seq<Event>): (cs: seq<Event>)
    ensures |cs| == |es|
    decreases |es|
  {
    if es == [] then [] else [Named(table, es[0])] + Canonical(After(table, es[0]), es[1..])
  }

  /** An event fits a row: valid, and no longer than a 32-bit length. */
  predicate Fits(table: seq<Names>, e: Event) {
    ValidEvent(e) && |Payload(table, e)| < U32
  }

  predicate AllFit(table: seq<Names>, es: seq<Event>)
    decreases |es|
  {
    es == [] || (Fits(table, es[0]) && AllFit(After(table, es[0]), es[1..]))
  }

  function ContentOf(table: seq<Names>, e: Event): Content {
    Content(KindOf(e), Payload(table, e))
  }

  /** What a run of events is written as, from a method table. */
  function Contents(table: seq<Names>, es: seq<Event>): (cs: seq<Content>)
    ensures |cs| == |es|
    decreases |es|
  {
    if es == [] then [] else [ContentOf(table, es[0])] + Contents(After(table, es[0]), es[1..])
  }

  /** `decodeRows` (host/journal.ts:694-706), from a method table. */
  function DecodeFrom(rows: seq<Row>, table: seq<Names>): Option<seq<Event>> {
    if rows == [] then Some([])
    else
      match DecodeRow(rows[0].kind, rows[0].payload, table)
      case None => None
      case Some(d) =>
        match DecodeFrom(rows[1..], d.table)
        case None => None
        case Some(rest) => Some([d.event] + rest)
  }

  function DecodeRows(rows: seq<Row>): Option<seq<Event>> {
    DecodeFrom(rows, [])
  }

  /** Rows with the contents of the entries, whatever their indices. */
  predicate Carries(rows: seq<Row>, entries: seq<Content>) {
    |rows| == |entries| &&
    forall i :: 0 <= i < |rows| ==> rows[i].kind == entries[i].kind && rows[i].payload == entries[i].payload
  }

  lemma AfterGrows(table: seq<Names>, e: Event)
    ensures |After(table, e)| <= |table| + 1
  {}

  lemma {:induction false} DecodesEntries(rows: seq<Row>, table: seq<Names>, es: seq<Event>)
    requires AllFit(table, es) && Carries(rows, Contents(table, es)) && |table| + |es| <= U32
    ensures DecodeFrom(rows, table) == Some(Canonical(table, es))
    decreases |es|
  {
    hide DecodeRow, Payload, KindOf, ValidEvent, After, Named;
    if es != [] {
      var e, next := es[0], After(table, es[0]);
      assert Contents(table, es)[0] == ContentOf(table, e) && Contents(table, es)[1..] == Contents(next, es[1..]);
      DecodesEvent(table, e);
      AfterGrows(table, e);
      assert Carries(rows[1..], Contents(next, es[1..])) by { CarriesTail(rows, Contents(table, es)); }
      DecodesEntries(rows[1..], next, es[1..]);
    }
  }

  lemma CarriesTail(rows: seq<Row>, entries: seq<Content>)
    requires Carries(rows, entries) && rows != []
    ensures Carries(rows[1..], entries[1..])
  {}

  lemma {:induction false} ContentsFit(table: seq<Names>, es: seq<Event>)
    requires AllFit(table, es)
    ensures forall i :: 0 <= i < |es| ==> Contents(table, es)[i].kind < KINDS && |Contents(table, es)[i].payload| < U32
    decreases |es|
  {
    hide ValidEvent, After, Payload;
    if es != [] {
      ContentsFit(After(table, es[0]), es[1..]);
      assert Contents(table, es)[0] == ContentOf(table, es[0]);
      assert Contents(table, es)[1..] == Contents(After(table, es[0]), es[1..]);
    }
  }

  lemma RowsCarry(cs: seq<Entry>)
    ensures Carries(RowsOf(cs), cs)
  {}

  /** Decoding a written journal gives back its events, each call under the names of its method number. */
  lemma JournalDecodes(es: seq<Event>)
    requires AllFit([], es) && |es| <= U32
    ensures ReadRows(Journal(Contents([], es))).valid == |Journal(Contents([], es))|
    ensures DecodeRows(ReadRows(Journal(Contents([], es))).rows) == Some(Canonical([], es))
  {
    hide AllFit, Contents, Canonical, ReadRows, RowsOf, Journal, DecodeFrom, Carries;
    ContentsFit([], es);
    var cs: seq<Entry> := Contents([], es);
    JournalReads(cs);
    RowsCarry(cs);
    DecodesEntries(RowsOf(cs), [], es);
  }

  // ----- when the names come back unchanged -----

  /** Two calls of different methods with one key. */
  ghost predicate Clash(es: seq<Event>) {
    exists i, j :: 0 <= i < j < |es| && Differ(es[i], es[j])
  }

  predicate Differ(d: Event, e: Event) {
    d.Call? && e.Call? && d.names != e.names && Key(d.names) == Key(e.names)
  }

  ghost predicate OneEach(table: seq<Names>) {
    forall i, j :: 0 <= i < j < |table| ==> Key(table[i]) != Key(table[j])
  }

  /** The method is the table's one with its key, if there is one. */
  ghost predicate Tells(table: seq<Names>, e: Event) {
    e.Call? ==> forall k :: 0 <= k < |table| && Key(table[k]) == Key(e.names) ==> table[k] == e.names
  }

  ghost predicate AllTell(table: seq<Names>, es: seq<Event>) {
    forall j :: 0 <= j < |es| ==> Tells(table, es[j])
  }

  lemma AfterOneEach(table: seq<Names>, e: Event)
    requires OneEach(table)
    ensures OneEach(After(table, e))
  {
    hide Key;
    NoneFound(table, e);
  }

  lemma NoneFound(table: seq<Names>, e: Event)
    ensures e.Call? ==> forall j :: 0 <= j < Find(table, e.names) ==> Key(table[j]) != Key(e.names)
  {
    hide Key, Find;
    if e.Call? {
      forall j | 0 <= j < Find(table, e.names)
        ensures Key(table[j]) != Key(e.names)
      {
        FindsFirst(table, e.names, j);
      }
    }
  }

  lemma NamedTells(table: seq<Names>, e: Event)
    requires OneEach(table)
    ensures Named(table, e) == e <==> Tells(table, e)
  {
    hide Key;
    NoneFound(table, e);
    if e.Call? {
      var i := Find(table, e.names);
      if i < |table| && table[i] == e.names {
        assert forall k :: 0 <= k < |table| && Key(table[k]) == Key(e.names) ==> k == i;
      }
    }
  }

  lemma ClashSplits(e: Event, rest: seq<Event>)
    ensures Clash([e] + rest) <==> Clash(rest) || exists j :: 0 <= j < |rest| && Differ(e, rest[j])
  {
    hide Differ;
    var es := [e] + rest;
    if j :| 0 <= j < |rest| && Differ(e, rest[j]) {
      assert Differ(es[0], es[j + 1]);
    }
    if Clash(rest) {
      var i, j :| 0 <= i < j < |rest| && Differ(rest[i], rest[j]);
      assert Differ(es[i + 1], es[j + 1]);
    }
    if Clash(es) {
      var i, j :| 0 <= i < j < |es| && Differ(es[i], es[j]);
      assert es[j] == rest[j - 1];
      if i > 0 {
        assert es[i] == rest[i - 1];
      }
    }
  }

  lemma TellsAfter(table: seq<Names>, e: Event, d: Event)
    requires OneEach(table) && Tells(table, e)
    ensures Tells(After(table, e), d) <==> Tells(table, d) && !Differ(e, d)
  {
    hide Key;
    if e.Call? && d.Call? {
      var i, after := Find(table, e.names), After(table, e);
      assert after[i] == e.names && forall k :: 0 <= k < |table| ==> after[k] == table[k];
    }
  }

  lemma AllTellSplits(table: seq<Names>, e: Event, rest: seq<Event>)
    ensures AllTell(table, [e] + rest) <==> Tells(table, e) && AllTell(table, rest)
  {
    hide Tells;
    var es := [e] + rest;
    assert es[0] == e && forall j :: 0 < j < |es| ==> es[j] == rest[j - 1];
    if AllTell(table, es) {
      forall j | 0 <= j < |rest|
        ensures Tells(table, rest[j])
      {
        assert es[j + 1] == rest[j];
      }
    }
  }

  lemma {:induction false} UnchangedFrom(table: seq<Names>, es: seq<Event>)
    requires OneEach(table)
    ensures Canonical(table, es) == es <==> AllTell(table, es) && !Clash(es)
    decreases |es|
  {
    hide Named, After, Tells, Differ, OneEach, Clash, AllTell;
    if es == [] {
      assert AllTell(table, es) && !Clash(es) by { NoneClash(table); }
    } else {
      var e, rest, next := es[0], es[1..], After(table, es[0]);
      assert es == [e] + rest;
      AfterOneEach(table, e);
      NamedTells(table, e);
      AllTellSplits(table, e, rest);
      ClashSplits(e, rest);
      UnchangedFrom(next, rest);
      assert Canonical(table, es) == es <==> Named(table, e) == e && Canonical(next, rest) == rest by {
        var cs := Canonical(table, es);
        assert cs[0] == Named(table, e) && cs[1..] == Canonical(next, rest);
      }
      if Tells(table, e) {
        AllTellAfter(table, e, rest);
      }
    }
  }

  lemma NoneClash(table: seq<Names>)
    ensures AllTell(table, []) && !Clash([])
  {}

  lemma AllTellAfter(table: seq<Names>, e: Event, rest: seq<Event>)
    requires OneEach(table) && Tells(table, e)
    ensures AllTell(After(table, e), rest) <==> AllTell(table, rest) && !(exists j :: 0 <= j < |rest| && Differ(e, rest[j]))
  {
    hide After, Tells, Differ, OneEach;
    forall j | 0 <= j < |rest|
      ensures Tells(After(table, e), rest[j]) <==> Tells(table, rest[j]) && !Differ(e, rest[j])
    {
      TellsAfter(table, e, rest[j]);
    }
  }

  /** The decoded names are the recorded ones exactly when no two different methods share a key. */
  lemma UnchangedExactly(es: seq<Event>)
    ensures Canonical([], es) == es <==> !Clash(es)
  {
    hide Canonical, Clash;
    UnchangedFrom([], es);
  }

  lemma LongerHasNul(m: Names, n: Names)
    requires Key(m) == Key(n) && |m.host| < |n.host|
    ensures 0 in n.host
  {
    assert n.host[|m.host|] == Key(n)[|m.host|] == Key(m)[|m.host|];
  }

  /** Keys tell methods apart whose module names have no NUL. */
  lemma KeysTellNames(m: Names, n: Names)
    requires 0 !in m.host && 0 !in n.host && Key(m) == Key(n)
    ensures m == n
  {
    if |m.host| < |n.host| {
      LongerHasNul(m, n);
    } else if |n.host| < |m.host| {
      LongerHasNul(n, m);
    } else {
      var k := |m.host|;
      assert m.host == Key(m)[..k] == n.host && m.name == Key(m)[k + 1..] == n.name;
    }
  }

  /** With a NUL in a module's name they need not: the second of these calls is read back as the first. */
  lemma NamesCanClash(request: Request, reply: Reply)
    ensures var es := [Call(Names([], [0]), request, reply), Call(Names([0], []), request, reply)];
            Canonical([], es)[1] == es[0] != es[1]
  {
    var m, n := Names([], [0]), Names([0], []);
    var d, e := Call(m, request, reply), Call(n, request, reply);
    assert Key(m) == [0, 0] == Key(n);
    assert Find([], m) == 0 && After([], d) == [m];
    assert Find([m], n) == 0;
    assert Canonical([], [d, e]) == [Named([], d)] + Canonical([m], [e]) by { assert [d, e][1..] == [e]; }
    assert Canonical([m], [e])[0] == Named([m], e) == d;
  }
}
