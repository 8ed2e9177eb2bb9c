/** The recorder: one execution's journal, written in memory up to a cap (host/journal.ts:715-876). */
module JournalRecorder {
  import opened Powers
  import opened ByteStrings
  import opened JournalRows
  import opened JournalEvents
  import opened Options

  type Hash128 = n: nat | n < U128

  /** `xxh3_128`, any function of the bytes. */
  type Hash = seq<Byte> -> Hash128

  datatype State = On | Off | Told

  /** `requestOf` with `requestDigest` (host/journal.ts:474-485). */
  function RequestOf(hash: Hash, args: seq<Byte>): (r: Request)
    ensures |args| < U64 ==> ValidRequest(r)
  {
    if |args| <= 8 then Args(args)
    else Digest(|args|, hash([3, 0, 0, 0, 0x72, 0x65, 0x71] + args) % U64)
  }

  /** Different arguments that a record does not tell apart: long ones of one length whose digests agree. */
  predicate Collide(hash: Hash, a: seq<Byte>, b: seq<Byte>) {
    && |a| == |b| > 8
    && hash([3, 0, 0, 0, 0x72, 0x65, 0x71] + a) % U64 == hash([3, 0, 0, 0, 0x72, 0x65, 0x71] + b) % U64
  }

  /** The request of a call is that of other arguments exactly when they are the same or collide. */
  lemma RequestsTell(hash: Hash, a: seq<Byte>, b: seq<Byte>)
    ensures RequestOf(hash, a) == RequestOf(hash, b) <==> a == b || Collide(hash, a, b)
  {}

  /** The value a reply holds: integers keep their low bits. */
  function Wrapped(v: Value): (w: Value)
    ensures ValidValue(w)
  {
    match v
    case Void => Void
    case Int(n) => Int(Signed(n, U64))
    case Bits(b) => Bits(b % U64)
    case Pair(l, r) => Pair(Signed(l, U32), Signed(r, U32))
  }

  function Ending(e: End): End {
    if e.Exit? then Exit(e.status % 256) else e
  }

  // ----- what is written is the wrapped value -----

  lemma UnsignedSigned(n: int, width: nat)
    requires width == U32 || width == U64
    ensures Unsigned(Signed(n, width), width) == Unsigned(n, width)
  {
    if width == U32 {
    } else {
    }
  }

  lemma {:induction false} LeLow(n: nat, m: nat, k: nat)
    requires exists q: nat :: n == m + q * Pow(256, k)
    ensures Le(n, k) == Le(m, k)
  {
    if k > 0 {
      var q: nat :| n == m + q * Pow(256, k);
      var p := Pow(256, k - 1);
      assert n == m + 256 * (q * p);
      assert n % 256 == m % 256 && n / 256 == m / 256 + q * p;
      LeLow(n / 256, m / 256, k - 1);
    }
  }

  lemma WrappedBytes(v: Value)
    ensures ValueBytes(Wrapped(v)) == ValueBytes(v) && ValueTag(Wrapped(v)) == ValueTag(v)
  {
    match v
    case Void =>
    case Int(n) => UnsignedSigned(n, U64);
    case Bits(b) =>
      EightBytes();
      assert b == b % U64 + (b / U64) * Pow(256, 8);
      LeLow(b, b % U64, 8);
    case Pair(l, r) =>
      UnsignedSigned(l, U32);
      UnsignedSigned(r, U32);
  }

  lemma WrappedReply(value: Value, result: Option<seq<Byte>>)
    ensures ReplyBytes(Reply(Wrapped(value), result)) == ReplyBytes(Reply(value, result))
  {
    hide ValueBytes, Wrapped;
    WrappedBytes(value);
  }

  // ----- appending to a run of events -----

  lemma {:induction false} RunAppends(table: seq<Names>, es: seq<Event>, e: Event)
    ensures TableAfter(table, es + [e]) == After(TableAfter(table, es), e)
    ensures Contents(table, es + [e]) == Contents(table, es) + [ContentOf(TableAfter(table, es), e)]
    decreases |es|
  {
    hide After, ContentOf;
    if es == [] {
      assert [e][1..] == [];
      assert es + [e] == [e];
    } else {
      assert (es + [e])[0] == es[0] && (es + [e])[1..] == es[1..] + [e];
      RunAppends(After(table, es[0]), es[1..], e);
    }
  }

  // ----- the method map and the table -----

  /** The map sends the key of `n` to its number, if it has one. */
  predicate Numbered(methods: map<seq<Byte>, nat>, table: seq<Names>, n: Names) {
    if Key(n) in methods then methods[Key(n)] == Find(table, n) < |table| else Find(table, n) == |table|
  }

  /** The map sends a method's key to its number. */
  ghost predicate Numbers(methods: map<seq<Byte>, nat>, table: seq<Names>) {
    |methods| == |table| && forall n: Names :: Numbered(methods, table, n)
  }

  lemma {:induction false} FindAfter(table: seq<Names>, m: Names, n: Names)
    ensures Find(table + [m], n) == if Find(table, n) < |table| || Key(m) == Key(n) then Find(table, n) else |table| + 1
    decreases |table|
  {
    hide Key;
    if table == [] {
      assert [m][1..] == [];
    } else {
      assert (table + [m])[1..] == table[1..] + [m];
      FindAfter(table[1..], m, n);
    }
  }

  lemma NumberedAfter(methods: map<seq<Byte>, nat>, table: seq<Names>, n: Names, m: Names)
    requires Numbered(methods, table, n) && Numbered(methods, table, m) && |methods| == |table| && Key(n) !in methods
    ensures Numbered(methods[Key(n) := |methods|], table + [n], m)
  {
    hide Key, Find;
    FindAfter(table, n, m);
    if Key(m) == Key(n) {
      FindKey(table, m, n);
    }
  }

  lemma OneMore(methods: map<seq<Byte>, nat>, key: seq<Byte>, i: nat)
    requires key !in methods
    ensures |methods[key := i]| == |methods| + 1
  {
    assert methods[key := i].Keys == methods.Keys + {key};
  }

  lemma NumbersAfter(methods: map<seq<Byte>, nat>, table: seq<Names>, n: Names)
    requires Numbers(methods, table) && Key(n) !in methods
    ensures Numbers(methods[Key(n) := |methods|], table + [n])
  {
    hide Key, Numbered;
    var next := methods[Key(n) := |methods|];
    assert |next| == |methods| + 1 by { OneMore(methods, Key(n), |methods|); }
    forall m: Names
      ensures Numbered(next, table + [n], m)
    {
      NumberedAfter(methods, table, n, m);
    }
  }

  lemma {:induction false} FindKey(table: seq<Names>, m: Names, n: Names)
    requires Key(m) == Key(n)
    ensures Find(table, m) == Find(table, n)
    decreases |table|
  {
    hide Key;
    if table != [] {
      FindKey(table[1..], m, n);
    }
  }

  lemma NumbersOne(methods: map<seq<Byte>, nat>, table: seq<Names>, n: Names)
    requires Numbers(methods, table)
    ensures Numbered(methods, table, n) && |methods| == |table|
  {
    hide Numbered;
  }

  /** A method by its number, with its names when it is new (host/journal.ts:772-784, 965-975). */
  method PutMethod(methods: map<seq<Byte>, nat>, ghost table: seq<Names>, names: Names)
    returns (out: seq<Byte>, after: map<seq<Byte>, nat>)
    requires Numbers(methods, table)
    ensures out == MethodBytes(table, names)
    ensures Numbers(after, if Find(table, names) == |table| then table + [names] else table)
  {
    hide Uleb, Key, Find, Numbers;
    assert Numbered(methods, table, names) && |methods| == |table| by { NumbersOne(methods, table, names); }
    var key := Key(names);
    if key !in methods {
      out := Uleb(|methods|);
      out := out + ByteStrings.Block(names.host);
      out := out + ByteStrings.Block(names.name);
      NumbersAfter(methods, table, names);
      after := methods[key := |methods|];
      assert out == Uleb(|table|) + NamesBytes(names);
    } else {
      out := Uleb(methods[key]);
      after := methods;
    }
  }

  /** The arguments when they are short, else their length and digest (host/journal.ts:785-790). */
  method PutRequest(hash: Hash, request: seq<Byte>) returns (out: seq<Byte>)
    ensures out == RequestBytes(RequestOf(hash, request))
    ensures out == Uleb(|request|) +
                   if |request| <= 8 then request else Le(hash([3, 0, 0, 0, 0x72, 0x65, 0x71] + request) % U64, 8)
  {
    hide Uleb, Le;
    out := Uleb(|request|);
    if |request| <= 8 {
      out := out + request;
    } else {
      out := out + Le(RequestOf(hash, request).digest, 8);
    }
  }

  lemma CallTable(methods: map<seq<Byte>, nat>, es: seq<Event>, e: Event)
    requires e.Call?
    requires var table := TableAfter([], es);
             Numbers(methods, if Find(table, e.names) == |table| then table + [e.names] else table)
    ensures Numbers(methods, TableAfter([], es + [e]))
  {
    hide Numbers, Find, Contents;
    RunAppends([], es, e);
  }

  lemma CallWritten(table: seq<Names>, e: Event)
    requires e.Call?
    ensures [] + MethodBytes(table, e.names) + RequestBytes(e.request) + ReplyBytes(e.reply) == Payload(table, e)
  {
    hide MethodBytes, RequestBytes, ReplyBytes;
  }

  /** The journal of a run of events. */
  function JournalOf(es: seq<Event>): seq<Byte> {
    Journal(Contents([], es))
  }

  lemma JournalAppends(es: seq<Event>, e: Event)
    ensures JournalOf(es + [e]) == JournalOf(es) + RowBytes(ContentOf(TableAfter([], es), e), |es|)
  {
    hide RowBytes, ContentOf, Contents;
    RunAppends([], es, e);
    var cs := Contents([], es + [e]);
    assert cs[..|cs| - 1] == Contents([], es);
  }

  lemma {:induction false} HandlesAppend(hs: seq<nat>, h: nat)
    ensures HandleBytes(hs + [h]) == HandleBytes(hs) + Uleb(h)
    decreases |hs|
  {
    hide Uleb;
    if hs == [] {
      assert [h][1..] == [];
      assert hs + [h] == [h];
    } else {
      assert (hs + [h])[0] == hs[0] && (hs + [h])[1..] == hs[1..] + [h];
      HandlesAppend(hs[1..], h);
      assert Uleb(hs[0]) + (HandleBytes(hs[1..]) + Uleb(h)) == Uleb(hs[0]) + HandleBytes(hs[1..]) + Uleb(h);
    }
  }

  /** `ulebLen` (host/journal.ts:331-337). */
  method UlebLen(value: nat) returns (count: nat)
    ensures count == |Uleb(value)|
  {
    count := 1;
    var remaining: nat := value / 128;
    while remaining != 0
      invariant count + (if remaining == 0 then 0 else |Uleb(remaining)|) == |Uleb(value)|
    {
      count := count + 1;
      remaining := remaining / 128;
    }
  }

  lemma ContentLength(c: Content, index: nat)
    ensures |RowBytes(c, index)| == 1 + |Uleb(index)| + |Uleb(|c.payload|)| + |c.payload| + 4
  {
    HeadLength(c.kind, index, c.payload);
  }

  /** A new recorder writes its header before any call. */
  lemma HeaderWritten(execution: seq<Byte>)
    ensures var none: seq<Event>, header := [], Header(1, execution);
            && JournalOf(none) == [] && none + [header] == [header] && KindOf(header) == 0
            && TableAfter([], none) == [] && TableAfter([], [header]) == []
            && Payload([], header) == Uleb(1) + execution
    ensures Numbers(map[], [])
  {}

  class Recorder {
    const hash: Hash
    var bytes: seq<Byte>
    var capBytes: int
    var next: nat
    var methods: map<seq<Byte>, nat>
    var row: seq<Byte>
    var polls: nat
    var state: State
    /** The events recorded so far, and how often a notice was taken. */
    ghost var log: seq<Event>
    ghost var notices: nat

    ghost predicate Sound()
      reads this
    {
      && notices == (if state == Told then 1 else 0)
      && if state == On then bytes == JournalOf(log) && next == |log|
         else bytes == []
    }

    ghost predicate Valid()
      reads this
    {
      Sound() && row == [] && if state == On then Numbers(methods, TableAfter([], log)) else methods == map[]
    }

    /** What recording an event does: it joins the journal if that stays within the cap, or recording stops for good. */
    twostate predicate Recorded(e: Event)
      reads this
    {
      && polls == old(polls) && capBytes == old(capBytes) && notices == old(notices)
      && if old(state) != On then
           state == old(state) && bytes == old(bytes) && log == old(log)
         else if |JournalOf(old(log) + [e])| <= capBytes then
           state == On && log == old(log) + [e] && |bytes| <= capBytes
         else
           state == Off && log == old(log)
    }

    constructor (hash: Hash, cap: int, execution: seq<Byte>)
      ensures Valid() && this.hash == hash && capBytes == cap && polls == 0
      ensures var header := [Header(1, execution)];
              if |JournalOf(header)| <= cap then state == On && log == header else state == Off
    {
      this.hash := hash;
      bytes, capBytes, next, methods, row, polls, state := [], cap, 0, map[], [], 0, On;
      log, notices := [], 0;
      new;
      hide JournalOf, Payload;
      row := Uleb(1) + execution;
      HeaderWritten(execution);
      Push(0, Header(1, execution));
    }

    /** `push`: the row written so far is the payload of `e`. */
    method Push(kind: Byte, ghost e: Event)
      requires Sound() && state == On && kind == KindOf(e)
      requires row == Payload(TableAfter([], log), e)
      requires Numbers(methods, TableAfter([], log + [e]))
      modifies this`bytes, this`next, this`methods, this`row, this`state, this`log
      ensures Valid() && Recorded(e)
    {
      hide JournalOf, Payload, TableAfter, Uleb, RowBytes;
      var len := |row|;
      var a := UlebLen(next);
      var b := UlebLen(len);
      var size := 1 + a + b + len + 4;
      var content := Content(kind, row);
      ContentLength(content, next);
      assert content == ContentOf(TableAfter([], log), e);
      JournalAppends(log, e);
      if |bytes| + size > capBytes {
        state, bytes, methods, row := Off, [], map[], [];
        return;
      }
      bytes := bytes + RowBytes(content, next);
      next := next + 1;
      row := [];
      log := log + [e];
    }

    method TakeJournal() returns (journal: Option<seq<Byte>>)
      requires Valid()
      ensures journal == if state == On then Some(JournalOf(log)) else None
    {
      return if state == On then Some(bytes) else None;
    }

    method SetCap(cap: int)
      requires Valid()
      modifies this`capBytes
      ensures Valid() && capBytes == cap
    {
      capBytes := cap;
    }

    /** True at most once, and only after recording stopped. */
    method TakeNotice() returns (first: bool)
      requires Valid()
      modifies this`state, this`notices
      ensures Valid() && notices <= 1 && notices == old(notices) + if first then 1 else 0
      ensures first <==> old(state) == Off
      ensures state == if first then Told else old(state)
    {
      if state != Off {
        return false;
      }
      state := Told;
      notices := notices + 1;
      return true;
    }

    method Call(names: Names, request: seq<Byte>, value: Value, result: Option<seq<Byte>>)
      requires Valid()
      modifies this`bytes, this`next, this`methods, this`row, this`state, this`log
      ensures Valid() && Recorded(JournalEvents.Call(names, RequestOf(hash, request), Reply(Wrapped(value), result)))
    {
      hide JournalOf, TableAfter, Key, Find, Numbers, MethodBytes, RequestBytes, ReplyBytes, Wrapped, RequestOf, Payload;
      if state != On {
        return;
      }
      ghost var table := TableAfter([], log);
      ghost var r := RequestOf(hash, request);
      ghost var e := JournalEvents.Call(names, r, Reply(Wrapped(value), result));
      var named, known := PutMethod(methods, table, names);
      assert Numbers(known, TableAfter([], log + [e])) by { CallTable(known, log, e); }
      methods := known;
      row := row + named;
      var asked := PutRequest(hash, request);
      row := row + asked;
      row := row + ReplyBytes(Reply(value, result));
      assert row == Payload(table, e) by { WrappedReply(value, result); CallWritten(table, e); }
      Push(2, e);
    }

    method Finish(handle: nat, value: Value, result: Option<seq<Byte>>)
      requires Valid()
      modifies this`bytes, this`next, this`methods, this`row, this`state, this`log
      ensures Valid() && Recorded(JournalEvents.Finish(handle, Reply(Wrapped(value), result)))
    {
      hide Uleb, Le, Numbers, TableAfter, JournalOf, HandleList, ReplyBytes, MethodBytes, Find, Key;
      if state != On {
        return;
      }
      row := row + Uleb(handle);
      row := row + ReplyBytes(Reply(value, result));
      WrappedReply(value, result);
      Plain(methods, log, JournalEvents.Finish(handle, Reply(Wrapped(value), result)));
      Push(3, JournalEvents.Finish(handle, Reply(Wrapped(value), result)));
    }

    method Block(handles: seq<nat>)
      requires Valid()
      modifies this`bytes, this`next, this`methods, this`row, this`state, this`log
      ensures Valid() && Recorded(JournalEvents.Block(handles))
    {
      hide Uleb, Le, Numbers, TableAfter, JournalOf, HandleList, ReplyBytes, MethodBytes, Find, Key;
      if state != On {
        return;
      }
      WriteHandles(handles);
      Plain(methods, log, JournalEvents.Block(handles));
      Push(5, JournalEvents.Block(handles));
    }

    method Abort(handle: nat)
      requires Valid()
      modifies this`bytes, this`next, this`methods, this`row, this`state, this`log
      ensures Valid() && Recorded(JournalEvents.Abort(handle))
    {
      hide Uleb, Le, Numbers, TableAfter, JournalOf, HandleList, ReplyBytes, MethodBytes, Find, Key;
      if state != On {
        return;
      }
      row := row + Uleb(handle);
      Plain(methods, log, JournalEvents.Abort(handle));
      Push(6, JournalEvents.Abort(handle));
    }

    method Poll()
      requires Valid()
      modifies this`polls
      ensures Valid() && polls == old(polls) + 1
    {
      polls := polls + 1;
    }

    method Wake(handles: seq<nat>)
      requires Valid()
      modifies this`bytes, this`next, this`methods, this`row, this`state, this`log
      ensures Valid() && Recorded(JournalEvents.Wake(polls, handles))
    {
      hide Uleb, Le, Numbers, TableAfter, JournalOf, HandleList, ReplyBytes, MethodBytes, Find, Key;
      if state != On {
        return;
      }
      row := row + Uleb(polls);
      WriteHandles(handles);
      Plain(methods, log, JournalEvents.Wake(polls, handles));
      Push(4, JournalEvents.Wake(polls, handles));
    }

    method Cancel()
      requires Valid()
      modifies this`bytes, this`next, this`methods, this`row, this`state, this`log
      ensures Valid() && Recorded(JournalEvents.Cancel(polls))
    {
      hide Uleb, Le, Numbers, TableAfter, JournalOf, HandleList, ReplyBytes, MethodBytes, Find, Key;
      if state != On {
        return;
      }
      row := row + Uleb(polls);
      Plain(methods, log, JournalEvents.Cancel(polls));
      Push(7, JournalEvents.Cancel(polls));
    }

    /** An input starts: the polls count from zero, recorded or not. */
    method Input(number: nat, source: seq<Byte>, code: seq<Byte>)
      requires Valid()
      modifies this`bytes, this`next, this`methods, this`row, this`state, this`log, this`polls
      ensures Valid() && polls == 0 && capBytes == old(capBytes) && notices == old(notices)
      ensures var e := JournalEvents.Input(number, hash(source), hash(code));
              if old(state) != On then
                state == old(state) && bytes == old(bytes) && log == old(log)
              else if |JournalOf(old(log) + [e])| <= capBytes then
                state == On && log == old(log) + [e] && |bytes| <= capBytes
              else
                state == Off && log == old(log)
    {
      hide Uleb, Le, Numbers, TableAfter, JournalOf, HandleList, ReplyBytes, MethodBytes, Find, Key;
      polls := 0;
      if state != On {
        return;
      }
      row := row + Uleb(number);
      row := row + Le(hash(source), 16);
      row := row + Le(hash(code), 16);
      Plain(methods, log, JournalEvents.Input(number, hash(source), hash(code)));
      Push(1, JournalEvents.Input(number, hash(source), hash(code)));
    }

    method End(end: End)
      requires Valid()
      modifies this`bytes, this`next, this`methods, this`row, this`state, this`log
      ensures Valid() && Recorded(Ended(Ending(end)))
    {
      hide Uleb, Le, Numbers, TableAfter, JournalOf, HandleList, ReplyBytes, MethodBytes, Find, Key;
      if state != On {
        return;
      }
      row := row + [EndTag(end)];
      if end.Exit? {
        row := row + [end.status % 256];
      }
      Plain(methods, log, Ended(Ending(end)));
      Push(8, Ended(Ending(end)));
    }

    method WriteHandles(handles: seq<nat>)
      modifies this`row
      ensures row == old(row) + HandleList(handles)
    {
      hide Uleb;
      row := row + Uleb(|handles|);
      for i := 0 to |handles|
        invariant row == old(row) + Uleb(|handles|) + HandleBytes(handles[..i])
      {
        assert handles[..i + 1] == handles[..i] + [handles[i]];
        HandlesAppend(handles[..i], handles[i]);
        row := row + Uleb(handles[i]);
      }
      assert handles[..|handles|] == handles;
    }
  }

  /** Events that name no method leave the numbers as they are. */
  lemma Plain(methods: map<seq<Byte>, nat>, es: seq<Event>, e: Event)
    requires Numbers(methods, TableAfter([], es)) && !e.Call?
    ensures Numbers(methods, TableAfter([], es + [e]))
  {
    hide Numbers;
    RunAppends([], es, e);
  }

  // ----- what was recorded decodes -----

  lemma {:induction false} PayloadWithin(cs: seq<Content>, i: nat)
    requires i < |cs|
    ensures |cs[i].payload| + 6 < |Journal(cs)| && |cs| <= |Journal(cs)|
    decreases |cs|
  {
    hide RowBytes;
    var n := |cs| - 1;
    ContentLength(cs[n], n);
    if i < n {
      PayloadWithin(cs[..n], i);
    } else if n > 0 {
      PayloadWithin(cs[..n], 0);
    }
  }

  lemma {:induction false} FitFrom(table: seq<Names>, es: seq<Event>)
    requires forall i :: 0 <= i < |es| ==> ValidEvent(es[i]) && |Contents(table, es)[i].payload| < U32
    ensures AllFit(table, es)
    decreases |es|
  {
    hide ValidEvent, After, Payload, KindOf;
    if es != [] {
      var rest, next := es[1..], After(table, es[0]);
      assert Contents(table, es) == [ContentOf(table, es[0])] + Contents(next, rest);
      forall i | 0 <= i < |rest|
        ensures ValidEvent(rest[i]) && |Contents(next, rest)[i].payload| < U32
      {
        assert rest[i] == es[i + 1] && Contents(next, rest)[i] == Contents(table, es)[i + 1];
      }
      FitFrom(next, rest);
      assert Contents(table, es)[0] == ContentOf(table, es[0]);
    }
  }

  lemma SmallFits(es: seq<Event>)
    requires |JournalOf(es)| <= U32 && forall i :: 0 <= i < |es| ==> ValidEvent(es[i])
    ensures AllFit([], es) && |es| <= U32
  {
    hide ValidEvent, Contents, Journal, AllFit;
    var cs := Contents([], es);
    forall i | 0 <= i < |es|
      ensures |cs[i].payload| < U32 && |es| <= U32
    {
      PayloadWithin(cs, i);
    }
    if es != [] {
      PayloadWithin(cs, 0);
    }
    FitFrom([], es);
  }

  /**
   * Decoding a journal of at most 2^32 bytes gives back the events recorded, in order, each call
   * under the names of its method number: its own names, unless two methods share a key.
   */
  lemma RecordDecodes(r: Recorder)
    requires r.Valid() && r.state == On && |r.bytes| <= U32
    requires forall i :: 0 <= i < |r.log| ==> ValidEvent(r.log[i])
    ensures ReadRows(r.bytes).valid == |r.bytes|
    ensures DecodeRows(ReadRows(r.bytes).rows) == Some(Canonical([], r.log))
    ensures DecodeRows(ReadRows(r.bytes).rows) == Some(r.log) <==> !Clash(r.log)
  {
    hide AllFit, Contents, Canonical, ReadRows, Journal, DecodeRows, Clash, ValidEvent, Numbers, TableAfter;
    SmallFits(r.log);
    JournalDecodes(r.log);
    UnchangedExactly(r.log);
  }
}
