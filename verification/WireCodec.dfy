/** The exchange-buffer encoding: the byte writer and reader, and the codecs built from them (host/wire.ts:49-292). */
module WireCodec {
  import opened Powers
  import opened ByteStrings

  /** A codec, as the combinators build it. */
  datatype Codec =
    | Unit
    | Bytes
    | Unsigned(bits: nat)
    | Signed(bits: nat)
    | List(item: Codec)
    | Optional(value: Codec)
    | Either(ok: Codec, err: Codec)
    | Data(fields: Fields)
    | Variants(cases: Cases)

  /** The fields of a tuple, a data type or a variant, in order. */
  datatype Fields = NoField | Field(codec: Codec, rest: Fields)

  datatype Cases = NoCase | Case(tag: string, fields: Fields, others: Cases)

  datatype Value =
    | Nothing
    | Int(n: int)
    | Text(bytes: seq<Byte>)
    | Many(items: seq<Value>)
    | Null
    | Some(value: Value)
    | Ok(value: Value)
    | Err(error: Value)
    | Record(fields: seq<Value>)
    | Tagged(tag: string, fields: seq<Value>)

  // ----- integers -----

  /** `zz`: the sign in the low bit. */
  function ZigZag(n: int): nat {
    if n >= 0 then 2 * n else -2 * n - 1
  }

  /** The arithmetic reading of `(encoded >> 1) ^ -(encoded & 1)`. */
  function UnZigZag(e: nat): int {
    if e % 2 == 0 then e / 2 else -(e / 2) - 1
  }

  /** `Dec.leb`: any number of bytes. */
  function ReadLeb(input: seq<Byte>, at: nat): (r: Read<nat>)
    ensures r.Got? ==> at < r.at <= |input|
    decreases |input| - at
  {
    if at >= |input| then Bad
    else if input[at] < 128 then Got(input[at], at + 1)
    else
      var (high, end) :- ReadLeb(input, at + 1);
      Got(input[at] - 128 + 128 * high, end)
  }

  lemma {:induction false} LebReads(input: seq<Byte>, at: nat, n: nat)
    requires Holds(input, at, Uleb(n))
    ensures ReadLeb(input, at) == Got(n, at + |Uleb(n)|)
    decreases n
  {
    assert input[at] == Uleb(n)[0];
    if n >= 128 {
      HoldsSplit(input, at, [n % 128 + 128], Uleb(n / 128));
      LebReads(input, at + 1, n / 128);
    }
  }

  lemma {:induction false} UlebLength(n: nat, k: nat)
    requires k >= 1 && n < Pow(128, k)
    ensures |Uleb(n)| <= k
    decreases k
  {
    if n >= 128 {
      UlebLength(n / 128, k - 1);
    }
  }

  // ----- the values of a codec -----

  /** The position of a variant by its name, or their number. */
  function Index(cases: Cases, tag: string): nat {
    match cases
    case NoCase => 0
    case Case(name, _, others) => if name == tag then 0 else 1 + Index(others, tag)
  }

  function Count(cases: Cases): nat {
    match cases
    case NoCase => 0
    case Case(_, _, others) => 1 + Count(others)
  }

  function Nth(cases: Cases, i: nat): (c: Cases)
    requires i < Count(cases)
    ensures c.Case? && (c == cases || c < cases)
  {
    if i == 0 then cases else Nth(cases.others, i - 1)
  }

  /** A codec whose integers have at most 64 bits, and whose enums have at most 2^32 variants. */
  predicate Sound(codec: Codec)
    decreases codec
  {
    match codec
    case Unit => true
    case Bytes => true
    case Unsigned(bits) => bits <= 64
    case Signed(bits) => 0 < bits <= 64
    case List(item) => Sound(item)
    case Optional(value) => Sound(value)
    case Either(ok, err) => Sound(ok) && Sound(err)
    case Data(fields) => SoundFields(fields)
    case Variants(cases) => SoundCases(cases) && Count(cases) <= 0x1_0000_0000
  }

  predicate SoundFields(fields: Fields)
    decreases fields
  {
    fields.NoField? || (Sound(fields.codec) && SoundFields(fields.rest))
  }

  predicate SoundCases(cases: Cases)
    decreases cases
  {
    cases.NoCase? || (SoundFields(cases.fields) && SoundCases(cases.others))
  }

  predicate Fits(codec: Codec, v: Value)
    decreases codec
  {
    match codec
    case Unit => v == Nothing
    case Bytes => v.Text? && |v.bytes| < 0x1_0000_0000
    case Unsigned(bits) => v.Int? && 0 <= v.n < Pow(2, bits)
    case Signed(bits) => v.Int? && bits > 0 && -(Pow(2, bits - 1) as int) <= v.n < Pow(2, bits - 1)
    case List(item) => v.Many? && |v.items| < 0x1_0000_0000 && forall i :: 0 <= i < |v.items| ==> Fits(item, v.items[i])
    case Optional(value) => v == Null || (v.Some? && Fits(value, v.value))
    case Either(ok, err) => (v.Ok? && Fits(ok, v.value)) || (v.Err? && Fits(err, v.error))
    case Data(fields) => v.Record? && FitFields(fields, v.fields)
    case Variants(cases) => v.Tagged? && FitCases(cases, v.tag, v.fields)
  }

  predicate FitFields(fields: Fields, vs: seq<Value>)
    decreases fields
  {
    match fields
    case NoField => vs == []
    case Field(codec, rest) => vs != [] && Fits(codec, vs[0]) && FitFields(rest, vs[1..])
  }

  predicate FitCases(cases: Cases, tag: string, vs: seq<Value>)
    decreases cases
  {
    match cases
    case NoCase => false
    case Case(name, fields, others) => if name == tag then FitFields(fields, vs) else FitCases(others, tag, vs)
  }

  /** Every value of a part is one of the optional or of the choice. */
  lemma FitsChoices(ok: Codec, err: Codec, v: Value)
    ensures Fits(Optional(ok), Null) && (Fits(Optional(ok), Some(v)) <==> Fits(ok, v))
    ensures Fits(Either(ok, err), Ok(v)) <==> Fits(ok, v)
    ensures Fits(Either(ok, err), Err(v)) <==> Fits(err, v)
  {}

  // ----- encoding -----

  function Encode(codec: Codec, v: Value): seq<Byte>
    requires Fits(codec, v)
    decreases codec, 0
  {
    match codec
    case Unit => []
    case Bytes => Block(v.bytes)
    case Unsigned(_) => Uleb(v.n)
    case Signed(_) => Uleb(ZigZag(v.n))
    case List(item) => Uleb(|v.items|) + EncodeItems(item, v.items)
    case Optional(value) => if v.Null? then Uleb(0) else Uleb(1) + Encode(value, v.value)
    case Either(ok, err) => if v.Ok? then Uleb(0) + Encode(ok, v.value) else Uleb(1) + Encode(err, v.error)
    case Data(fields) => EncodeFields(fields, v.fields)
    case Variants(cases) => Uleb(Index(cases, v.tag)) + EncodeCase(cases, v.tag, v.fields)
  }

  function EncodeItems(item: Codec, vs: seq<Value>): seq<Byte>
    requires forall i :: 0 <= i < |vs| ==> Fits(item, vs[i])
    decreases item, |vs| + 1
  {
    if vs == [] then [] else EncodeItems(item, vs[..|vs| - 1]) + Encode(item, vs[|vs| - 1])
  }

  function EncodeFields(fields: Fields, vs: seq<Value>): seq<Byte>
    requires FitFields(fields, vs)
    decreases fields, 0
  {
    match fields
    case NoField => []
    case Field(codec, rest) => Encode(codec, vs[0]) + EncodeFields(rest, vs[1..])
  }

  function EncodeCase(cases: Cases, tag: string, vs: seq<Value>): seq<Byte>
    requires FitCases(cases, tag, vs)
    decreases cases, 0
  {
    if cases.tag == tag then EncodeFields(cases.fields, vs) else EncodeCase(cases.others, tag, vs)
  }

  // ----- decoding -----

  function ReadTag(input: seq<Byte>, at: nat, count: nat): (r: Read<nat>)
    ensures r.Got? ==> at < r.at <= |input| && r.value < count
  {
    var (tag, end) :- ReadLeb(input, at);
    if tag >= count then Bad else Got(tag, end)
  }

  function ReadText(input: seq<Byte>, at: nat): (r: Read<seq<Byte>>)
    ensures r.Got? ==> at < r.at <= |input|
  {
    var (k, start) :- ReadLeb(input, at);
    ReadBytes(input, start, k)
  }

  function Decode(codec: Codec, input: seq<Byte>, at: nat): (r: Read<Value>)
    decreases codec, 0
  {
    match codec
    case Unit => Got(Nothing, at)
    case Bytes =>
      var (s, end) :- ReadText(input, at);
      Got(Text(s), end)
    case Unsigned(_) =>
      var (n, end) :- ReadLeb(input, at);
      Got(Int(n), end)
    case Signed(_) =>
      var (e, end) :- ReadLeb(input, at);
      Got(Int(UnZigZag(e)), end)
    case List(item) =>
      var (count, start) :- ReadLeb(input, at);
      var (items, end) :- DecodeItems(item, input, start, count);
      Got(Many(items), end)
    case Optional(value) =>
      var (tag, start) :- ReadTag(input, at, 2);
      if tag == 0 then Got(Null, start)
      else
        var (v, end) :- Decode(value, input, start);
        Got(Some(v), end)
    case Either(ok, err) =>
      var (tag, start) :- ReadTag(input, at, 2);
      if tag == 0 then
        var (v, end) :- Decode(ok, input, start);
        Got(Ok(v), end)
      else
        var (v, end) :- Decode(err, input, start);
        Got(Err(v), end)
    case Data(fields) =>
      var (vs, end) :- DecodeFields(fields, input, at);
      Got(Record(vs), end)
    case Variants(cases) =>
      var (i, start) :- ReadTag(input, at, Count(cases));
      DecodeCase(cases, i, input, start)
  }

  function DecodeItems(item: Codec, input: seq<Byte>, at: nat, count: nat): (r: Read<seq<Value>>)
    decreases item, count + 1
  {
    if count == 0 then Got([], at)
    else
      var (before, middle) :- DecodeItems(item, input, at, count - 1);
      var (v, end) :- Decode(item, input, middle);
      Got(before + [v], end)
  }

  function DecodeFields(fields: Fields, input: seq<Byte>, at: nat): (r: Read<seq<Value>>)
    decreases fields, 0
  {
    match fields
    case NoField => Got([], at)
    case Field(codec, rest) =>
      var (v, middle) :- Decode(codec, input, at);
      var (vs, end) :- DecodeFields(rest, input, middle);
      Got([v] + vs, end)
  }

  function DecodeCase(cases: Cases, i: nat, input: seq<Byte>, at: nat): (r: Read<Value>)
    requires i < Count(cases)
    decreases cases, 0
  {
    if i == 0 then
      var (vs, end) :- DecodeFields(cases.fields, input, at);
      Got(Tagged(cases.tag, vs), end)
    else DecodeCase(cases.others, i - 1, input, at)
  }

  // ----- decoding undoes encoding -----

  lemma ZigZagBack(n: int)
    ensures UnZigZag(ZigZag(n)) == n
  {}

  /** Zigzag numbers every integer once by its magnitude, each negative just before its opposite. */
  lemma ZigZagOrder(m: int, n: int, e: nat)
    ensures ZigZag(m) < ZigZag(n) <==> Magnitude(m) < Magnitude(n) || m == -n < 0
    ensures ZigZag(UnZigZag(e)) == e && (n > 0 ==> ZigZag(-n) + 1 == ZigZag(n))
  {}

  function Magnitude(n: int): nat {
    if n < 0 then -n else n
  }

  lemma TagReads(input: seq<Byte>, at: nat, tag: nat, count: nat, rest: seq<Byte>)
    requires Holds(input, at, Uleb(tag) + rest) && tag < count
    ensures ReadTag(input, at, count) == Got(tag, at + |Uleb(tag)|) && Holds(input, at + |Uleb(tag)|, rest)
  {
    hide Holds, Uleb, ReadLeb;
    HoldsSplit(input, at, Uleb(tag), rest);
    LebReads(input, at, tag);
  }

  lemma CaseIndex(cases: Cases, tag: string, vs: seq<Value>)
    requires FitCases(cases, tag, vs)
    ensures Index(cases, tag) < Count(cases)
    decreases cases
  {
    if cases.tag != tag {
      CaseIndex(cases.others, tag, vs);
    }
  }

  /** Decoding the bytes of a value, whatever follows them, gives the value and stops exactly at their end. */
  lemma {:induction false} Decodes(codec: Codec, v: Value, input: seq<Byte>, at: nat)
    requires Fits(codec, v) && Holds(input, at, Encode(codec, v))
    ensures Decode(codec, input, at) == Got(v, at + |Encode(codec, v)|)
    decreases codec, 1
  {
    hide Holds, Encode, Decode, Fits;
    match codec
    case Unit => DecodesLeaf(codec, v, input, at);
    case Bytes => DecodesLeaf(codec, v, input, at);
    case Unsigned(_) => DecodesLeaf(codec, v, input, at);
    case Signed(_) => DecodesLeaf(codec, v, input, at);
    case List(item) => DecodesList(item, v, input, at);
    case Optional(value) => DecodesChoice(codec, v, input, at);
    case Either(ok, err) => DecodesChoice(codec, v, input, at);
    case Data(fields) => DecodesData(fields, v, input, at);
    case Variants(cases) => DecodesVariants(cases, v, input, at);
  }

  lemma {:induction false} DecodesList(item: Codec, v: Value, input: seq<Byte>, at: nat)
    requires Fits(List(item), v) && Holds(input, at, Encode(List(item), v))
    ensures Decode(List(item), input, at) == Got(v, at + |Encode(List(item), v)|)
    decreases List(item), 0
  {
    hide Holds, Uleb, ReadLeb, EncodeItems, DecodeItems;
    HoldsSplit(input, at, Uleb(|v.items|), EncodeItems(item, v.items));
    LebReads(input, at, |v.items|);
    DecodesItems(item, v.items, input, at + |Uleb(|v.items|)|);
  }

  lemma {:induction false} DecodesData(fields: Fields, v: Value, input: seq<Byte>, at: nat)
    requires Fits(Data(fields), v) && Holds(input, at, Encode(Data(fields), v))
    ensures Decode(Data(fields), input, at) == Got(v, at + |Encode(Data(fields), v)|)
    decreases Data(fields), 0
  {
    hide Holds, EncodeFields, DecodeFields, FitFields;
    DecodesFields(fields, v.fields, input, at);
  }

  lemma {:induction false} DecodesVariants(cases: Cases, v: Value, input: seq<Byte>, at: nat)
    requires Fits(Variants(cases), v) && Holds(input, at, Encode(Variants(cases), v))
    ensures Decode(Variants(cases), input, at) == Got(v, at + |Encode(Variants(cases), v)|)
    decreases Variants(cases), 0
  {
    hide Holds, Uleb, ReadTag, Index, Count, EncodeCase, DecodeCase, FitCases;
    CaseIndex(cases, v.tag, v.fields);
    TagReads(input, at, Index(cases, v.tag), Count(cases), EncodeCase(cases, v.tag, v.fields));
    DecodesCase(cases, v.tag, v.fields, input, at + |Uleb(Index(cases, v.tag))|);
  }

  lemma DecodesLeaf(codec: Codec, v: Value, input: seq<Byte>, at: nat)
    requires codec.Unit? || codec.Bytes? || codec.Unsigned? || codec.Signed?
    requires Fits(codec, v) && Holds(input, at, Encode(codec, v))
    ensures Decode(codec, input, at) == Got(v, at + |Encode(codec, v)|)
  {
    hide Holds, Uleb, ReadLeb, ReadTag, ZigZag, UnZigZag, Pow, Index, Count;
    if codec.Bytes? {
      HoldsSplit(input, at, Uleb(|v.bytes|), v.bytes);
      LebReads(input, at, |v.bytes|);
      HeldSlice(input, at + |Uleb(|v.bytes|)|, v.bytes);
    } else if codec.Unsigned? {
      LebReads(input, at, v.n);
    } else if codec.Signed? {
      LebReads(input, at, ZigZag(v.n));
      ZigZagBack(v.n);
    }
  }

  lemma {:induction false} DecodesChoice(codec: Codec, v: Value, input: seq<Byte>, at: nat)
    requires codec.Optional? || codec.Either?
    requires Fits(codec, v) && Holds(input, at, Encode(codec, v))
    ensures Decode(codec, input, at) == Got(v, at + |Encode(codec, v)|)
    decreases codec, 0
  {
    hide Holds, Uleb, ReadTag, ReadLeb;
    if codec.Optional? {
      if v.Null? {
        assert Uleb(0) + [] == Uleb(0);
        TagReads(input, at, 0, 2, []);
      } else {
        TagReads(input, at, 1, 2, Encode(codec.value, v.value));
        Decodes(codec.value, v.value, input, at + |Uleb(1)|);
      }
    } else {
      if v.Ok? {
        TagReads(input, at, 0, 2, Encode(codec.ok, v.value));
        Decodes(codec.ok, v.value, input, at + |Uleb(0)|);
      } else {
        TagReads(input, at, 1, 2, Encode(codec.err, v.error));
        Decodes(codec.err, v.error, input, at + |Uleb(1)|);
      }
    }
  }

  lemma ItemsNone(item: Codec, vs: seq<Value>, before: seq<Byte>)
    ensures before + EncodeItems(item, vs[..0]) == before
  {}

  lemma ItemsMore(item: Codec, vs: seq<Value>, i: nat, before: seq<Byte>)
    requires i < |vs| && forall j :: 0 <= j < |vs| ==> Fits(item, vs[j])
    ensures before + EncodeItems(item, vs[..i]) + Encode(item, vs[i]) == before + EncodeItems(item, vs[..i + 1])
  {
    hide Encode, Fits;
    assert vs[..i + 1][..i] == vs[..i];
  }

  lemma {:induction false} DecodesItems(item: Codec, vs: seq<Value>, input: seq<Byte>, at: nat)
    requires (forall i :: 0 <= i < |vs| ==> Fits(item, vs[i])) && Holds(input, at, EncodeItems(item, vs))
    ensures DecodeItems(item, input, at, |vs|) == Got(vs, at + |EncodeItems(item, vs)|)
    decreases item, |vs| + 2
  {
    hide Holds, Encode, Decode, Fits, EncodeItems, DecodeItems;
    if vs == [] {
      NoItems(item, input, at);
    } else {
      var n := |vs| - 1;
      var before := EncodeItems(item, vs[..n]);
      ItemsLast(item, vs);
      HoldsSplit(input, at, before, Encode(item, vs[n]));
      DecodesItems(item, vs[..n], input, at);
      Decodes(item, vs[n], input, at + |before|);
      ItemsRead(item, input, at, n, vs[..n], at + |before|, vs[n], at + |before| + |Encode(item, vs[n])|);
      assert vs == vs[..n] + [vs[n]];
    }
  }

  lemma NoItems(item: Codec, input: seq<Byte>, at: nat)
    ensures EncodeItems(item, []) == [] && DecodeItems(item, input, at, 0) == Got([], at)
  {}

  lemma ItemsLast(item: Codec, vs: seq<Value>)
    requires vs != [] && forall i :: 0 <= i < |vs| ==> Fits(item, vs[i])
    ensures EncodeItems(item, vs) == EncodeItems(item, vs[..|vs| - 1]) + Encode(item, vs[|vs| - 1])
  {
    hide Encode, Fits;
  }

  lemma ItemsRead(item: Codec, input: seq<Byte>, at: nat, n: nat, before: seq<Value>, middle: nat, v: Value, end: nat)
    requires DecodeItems(item, input, at, n) == Got(before, middle) && Decode(item, input, middle) == Got(v, end)
    ensures DecodeItems(item, input, at, n + 1) == Got(before + [v], end)
  {
    hide Decode;
  }

  lemma {:induction false} DecodesFields(fields: Fields, vs: seq<Value>, input: seq<Byte>, at: nat)
    requires FitFields(fields, vs) && Holds(input, at, EncodeFields(fields, vs))
    ensures DecodeFields(fields, input, at) == Got(vs, at + |EncodeFields(fields, vs)|)
    decreases fields, 0
  {
    hide Holds, Encode, Decode;
    if fields.Field? {
      var first := Encode(fields.codec, vs[0]);
      HoldsSplit(input, at, first, EncodeFields(fields.rest, vs[1..]));
      Decodes(fields.codec, vs[0], input, at);
      DecodesFields(fields.rest, vs[1..], input, at + |first|);
      assert vs == [vs[0]] + vs[1..];
    }
  }

  lemma {:induction false} DecodesCase(cases: Cases, tag: string, vs: seq<Value>, input: seq<Byte>, at: nat)
    requires FitCases(cases, tag, vs) && Holds(input, at, EncodeCase(cases, tag, vs)) && Index(cases, tag) < Count(cases)
    ensures DecodeCase(cases, Index(cases, tag), input, at) == Got(Tagged(tag, vs), at + |EncodeCase(cases, tag, vs)|)
    decreases cases, 0
  {
    hide Holds;
    if cases.tag == tag {
      DecodesFields(cases.fields, vs, input, at);
    } else {
      DecodesCase(cases.others, tag, vs, input, at);
    }
  }

  /** Decoding what was encoded, with any bytes after it. */
  lemma RoundTrip(codec: Codec, v: Value, rest: seq<Byte>)
    requires Fits(codec, v)
    ensures Decode(codec, Encode(codec, v) + rest, 0) == Got(v, |Encode(codec, v)|)
  {
    var bytes := Encode(codec, v);
    assert (bytes + rest)[0..|bytes|] == bytes;
    Decodes(codec, v, bytes + rest, 0);
  }

  /** No value's bytes start another value's. */
  lemma PrefixFree(codec: Codec, v: Value, w: Value)
    requires Fits(codec, v) && Fits(codec, w) && Encode(codec, v) <= Encode(codec, w)
    ensures v == w
  {
    RoundTrip(codec, v, Encode(codec, w)[|Encode(codec, v)|..]);
    RoundTrip(codec, w, []);
    assert Encode(codec, v) + Encode(codec, w)[|Encode(codec, v)|..] == Encode(codec, w) + [];
  }

  // ----- the growing buffer -----

  /** An integer that takes at most the ten bytes that `leb` makes room for. */
  const LEB_LIMIT: nat := 0x40_0000_0000_0000_0000

  lemma TenBytesEnough(n: nat)
    requires n < LEB_LIMIT
    ensures |Uleb(n)| <= 10
  {
    TenBytes();
    UlebLength(n, 10);
  }

  class Enc {
    var buf: array<Byte>
    var len: nat

    ghost predicate Valid()
      reads this
    {
      len <= buf.Length
    }

    ghost function Written(): seq<Byte>
      reads this, buf
      requires Valid()
    {
      buf[..len]
    }

    constructor ()
      ensures Valid() && fresh(buf) && Written() == []
    {
      buf, len := new Byte[64](_ => 0), 0;
    }

    /** `room`: the buffer at least doubles when `value` more bytes do not fit. */
    method Room(value: nat)
      requires Valid()
      modifies this`buf
      ensures Valid() && len + value <= buf.Length && Written() == old(Written())
      ensures buf == old(buf) || fresh(buf)
    {
      if len + value <= buf.Length {
        return;
      }
      var size := if buf.Length * 2 > len + value then buf.Length * 2 else len + value;
      var next := new Byte[size](_ => 0);
      for i := 0 to len
        invariant len <= size && buf == old(buf) && buf[..] == old(buf[..]) && next[..i] == buf[..i]
      {
        next[i] := buf[i];
      }
      buf := next;
    }

    method Leb(value: nat)
      requires Valid() && value < LEB_LIMIT
      modifies this, buf
      ensures Valid() && Written() == old(Written()) + Uleb(value)
      ensures buf == old(buf) || fresh(buf)
    {
      TenBytesEnough(value);
      Room(10);
      ghost var all := Written() + Uleb(value);
      var n, more := value, true;
      while more
        invariant Valid() && (buf == old(buf) || fresh(buf))
        invariant if more then Written() + Uleb(n) == all && len + |Uleb(n)| <= buf.Length else Written() == all
        decreases more, n
      {
        var low := n % 128;
        var high := n / 128;
        more := high != 0;
        ghost var before := Written();
        assert before + Uleb(n) == if more then before + [low + 128] + Uleb(high) else before + [low];
        Byte(if more then low + 128 else low);
        n := high;
      }
    }

    method Byte(value: Byte)
      requires Valid() && len < buf.Length
      modifies this`len, buf
      ensures Valid() && len == old(len) + 1 && Written() == old(Written()) + [value]
    {
      buf[len] := value;
      len := len + 1;
    }

    method Zz(value: int)
      requires Valid() && ZigZag(value) < LEB_LIMIT
      modifies this, buf
      ensures Valid() && Written() == old(Written()) + Uleb(ZigZag(value))
      ensures buf == old(buf) || fresh(buf)
    {
      if value >= 0 {
        Leb(2 * value);
      } else {
        Leb(-value * 2 - 1);
      }
    }

    method Raw(u8: seq<Byte>)
      requires Valid() && len + |u8| <= buf.Length
      modifies this`len, buf
      ensures Valid() && Written() == old(Written()) + u8
    {
      for i := 0 to |u8|
        invariant len == old(len) && forall j :: 0 <= j < len ==> buf[j] == old(buf[j])
        invariant forall j :: 0 <= j < i ==> buf[len + j] == u8[j]
      {
        buf[len + i] := u8[i];
      }
      Pieced(buf[..], len, old(buf[..len]), u8);
      len := len + |u8|;
      assert buf[..][..len] == buf[..len];
    }

    method Bytes(u8: seq<Byte>)
      requires Valid() && |u8| < LEB_LIMIT
      modifies this, buf
      ensures Valid() && Written() == old(Written()) + Block(u8)
      ensures buf == old(buf) || fresh(buf)
    {
      Leb(|u8|);
      Room(|u8|);
      Raw(u8);
      assert old(Written()) + Uleb(|u8|) + u8 == old(Written()) + Block(u8);
    }

    /** `f64`: the bits, little-endian. */
    method F64(bits: nat)
      requires Valid() && bits < Pow(256, 8)
      modifies this, buf
      ensures Valid() && Written() == old(Written()) + Le(bits, 8)
      ensures buf == old(buf) || fresh(buf)
    {
      Room(8);
      Raw(Le(bits, 8));
    }

    method Done() returns (bytes: seq<Byte>)
      requires Valid()
      ensures bytes == Written()
    {
      bytes := buf[..len];
    }

    /** Any value of any codec is written as the pure encoding has it. */
    method Put(codec: Codec, v: Value)
      requires Valid() && Sound(codec) && Fits(codec, v)
      modifies this, buf
      ensures Valid() && Written() == old(Written()) + Encode(codec, v)
      ensures buf == old(buf) || fresh(buf)
      decreases codec, 1
    {
      hide Uleb, ZigZag, Index, Count, Pow, FitFields, FitCases, SoundFields, SoundCases, EncodeFields, EncodeCase, EncodeItems;
      match codec
      case Unit =>
      case Bytes => Bytes(v.bytes);
      case Unsigned(bits) =>
        Small(bits, v.n);
        Leb(v.n);
      case Signed(bits) =>
        SmallSigned(bits, v.n);
        Zz(v.n);
      case List(item) =>
        Leb(|v.items|);
        PutItems(item, v.items);
      case Optional(value) => PutChoice(codec, v);
      case Either(ok, err) => PutChoice(codec, v);
      case Data(fields) => PutFields(fields, v.fields);
      case Variants(cases) =>
        CaseIndex(cases, v.tag, v.fields);
        Leb(Index(cases, v.tag));
        PutCase(cases, v.tag, v.fields);
    }

    method PutChoice(codec: Codec, v: Value)
      requires Valid() && Sound(codec) && Fits(codec, v) && (codec.Optional? || codec.Either?)
      modifies this, buf
      ensures Valid() && Written() == old(Written()) + Encode(codec, v)
      ensures buf == old(buf) || fresh(buf)
      decreases codec, 0
    {
      hide Uleb;
      if codec.Optional? {
        Leb(if v.Null? then 0 else 1);
        if v.Some? {
          Put(codec.value, v.value);
        }
      } else {
        Leb(if v.Ok? then 0 else 1);
        if v.Ok? {
          Put(codec.ok, v.value);
        } else {
          Put(codec.err, v.error);
        }
      }
    }

    method PutItems(item: Codec, vs: seq<Value>)
      requires Valid() && Sound(item) && forall i :: 0 <= i < |vs| ==> Fits(item, vs[i])
      modifies this, buf
      ensures Valid() && Written() == old(Written()) + EncodeItems(item, vs)
      ensures buf == old(buf) || fresh(buf)
      decreases item, 2
    {
      hide Encode, Fits, Sound, EncodeItems;
      ItemsNone(item, vs, Written());
      for i := 0 to |vs|
        invariant Valid() && Written() == old(Written()) + EncodeItems(item, vs[..i])
        invariant buf == old(buf) || fresh(buf)
      {
        ItemsMore(item, vs, i, old(Written()));
        Put(item, vs[i]);
      }
      assert vs[..|vs|] == vs;
    }

    method PutFields(fields: Fields, vs: seq<Value>)
      requires Valid() && SoundFields(fields) && FitFields(fields, vs)
      modifies this, buf
      ensures Valid() && Written() == old(Written()) + EncodeFields(fields, vs)
      ensures buf == old(buf) || fresh(buf)
      decreases fields, 0
    {
      hide Encode, Fits, Sound;
      if fields.Field? {
        Put(fields.codec, vs[0]);
        PutFields(fields.rest, vs[1..]);
      }
    }

    method PutCase(cases: Cases, tag: string, vs: seq<Value>)
      requires Valid() && SoundCases(cases) && FitCases(cases, tag, vs)
      modifies this, buf
      ensures Valid() && Written() == old(Written()) + EncodeCase(cases, tag, vs)
      ensures buf == old(buf) || fresh(buf)
      decreases cases, 0
    {
      hide EncodeFields, FitFields, SoundFields;
      if cases.tag == tag {
        PutFields(cases.fields, vs);
      } else {
        PutCase(cases.others, tag, vs);
      }
    }
  }

  lemma Pow64()
    ensures Pow(2, 64) == 0x1_0000_0000_0000_0000 && Pow(2, 63) == 0x8000_0000_0000_0000
  {
    Product(2, 8, 8, 256, 256);
    Product(2, 16, 15, 65536, 32768);
    Product(2, 16, 16, 65536, 65536);
    Product(2, 32, 31, 0x1_0000_0000, 0x8000_0000);
    Product(2, 32, 32, 0x1_0000_0000, 0x1_0000_0000);
  }

  lemma Small(bits: nat, n: nat)
    requires bits <= 64 && n < Pow(2, bits)
    ensures n < LEB_LIMIT
  {
    PowMono(2, bits, 64);
    Pow64();
  }

  lemma SmallSigned(bits: nat, n: int)
    requires 0 < bits <= 64 && -(Pow(2, bits - 1) as int) <= n < Pow(2, bits - 1)
    ensures ZigZag(n) < LEB_LIMIT
  {
    PowMono(2, bits - 1, 63);
    Pow64();
  }

  lemma Pieced(all: seq<Byte>, n: nat, before: seq<Byte>, more: seq<Byte>)
    requires |before| == n && n + |more| <= |all|
    requires (forall j :: 0 <= j < n ==> all[j] == before[j]) && forall j :: 0 <= j < |more| ==> all[n + j] == more[j]
    ensures all[..n + |more|] == before + more
  {
    var s := before + more;
    forall k | 0 <= k < n + |more|
      ensures all[k] == s[k]
    {
      if k >= n {
        assert all[n + (k - n)] == more[k - n];
      }
    }
  }

  // ----- the reader -----

  class Dec {
    const input: seq<Byte>
    var at: nat

    constructor (bytes: seq<Byte>)
      ensures input == bytes && at == 0
    {
      input, at := bytes, 0;
    }

    /** `leb`: the bytes up to one below 128; running off the end is a broken contract. */
    method Leb() returns (r: Read<nat>)
      modifies this
      ensures r == ReadLeb(input, old(at)) && (r.Got? ==> at == r.at)
    {
      hide Resumed;
      var result: nat, unit: nat, start := 0, 1, at;
      ResumedEnds(0, 1, 0, 0, ReadLeb(input, at));
      while true
        invariant start <= at && ReadLeb(input, start) == Resumed(result, unit, ReadLeb(input, at))
        decreases |input| - at
      {
        if at >= |input| {
          ResumedEnds(result, unit, 0, 0, Bad);
          return Bad;
        }
        var byte := input[at];
        if byte < 128 {
          at := at + 1;
          ResumedEnds(result, unit, byte, at, Bad);
          return Got(result + byte * unit, at);
        }
        ResumedGroup(result, unit, byte - 128, ReadLeb(input, at + 1));
        at := at + 1;
        result, unit := result + (byte - 128) * unit, unit * 128;
      }
    }
  }
}
