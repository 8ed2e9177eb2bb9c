/** The compiler's package-host contract and its canonical decoder (host/package-contract.ts:125-230). */
module PackageContract {
  import opened Powers
  import opened ByteStrings

  /** What the decoder reads: bytes and flags, texts, vectors, groups of parts, and tagged values. */
  datatype Tree =
    | Number(byte: Byte)
    | Flag(on: bool)
    | Text(text: seq<Byte>)
    | Many(items: Trees)
    | Group(parts: Trees)
    | Tagged(tag: Byte, parts: Trees)

  datatype Trees = End | And(first: Tree, others: Trees)

  function Length(ts: Trees): nat {
    if ts.End? then 0 else 1 + Length(ts.others)
  }

  /** What is to be read. */
  datatype Shape =
    | AWidth
    | AFlag
    | AText
    | AValue(depth: nat)
    | AVector(item: Shape)
    | AGroup(first: Shape, others: Shapes)

  datatype Shapes = None | Then(first: Shape, others: Shapes)

  const DEPTH_LIMIT: nat := 32

  // ----- the grammar -----

  predicate Plain(tag: Byte) {
    tag in {0, 1, 2, 4, 5, 6, 7, 14}
  }

  function Fields(depth: nat): Shape {
    AVector(AGroup(AText, Then(AValue(depth + 1), None)))
  }

  datatype Parts = Unknown | Known(shapes: Shapes)

  /** What follows a value's tag (host/package-contract.ts:173-208). */
  function PartsOf(tag: Byte, depth: nat): Parts {
    if Plain(tag) then Known(None)
    else if tag == 3 then Known(Then(AWidth, Then(AFlag, None)))
    else if tag == 8 || tag == 9 then Known(Then(AValue(depth + 1), None))
    else if tag == 10 then Known(Then(AVector(AValue(depth + 1)), None))
    else if tag == 11 then Known(Then(Fields(depth), None))
    else if tag == 12 then Known(Then(AVector(AGroup(AText, Then(Fields(depth), None))), None))
    else if tag == 13 then Known(Then(AValue(depth + 1), Then(AValue(depth + 1), None)))
    else if tag == 15 then Known(Then(AText, None))
    else Unknown
  }

  /** A method: its name, its member, whether it may wait, its parameters and its result. */
  const METHOD: Shape := AGroup(AText, Then(AText, Then(AFlag, Then(AVector(AValue(0)), Then(AValue(0), None)))))

  /** An interface: package, version and trait path, module, selectors, whether it is a handle's, and its methods. */
  const INTERFACE: Shape :=
    AGroup(AText, Then(AText, Then(AText, Then(AText, Then(AVector(AText), Then(AFlag, Then(AVector(METHOD), None)))))))

  // ----- texts -----

  predicate Tail(b: Byte) {
    0x80 <= b < 0xc0
  }

  /** The length of the well-formed UTF-8 sequence at the front, or 0 (section 4 of RFC 3629). */
  function Sequence(s: seq<Byte>): (n: nat)
    requires s != []
    ensures n <= |s|
  {
    var a := s[0];
    if a < 0x80 then 1
    else if 0xc2 <= a < 0xe0 then (if |s| >= 2 && Tail(s[1]) then 2 else 0)
    else if 0xe0 <= a < 0xf0 then
      (if |s| >= 3 && Tail(s[1]) && Tail(s[2]) && (a == 0xe0 ==> s[1] >= 0xa0) && (a == 0xed ==> s[1] < 0xa0) then 3 else 0)
    else if 0xf0 <= a < 0xf5 then
      (if |s| >= 4 && Tail(s[1]) && Tail(s[2]) && Tail(s[3]) && (a == 0xf0 ==> s[1] >= 0x90) && (a == 0xf4 ==> s[1] < 0x90) then 4 else 0)
    else 0
  }

  predicate IsUtf8(s: seq<Byte>) {
    s == [] || (Sequence(s) > 0 && IsUtf8(s[Sequence(s)..]))
  }

  // ----- reading -----

  /** `count`: at most five bytes, the fifth at most 15, no trailing zero byte (host/package-contract.ts:143-160). */
  function CountFrom(bytes: seq<Byte>, at: nat, k: nat): (r: Read<nat>)
    requires k <= 5
    ensures r.Got? ==> at < r.at <= |bytes|
    decreases 5 - k
  {
    if k == 5 || at >= |bytes| || (k == 4 && bytes[at] > 15) then Bad
    else if bytes[at] < 128 then (if k > 0 && bytes[at] == 0 then Bad else Got(bytes[at], at + 1))
    else
      var (high, end) :- CountFrom(bytes, at + 1, k + 1);
      Got(bytes[at] - 128 + 128 * high, end)
  }

  function ReadCount(bytes: seq<Byte>, at: nat): (r: Read<nat>)
    ensures r.Got? ==> at < r.at && r.at + r.value <= |bytes|
  {
    var (n, end) :- CountFrom(bytes, at, 0);
    if n > |bytes| - end then Bad else Got(n, end)
  }

  function ReadFlag(bytes: seq<Byte>, at: nat): (r: Read<bool>)
    ensures r.Got? ==> at < r.at <= |bytes|
  {
    if at >= |bytes| || bytes[at] > 1 then Bad else Got(bytes[at] == 1, at + 1)
  }

  function ReadString(bytes: seq<Byte>, at: nat): (r: Read<seq<Byte>>)
    ensures r.Got? ==> at < r.at <= |bytes|
  {
    var (n, start) :- ReadCount(bytes, at);
    var text := bytes[start..start + n];
    if IsUtf8(text) then Got(text, start + n) else Bad
  }

  predicate Width(b: Byte) {
    b in {8, 16, 32, 64}
  }

  function ReadShape(shape: Shape, bytes: seq<Byte>, at: nat): (r: Read<Tree>)
    ensures r.Got? ==> at < r.at <= |bytes|
    decreases |bytes| - at, shape, 0
  {
    match shape
    case AWidth => if at >= |bytes| || !Width(bytes[at]) then Bad else Got(Number(bytes[at]), at + 1)
    case AFlag =>
      var (on, end) :- ReadFlag(bytes, at);
      Got(Flag(on), end)
    case AText =>
      var (text, end) :- ReadString(bytes, at);
      Got(Text(text), end)
    case AValue(depth) =>
      if depth > DEPTH_LIMIT || at >= |bytes| then Bad
      else (match PartsOf(bytes[at], depth)
        case Unknown => Bad
        case Known(shapes) =>
          var (parts, end) :- ReadParts(shapes, bytes, at + 1);
          Got(Tagged(bytes[at], parts), end))
    case AVector(item) =>
      var (n, start) :- ReadCount(bytes, at);
      var (items, end) :- ReadItems(item, bytes, start, n);
      Got(Many(items), end)
    case AGroup(first, others) =>
      var (part, middle) :- ReadShape(first, bytes, at);
      var (parts, end) :- ReadParts(others, bytes, middle);
      Got(Group(And(part, parts)), end)
  }

  function ReadItems(item: Shape, bytes: seq<Byte>, at: nat, n: nat): (r: Read<Trees>)
    requires at <= |bytes|
    ensures r.Got? ==> at <= r.at <= |bytes|
    decreases |bytes| - at, item, n + 1
  {
    if n == 0 then Got(End, at)
    else
      var (first, middle) :- ReadShape(item, bytes, at);
      var (rest, end) :- ReadItems(item, bytes, middle, n - 1);
      Got(And(first, rest), end)
  }

  function ReadParts(shapes: Shapes, bytes: seq<Byte>, at: nat): (r: Read<Trees>)
    requires at <= |bytes|
    ensures r.Got? ==> at <= r.at <= |bytes|
    decreases |bytes| - at, shapes, 0
  {
    match shapes
    case None => Got(End, at)
    case Then(first, others) =>
      var (part, middle) :- ReadShape(first, bytes, at);
      var (parts, end) :- ReadParts(others, bytes, middle);
      Got(And(part, parts), end)
  }

  // ----- writing -----

  function Write(t: Tree): seq<Byte>
    decreases t
  {
    match t
    case Number(b) => [b]
    case Flag(on) => [if on then 1 else 0]
    case Text(text) => Block(text)
    case Many(items) => Uleb(Length(items)) + WriteAll(items)
    case Group(parts) => WriteAll(parts)
    case Tagged(tag, parts) => [tag] + WriteAll(parts)
  }

  function WriteAll(ts: Trees): seq<Byte>
    decreases ts
  {
    if ts.End? then [] else Write(ts.first) + WriteAll(ts.others)
  }

  /** The trees of a shape: the texts well-formed, the widths and tags known, the nesting within the limit. */
  predicate Has(shape: Shape, t: Tree)
    decreases t
  {
    match shape
    case AWidth => t.Number? && Width(t.byte)
    case AFlag => t.Flag?
    case AText => t.Text? && |t.text| < 0x1_0000_0000 && IsUtf8(t.text)
    case AValue(depth) =>
      t.Tagged? && depth <= DEPTH_LIMIT && PartsOf(t.tag, depth).Known? && HasParts(PartsOf(t.tag, depth).shapes, t.parts)
    case AVector(item) => t.Many? && Length(t.items) < 0x1_0000_0000 && HasItems(item, t.items)
    case AGroup(first, others) => t.Group? && HasParts(Then(first, others), t.parts)
  }

  predicate HasItems(item: Shape, ts: Trees)
    decreases ts
  {
    ts.End? || (Has(item, ts.first) && HasItems(item, ts.others))
  }

  predicate HasParts(shapes: Shapes, ts: Trees)
    decreases ts
  {
    match shapes
    case None => ts.End?
    case Then(first, others) => ts.And? && Has(first, ts.first) && HasParts(others, ts.others)
  }

  // ----- counts -----

  /** What byte k of a count and those after it can be worth. */
  function Limit(k: nat): nat
    requires k <= 5
  {
    if k == 5 then 0 else 16 * Pow(128, 4 - k)
  }

  lemma LimitSplits(k: nat)
    requires k < 4
    ensures Limit(k) == 128 * Limit(k + 1)
  {}

  lemma FirstLimit()
    ensures Limit(0) == 0x1_0000_0000
  {
    assert Pow(128, 4) == 0x1000_0000;
  }

  /** A count that reads is its shortest form. */
  lemma {:induction false} CountSound(bytes: seq<Byte>, at: nat, k: nat)
    requires k <= 5 && CountFrom(bytes, at, k).Got?
    ensures var r := CountFrom(bytes, at, k);
            Holds(bytes, at, Uleb(r.value)) && r.at == at + |Uleb(r.value)| && r.value < Limit(k) && (k > 0 ==> r.value > 0)
    decreases 5 - k
  {
    var r := CountFrom(bytes, at, k);
    if bytes[at] < 128 {
      assert bytes[at..at + 1] == [bytes[at]];
      SmallCount(k);
    } else {
      CountSound(bytes, at + 1, k + 1);
      var high := CountFrom(bytes, at + 1, k + 1).value;
      LimitSplits(k);
      assert r.value / 128 == high && r.value % 128 == bytes[at] - 128;
      assert Uleb(r.value) == [bytes[at]] + Uleb(high);
      assert bytes[at..at + 1] == [bytes[at]];
      HoldsSplit(bytes, at, [bytes[at]], Uleb(high));
    }
  }

  lemma SmallCount(k: nat)
    requires k < 5
    ensures k < 4 ==> Limit(k) >= 128
    ensures k == 4 ==> Limit(k) == 16
  {
    if k < 4 {
      LimitSplits(k);
    }
  }

  /** The shortest form of a count reads. */
  lemma {:induction false} CountComplete(bytes: seq<Byte>, at: nat, k: nat, n: nat)
    requires k <= 5 && Holds(bytes, at, Uleb(n)) && n < Limit(k) && (k > 0 ==> n > 0)
    ensures CountFrom(bytes, at, k) == Got(n, at + |Uleb(n)|)
    decreases 5 - k
  {
    assert bytes[at] == bytes[at..at + |Uleb(n)|][0] == Uleb(n)[0];
    if n >= 128 {
      SmallCount(k);
      LimitSplits(k);
      HoldsSplit(bytes, at, [n % 128 + 128], Uleb(n / 128));
      CountComplete(bytes, at + 1, k + 1, n / 128);
    }
  }

  lemma CountExact(bytes: seq<Byte>, at: nat, n: nat, end: nat)
    ensures ReadCount(bytes, at) == Got(n, end) <==>
            Holds(bytes, at, Uleb(n)) && end == at + |Uleb(n)| && n < 0x1_0000_0000 && end + n <= |bytes|
  {
    FirstLimit();
    if ReadCount(bytes, at) == Got(n, end) {
      CountSound(bytes, at, 0);
    }
    if Holds(bytes, at, Uleb(n)) && n < 0x1_0000_0000 {
      CountComplete(bytes, at, 0, n);
    }
  }

  // ----- each shape has one form -----

  lemma StringExact(bytes: seq<Byte>, at: nat, text: seq<Byte>, end: nat)
    ensures ReadString(bytes, at) == Got(text, end) <==>
            |text| < 0x1_0000_0000 && IsUtf8(text) && Holds(bytes, at, Block(text)) && end == at + |Block(text)|
  {
    hide Uleb, ReadCount, IsUtf8;
    CountExact(bytes, at, |text|, at + |Uleb(|text|)|);
    HoldsSplit(bytes, at, Uleb(|text|), text);
    var r := ReadCount(bytes, at);
    if r.Got? {
      CountExact(bytes, at, r.value, r.at);
    }
  }

  /** What is read is a tree of the shape, and the bytes read are the tree's. */
  lemma {:induction false} ReadsWritten(shape: Shape, bytes: seq<Byte>, at: nat)
    requires ReadShape(shape, bytes, at).Got?
    ensures var r := ReadShape(shape, bytes, at);
            Has(shape, r.value) && Holds(bytes, at, Write(r.value)) && r.at == at + |Write(r.value)|
    decreases |bytes| - at, shape, 0
  {
    hide Holds, Uleb, Block, ReadCount, ReadString, IsUtf8, Plain, PartsOf;
    var r := ReadShape(shape, bytes, at);
    match shape
    case AWidth => HeldByte(bytes, at, bytes[at]);
    case AFlag => HeldByte(bytes, at, bytes[at]);
    case AText => StringExact(bytes, at, r.value.text, r.at);
    case AValue(depth) =>
      HeldByte(bytes, at, bytes[at]);
      ReadsParts(PartsOf(bytes[at], depth).shapes, bytes, at + 1);
      HoldsSplit(bytes, at, [bytes[at]], WriteAll(r.value.parts));
    case AVector(item) =>
      var n := ReadCount(bytes, at);
      CountExact(bytes, at, n.value, n.at);
      ReadsItems(item, bytes, n.at, n.value);
      HoldsSplit(bytes, at, Uleb(n.value), WriteAll(r.value.items));
    case AGroup(first, others) =>
      var part := ReadShape(first, bytes, at);
      ReadsWritten(first, bytes, at);
      ReadsParts(others, bytes, part.at);
      HoldsSplit(bytes, at, Write(part.value), WriteAll(r.value.parts.others));
  }

  lemma {:induction false} ReadsItems(item: Shape, bytes: seq<Byte>, at: nat, n: nat)
    requires at <= |bytes| && ReadItems(item, bytes, at, n).Got?
    ensures var r := ReadItems(item, bytes, at, n);
            && HasItems(item, r.value) && Length(r.value) == n
            && Holds(bytes, at, WriteAll(r.value)) && r.at == at + |WriteAll(r.value)|
    decreases |bytes| - at, item, n + 1
  {
    hide ReadShape, Write, Has;
    if n > 0 {
      hide Holds;
      var first := ReadShape(item, bytes, at);
      ReadsWritten(item, bytes, at);
      ReadsItems(item, bytes, first.at, n - 1);
      HoldsSplit(bytes, at, Write(first.value), WriteAll(ReadItems(item, bytes, first.at, n - 1).value));
    }
  }

  lemma {:induction false} ReadsParts(shapes: Shapes, bytes: seq<Byte>, at: nat)
    requires at <= |bytes| && ReadParts(shapes, bytes, at).Got?
    ensures var r := ReadParts(shapes, bytes, at);
            HasParts(shapes, r.value) && Holds(bytes, at, WriteAll(r.value)) && r.at == at + |WriteAll(r.value)|
    decreases |bytes| - at, shapes, 0
  {
    hide ReadShape, Write, Has;
    if shapes.Then? {
      hide Holds;
      var first := ReadShape(shapes.first, bytes, at);
      ReadsWritten(shapes.first, bytes, at);
      ReadsParts(shapes.others, bytes, first.at);
      HoldsSplit(bytes, at, Write(first.value), WriteAll(ReadParts(shapes.others, bytes, first.at).value));
    }
  }

  lemma {:induction false} Written(shape: Shape, t: Tree)
    requires Has(shape, t)
    ensures |Write(t)| >= 1
    decreases t
  {
    if shape.AGroup? {
      Written(shape.first, t.parts.first);
    }
  }

  lemma {:induction false} LongEnough(item: Shape, ts: Trees)
    requires HasItems(item, ts)
    ensures Length(ts) <= |WriteAll(ts)|
    decreases ts
  {
    if ts.And? {
      Written(item, ts.first);
      LongEnough(item, ts.others);
    }
  }

  /** A tree of the shape is read from its bytes. */
  lemma {:induction false} WrittenReads(shape: Shape, t: Tree, bytes: seq<Byte>, at: nat)
    requires Has(shape, t) && Holds(bytes, at, Write(t))
    ensures ReadShape(shape, bytes, at) == Got(t, at + |Write(t)|)
    decreases t, 1
  {
    match shape
    case AWidth => HeldByte(bytes, at, t.byte);
    case AFlag => HeldByte(bytes, at, if t.on then 1 else 0);
    case AText => StringExact(bytes, at, t.text, at + |Block(t.text)|);
    case AValue(depth) => ValueReads(depth, t, bytes, at);
    case AVector(item) => VectorReads(item, t, bytes, at);
    case AGroup(first, others) => GroupReads(first, others, t, bytes, at);
  }

  lemma {:induction false} ValueReads(depth: nat, t: Tree, bytes: seq<Byte>, at: nat)
    requires Has(AValue(depth), t) && Holds(bytes, at, Write(t))
    ensures ReadShape(AValue(depth), bytes, at) == Got(t, at + |Write(t)|)
    decreases t, 0
  {
    hide Holds, Plain, PartsOf;
    HoldsSplit(bytes, at, [t.tag], WriteAll(t.parts));
    HeldByte(bytes, at, t.tag);
    PartsRead(PartsOf(t.tag, depth).shapes, t.parts, bytes, at + 1);
  }

  lemma {:induction false} VectorReads(item: Shape, t: Tree, bytes: seq<Byte>, at: nat)
    requires Has(AVector(item), t) && Holds(bytes, at, Write(t))
    ensures ReadShape(AVector(item), bytes, at) == Got(t, at + |Write(t)|)
    decreases t, 0
  {
    hide Holds, Uleb, ReadCount;
    HeldSlice(bytes, at, Write(t));
    var n := Length(t.items);
    HoldsSplit(bytes, at, Uleb(n), WriteAll(t.items));
    LongEnough(item, t.items);
    CountExact(bytes, at, n, at + |Uleb(n)|);
    ItemsRead(item, t.items, bytes, at + |Uleb(n)|);
  }

  lemma {:induction false} GroupReads(first: Shape, others: Shapes, t: Tree, bytes: seq<Byte>, at: nat)
    requires Has(AGroup(first, others), t) && Holds(bytes, at, Write(t))
    ensures ReadShape(AGroup(first, others), bytes, at) == Got(t, at + |Write(t)|)
    decreases t, 0
  {
    hide Holds;
    HoldsSplit(bytes, at, Write(t.parts.first), WriteAll(t.parts.others));
    WrittenReads(first, t.parts.first, bytes, at);
    PartsRead(others, t.parts.others, bytes, at + |Write(t.parts.first)|);
  }

  lemma {:induction false} ItemsRead(item: Shape, ts: Trees, bytes: seq<Byte>, at: nat)
    requires HasItems(item, ts) && Holds(bytes, at, WriteAll(ts))
    ensures at <= |bytes| && ReadItems(item, bytes, at, Length(ts)) == Got(ts, at + |WriteAll(ts)|)
    decreases ts
  {
    hide Holds, ReadShape, Write, Has;
    HeldSlice(bytes, at, WriteAll(ts));
    if ts.And? {
      HoldsSplit(bytes, at, Write(ts.first), WriteAll(ts.others));
      WrittenReads(item, ts.first, bytes, at);
      ItemsRead(item, ts.others, bytes, at + |Write(ts.first)|);
    }
  }

  lemma {:induction false} PartsRead(shapes: Shapes, ts: Trees, bytes: seq<Byte>, at: nat)
    requires HasParts(shapes, ts) && Holds(bytes, at, WriteAll(ts))
    ensures at <= |bytes| && ReadParts(shapes, bytes, at) == Got(ts, at + |WriteAll(ts)|)
    decreases ts
  {
    hide Holds, ReadShape, Write, Has;
    HeldSlice(bytes, at, WriteAll(ts));
    if ts.And? {
      HoldsSplit(bytes, at, Write(ts.first), WriteAll(ts.others));
      WrittenReads(shapes.first, ts.first, bytes, at);
      PartsRead(shapes.others, ts.others, bytes, at + |Write(ts.first)|);
    }
  }

  // ----- validation (host/package-contract.ts:40-123) -----

  type Name = seq<Byte>

  function Part(ts: Trees, i: nat): Tree
    decreases ts
  {
    if ts.End? then Flag(false) else if i == 0 then ts.first else Part(ts.others, i - 1)
  }

  function Items(ts: Trees): (r: seq<Tree>)
    decreases ts
  {
    if ts.End? then [] else [ts.first] + Items(ts.others)
  }

  function NameOf(t: Tree): Name {
    if t.Text? then t.text else []
  }

  function PartsIn(t: Tree): Trees {
    match t
    case Group(parts) => parts
    case Tagged(_, parts) => parts
    case Many(items) => items
    case _ => End
  }

  function On(t: Tree): bool {
    t.Flag? && t.on
  }

  /** An interface's parts, in the order they are read. */
  function Package(item: Tree): Name { NameOf(Part(PartsIn(item), 0)) }
  function Version(item: Tree): Name { NameOf(Part(PartsIn(item), 1)) }
  function TraitPath(item: Tree): Name { NameOf(Part(PartsIn(item), 2)) }
  function ModuleName(item: Tree): Name { NameOf(Part(PartsIn(item), 3)) }
  function Selectors(item: Tree): seq<Tree> { Items(PartsIn(Part(PartsIn(item), 4))) }
  function IsHandle(item: Tree): bool { On(Part(PartsIn(item), 5)) }
  function Methods(item: Tree): seq<Tree> { Items(PartsIn(Part(PartsIn(item), 6))) }

  function MethodName(m: Tree): Name { NameOf(Part(PartsIn(m), 0)) }
  function Member(m: Tree): Name { NameOf(Part(PartsIn(m), 1)) }
  function Waits(m: Tree): bool { On(Part(PartsIn(m), 2)) }
  function Params(m: Tree): Trees { PartsIn(Part(PartsIn(m), 3)) }
  function ResultOf(m: Tree): Tree { Part(PartsIn(m), 4) }

  /** Different, none of them empty: what `unique` lets through. */
  predicate Unique(names: seq<Name>) {
    && (forall i :: 0 <= i < |names| ==> names[i] != [])
    && forall i, j :: 0 <= i < j < |names| ==> names[i] != names[j]
  }

  /** Not empty, and none of them in `seen`. */
  predicate New(seen: set<Name>, names: seq<Name>) {
    Unique(names) && forall i :: 0 <= i < |names| ==> names[i] !in seen
  }

  lemma NewMore(seen: set<Name>, names: seq<Name>, name: Name)
    ensures New(seen, names + [name]) <==> New(seen, names) && name != [] && name !in seen + Set(names)
    ensures Set(names + [name]) == Set(names) + {name}
  {
    var more := names + [name];
    assert forall i :: 0 <= i < |names| ==> more[i] == names[i];
    assert more[|names|] == name;
  }

  lemma NewPrefix(seen: set<Name>, names: seq<Name>, more: seq<Name>)
    ensures New(seen, names + more) ==> New(seen, names)
  {
    assert forall i :: 0 <= i < |names| ==> (names + more)[i] == names[i];
  }

  function Set(names: seq<Name>): set<Name> {
    set i | 0 <= i < |names| :: names[i]
  }

  /** `unique`: the key joins the set, unless it is empty or there. */
  method CheckUnique(names: set<Name>, key: Name) returns (ok: bool, more: set<Name>)
    ensures ok <==> key != [] && key !in names
    ensures more == if ok then names + {key} else names
  {
    ok := key != [] && key !in names;
    more := if ok then names + {key} else names;
  }

  function FirstNames(ts: Trees): seq<Name>
    decreases ts
  {
    if ts.End? then [] else [NameOf(Part(PartsIn(ts.first), 0))] + FirstNames(ts.others)
  }

  /** `checkValue`: field and variant names are unique, and every handle type has its interface. */
  predicate CheckedValue(t: Tree, handles: set<Name>)
    decreases t, 1
  {
    t.Tagged? ==>
      var first := Part(t.parts, 0);
      && (t.tag == 15 ==> NameOf(first) in handles)
      && (t.tag == 8 || t.tag == 9 || t.tag == 13 ==> CheckedAll(t.parts, handles))
      && (t.tag == 10 && t.parts.And? && t.parts.first.Many? ==> CheckedAll(t.parts.first.items, handles))
      && (t.tag == 11 && t.parts.And? && t.parts.first.Many? ==> CheckedFields(t.parts.first.items, handles))
      && (t.tag == 12 && t.parts.And? && t.parts.first.Many? ==>
            Unique(FirstNames(t.parts.first.items)) && CheckedCases(t.parts.first.items, handles))
  }

  predicate CheckedAll(ts: Trees, handles: set<Name>)
    decreases ts, 2
  {
    ts.And? ==> CheckedValue(ts.first, handles) && CheckedAll(ts.others, handles)
  }

  predicate CheckedFields(ts: Trees, handles: set<Name>)
    decreases ts, 3
  {
    Unique(FirstNames(ts)) && CheckedSeconds(ts, handles)
  }

  /** The values of fields, each a name and a value. */
  predicate CheckedSeconds(ts: Trees, handles: set<Name>)
    decreases ts, 2
  {
    ts.And? ==>
      && (ts.first.Group? && ts.first.parts.And? && ts.first.parts.others.And? ==> CheckedValue(ts.first.parts.others.first, handles))
      && CheckedSeconds(ts.others, handles)
  }

  /** The fields of variants, each a name and its fields. */
  predicate CheckedCases(ts: Trees, handles: set<Name>)
    decreases ts, 2
  {
    ts.And? ==>
      && (ts.first.Group? && ts.first.parts.And? && ts.first.parts.others.And? && ts.first.parts.others.first.Many? ==>
            CheckedFields(ts.first.parts.others.first.items, handles))
      && CheckedCases(ts.others, handles)
  }

  /** Each text between the dots. */
  function Split(s: Name): (parts: seq<Name>)
    ensures parts != []
  {
    if s == [] then [[]]
    else
      var rest := Split(s[1..]);
      if s[0] == 46 then [[]] + rest else [[s[0]] + rest[0]] + rest[1..]
  }

  const DEP: Name := [100, 101, 112]
  const PKG: Name := [112, 107, 103]
  /** `hd:pkg:` */
  const MODULE_PREFIX: Name := [104, 100, 58, 112, 107, 103, 58]
  const RELEASE: Name := [36, 114, 101, 108, 101, 97, 115, 101]
  const START: Name := [46, 115, 116, 97, 114, 116]
  const FINISH: Name := [46, 102, 105, 110, 105, 115, 104]

  predicate ValidSelector(item: Tree, selector: Name) {
    var parts := Split(selector);
    !IsHandle(item) && |parts| >= 2 && (parts[0] == DEP || parts[0] == PKG) && forall i :: 0 <= i < |parts| ==> parts[i] != []
  }

  function SelectorNames(items: seq<Tree>): seq<Name> {
    if items == [] then [] else SelectorNames(items[..|items| - 1]) + TextsOf(Selectors(items[|items| - 1]))
  }

  function TextsOf(ts: seq<Tree>): (names: seq<Name>)
    ensures |names| == |ts|
  {
    seq(|ts|, i requires 0 <= i < |ts| => NameOf(ts[i]))
  }

  /** The imports that a method takes. */
  function ImportsOf(m: Tree): seq<Name> {
    if Waits(m) then [MethodName(m) + START, MethodName(m) + FINISH] else [MethodName(m)]
  }

  function Imports(methods: seq<Tree>): seq<Name> {
    if methods == [] then [] else Imports(methods[..|methods| - 1]) + ImportsOf(methods[|methods| - 1])
  }

  function Handles(items: seq<Tree>): set<Name> {
    set i | 0 <= i < |items| && IsHandle(items[i]) :: ModuleName(items[i])
  }

  predicate ValidMethod(m: Tree, handles: set<Name>) {
    Member(m) != [] && CheckedAll(Params(m), handles) && CheckedValue(ResultOf(m), handles)
  }

  predicate ValidItem(item: Tree, handles: set<Name>) {
    && Package(item) != [] && TraitPath(item) != []
    && MODULE_PREFIX < ModuleName(item)
    && AllSelect(item)
    && Unique(MethodNames(Methods(item)))
    && Unique((if IsHandle(item) then [RELEASE] else []) + Imports(Methods(item)))
    && forall i :: 0 <= i < |Methods(item)| ==> ValidMethod(Methods(item)[i], handles)
  }

  function Identity(item: Tree): (Name, Name, Name, bool) {
    (Package(item), Version(item), TraitPath(item), IsHandle(item))
  }

  /** `validateContract`: nominal identities, modules and selectors are unique, and each interface is valid. */
  predicate ValidContract(contract: Tree) {
    var items := Items(PartsIn(contract));
    && (forall i, j :: 0 <= i < j < |items| ==> Identity(items[i]) != Identity(items[j]))
    && Unique(ModuleNames(items))
    && Unique(SelectorNames(items))
    && forall i :: 0 <= i < |items| ==> ValidItem(items[i], Handles(items))
  }

  // ----- the contract -----

  const VERSION: seq<Byte> := [1, 0, 0, 0]
  const CONTRACT: Shape := AVector(INTERFACE)

  /** `readPackageContract`: the version, the interfaces, nothing more, and valid. */
  predicate Accepted(bytes: seq<Byte>, contract: Tree) {
    && |bytes| >= 4 && bytes[..4] == VERSION
    && ReadShape(CONTRACT, bytes, 4) == Got(contract, |bytes|)
    && ValidContract(contract)
  }

  /** A contract is read exactly from the one form that writes it. */
  lemma ContractExact(bytes: seq<Byte>, contract: Tree)
    ensures Accepted(bytes, contract) <==> Has(CONTRACT, contract) && ValidContract(contract) && bytes == VERSION + Write(contract)
  {
    hide ReadShape, Has, Write, ValidContract;
    if Accepted(bytes, contract) {
      ReadsWritten(CONTRACT, bytes, 4);
      assert bytes == bytes[..4] + bytes[4..];
    }
    if Has(CONTRACT, contract) && bytes == VERSION + Write(contract) {
      assert bytes[..4] == VERSION && bytes[4..] == Write(contract);
      WrittenReads(CONTRACT, contract, bytes, 4);
    }
  }

  /** Two accepted byte strings with the same contract are the same. */
  lemma Canonical(a: seq<Byte>, b: seq<Byte>, contract: Tree)
    requires Accepted(a, contract) && Accepted(b, contract)
    ensures a == b
  {
    hide Accepted, ValidContract;
    ContractExact(a, contract);
    ContractExact(b, contract);
  }

  /** How deep values are nested in a tree. */
  function Nesting(t: Tree): nat
    decreases t
  {
    match t
    case Number(_) => 0
    case Flag(_) => 0
    case Text(_) => 0
    case Many(items) => NestingOf(items)
    case Group(parts) => NestingOf(parts)
    case Tagged(_, parts) => 1 + NestingOf(parts)
  }

  function NestingOf(ts: Trees): nat
    decreases ts
  {
    if ts.End? then 0 else if Nesting(ts.first) > NestingOf(ts.others) then Nesting(ts.first) else NestingOf(ts.others)
  }

  /** How deep the values of a shape may still be nested. */
  function Room(shape: Shape): nat
    decreases shape
  {
    match shape
    case AWidth => 0
    case AFlag => 0
    case AText => 0
    case AValue(depth) => if depth > DEPTH_LIMIT then 0 else DEPTH_LIMIT + 1 - depth
    case AVector(item) => Room(item)
    case AGroup(first, others) => if Room(first) > RoomOf(others) then Room(first) else RoomOf(others)
  }

  function RoomOf(shapes: Shapes): nat
    decreases shapes
  {
    if shapes.None? then 0 else if Room(shapes.first) > RoomOf(shapes.others) then Room(shapes.first) else RoomOf(shapes.others)
  }

  lemma RoomInside(tag: Byte, depth: nat)
    requires depth <= DEPTH_LIMIT && PartsOf(tag, depth).Known?
    ensures RoomOf(PartsOf(tag, depth).shapes) <= DEPTH_LIMIT - depth
  {
    assert Room(AValue(depth + 1)) <= DEPTH_LIMIT - depth;
    assert RoomOf(Then(AValue(depth + 1), None)) <= DEPTH_LIMIT - depth;
    assert Room(AGroup(AText, Then(AValue(depth + 1), None))) <= DEPTH_LIMIT - depth;
    assert Room(Fields(depth)) <= DEPTH_LIMIT - depth;
    assert RoomOf(Then(Fields(depth), None)) <= DEPTH_LIMIT - depth;
    assert Room(AGroup(AText, Then(Fields(depth), None))) <= DEPTH_LIMIT - depth;
  }

  /** Nothing is read that nests deeper than its shape lets it. */
  lemma {:induction false} NestsWithin(shape: Shape, t: Tree)
    requires Has(shape, t)
    ensures Nesting(t) <= Room(shape)
    decreases t
  {
    hide PartsOf, IsUtf8;
    match shape
    case AWidth =>
    case AFlag =>
    case AText =>
    case AValue(depth) =>
      RoomInside(t.tag, depth);
      PartsNest(PartsOf(t.tag, depth).shapes, t.parts);
    case AVector(item) => ItemsNest(item, t.items);
    case AGroup(first, others) => PartsNest(Then(first, others), t.parts);
  }

  lemma {:induction false} ItemsNest(item: Shape, ts: Trees)
    requires HasItems(item, ts)
    ensures NestingOf(ts) <= Room(item)
    decreases ts
  {
    hide Has, Room, Nesting;
    if ts.And? {
      NestsWithin(item, ts.first);
      ItemsNest(item, ts.others);
    }
  }

  lemma {:induction false} PartsNest(shapes: Shapes, ts: Trees)
    requires HasParts(shapes, ts)
    ensures NestingOf(ts) <= RoomOf(shapes)
    decreases ts
  {
    hide Has, Room, Nesting;
    if ts.And? {
      NestsWithin(shapes.first, ts.first);
      PartsNest(shapes.others, ts.others);
    }
  }

  /** An accepted contract's values are nested at most 33 deep: depths 0 to 32. */
  lemma ContractNests(bytes: seq<Byte>, contract: Tree)
    requires Accepted(bytes, contract)
    ensures Nesting(contract) <= 33
  {
    hide Accepted, ValidContract, Nesting, Has;
    ContractExact(bytes, contract);
    NestsWithin(CONTRACT, contract);
    assert Room(AValue(0)) == 33 && RoomOf(Then(AValue(0), None)) == 33;
    assert RoomOf(Then(AVector(AValue(0)), Then(AValue(0), None))) == 33;
    assert Room(METHOD) == 33;
    assert RoomOf(Then(AVector(METHOD), None)) == 33;
    assert RoomOf(Then(AVector(AText), Then(AFlag, Then(AVector(METHOD), None)))) == 33;
    assert Room(INTERFACE) == 33;
  }

  // ----- the cursor -----

  lemma CountIs(bytes: seq<Byte>, at: nat, k: nat)
    requires k <= 5
    ensures CountFrom(bytes, at, k) ==
            if k == 5 || at >= |bytes| || (k == 4 && bytes[at] > 15) then Bad
            else if bytes[at] < 128 then (if k > 0 && bytes[at] == 0 then Bad else Got(bytes[at], at + 1))
            else
              var rest := CountFrom(bytes, at + 1, k + 1);
              if rest.Bad? then Bad else Got(bytes[at] - 128 + 128 * rest.value, rest.at)
  {}

  class Reader {
    const bytes: seq<Byte>
    var at: nat

    constructor (bytes: seq<Byte>)
      ensures this.bytes == bytes && at == 0
    {
      this.bytes, at := bytes, 0;
    }

    /** `count` (host/package-contract.ts:143-160). */
    method Count() returns (r: Read<nat>)
      requires at <= |bytes|
      modifies this
      ensures r == ReadCount(bytes, old(at)) && (r.Got? ==> at == r.at)
    {
      hide Resumed, CountFrom;
      var count: nat, unit: nat := 0, 1;
      ResumedEnds(0, 1, 0, 0, CountFrom(bytes, at, 0));
      for k := 0 to 5
        invariant at <= |bytes| && CountFrom(bytes, old(at), 0) == Resumed(count, unit, CountFrom(bytes, at, k))
      {
        CountIs(bytes, at, k);
        if at >= |bytes| {
          ResumedEnds(count, unit, 0, 0, Bad);
          return Bad;
        }
        var b := bytes[at];
        if k == 4 && b > 15 {
          ResumedEnds(count, unit, 0, 0, Bad);
          return Bad;
        }
        if b < 128 {
          at := at + 1;
          ResumedEnds(count, unit, b, at, Bad);
          count := count + b * unit;
          return if (k > 0 && b == 0) || count > |bytes| - at then Bad else Got(count, at);
        }
        ResumedGroup(count, unit, b - 128, CountFrom(bytes, at + 1, k + 1));
        at := at + 1;
        count, unit := count + (b - 128) * unit, unit * 128;
      }
      CountIs(bytes, at, 5);
      ResumedEnds(count, unit, 0, 0, Bad);
      return Bad;
    }

    method Byte() returns (r: Read<Byte>)
      requires at <= |bytes|
      modifies this
      ensures if old(at) < |bytes| then r == Got(bytes[old(at)], at) && at == old(at) + 1 else r == Bad
    {
      if at >= |bytes| {
        return Bad;
      }
      at := at + 1;
      return Got(bytes[at - 1], at);
    }

    method String() returns (r: Read<seq<Byte>>)
      requires at <= |bytes|
      modifies this
      ensures r == ReadString(bytes, old(at)) && (r.Got? ==> at == r.at)
    {
      hide ReadCount, IsUtf8;
      var n := Count();
      if n.Bad? {
        return Bad;
      }
      var chunk := bytes[at..at + n.value];
      at := at + n.value;
      return if IsUtf8(chunk) then Got(chunk, at) else Bad;
    }

    /** `value` and the readers of what holds it (host/package-contract.ts:170-225). */
    method Tree(shape: Shape) returns (r: Read<Tree>)
      requires at <= |bytes|
      modifies this
      ensures r == ReadShape(shape, bytes, old(at)) && (r.Got? ==> at == r.at)
      decreases |bytes| - at, shape, 0
    {
      hide ReadCount, ReadString, PartsOf, ReadParts, ReadItems;
      match shape
      case AWidth =>
        var b := Byte();
        r := if b.Got? && Width(b.value) then Got(Number(b.value), at) else Bad;
      case AFlag =>
        var b := Byte();
        r := if b.Got? && b.value <= 1 then Got(Flag(b.value == 1), at) else Bad;
      case AText =>
        var text := String();
        r := if text.Got? then Got(Text(text.value), at) else Bad;
      case AValue(depth) =>
        if depth > DEPTH_LIMIT {
          return Bad;
        }
        var tag := Byte();
        if tag.Bad? || PartsOf(tag.value, depth).Unknown? {
          return Bad;
        }
        var parts := Parts(PartsOf(tag.value, depth).shapes);
        r := if parts.Got? then Got(Tagged(tag.value, parts.value), at) else Bad;
      case AVector(item) =>
        var n := Count();
        if n.Bad? {
          return Bad;
        }
        var items := Vector(item, n.value);
        r := if items.Got? then Got(Many(items.value), at) else Bad;
      case AGroup(first, others) =>
        var part := Tree(first);
        if part.Bad? {
          return Bad;
        }
        var parts := Parts(others);
        r := if parts.Got? then Got(Group(And(part.value, parts.value)), at) else Bad;
    }

    method Vector(item: Shape, n: nat) returns (r: Read<Trees>)
      requires at <= |bytes|
      modifies this
      ensures r == ReadItems(item, bytes, old(at), n) && (r.Got? ==> at == r.at)
      decreases |bytes| - at, item, n + 1
    {
      hide ReadShape;
      if n == 0 {
        return Got(End, at);
      }
      var first := Tree(item);
      if first.Bad? {
        return Bad;
      }
      var rest := Vector(item, n - 1);
      r := if rest.Got? then Got(And(first.value, rest.value), at) else Bad;
    }

    method Parts(shapes: Shapes) returns (r: Read<Trees>)
      requires at <= |bytes|
      modifies this
      ensures r == ReadParts(shapes, bytes, old(at)) && (r.Got? ==> at == r.at)
      decreases |bytes| - at, shapes, 0
    {
      hide ReadShape;
      if shapes.None? {
        return Got(End, at);
      }
      var first := Tree(shapes.first);
      if first.Bad? {
        return Bad;
      }
      var rest := Parts(shapes.others);
      r := if rest.Got? then Got(And(first.value, rest.value), at) else Bad;
    }
  }

  // ----- the validator's own loops -----

  /** `checkFields`: the names are unique, and each value is checked. */
  method CheckFields(fields: Trees, handles: set<Name>) returns (ok: bool)
    ensures ok <==> CheckedFields(fields, handles)
    decreases fields, 3
  {
    hide New, CheckedValue;
    var names, rest := {}, fields;
    ghost var done: seq<Name> := [];
    FieldsStart(fields);
    while rest.And?
      invariant rest == fields || rest < fields
      invariant FirstNames(fields) == done + FirstNames(rest) && New({}, done) && names == Set(done)
      invariant CheckedSeconds(fields, handles) <==> CheckedSeconds(rest, handles)
      decreases rest
    {
      var name := NameOf(Part(PartsIn(rest.first), 0));
      var fresh', more := CheckUnique(names, name);
      NewMore({}, done, name);
      NamesStep(done, rest);
      if !fresh' {
        NewPrefix({}, done + [name], FirstNames(rest.others));
        NewUnique(FirstNames(fields));
        return false;
      }
      if rest.first.Group? && rest.first.parts.And? && rest.first.parts.others.And? {
        var valid := CheckValue(rest.first.parts.others.first, handles);
        if !valid {
          return false;
        }
      }
      names, done := more, done + [name];
      rest := rest.others;
    }
    assert FirstNames(fields) == done;
    NewUnique(done);
    return true;
  }

  lemma FieldsStart(fields: Trees)
    ensures FirstNames(fields) == [] + FirstNames(fields) && New({}, []) && Set([]) == {}
  {}

  lemma NamesStep(done: seq<Name>, rest: Trees)
    requires rest.And?
    ensures done + FirstNames(rest) == done + [NameOf(Part(PartsIn(rest.first), 0))] + FirstNames(rest.others)
  {}

  lemma NewUnique(names: seq<Name>)
    ensures New({}, names) <==> Unique(names)
  {}

  /** The variants of a sum: unique names, and the fields of each checked. */
  method CheckCases(cases: Trees, handles: set<Name>) returns (ok: bool)
    ensures ok <==> Unique(FirstNames(cases)) && CheckedCases(cases, handles)
    decreases cases, 3
  {
    hide New, CheckedFields;
    var names, rest := {}, cases;
    ghost var done: seq<Name> := [];
    FieldsStart(cases);
    while rest.And?
      invariant rest == cases || rest < cases
      invariant FirstNames(cases) == done + FirstNames(rest) && New({}, done) && names == Set(done)
      invariant CheckedCases(cases, handles) <==> CheckedCases(rest, handles)
      decreases rest
    {
      var name := NameOf(Part(PartsIn(rest.first), 0));
      var fresh', more := CheckUnique(names, name);
      NewMore({}, done, name);
      NamesStep(done, rest);
      if !fresh' {
        NewPrefix({}, done + [name], FirstNames(rest.others));
        NewUnique(FirstNames(cases));
        return false;
      }
      if rest.first.Group? && rest.first.parts.And? && rest.first.parts.others.And? && rest.first.parts.others.first.Many? {
        var valid := CheckFields(rest.first.parts.others.first.items, handles);
        if !valid {
          return false;
        }
      }
      names, done := more, done + [name];
      rest := rest.others;
    }
    assert FirstNames(cases) == done;
    NewUnique(done);
    return true;
  }

  /** Each value of a list is checked. */
  method CheckAll(values: Trees, handles: set<Name>) returns (ok: bool)
    ensures ok <==> CheckedAll(values, handles)
    decreases values, 2
  {
    hide CheckedValue;
    var rest := values;
    while rest.And?
      invariant rest == values || rest < values
      invariant CheckedAll(values, handles) <==> CheckedAll(rest, handles)
      decreases rest
    {
      var valid := CheckValue(rest.first, handles);
      if !valid {
        return false;
      }
      rest := rest.others;
    }
    return true;
  }

  /** `checkValue`. */
  method CheckValue(value: Tree, handles: set<Name>) returns (ok: bool)
    ensures ok <==> CheckedValue(value, handles)
    decreases value, 1
  {
    hide CheckedAll, CheckedFields, CheckedCases, Unique, FirstNames;
    if !value.Tagged? {
      return true;
    }
    var tag := value.tag;
    if tag == 15 && NameOf(Part(value.parts, 0)) !in handles {
      return false;
    }
    ok := true;
    if tag == 8 || tag == 9 || tag == 13 {
      ok := CheckAll(value.parts, handles);
    }
    if value.parts.And? && value.parts.first.Many? {
      var items := value.parts.first.items;
      if tag == 10 {
        ok := CheckAll(items, handles);
      }
      if tag == 11 {
        ok := CheckFields(items, handles);
      }
      if tag == 12 {
        ok := CheckCases(items, handles);
      }
    }
  }

  /** An interface's selectors: each valid, and new among those before. */
  method CheckSelectors(item: Tree, seen: set<Name>) returns (ok: bool, after: set<Name>)
    ensures ok <==> AllSelect(item) && New(seen, TextsOf(Selectors(item)))
    ensures ok ==> after == seen + Set(TextsOf(Selectors(item)))
  {
    hide New, Selectors, ValidSelector;
    var selectors, names := Selectors(item), TextsOf(Selectors(item));
    after := seen;
    NewNone(seen);
    for i := 0 to |selectors|
      invariant New(seen, names[..i]) && after == seen + Set(names[..i])
      invariant forall j :: 0 <= j < i ==> ValidSelector(item, NameOf(selectors[j]))
    {
      if !ValidSelector(item, NameOf(selectors[i])) {
        return false, after;
      }
      NewMore(seen, names[..i], names[i]);
      assert names[..i + 1] == names[..i] + [names[i]] && names == names[..i + 1] + names[i + 1..];
      NewPrefix(seen, names[..i + 1], names[i + 1..]);
      ok, after := CheckUnique(after, names[i]);
      if !ok {
        return;
      }
    }
    assert names[..|names|] == names;
    ok := true;
  }

  predicate AllSelect(item: Tree) {
    forall i :: 0 <= i < |Selectors(item)| ==> ValidSelector(item, NameOf(Selectors(item)[i]))
  }

  lemma NewNone(seen: set<Name>)
    ensures New(seen, []) && seen + Set([]) == seen
  {}

  function MethodNames(methods: seq<Tree>): (names: seq<Name>)
    ensures |names| == |methods|
  {
    seq(|methods|, i requires 0 <= i < |methods| => MethodName(methods[i]))
  }

  /** The imports of one method join those before. */
  method CheckImports(m: Tree, seen: set<Name>, ghost before: seq<Name>) returns (ok: bool, after: set<Name>)
    requires New({}, before) && seen == Set(before)
    ensures ok <==> New({}, before + ImportsOf(m))
    ensures ok ==> after == Set(before + ImportsOf(m))
  {
    hide New, Waits, MethodName;
    var name := MethodName(m);
    if Waits(m) {
      NewMore({}, before, name + START);
      NewMore({}, before + [name + START], name + FINISH);
      assert before + ImportsOf(m) == before + [name + START] + [name + FINISH];
      ok, after := CheckUnique(seen, name + START);
      if !ok {
        return;
      }
      ok, after := CheckUnique(after, name + FINISH);
    } else {
      NewMore({}, before, name);
      assert before + ImportsOf(m) == before + [name];
      ok, after := CheckUnique(seen, name);
    }
  }

  /** An interface's methods: new names and imports, members, and their types. */
  method CheckMethods(item: Tree, handles: set<Name>) returns (ok: bool)
    ensures ok <==> MethodsValid(item, handles)
  {
    hide New, Methods, MethodName, ImportsOf, ValidMethod, CheckedAll, CheckedValue;
    var methods := Methods(item);
    ghost var all, release := MethodNames(methods), if IsHandle(item) then [RELEASE] else [];
    var names: set<Name>, imports := {}, if IsHandle(item) then {RELEASE} else {};
    MethodsStart(item);
    for i := 0 to |methods|
      invariant New({}, all[..i]) && names == Set(all[..i])
      invariant New({}, release + Imports(methods[..i])) && imports == Set(release + Imports(methods[..i]))
      invariant forall j :: 0 <= j < i ==> ValidMethod(methods[j], handles)
    {
      var m := methods[i];
      MethodsTurn(methods, i, release);
      NamesTurn(all, i);
      ok, names := CheckUnique(names, MethodName(m));
      if !ok {
        return;
      }
      if Member(m) == [] {
        MemberMissing(m, handles);
        return false;
      }
      ok, imports := CheckImports(m, imports, release + Imports(methods[..i]));
      if !ok {
        return;
      }
      ok := CheckAll(Params(m), handles);
      if ok {
        ok := CheckValue(ResultOf(m), handles);
      }
      MethodIs(m, handles);
      if !ok {
        return;
      }
    }
    assert methods[..|methods|] == methods && all[..|methods|] == all;
    ok := true;
  }

  predicate MethodsValid(item: Tree, handles: set<Name>) {
    && New({}, MethodNames(Methods(item)))
    && New({}, (if IsHandle(item) then [RELEASE] else []) + Imports(Methods(item)))
    && forall i :: 0 <= i < |Methods(item)| ==> ValidMethod(Methods(item)[i], handles)
  }

  lemma MethodsStart(item: Tree)
    ensures var release := if IsHandle(item) then [RELEASE] else [];
            New({}, release + Imports([])) && Set(release + Imports([])) == if IsHandle(item) then {RELEASE} else {}
    ensures New({}, []) && Set([]) == {}
  {
    var release := if IsHandle(item) then [RELEASE] else [];
    assert release + Imports([]) == release;
    SetOne(RELEASE);
  }

  lemma SetOne(name: Name)
    ensures Set([name]) == {name}
  {
    assert [name][0] == name;
  }

  /** One more name follows those before, and what is not new stays so. */
  lemma NamesTurn(names: seq<Name>, i: nat)
    requires i < |names|
    ensures Set(names[..i + 1]) == Set(names[..i]) + {names[i]}
    ensures New({}, names[..i + 1]) <==> New({}, names[..i]) && names[i] != [] && names[i] !in Set(names[..i])
    ensures New({}, names) ==> New({}, names[..i + 1])
  {
    hide New, Set;
    NewMore({}, names[..i], names[i]);
    assert names[..i + 1] == names[..i] + [names[i]] && names == names[..i + 1] + names[i + 1..];
    NewPrefix({}, names[..i + 1], names[i + 1..]);
  }

  lemma ImportsStep(methods: seq<Tree>, i: nat)
    requires i < |methods|
    ensures Imports(methods[..i + 1]) == Imports(methods[..i]) + ImportsOf(methods[i])
  {
    hide ImportsOf;
    assert methods[..i + 1][..i] == methods[..i];
  }

  /** One more method: its name and imports follow those before. */
  lemma MethodsTurn(methods: seq<Tree>, i: nat, release: seq<Name>)
    requires i < |methods|
    ensures MethodNames(methods)[i] == MethodName(methods[i])
    ensures release + Imports(methods[..i + 1]) == release + Imports(methods[..i]) + ImportsOf(methods[i])
    ensures New({}, release + Imports(methods)) ==> New({}, release + Imports(methods[..i + 1]))
  {
    hide New, ImportsOf, MethodName, Imports;
    var before, more, rest := Imports(methods[..i]), Imports(methods[..i + 1]), Imports(methods[i + 1..]);
    ImportsStep(methods, i);
    Regrouped(release, before, ImportsOf(methods[i]));
    ImportsJoin(methods, i + 1);
    Regrouped(release, more, rest);
    NewPrefix({}, release + more, rest);
  }

  lemma Regrouped(a: seq<Name>, b: seq<Name>, c: seq<Name>)
    ensures a + (b + c) == a + b + c
  {}

  lemma Sliced(s: seq<Tree>, n: nat)
    requires n < |s|
    ensures var last := |s| - 1;
            s[..last][..n] == s[..n] && s[..last][n..] == s[n..][..last - n] && s[n..][last - n] == s[last] && |s[n..]| == last - n + 1
  {}

  lemma {:induction false} ImportsJoin(methods: seq<Tree>, n: nat)
    requires n <= |methods|
    ensures Imports(methods) == Imports(methods[..n]) + Imports(methods[n..])
    decreases |methods|
  {
    hide ImportsOf;
    if n == |methods| {
      assert methods[..n] == methods;
    } else {
      var last := |methods| - 1;
      ImportsJoin(methods[..last], n);
      Sliced(methods, n);
    }
  }

  lemma MemberMissing(m: Tree, handles: set<Name>)
    ensures Member(m) == [] ==> !ValidMethod(m, handles)
  {}

  lemma MethodIs(m: Tree, handles: set<Name>)
    ensures ValidMethod(m, handles) <==> Member(m) != [] && CheckedAll(Params(m), handles) && CheckedValue(ResultOf(m), handles)
  {}

  lemma ItemIs(item: Tree, handles: set<Name>)
    ensures ValidItem(item, handles) <==>
            Package(item) != [] && TraitPath(item) != [] && MODULE_PREFIX < ModuleName(item) && AllSelect(item) && MethodsValid(item, handles)
  {
    hide ValidSelector, ValidMethod, CheckedAll, CheckedValue, Unique;
    NewUnique(MethodNames(Methods(item)));
    NewUnique((if IsHandle(item) then [RELEASE] else []) + Imports(Methods(item)));
  }

  /** `validateContract`: the sets of identities, modules and selectors grow interface by interface. */
  method ValidateContract(contract: Tree) returns (ok: bool)
    ensures ok <==> ValidContract(contract)
  {
    hide ValidItem, New, Set, AllSelect, MethodsValid, ModuleName, Unique, Items, PartsIn, Identity, Selectors, TextsOf, SelectorNames;
    var items := Items(PartsIn(contract));
    var handles := Handles(items);
    ghost var names, texts := ModuleNames(items), SelectorNames(items);
    var identities: set<(Name, Name, Name, bool)>, modules: set<Name>, selectors: set<Name> := {}, {}, {};
    ItemsStart(items);
    NewUnique(names);
    NewUnique(texts);
    for i := 0 to |items|
      invariant identities == set j | 0 <= j < i :: Identity(items[j])
      invariant forall j, k :: 0 <= j < k < i ==> Identity(items[j]) != Identity(items[k])
      invariant New({}, names[..i]) && modules == Set(names[..i])
      invariant New({}, SelectorNames(items[..i])) && selectors == Set(SelectorNames(items[..i]))
      invariant forall j :: 0 <= j < i ==> ValidItem(items[j], handles)
    {
      var item := items[i];
      ItemIs(item, handles);
      ItemsTurn(items, i);
      NamesTurn(names, i);
      if Package(item) == [] || TraitPath(item) == [] || !(MODULE_PREFIX < ModuleName(item)) || Identity(item) in identities {
        return false;
      }
      identities := identities + {Identity(item)};
      ok, modules := CheckUnique(modules, ModuleName(item));
      if !ok {
        return;
      }
      ok, selectors := CheckSelectors(item, selectors);
      if !ok {
        return;
      }
      ok := CheckMethods(item, handles);
      if !ok {
        return;
      }
    }
    assert items[..|items|] == items && names[..|items|] == names;
    ok := true;
  }

  lemma ItemsStart(items: seq<Tree>)
    ensures New({}, ModuleNames(items)[..0]) && Set(ModuleNames(items)[..0]) == {}
    ensures New({}, SelectorNames(items[..0])) && Set(SelectorNames(items[..0])) == {}
  {
    assert items[..0] == [];
  }

  function ModuleNames(items: seq<Tree>): (names: seq<Name>)
    ensures |names| == |items|
  {
    seq(|items|, i requires 0 <= i < |items| => ModuleName(items[i]))
  }

  lemma NewJoins(a: seq<Name>, b: seq<Name>)
    ensures New({}, a + b) <==> New({}, a) && New(Set(a), b)
    ensures Set(a + b) == Set(a) + Set(b)
  {
    var s := a + b;
    assert forall i :: 0 <= i < |a| ==> s[i] == a[i];
    assert forall i :: 0 <= i < |b| ==> s[|a| + i] == b[i];
    if New({}, a) && New(Set(a), b) {
      forall i, j | 0 <= i < j < |s|
        ensures s[i] != s[j]
      {
        if i < |a| <= j {
          assert a[i] in Set(a) && s[j] == b[j - |a|];
        }
      }
    }
    if New({}, s) {
      forall j | 0 <= j < |b|
        ensures b[j] !in Set(a)
      {
        assert s[|a| + j] == b[j];
      }
    }
  }

  /** One more interface: its selectors follow those before, and what is not new stays so. */
  lemma ItemsTurn(items: seq<Tree>, i: nat)
    requires i < |items|
    ensures var before, texts := SelectorNames(items[..i]), TextsOf(Selectors(items[i]));
            && SelectorNames(items[..i + 1]) == before + texts
            && Set(before + texts) == Set(before) + Set(texts)
            && (New({}, before + texts) <==> New({}, before) && New(Set(before), texts))
            && (New({}, SelectorNames(items)) ==> New({}, before + texts))
  {
    hide New, Set, Selectors, TextsOf;
    var before, texts := SelectorNames(items[..i]), TextsOf(Selectors(items[i]));
    NewJoins(before, texts);
    assert items[..i + 1][..i] == items[..i];
    SelectorsJoin(items, i + 1);
    NewPrefix({}, SelectorNames(items[..i + 1]), SelectorNames(items[i + 1..]));
  }

  lemma {:induction false} SelectorsJoin(items: seq<Tree>, n: nat)
    requires n <= |items|
    ensures SelectorNames(items) == SelectorNames(items[..n]) + SelectorNames(items[n..])
    decreases |items|
  {
    hide Selectors, TextsOf;
    if n == |items| {
      assert items[..n] == items;
    } else {
      var last := |items| - 1;
      SelectorsJoin(items[..last], n);
      Sliced(items, n);
    }
  }

  /** `readPackageContract`: the contract, exactly when the bytes are its one form and it is valid. */
  method ReadPackageContract(bytes: seq<Byte>) returns (r: Read<Tree>)
    ensures match r { case Got(contract, _) => Accepted(bytes, contract) case Bad => forall contract :: !Accepted(bytes, contract) }
  {
    hide ReadShape, ValidContract;
    var reader := new Reader(bytes);
    for i := 0 to 4
      invariant reader.at == i <= |bytes| && reader.bytes == bytes && fresh(reader) && bytes[..i] == VERSION[..i]
    {
      var b := reader.Byte();
      if b.Bad? || b.value != VERSION[i] {
        assert |bytes| >= 4 ==> bytes[..4][i] == bytes[i];
        return Bad;
      }
      assert bytes[..i + 1] == bytes[..i] + [bytes[i]];
    }
    var contract := reader.Tree(CONTRACT);
    if contract.Bad? || reader.at != |bytes| {
      return Bad;
    }
    var ok := ValidateContract(contract.value);
    return if ok then contract else Bad;
  }
}
