/** A contract's types as the program's own, their bytes and their rules (host/package-contract.ts:6-15, 57-92, 173-208). */
module ContractTypes {
  import opened ByteStrings
  import opened PackageContract

  datatype Type =
    | Unit
    | Bool
    | Char
    | Int(bits: Byte, signed: bool)
    | Float32
    | Float64
    | Str
    | Bytes
    | ListOf(item: Type)
    | Maybe(value: Type)
    | Tuple(items: Types)
    | Record(fields: FieldList)
    | Enum(cases: CaseList)
    | Result(ok: Type, err: Type)
    | Json
    | Handle(host: Name)

  datatype Types = NoTypes | Typed(first: Type, others: Types)

  datatype FieldList = NoFields | Field(name: Name, value: Type, others: FieldList)

  datatype CaseList = NoCases | Case(name: Name, fields: FieldList, others: CaseList)

  function TypeCount(ts: Types): nat {
    if ts.NoTypes? then 0 else 1 + TypeCount(ts.others)
  }

  function FieldCount(fs: FieldList): nat {
    if fs.NoFields? then 0 else 1 + FieldCount(fs.others)
  }

  function CaseCount(cs: CaseList): nat {
    if cs.NoCases? then 0 else 1 + CaseCount(cs.others)
  }

  // ----- the bytes -----

  function FlagByte(on: bool): Byte {
    if on then 1 else 0
  }

  /** A type's tag, then what it is made of. */
  function TypeBytes(t: Type): seq<Byte>
    decreases t, 1
  {
    match t
    case Unit => [0]
    case Bool => [1]
    case Char => [2]
    case Int(bits, signed) => [3, bits, FlagByte(signed)]
    case Float32 => [4]
    case Float64 => [5]
    case Str => [6]
    case Bytes => [7]
    case ListOf(item) => [8] + TypeBytes(item)
    case Maybe(value) => [9] + TypeBytes(value)
    case Tuple(items) => [10] + (Uleb(TypeCount(items)) + TypesBytes(items))
    case Record(fields) => [11] + (Uleb(FieldCount(fields)) + FieldsBytes(fields))
    case Enum(cases) => [12] + (Uleb(CaseCount(cases)) + CasesBytes(cases))
    case Result(ok, err) => [13] + (TypeBytes(ok) + TypeBytes(err))
    case Json => [14]
    case Handle(host) => [15] + Block(host)
  }

  function TypesBytes(ts: Types): seq<Byte>
    decreases ts, 0
  {
    if ts.NoTypes? then [] else TypeBytes(ts.first) + TypesBytes(ts.others)
  }

  function FieldsBytes(fs: FieldList): seq<Byte>
    decreases fs, 0
  {
    if fs.NoFields? then [] else Block(fs.name) + TypeBytes(fs.value) + FieldsBytes(fs.others)
  }

  function CasesBytes(cs: CaseList): seq<Byte>
    decreases cs, 0
  {
    if cs.NoCases? then [] else Block(cs.name) + (Uleb(FieldCount(cs.fields)) + FieldsBytes(cs.fields)) + CasesBytes(cs.others)
  }

  // ----- which types a contract can hold -----

  predicate IsText(name: Name) {
    |name| < 0x1_0000_0000 && IsUtf8(name)
  }

  /** Nested no deeper than 32 below its start, with known widths, well-formed names and 32-bit counts. */
  predicate Sound(t: Type, depth: nat)
    decreases t, 1
  {
    && depth <= 32
    && match t
       case Int(bits, _) => bits == 8 || bits == 16 || bits == 32 || bits == 64
       case ListOf(item) => Sound(item, depth + 1)
       case Maybe(value) => Sound(value, depth + 1)
       case Tuple(items) => TypeCount(items) < 0x1_0000_0000 && SoundTypes(items, depth + 1)
       case Record(fields) => FieldCount(fields) < 0x1_0000_0000 && SoundFields(fields, depth + 1)
       case Enum(cases) => CaseCount(cases) < 0x1_0000_0000 && SoundCases(cases, depth + 1)
       case Result(ok, err) => Sound(ok, depth + 1) && Sound(err, depth + 1)
       case Handle(host) => IsText(host)
       case _ => true
  }

  predicate SoundTypes(ts: Types, depth: nat)
    decreases ts, 0
  {
    ts.NoTypes? || (Sound(ts.first, depth) && SoundTypes(ts.others, depth))
  }

  predicate SoundFields(fs: FieldList, depth: nat)
    decreases fs, 0
  {
    fs.NoFields? || (IsText(fs.name) && Sound(fs.value, depth) && SoundFields(fs.others, depth))
  }

  predicate SoundCases(cs: CaseList, depth: nat)
    decreases cs, 0
  {
    cs.NoCases? ||
    (IsText(cs.name) && FieldCount(cs.fields) < 0x1_0000_0000 && SoundFields(cs.fields, depth) && SoundCases(cs.others, depth))
  }

  // ----- the trees that the decoder makes of them -----

  function One(t: Tree): Trees {
    And(t, End)
  }

  function Two(t: Tree, u: Tree): Trees {
    And(t, And(u, End))
  }

  function TreeOf(t: Type): Tree
    decreases t, 1
  {
    match t
    case Unit => Tagged(0, End)
    case Bool => Tagged(1, End)
    case Char => Tagged(2, End)
    case Int(bits, signed) => Tagged(3, Two(Number(bits), Flag(signed)))
    case Float32 => Tagged(4, End)
    case Float64 => Tagged(5, End)
    case Str => Tagged(6, End)
    case Bytes => Tagged(7, End)
    case ListOf(item) => Tagged(8, One(TreeOf(item)))
    case Maybe(value) => Tagged(9, One(TreeOf(value)))
    case Tuple(items) => Tagged(10, One(Many(TypeTrees(items))))
    case Record(fields) => Tagged(11, One(Many(FieldTrees(fields))))
    case Enum(cases) => Tagged(12, One(Many(CaseTrees(cases))))
    case Result(ok, err) => Tagged(13, Two(TreeOf(ok), TreeOf(err)))
    case Json => Tagged(14, End)
    case Handle(host) => Tagged(15, One(Text(host)))
  }

  function TypeTrees(ts: Types): Trees
    decreases ts, 0
  {
    if ts.NoTypes? then End else And(TreeOf(ts.first), TypeTrees(ts.others))
  }

  function FieldTrees(fs: FieldList): Trees
    decreases fs, 0
  {
    if fs.NoFields? then End else And(Group(Two(Text(fs.name), TreeOf(fs.value))), FieldTrees(fs.others))
  }

  function CaseTrees(cs: CaseList): Trees
    decreases cs, 0
  {
    if cs.NoCases? then End else And(Group(Two(Text(cs.name), Many(FieldTrees(cs.fields)))), CaseTrees(cs.others))
  }

  // ----- a type's tree is written as the type's bytes -----

  lemma WritesOne(t: Tree)
    ensures WriteAll(One(t)) == Write(t)
  {
    hide Write;
    assert Write(t) + [] == Write(t);
  }

  lemma WritesTwo(t: Tree, u: Tree)
    ensures WriteAll(Two(t, u)) == Write(t) + Write(u)
  {
    hide Write;
    assert WriteAll(One(u)) == Write(u) + [] == Write(u);
    assert WriteAll(Two(t, u)) == Write(t) + WriteAll(One(u));
  }

  lemma WritesNone()
    ensures WriteAll(End) == []
  {}

  lemma WritesLeaves(bits: Byte, signed: bool, host: Name)
    ensures Write(Number(bits)) == [bits] && Write(Flag(signed)) == [FlagByte(signed)] && Write(Text(host)) == Block(host)
  {
    hide Block;
  }

  lemma WritesTagged(tag: Byte, parts: Trees)
    ensures Write(Tagged(tag, parts)) == [tag] + WriteAll(parts)
  {
    hide WriteAll;
  }

  lemma WritesMany(tag: Byte, items: Trees)
    ensures Write(Tagged(tag, One(Many(items)))) == [tag] + (Uleb(Length(items)) + WriteAll(items))
  {
    hide WriteAll, Uleb, Length;
    WritesOne(Many(items));
  }

  lemma {:induction false} WritesType(t: Type)
    ensures Write(TreeOf(t)) == TypeBytes(t)
    decreases t, 1
  {
    hide Write, WriteAll, Block, Uleb, FlagByte, Length;
    WritesNone();
    var tree := TreeOf(t);
    WritesTagged(tree.tag, tree.parts);
    match t
    case Int(bits, signed) =>
      WritesTwo(Number(bits), Flag(signed));
      WritesLeaves(bits, signed, []);
      assert [3 as Byte] + ([bits] + [FlagByte(signed)]) == [3, bits, FlagByte(signed)];
    case ListOf(item) => WritesOne(TreeOf(item)); WritesType(item);
    case Maybe(value) => WritesOne(TreeOf(value)); WritesType(value);
    case Tuple(items) => WritesMany(10, TypeTrees(items)); WritesTypes(items);
    case Record(fields) => WritesMany(11, FieldTrees(fields)); WritesFields(fields);
    case Enum(cases) => WritesMany(12, CaseTrees(cases)); WritesCases(cases);
    case Result(ok, err) => WritesTwo(TreeOf(ok), TreeOf(err)); WritesType(ok); WritesType(err);
    case Handle(host) => WritesOne(Text(host)); WritesLeaves(0, false, host);
    case _ => assert [tree.tag] + [] == [tree.tag];
  }

  lemma {:induction false} WritesTypes(ts: Types)
    ensures WriteAll(TypeTrees(ts)) == TypesBytes(ts) && Length(TypeTrees(ts)) == TypeCount(ts)
    decreases ts, 0
  {
    hide Write, TreeOf, TypeBytes;
    if ts.Typed? {
      WritesType(ts.first);
      WritesTypes(ts.others);
    }
  }

  lemma {:induction false} WritesFields(fs: FieldList)
    ensures WriteAll(FieldTrees(fs)) == FieldsBytes(fs) && Length(FieldTrees(fs)) == FieldCount(fs)
    decreases fs, 0
  {
    hide TreeOf, TypeBytes, Block;
    if fs.Field? {
      WritesTwo(Text(fs.name), TreeOf(fs.value));
      WritesType(fs.value);
      WritesFields(fs.others);
    }
  }

  lemma {:induction false} WritesCases(cs: CaseList)
    ensures WriteAll(CaseTrees(cs)) == CasesBytes(cs) && Length(CaseTrees(cs)) == CaseCount(cs)
    decreases cs, 0
  {
    hide FieldTrees, FieldsBytes, Block, Uleb;
    if cs.Case? {
      WritesTwo(Text(cs.name), Many(FieldTrees(cs.fields)));
      WritesFields(cs.fields);
      WritesCases(cs.others);
    }
  }

  // ----- the trees of a value's shape are those of the sound types -----

  function FieldShape(depth: nat): Shape {
    AGroup(AText, Then(AValue(depth), None))
  }

  function CaseShape(depth: nat): Shape {
    AGroup(AText, Then(AVector(FieldShape(depth + 1)), None))
  }

  lemma HasTwo(first: Shape, second: Shape, ts: Trees)
    ensures HasParts(Then(first, Then(second, None)), ts) <==>
            ts.And? && ts.others.And? && ts.others.others.End? && Has(first, ts.first) && Has(second, ts.others.first)
    ensures HasParts(Then(first, None), ts) <==> ts.And? && ts.others.End? && Has(first, ts.first)
  {
    hide Has;
    if ts.And? {
      assert HasParts(Then(first, None), ts) <==> Has(first, ts.first) && HasParts(None, ts.others);
      if ts.others.And? {
        assert HasParts(Then(second, None), ts.others) <==> Has(second, ts.others.first) && HasParts(None, ts.others.others);
      }
    }
  }

  lemma HasText(t: Tree)
    ensures Has(AText, t) <==> t.Text? && IsText(t.text)
  {}

  lemma HasGroup(first: Shape, second: Shape, t: Tree)
    ensures Has(AGroup(first, Then(second, None)), t) <==>
            && t.Group? && t.parts.And? && t.parts.others.And? && t.parts.others.others.End?
            && Has(first, t.parts.first) && Has(second, t.parts.others.first)
  {
    if t.Group? {
      HasTwo(first, second, t.parts);
    }
    hide HasParts;
  }

  /** The parts of a tagged value, by its tag. */
  lemma HasTagged(t: Tree, depth: nat)
    requires t.Tagged?
    ensures Has(AValue(depth), t) <==>
            && depth <= 32 && t.tag <= 15
            && (if t.tag == 3 then HasParts(Then(AWidth, Then(AFlag, None)), t.parts)
                else if t.tag == 8 || t.tag == 9 then HasParts(Then(AValue(depth + 1), None), t.parts)
                else if t.tag == 10 then HasParts(Then(AVector(AValue(depth + 1)), None), t.parts)
                else if t.tag == 11 then HasParts(Then(AVector(FieldShape(depth + 1)), None), t.parts)
                else if t.tag == 12 then HasParts(Then(AVector(CaseShape(depth)), None), t.parts)
                else if t.tag == 13 then HasParts(Then(AValue(depth + 1), Then(AValue(depth + 1), None)), t.parts)
                else if t.tag == 15 then HasParts(Then(AText, None), t.parts)
                else t.parts.End?)
  {
    hide HasParts;
    assert HasParts(None, t.parts) == t.parts.End? by { NoParts(t.parts); }
  }

  lemma NoParts(ts: Trees)
    ensures HasParts(None, ts) == ts.End?
  {}

  lemma {:induction false} HasType(t: Type, depth: nat)
    requires Sound(t, depth)
    ensures Has(AValue(depth), TreeOf(t))
    decreases t, 1
  {
    var tree := TreeOf(t);
    HasTagged(tree, depth);
    hide HasParts, Has, IsText;
    match t
    case Int(bits, signed) =>
      HasTwo(AWidth, AFlag, tree.parts);
      HasNumber(bits, signed);
    case ListOf(item) => HasTwo(AValue(depth + 1), AFlag, tree.parts); HasType(item, depth + 1);
    case Maybe(value) => HasTwo(AValue(depth + 1), AFlag, tree.parts); HasType(value, depth + 1);
    case Tuple(items) =>
      HasTwo(AVector(AValue(depth + 1)), AFlag, tree.parts);
      WritesTypes(items);
      HasMany(AValue(depth + 1), tree.parts.first);
      HasTypes(items, depth + 1);
    case Record(fields) =>
      HasTwo(AVector(FieldShape(depth + 1)), AFlag, tree.parts);
      WritesFields(fields);
      HasMany(FieldShape(depth + 1), tree.parts.first);
      HasFields(fields, depth + 1);
    case Enum(cases) =>
      HasTwo(AVector(CaseShape(depth)), AFlag, tree.parts);
      WritesCases(cases);
      HasMany(CaseShape(depth), tree.parts.first);
      HasCases(cases, depth);
    case Result(ok, err) =>
      HasTwo(AValue(depth + 1), AValue(depth + 1), tree.parts);
      HasType(ok, depth + 1);
      HasType(err, depth + 1);
    case Handle(host) => HasTwo(AText, AFlag, tree.parts); HasText(Text(host));
    case _ =>
  }

  lemma HasNumber(bits: Byte, signed: bool)
    ensures Has(AWidth, Number(bits)) <==> bits == 8 || bits == 16 || bits == 32 || bits == 64
    ensures Has(AFlag, Flag(signed))
  {}

  lemma HasMany(item: Shape, t: Tree)
    ensures Has(AVector(item), t) <==> t.Many? && Length(t.items) < 0x1_0000_0000 && HasItems(item, t.items)
  {}

  lemma {:induction false} HasTypes(ts: Types, depth: nat)
    requires SoundTypes(ts, depth)
    ensures HasItems(AValue(depth), TypeTrees(ts))
    decreases ts, 0
  {
    hide Has, Sound, TreeOf;
    if ts.Typed? {
      HasType(ts.first, depth);
      HasTypes(ts.others, depth);
    }
  }

  lemma {:induction false} HasFields(fs: FieldList, depth: nat)
    requires SoundFields(fs, depth)
    ensures HasItems(FieldShape(depth), FieldTrees(fs))
    decreases fs, 0
  {
    hide Has, Sound, TreeOf, IsText;
    if fs.Field? {
      HasGroup(AText, AValue(depth), Group(Two(Text(fs.name), TreeOf(fs.value))));
      HasText(Text(fs.name));
      HasType(fs.value, depth);
      HasFields(fs.others, depth);
    }
  }

  lemma {:induction false} HasCases(cs: CaseList, depth: nat)
    requires SoundCases(cs, depth + 1)
    ensures HasItems(CaseShape(depth), CaseTrees(cs))
    decreases cs, 0
  {
    hide Has, FieldTrees, IsText;
    if cs.Case? {
      var fields := Many(FieldTrees(cs.fields));
      HasGroup(AText, AVector(FieldShape(depth + 1)), Group(Two(Text(cs.name), fields)));
      HasText(Text(cs.name));
      WritesFields(cs.fields);
      HasFields(cs.fields, depth + 1);
      HasMany(FieldShape(depth + 1), fields);
      HasCases(cs.others, depth);
    }
  }

  lemma {:induction false} TypeFrom(tree: Tree, depth: nat) returns (t: Type)
    requires Has(AValue(depth), tree)
    ensures Sound(t, depth) && TreeOf(t) == tree
    decreases tree, 2
  {
    IsTagged(tree, depth);
    HasTagged(tree, depth);
    hide HasParts, Has, IsText;
    var parts := tree.parts;
    if tree.tag == 3 {
      HasTwo(AWidth, AFlag, parts);
      NumberFrom(parts.first);
      FlagFrom(parts.others.first);
      t := Int(parts.first.byte, parts.others.first.on);
      HasNumber(t.bits, t.signed);
    } else if tree.tag == 8 {
      HasTwo(AValue(depth + 1), AFlag, parts);
      var item := TypeFrom(parts.first, depth + 1);
      t := ListOf(item);
    } else if tree.tag == 9 {
      HasTwo(AValue(depth + 1), AFlag, parts);
      var value := TypeFrom(parts.first, depth + 1);
      t := Maybe(value);
    } else if 10 <= tree.tag <= 12 {
      t := ListedFrom(tree, depth);
    } else if tree.tag == 13 {
      HasTwo(AValue(depth + 1), AValue(depth + 1), parts);
      var ok := TypeFrom(parts.first, depth + 1);
      var err := TypeFrom(parts.others.first, depth + 1);
      t := Result(ok, err);
    } else if tree.tag == 15 {
      HasTwo(AText, AFlag, parts);
      HasText(parts.first);
      t := Handle(parts.first.text);
    } else {
      t := PlainType(tree.tag);
    }
  }

  lemma {:induction false} ListedFrom(tree: Tree, depth: nat) returns (t: Type)
    requires Has(AValue(depth), tree) && tree.Tagged? && 10 <= tree.tag <= 12
    ensures Sound(t, depth) && TreeOf(t) == tree
    decreases tree, 1
  {
    HasTagged(tree, depth);
    hide HasParts, Has, IsText, HasItems;
    var parts := tree.parts;
    if tree.tag == 10 {
      HasTwo(AVector(AValue(depth + 1)), AFlag, parts);
      HasMany(AValue(depth + 1), parts.first);
      var items := TypesFrom(parts.first.items, depth + 1);
      WritesTypes(items);
      t := Tuple(items);
    } else if tree.tag == 11 {
      HasTwo(AVector(FieldShape(depth + 1)), AFlag, parts);
      HasMany(FieldShape(depth + 1), parts.first);
      var fields := FieldsFrom(parts.first.items, depth + 1);
      WritesFields(fields);
      t := Record(fields);
    } else {
      HasTwo(AVector(CaseShape(depth)), AFlag, parts);
      HasMany(CaseShape(depth), parts.first);
      var cases := CasesFrom(parts.first.items, depth);
      WritesCases(cases);
      t := Enum(cases);
    }
  }

  function PlainType(tag: Byte): Type {
    match tag
    case 0 => Unit
    case 1 => Bool
    case 2 => Char
    case 4 => Float32
    case 5 => Float64
    case 6 => Str
    case 7 => Bytes
    case _ => Json
  }

  lemma IsTagged(tree: Tree, depth: nat)
    requires Has(AValue(depth), tree)
    ensures tree.Tagged?
  {}

  lemma NumberFrom(t: Tree)
    requires Has(AWidth, t)
    ensures t.Number?
  {}

  lemma FlagFrom(t: Tree)
    requires Has(AFlag, t)
    ensures t.Flag?
  {}

  lemma {:induction false} TypesFrom(trees: Trees, depth: nat) returns (ts: Types)
    requires HasItems(AValue(depth), trees)
    ensures SoundTypes(ts, depth) && TypeTrees(ts) == trees
    decreases trees, 0
  {
    hide Has, Sound, TreeOf;
    if trees.End? {
      ts := NoTypes;
    } else {
      var first := TypeFrom(trees.first, depth);
      var others := TypesFrom(trees.others, depth);
      ts := Typed(first, others);
    }
  }

  lemma {:induction false} FieldsFrom(trees: Trees, depth: nat) returns (fs: FieldList)
    requires HasItems(FieldShape(depth), trees)
    ensures SoundFields(fs, depth) && FieldTrees(fs) == trees
    decreases trees, 0
  {
    hide Has, Sound, TreeOf, IsText;
    if trees.End? {
      fs := NoFields;
    } else {
      HasGroup(AText, AValue(depth), trees.first);
      HasText(trees.first.parts.first);
      var value := TypeFrom(trees.first.parts.others.first, depth);
      var others := FieldsFrom(trees.others, depth);
      fs := Field(trees.first.parts.first.text, value, others);
    }
  }

  lemma {:induction false} CasesFrom(trees: Trees, depth: nat) returns (cs: CaseList)
    requires HasItems(CaseShape(depth), trees)
    ensures SoundCases(cs, depth + 1) && CaseTrees(cs) == trees
    decreases trees, 0
  {
    hide Has, FieldTrees, IsText, SoundFields;
    if trees.End? {
      cs := NoCases;
    } else {
      HasGroup(AText, AVector(FieldShape(depth + 1)), trees.first);
      var parts := trees.first.parts;
      HasText(parts.first);
      HasMany(FieldShape(depth + 1), parts.others.first);
      var fields := FieldsFrom(parts.others.first.items, depth + 1);
      WritesFields(fields);
      var others := CasesFrom(trees.others, depth);
      cs := Case(parts.first.text, fields, others);
    }
  }
}
