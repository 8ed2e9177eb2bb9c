/**
 * The whole contract in the program's own terms: its interfaces, their bytes and the rules they keep
 * (host/package-contract.ts:16-123, 210-230).
 */
module ContractInterfaces {
  import opened ByteStrings
  import opened PackageContract
  import opened ContractTypes

  datatype Method = Method(name: Name, member: Name, waits: bool, params: Types, result: Type)

  datatype Interface = Interface(
    package: Name, version: Name, traitPath: Name, host: Name, selectors: seq<Name>, handle: bool, methods: seq<Method>)

  // ----- the bytes -----

  function MethodBytes(m: Method): seq<Byte> {
    Block(m.name) + Block(m.member) + [FlagByte(m.waits)] + Uleb(TypeCount(m.params)) + TypesBytes(m.params) + TypeBytes(m.result)
  }

  function MethodsBytes(ms: seq<Method>): seq<Byte> {
    if ms == [] then [] else MethodBytes(ms[0]) + MethodsBytes(ms[1..])
  }

  function NamesBytes(names: seq<Name>): seq<Byte> {
    if names == [] then [] else Block(names[0]) + NamesBytes(names[1..])
  }

  function InterfaceBytes(i: Interface): seq<Byte> {
    Block(i.package) + Block(i.version) + Block(i.traitPath) + Block(i.host) + Uleb(|i.selectors|) + NamesBytes(i.selectors)
    + [FlagByte(i.handle)] + Uleb(|i.methods|) + MethodsBytes(i.methods)
  }

  function InterfacesBytes(contract: seq<Interface>): seq<Byte> {
    if contract == [] then [] else InterfaceBytes(contract[0]) + InterfacesBytes(contract[1..])
  }

  /** The ABI version, then the interfaces. */
  function ContractBytes(contract: seq<Interface>): seq<Byte> {
    [1, 0, 0, 0] + (Uleb(|contract|) + InterfacesBytes(contract))
  }

  // ----- what fits the widths -----

  predicate SoundMethod(m: Method) {
    && IsText(m.name) && IsText(m.member)
    && TypeCount(m.params) < 0x1_0000_0000 && SoundTypes(m.params, 0) && Sound(m.result, 0)
  }

  predicate SoundInterface(i: Interface) {
    && IsText(i.package) && IsText(i.version) && IsText(i.traitPath) && IsText(i.host)
    && |i.selectors| < 0x1_0000_0000 && (forall k :: 0 <= k < |i.selectors| ==> IsText(i.selectors[k]))
    && |i.methods| < 0x1_0000_0000 && forall k :: 0 <= k < |i.methods| ==> SoundMethod(i.methods[k])
  }

  predicate SoundContract(contract: seq<Interface>) {
    |contract| < 0x1_0000_0000 && forall i :: 0 <= i < |contract| ==> SoundInterface(contract[i])
  }

  // ----- the trees -----

  function NameTrees(names: seq<Name>): Trees {
    if names == [] then End else And(Text(names[0]), NameTrees(names[1..]))
  }

  function MethodTree(m: Method): Tree {
    Group(And(Text(m.name), And(Text(m.member), And(Flag(m.waits), And(Many(TypeTrees(m.params)), And(TreeOf(m.result), End))))))
  }

  function MethodTrees(ms: seq<Method>): Trees {
    if ms == [] then End else And(MethodTree(ms[0]), MethodTrees(ms[1..]))
  }

  function InterfaceTree(i: Interface): Tree {
    Group(And(Text(i.package), And(Text(i.version), And(Text(i.traitPath), And(Text(i.host), And(Many(NameTrees(i.selectors)),
          And(Flag(i.handle), And(Many(MethodTrees(i.methods)), End))))))))
  }

  function InterfaceTrees(contract: seq<Interface>): Trees {
    if contract == [] then End else And(InterfaceTree(contract[0]), InterfaceTrees(contract[1..]))
  }

  function ContractTree(contract: seq<Interface>): Tree {
    Many(InterfaceTrees(contract))
  }

  // ----- the trees are written as the bytes -----

  lemma WritesAnd(t: Tree, ts: Trees)
    ensures WriteAll(And(t, ts)) == Write(t) + WriteAll(ts)
  {
    hide Write;
  }

  lemma {:induction false} WritesNames(names: seq<Name>)
    ensures WriteAll(NameTrees(names)) == NamesBytes(names) && Length(NameTrees(names)) == |names|
    decreases |names|
  {
    hide Block;
    if names != [] {
      WritesNames(names[1..]);
    }
  }

  lemma WritesMethod(m: Method)
    ensures Write(MethodTree(m)) == MethodBytes(m)
  {
    var e := And(TreeOf(m.result), End);
    var d := And(Many(TypeTrees(m.params)), e);
    var c := And(Flag(m.waits), d);
    var b := And(Text(m.member), c);
    WritesType(m.result);
    WritesTypes(m.params);
    WritesNone();
    assert Write(Many(TypeTrees(m.params))) == Uleb(TypeCount(m.params)) + TypesBytes(m.params);
    assert Write(Flag(m.waits)) == [FlagByte(m.waits)];
    hide Block, Uleb, TypeBytes, TypesBytes, TreeOf, TypeTrees, FlagByte;
    WritesAnd(TreeOf(m.result), End);
    WritesAnd(Many(TypeTrees(m.params)), e);
    WritesAnd(Flag(m.waits), d);
    WritesAnd(Text(m.member), c);
    WritesAnd(Text(m.name), b);
    MethodJoins(Block(m.name), Block(m.member), [FlagByte(m.waits)], Uleb(TypeCount(m.params)), TypesBytes(m.params), TypeBytes(m.result));
  }

  lemma MethodJoins(a: seq<Byte>, b: seq<Byte>, c: seq<Byte>, d: seq<Byte>, e: seq<Byte>, f: seq<Byte>)
    ensures a + (b + (c + ((d + e) + (f + [])))) == a + b + c + d + e + f
  {}

  lemma {:induction false} WritesMethods(ms: seq<Method>)
    ensures WriteAll(MethodTrees(ms)) == MethodsBytes(ms) && Length(MethodTrees(ms)) == |ms|
    decreases |ms|
  {
    hide MethodTree, MethodBytes, Write;
    if ms != [] {
      WritesMethod(ms[0]);
      WritesMethods(ms[1..]);
    }
  }

  lemma WritesInterface(i: Interface)
    ensures Write(InterfaceTree(i)) == InterfaceBytes(i)
  {
    var g := And(Many(MethodTrees(i.methods)), End);
    var f := And(Flag(i.handle), g);
    var e := And(Many(NameTrees(i.selectors)), f);
    var d := And(Text(i.host), e);
    var c := And(Text(i.traitPath), d);
    var b := And(Text(i.version), c);
    WritesNames(i.selectors);
    WritesMethods(i.methods);
    WritesNone();
    assert Write(Many(MethodTrees(i.methods))) == Uleb(|i.methods|) + MethodsBytes(i.methods);
    assert Write(Many(NameTrees(i.selectors))) == Uleb(|i.selectors|) + NamesBytes(i.selectors);
    assert Write(Flag(i.handle)) == [FlagByte(i.handle)];
    hide Block, Uleb, MethodTrees, NameTrees, MethodsBytes, NamesBytes, FlagByte;
    WritesAnd(Many(MethodTrees(i.methods)), End);
    WritesAnd(Flag(i.handle), g);
    WritesAnd(Many(NameTrees(i.selectors)), f);
    WritesAnd(Text(i.host), e);
    WritesAnd(Text(i.traitPath), d);
    WritesAnd(Text(i.version), c);
    WritesAnd(Text(i.package), b);
    InterfaceJoins(Block(i.package), Block(i.version), Block(i.traitPath), Block(i.host), Uleb(|i.selectors|), NamesBytes(i.selectors),
                   [FlagByte(i.handle)], Uleb(|i.methods|), MethodsBytes(i.methods));
  }

  lemma InterfaceJoins(a: seq<Byte>, b: seq<Byte>, c: seq<Byte>, d: seq<Byte>, e: seq<Byte>, f: seq<Byte>, g: seq<Byte>, h: seq<Byte>, i: seq<Byte>)
    ensures a + (b + (c + (d + ((e + f) + (g + ((h + i) + [])))))) == a + b + c + d + e + f + g + h + i
  {}

  lemma {:induction false} WritesInterfaces(contract: seq<Interface>)
    ensures WriteAll(InterfaceTrees(contract)) == InterfacesBytes(contract) && Length(InterfaceTrees(contract)) == |contract|
    decreases |contract|
  {
    hide InterfaceTree, InterfaceBytes, Write;
    if contract != [] {
      WritesInterface(contract[0]);
      WritesInterfaces(contract[1..]);
    }
  }

  // ----- the trees of the contract's shape are those of the sound contracts -----

  lemma HasNext(first: Shape, others: Shapes, ts: Trees)
    ensures HasParts(Then(first, others), ts) <==> ts.And? && Has(first, ts.first) && HasParts(others, ts.others)
  {
    hide Has;
  }

  lemma HasWhole(first: Shape, others: Shapes, t: Tree)
    ensures Has(AGroup(first, others), t) <==> t.Group? && HasParts(Then(first, others), t.parts)
  {
    hide HasParts;
  }

  lemma HasMethod(m: Method)
    requires SoundMethod(m)
    ensures Has(METHOD, MethodTree(m))
  {
    var s4 := Then(AValue(0), None);
    var s3 := Then(AVector(AValue(0)), s4);
    var s2 := Then(AFlag, s3);
    var s1 := Then(AText, s2);
    var t := MethodTree(m);
    assert METHOD == AGroup(AText, s1);
    var (p1, p2) := (t.parts.others, t.parts.others.others);
    HasFlag(m.waits);
    WritesTypes(m.params);
    hide Has, HasParts, TypeTrees, TreeOf, IsText;
    HasWhole(AText, s1, t);
    HasNext(AText, s1, t.parts);
    HasNext(AText, s2, p1);
    HasNext(AFlag, s3, p2);
    HasTwo(AVector(AValue(0)), AValue(0), p2.others);
    HasText(Text(m.name));
    HasText(Text(m.member));
    HasMany(AValue(0), Many(TypeTrees(m.params)));
    HasTypes(m.params, 0);
    HasType(m.result, 0);
  }

  lemma HasFlag(on: bool)
    ensures Has(AFlag, Flag(on))
  {}

  lemma MethodFrom(t: Tree) returns (m: Method)
    requires Has(METHOD, t)
    ensures SoundMethod(m) && MethodTree(m) == t
  {
    var s4 := Then(AValue(0), None);
    var s3 := Then(AVector(AValue(0)), s4);
    var s2 := Then(AFlag, s3);
    var s1 := Then(AText, s2);
    assert METHOD == AGroup(AText, s1);
    hide Has, HasParts, TypeTrees, TreeOf, IsText;
    HasWhole(AText, s1, t);
    HasNext(AText, s1, t.parts);
    var p1 := t.parts.others;
    HasNext(AText, s2, p1);
    var p2 := p1.others;
    HasNext(AFlag, s3, p2);
    var p3 := p2.others;
    HasTwo(AVector(AValue(0)), AValue(0), p3);
    HasText(t.parts.first);
    HasText(p1.first);
    FlagFrom(p2.first);
    HasMany(AValue(0), p3.first);
    var params := TypesFrom(p3.first.items, 0);
    WritesTypes(params);
    var result := TypeFrom(p3.others.first, 0);
    m := Method(t.parts.first.text, p1.first.text, p2.first.on, params, result);
  }

  lemma {:induction false} HasMethods(ms: seq<Method>)
    requires forall k :: 0 <= k < |ms| ==> SoundMethod(ms[k])
    ensures HasItems(METHOD, MethodTrees(ms))
    decreases |ms|
  {
    hide Has, SoundMethod, MethodTree;
    if ms != [] {
      HasMethod(ms[0]);
      HasMethods(ms[1..]);
    }
  }

  lemma {:induction false} MethodsFrom(ts: Trees) returns (ms: seq<Method>)
    requires HasItems(METHOD, ts)
    ensures MethodTrees(ms) == ts && forall k :: 0 <= k < |ms| ==> SoundMethod(ms[k])
    decreases ts
  {
    hide Has, SoundMethod, MethodTree;
    if ts.End? {
      ms := [];
    } else {
      var m := MethodFrom(ts.first);
      var rest := MethodsFrom(ts.others);
      ms := [m] + rest;
      assert ms[1..] == rest;
    }
  }

  lemma {:induction false} HasNames(names: seq<Name>)
    requires forall k :: 0 <= k < |names| ==> IsText(names[k])
    ensures HasItems(AText, NameTrees(names))
    decreases |names|
  {
    hide Has, IsText;
    if names != [] {
      HasText(Text(names[0]));
      HasNames(names[1..]);
    }
  }

  lemma {:induction false} NamesFrom(ts: Trees) returns (names: seq<Name>)
    requires HasItems(AText, ts)
    ensures NameTrees(names) == ts && forall k :: 0 <= k < |names| ==> IsText(names[k])
    decreases ts
  {
    hide Has, IsText;
    if ts.End? {
      names := [];
    } else {
      HasText(ts.first);
      var rest := NamesFrom(ts.others);
      names := [ts.first.text] + rest;
      assert names[1..] == rest;
    }
  }

  /** The three parts after an interface's names. */
  const LATER: Shapes := Then(AVector(AText), Then(AFlag, Then(AVector(METHOD), None)))

  lemma InterfaceShape()
    ensures INTERFACE == AGroup(AText, Then(AText, Then(AText, Then(AText, LATER))))
  {}

  lemma HasLater(selectors: seq<Name>, handle: bool, methods: seq<Method>)
    requires |selectors| < 0x1_0000_0000 && (forall k :: 0 <= k < |selectors| ==> IsText(selectors[k]))
    requires |methods| < 0x1_0000_0000 && (forall k :: 0 <= k < |methods| ==> SoundMethod(methods[k]))
    ensures HasParts(LATER, And(Many(NameTrees(selectors)), And(Flag(handle), And(Many(MethodTrees(methods)), End))))
  {
    var last := And(Many(MethodTrees(methods)), End);
    HasFlag(handle);
    hide Has, HasParts, NameTrees, MethodTrees, SoundMethod, IsText, METHOD;
    WritesNames(selectors);
    WritesMethods(methods);
    HasNext(AVector(AText), Then(AFlag, Then(AVector(METHOD), None)), And(Many(NameTrees(selectors)), And(Flag(handle), last)));
    HasTwo(AFlag, AVector(METHOD), And(Flag(handle), last));
    HasMany(AText, Many(NameTrees(selectors)));
    HasMany(METHOD, Many(MethodTrees(methods)));
    HasNames(selectors);
    HasMethods(methods);
  }

  lemma LaterFrom(ts: Trees) returns (selectors: seq<Name>, handle: bool, methods: seq<Method>)
    requires HasParts(LATER, ts)
    ensures |selectors| < 0x1_0000_0000 && (forall k :: 0 <= k < |selectors| ==> IsText(selectors[k]))
    ensures |methods| < 0x1_0000_0000 && (forall k :: 0 <= k < |methods| ==> SoundMethod(methods[k]))
    ensures ts == And(Many(NameTrees(selectors)), And(Flag(handle), And(Many(MethodTrees(methods)), End)))
  {
    hide Has, HasParts, NameTrees, MethodTrees, SoundMethod, IsText, METHOD;
    HasNext(AVector(AText), Then(AFlag, Then(AVector(METHOD), None)), ts);
    HasTwo(AFlag, AVector(METHOD), ts.others);
    HasMany(AText, ts.first);
    FlagFrom(ts.others.first);
    HasMany(METHOD, ts.others.others.first);
    selectors := NamesFrom(ts.first.items);
    methods := MethodsFrom(ts.others.others.first.items);
    handle := ts.others.first.on;
    WritesNames(selectors);
    WritesMethods(methods);
  }

  lemma HasInterface(i: Interface)
    requires SoundInterface(i)
    ensures Has(INTERFACE, InterfaceTree(i))
  {
    var t := InterfaceTree(i);
    var p1 := t.parts.others;
    var p2 := p1.others;
    var p3 := p2.others;
    hide Has, HasParts, NameTrees, MethodTrees, SoundMethod, IsText, INTERFACE, LATER;
    InterfaceShape();
    HasWhole(AText, Then(AText, Then(AText, Then(AText, LATER))), t);
    HasNext(AText, Then(AText, Then(AText, Then(AText, LATER))), t.parts);
    HasNext(AText, Then(AText, Then(AText, LATER)), p1);
    HasNext(AText, Then(AText, LATER), p2);
    HasNext(AText, LATER, p3);
    HasText(Text(i.package));
    HasText(Text(i.version));
    HasText(Text(i.traitPath));
    HasText(Text(i.host));
    HasLater(i.selectors, i.handle, i.methods);
  }

  lemma InterfaceFrom(t: Tree) returns (i: Interface)
    requires Has(INTERFACE, t)
    ensures SoundInterface(i) && InterfaceTree(i) == t
  {
    hide Has, HasParts, NameTrees, MethodTrees, SoundMethod, IsText, INTERFACE, LATER;
    InterfaceShape();
    HasWhole(AText, Then(AText, Then(AText, Then(AText, LATER))), t);
    HasNext(AText, Then(AText, Then(AText, Then(AText, LATER))), t.parts);
    var p1 := t.parts.others;
    HasNext(AText, Then(AText, Then(AText, LATER)), p1);
    var p2 := p1.others;
    HasNext(AText, Then(AText, LATER), p2);
    var p3 := p2.others;
    HasNext(AText, LATER, p3);
    HasText(t.parts.first);
    HasText(p1.first);
    HasText(p2.first);
    HasText(p3.first);
    var selectors, handle, methods := LaterFrom(p3.others);
    i := Interface(t.parts.first.text, p1.first.text, p2.first.text, p3.first.text, selectors, handle, methods);
  }

  lemma {:induction false} HasInterfaces(contract: seq<Interface>)
    requires forall i :: 0 <= i < |contract| ==> SoundInterface(contract[i])
    ensures HasItems(INTERFACE, InterfaceTrees(contract))
    decreases |contract|
  {
    hide Has, SoundInterface, InterfaceTree, INTERFACE;
    if contract != [] {
      HasInterface(contract[0]);
      HasInterfaces(contract[1..]);
    }
  }

  lemma {:induction false} InterfacesFrom(ts: Trees) returns (contract: seq<Interface>)
    requires HasItems(INTERFACE, ts)
    ensures InterfaceTrees(contract) == ts && forall i :: 0 <= i < |contract| ==> SoundInterface(contract[i])
    decreases ts
  {
    hide Has, SoundInterface, InterfaceTree, INTERFACE;
    if ts.End? {
      contract := [];
    } else {
      var first := InterfaceFrom(ts.first);
      var rest := InterfacesFrom(ts.others);
      contract := [first] + rest;
      assert contract[1..] == rest;
    }
  }
}
