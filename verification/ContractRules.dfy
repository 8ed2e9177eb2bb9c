/** The rules of a contract in the program's own terms, and the theorem about all its bytes (host/package-contract.ts:40-123, 125-230). */
module ContractRules {
  import opened ByteStrings
  import opened PackageContract
  import opened ContractTypes
  import opened ContractInterfaces

  function Ascii(s: string): (name: Name)
    requires forall i :: 0 <= i < |s| ==> s[i] as int < 128
    ensures |name| == |s|
  {
    seq(|s|, i requires 0 <= i < |s| => s[i] as int)
  }

  const DOT: Byte := 46

  // ----- types -----

  function FieldNames(fs: FieldList): seq<Name> {
    if fs.NoFields? then [] else [fs.name] + FieldNames(fs.others)
  }

  function CaseNames(cs: CaseList): seq<Name> {
    if cs.NoCases? then [] else [cs.name] + CaseNames(cs.others)
  }

  /** Every handle has its interface, and the fields of a record or a case and the cases of an enum have different names. */
  predicate Keeps(t: Type, handles: set<Name>)
    decreases t, 1
  {
    match t
    case ListOf(item) => Keeps(item, handles)
    case Maybe(value) => Keeps(value, handles)
    case Tuple(items) => KeepsTypes(items, handles)
    case Record(fields) => Unique(FieldNames(fields)) && KeepsFields(fields, handles)
    case Enum(cases) => Unique(CaseNames(cases)) && KeepsCases(cases, handles)
    case Result(ok, err) => Keeps(ok, handles) && Keeps(err, handles)
    case Handle(host) => host in handles
    case _ => true
  }

  predicate KeepsTypes(ts: Types, handles: set<Name>)
    decreases ts, 0
  {
    ts.NoTypes? || (Keeps(ts.first, handles) && KeepsTypes(ts.others, handles))
  }

  predicate KeepsFields(fs: FieldList, handles: set<Name>)
    decreases fs, 0
  {
    fs.NoFields? || (Keeps(fs.value, handles) && KeepsFields(fs.others, handles))
  }

  predicate KeepsCases(cs: CaseList, handles: set<Name>)
    decreases cs, 0
  {
    cs.NoCases? || (Unique(FieldNames(cs.fields)) && KeepsFields(cs.fields, handles) && KeepsCases(cs.others, handles))
  }

  lemma {:induction false} ChecksType(t: Type, handles: set<Name>)
    ensures CheckedValue(TreeOf(t), handles) <==> Keeps(t, handles)
    decreases t, 1
  {
    hide Unique;
    match t
    case ListOf(item) => ChecksType(item, handles); ChecksOne(TreeOf(item), handles);
    case Maybe(value) => ChecksType(value, handles); ChecksOne(TreeOf(value), handles);
    case Tuple(items) => ChecksTypes(items, handles);
    case Record(fields) => ChecksFields(fields, handles);
    case Enum(cases) => ChecksCases(cases, handles);
    case Result(ok, err) =>
      ChecksType(ok, handles);
      ChecksType(err, handles);
      ChecksTwo(TreeOf(ok), TreeOf(err), handles);
    case _ =>
  }

  lemma ChecksOne(t: Tree, handles: set<Name>)
    ensures CheckedAll(One(t), handles) <==> CheckedValue(t, handles)
  {
    hide CheckedValue;
  }

  lemma ChecksTwo(t: Tree, u: Tree, handles: set<Name>)
    ensures CheckedAll(Two(t, u), handles) <==> CheckedValue(t, handles) && CheckedValue(u, handles)
  {
    hide CheckedValue;
    ChecksOne(u, handles);
    assert CheckedAll(Two(t, u), handles) <==> CheckedValue(t, handles) && CheckedAll(One(u), handles);
  }

  lemma {:induction false} ChecksTypes(ts: Types, handles: set<Name>)
    ensures CheckedAll(TypeTrees(ts), handles) <==> KeepsTypes(ts, handles)
    decreases ts, 0
  {
    hide CheckedValue, Keeps, TreeOf;
    if ts.Typed? {
      ChecksType(ts.first, handles);
      ChecksTypes(ts.others, handles);
    }
  }

  lemma {:induction false} ChecksFields(fs: FieldList, handles: set<Name>)
    ensures FirstNames(FieldTrees(fs)) == FieldNames(fs)
    ensures CheckedSeconds(FieldTrees(fs), handles) <==> KeepsFields(fs, handles)
    decreases fs, 0
  {
    hide CheckedValue, Keeps, TreeOf;
    if fs.Field? {
      ChecksType(fs.value, handles);
      ChecksFields(fs.others, handles);
    }
  }

  lemma {:induction false} ChecksCases(cs: CaseList, handles: set<Name>)
    ensures FirstNames(CaseTrees(cs)) == CaseNames(cs)
    ensures CheckedCases(CaseTrees(cs), handles) <==> KeepsCases(cs, handles)
    decreases cs, 0
  {
    hide CheckedSeconds, FieldTrees, Unique, FieldNames;
    if cs.Case? {
      ChecksFields(cs.fields, handles);
      ChecksCases(cs.others, handles);
    }
  }

  // ----- selectors -----

  /** Labels between dots, none of them empty. */
  predicate Labelled(s: Name) {
    s != [] && s[0] != DOT && s[|s| - 1] != DOT && forall i :: 0 <= i < |s| - 1 ==> s[i] != DOT || s[i + 1] != DOT
  }

  ghost predicate Filled(parts: seq<Name>) {
    forall i :: 0 <= i < |parts| ==> parts[i] != []
  }

  lemma FilledMore(part: Name, parts: seq<Name>)
    ensures Filled([part] + parts) <==> part != [] && Filled(parts)
  {
    var s := [part] + parts;
    assert s[0] == part && forall i :: 0 <= i < |parts| ==> parts[i] == s[i + 1];
  }

  lemma LabelledRest(s: Name)
    requires |s| >= 2 && s[0] != DOT
    ensures s[1] != DOT ==> (Labelled(s) <==> Labelled(s[1..]))
    ensures s[1] == DOT ==> (Labelled(s) <==> Labelled(s[2..]))
  {
    var t := if s[1] == DOT then s[2..] else s[1..];
    var d := |s| - |t|;
    assert forall i :: 0 <= i < |t| ==> t[i] == s[i + d];
    if Labelled(t) {
      forall i | 0 <= i < |s| - 1
        ensures s[i] != DOT || s[i + 1] != DOT
      {
        if i >= d {
          assert t[i - d] != DOT || t[i - d + 1] != DOT;
        }
      }
    }
  }

  lemma {:induction false} SplitFilled(s: Name)
    ensures Filled(Split(s)) <==> Labelled(s)
    decreases |s|
  {
    hide Filled, Labelled;
    if s == [] {
      NoLabel();
    } else if s[0] == DOT {
      FilledMore([], Split(s[1..]));
      DotFirst(s);
    } else {
      var rest := Split(s[1..]);
      FilledMore([s[0]] + rest[0], rest[1..]);
      assert rest == [rest[0]] + rest[1..];
      FilledMore(rest[0], rest[1..]);
      if |s| == 1 {
        OneLabel(s);
      } else if s[1] == DOT {
        LabelledRest(s);
        assert s[1..][1..] == s[2..];
        SplitFilled(s[2..]);
      } else {
        LabelledRest(s);
        SplitFilled(s[1..]);
      }
    }
  }

  lemma NoLabel()
    ensures !Filled(Split([])) && !Labelled([])
  {
    assert Split([])[0] == [];
  }

  lemma DotFirst(s: Name)
    requires s != [] && s[0] == DOT
    ensures !Labelled(s)
  {}

  lemma OneLabel(s: Name)
    requires |s| == 1 && s[0] != DOT
    ensures Labelled(s) && Filled(Split(s[1..])[1..])
  {
    assert s[1..] == [];
  }

  /** The first label is this one and others follow exactly when the text starts with it and a dot. */
  lemma {:induction false} FirstLabel(s: Name, lead: Name)
    requires DOT !in lead
    ensures Split(s)[0] == lead && |Split(s)| >= 2 <==> lead + [DOT] <= s
    decreases |s|
  {
    if s != [] && s[0] != DOT && lead != [] {
      FirstLabel(s[1..], lead[1..]);
      assert lead == [lead[0]] + lead[1..] && s == [s[0]] + s[1..];
      assert lead + [DOT] == [lead[0]] + (lead[1..] + [DOT]);
      StartsWith(lead[0], lead[1..] + [DOT], s[0], s[1..]);
    } else if s != [] && s[0] != DOT {
      assert ([] + [DOT])[0] == DOT;
    } else if s != [] && lead != [] {
      assert (lead + [DOT])[0] == lead[0];
    }
  }

  lemma StartsWith(a: Byte, p: Name, b: Byte, s: Name)
    ensures [a] + p <= [b] + s <==> a == b && p <= s
  {
    if [a] + p <= [b] + s {
      assert ([a] + p)[0] == ([b] + s)[0];
      assert p == ([a] + p)[1..] == ([b] + s)[..1 + |p|][1..] == s[..|p|];
    }
  }

  /** A selector is that of a dependency or of the package itself, dot by dot; a handle has none. */
  predicate SelectorOk(i: Interface, selector: Name) {
    !i.handle && (Ascii("dep.") <= selector || Ascii("pkg.") <= selector) && Labelled(selector)
  }

  lemma SelectsOk(i: Interface, selector: Name)
    ensures ValidSelector(InterfaceTree(i), selector) <==> SelectorOk(i, selector)
  {
    assert DEP + [DOT] == Ascii("dep.") && PKG + [DOT] == Ascii("pkg.");
    InterfaceParts(i);
    hide Split, Labelled, InterfaceTree;
    FirstLabel(selector, DEP);
    FirstLabel(selector, PKG);
    SplitFilled(selector);
  }

  // ----- interfaces -----

  /** Where the parts of an interface and of a method are found. */
  lemma InterfaceParts(i: Interface)
    ensures var t := InterfaceTree(i);
            && Package(t) == i.package && Version(t) == i.version && TraitPath(t) == i.traitPath && ModuleName(t) == i.host
            && Selectors(t) == Items(NameTrees(i.selectors)) && IsHandle(t) == i.handle && Methods(t) == Items(MethodTrees(i.methods))
  {
    var p6 := And(Many(MethodTrees(i.methods)), End);
    var p5 := And(Flag(i.handle), p6);
    var p4 := And(Many(NameTrees(i.selectors)), p5);
    var p3 := And(Text(i.host), p4);
    var p2 := And(Text(i.traitPath), p3);
    var p1 := And(Text(i.version), p2);
    var p0 := And(Text(i.package), p1);
    assert PartsIn(InterfaceTree(i)) == p0;
    hide NameTrees, MethodTrees, Items, Part;
    SomeParts(p0);
    SomeParts(p2);
    SomeParts(p4);
    LaterPart(p6);
    PartsLater(p4, 0);
    PartsLater(p2, 0);
    PartsLater(p2, 1);
    PartsLater(p2, 2);
    PartsLater(p0, 0);
    PartsLater(p0, 1);
    PartsLater(p0, 2);
    PartsLater(p0, 3);
    PartsLater(p0, 4);
  }

  lemma LaterPart(ts: Trees)
    requires ts.And?
    ensures Part(ts, 0) == ts.first
  {}

  lemma SomeParts(ts: Trees)
    requires ts.And? && ts.others.And?
    ensures Part(ts, 0) == ts.first && Part(ts, 1) == ts.others.first
  {
    assert Part(ts, 1) == Part(ts.others, 0);
  }

  /** What is counted from two parts later. */
  lemma PartsLater(ts: Trees, n: nat)
    requires ts.And? && ts.others.And?
    ensures Part(ts, n + 2) == Part(ts.others.others, n)
  {
    assert Part(ts, n + 2) == Part(ts.others, n + 1);
  }

  lemma MethodParts(m: Method)
    ensures var t := MethodTree(m);
            && MethodName(t) == m.name && Member(t) == m.member && Waits(t) == m.waits && Params(t) == TypeTrees(m.params)
            && ResultOf(t) == TreeOf(m.result)
  {
    var p4 := And(TreeOf(m.result), End);
    var p3 := And(Many(TypeTrees(m.params)), p4);
    var p2 := And(Flag(m.waits), p3);
    var p1 := And(Text(m.member), p2);
    var p0 := And(Text(m.name), p1);
    assert PartsIn(MethodTree(m)) == p0;
    hide TypeTrees, TreeOf, Part;
    SomeParts(p0);
    SomeParts(p2);
    LaterPart(p4);
    PartsLater(p2, 0);
    PartsLater(p0, 0);
    PartsLater(p0, 1);
    PartsLater(p0, 2);
  }

  lemma {:induction false} NameItems(names: seq<Name>)
    ensures |Items(NameTrees(names))| == |names|
    ensures forall i :: 0 <= i < |names| ==> Items(NameTrees(names))[i] == Text(names[i])
    decreases |names|
  {
    if names != [] {
      NameItems(names[1..]);
    }
  }

  lemma {:induction false} MethodItems(ms: seq<Method>)
    ensures |Items(MethodTrees(ms))| == |ms|
    ensures forall i :: 0 <= i < |ms| ==> Items(MethodTrees(ms))[i] == MethodTree(ms[i])
    decreases |ms|
  {
    hide MethodTree;
    if ms != [] {
      MethodItems(ms[1..]);
    }
  }

  lemma {:induction false} InterfaceItems(contract: seq<Interface>)
    ensures |Items(InterfaceTrees(contract))| == |contract|
    ensures forall i :: 0 <= i < |contract| ==> Items(InterfaceTrees(contract))[i] == InterfaceTree(contract[i])
    decreases |contract|
  {
    hide InterfaceTree;
    if contract != [] {
      InterfaceItems(contract[1..]);
    }
  }

  // ----- the rules -----

  /** The imports of a method: one, or two when it may wait. */
  function ImportNames(m: Method): seq<Name> {
    if m.waits then [m.name + Ascii(".start"), m.name + Ascii(".finish")] else [m.name]
  }

  function AllImports(ms: seq<Method>): seq<Name> {
    if ms == [] then [] else AllImports(ms[..|ms| - 1]) + ImportNames(ms[|ms| - 1])
  }

  function NamesOf(ms: seq<Method>): (names: seq<Name>)
    ensures |names| == |ms|
  {
    seq(|ms|, i requires 0 <= i < |ms| => ms[i].name)
  }

  predicate MethodOk(m: Method, handles: set<Name>) {
    m.member != [] && KeepsTypes(m.params, handles) && Keeps(m.result, handles)
  }

  predicate InterfaceOk(i: Interface, handles: set<Name>) {
    && i.package != [] && i.traitPath != [] && Ascii("hd:pkg:") < i.host
    && (forall k :: 0 <= k < |i.selectors| ==> SelectorOk(i, i.selectors[k]))
    && Unique(NamesOf(i.methods))
    && Unique((if i.handle then [Ascii("$release")] else []) + AllImports(i.methods))
    && forall k :: 0 <= k < |i.methods| ==> MethodOk(i.methods[k], handles)
  }

  function Hosts(contract: seq<Interface>): (names: seq<Name>)
    ensures |names| == |contract|
  {
    seq(|contract|, i requires 0 <= i < |contract| => contract[i].host)
  }

  function AllSelectors(contract: seq<Interface>): seq<Name> {
    if contract == [] then [] else AllSelectors(contract[..|contract| - 1]) + contract[|contract| - 1].selectors
  }

  function HandleHosts(contract: seq<Interface>): set<Name> {
    set i | 0 <= i < |contract| && contract[i].handle :: contract[i].host
  }

  predicate SameIdentity(a: Interface, b: Interface) {
    a.package == b.package && a.version == b.version && a.traitPath == b.traitPath && a.handle == b.handle
  }

  /** Identities, modules and selectors are unique over the contract, and each interface keeps its own rules. */
  predicate Rules(contract: seq<Interface>) {
    && (forall i, j :: 0 <= i < j < |contract| ==> !SameIdentity(contract[i], contract[j]))
    && Unique(Hosts(contract))
    && Unique(AllSelectors(contract))
    && forall i :: 0 <= i < |contract| ==> InterfaceOk(contract[i], HandleHosts(contract))
  }

  lemma {:induction false} ImportsAre(ms: seq<Method>, trees: seq<Tree>)
    requires |trees| == |ms| && forall i :: 0 <= i < |ms| ==> trees[i] == MethodTree(ms[i])
    ensures Imports(trees) == AllImports(ms)
    decreases |ms|
  {
    hide MethodTree, Waits, MethodName, Ascii;
    if ms != [] {
      var n := |ms| - 1;
      ImportsAre(ms[..n], trees[..n]);
      MethodParts(ms[n]);
      Suffixes();
    }
  }

  lemma Suffixes()
    ensures START == Ascii(".start") && FINISH == Ascii(".finish") && RELEASE == Ascii("$release") && MODULE_PREFIX == Ascii("hd:pkg:")
  {}

  lemma MethodsOk(ms: seq<Method>, trees: seq<Tree>, handles: set<Name>)
    requires |trees| == |ms| && forall i :: 0 <= i < |ms| ==> trees[i] == MethodTree(ms[i])
    ensures MethodNames(trees) == NamesOf(ms)
    ensures forall i :: 0 <= i < |ms| ==> (ValidMethod(trees[i], handles) <==> MethodOk(ms[i], handles))
  {
    hide MethodTree, MethodName, Member, Params, ResultOf, CheckedAll, CheckedValue, Keeps, KeepsTypes, TreeOf, TypeTrees;
    forall i | 0 <= i < |ms|
      ensures MethodName(trees[i]) == ms[i].name && (ValidMethod(trees[i], handles) <==> MethodOk(ms[i], handles))
    {
      MethodParts(ms[i]);
      ChecksTypes(ms[i].params, handles);
      ChecksType(ms[i].result, handles);
    }
  }

  lemma SelectorsOk(i: Interface)
    ensures TextsOf(Items(NameTrees(i.selectors))) == i.selectors
    ensures AllSelect(InterfaceTree(i)) <==> forall k :: 0 <= k < |i.selectors| ==> SelectorOk(i, i.selectors[k])
  {
    hide InterfaceTree, NameTrees, Items, ValidSelector, SelectorOk, Selectors;
    InterfaceParts(i);
    NameItems(i.selectors);
    forall k | 0 <= k < |i.selectors|
      ensures ValidSelector(InterfaceTree(i), i.selectors[k]) <==> SelectorOk(i, i.selectors[k])
    {
      SelectsOk(i, i.selectors[k]);
    }
    var items := Selectors(InterfaceTree(i));
    if AllSelect(InterfaceTree(i)) {
      forall k | 0 <= k < |i.selectors|
        ensures SelectorOk(i, i.selectors[k])
      {
        assert NameOf(items[k]) == i.selectors[k];
      }
    }
  }

  lemma ItemOk(i: Interface, handles: set<Name>)
    ensures ValidItem(InterfaceTree(i), handles) <==> InterfaceOk(i, handles)
  {
    hide InterfaceTree, MethodTrees, Items, ValidSelector, SelectorOk, AllSelect, ValidMethod, MethodOk, Unique, Imports, AllImports, Ascii;
    hide Package, TraitPath, ModuleName, IsHandle, Methods;
    InterfaceParts(i);
    SelectorsOk(i);
    MethodItems(i.methods);
    var trees := Items(MethodTrees(i.methods));
    ImportsAre(i.methods, trees);
    MethodsOk(i.methods, trees, handles);
    Suffixes();
  }

  lemma {:induction false} SelectorsAre(contract: seq<Interface>, items: seq<Tree>)
    requires |items| == |contract| && forall i :: 0 <= i < |contract| ==> items[i] == InterfaceTree(contract[i])
    ensures SelectorNames(items) == AllSelectors(contract)
    decreases |contract|
  {
    hide InterfaceTree, Selectors, TextsOf, Items, NameTrees, AllSelect, SelectorOk;
    if contract != [] {
      var n := |contract| - 1;
      SelectorsAre(contract[..n], items[..n]);
      InterfaceParts(contract[n]);
      SelectorsOk(contract[n]);
    }
  }

  lemma HandlesAre(contract: seq<Interface>, items: seq<Tree>)
    requires |items| == |contract|
    requires forall i :: 0 <= i < |contract| ==> ModuleName(items[i]) == contract[i].host && IsHandle(items[i]) == contract[i].handle
    ensures Handles(items) == HandleHosts(contract)
    ensures ModuleNames(items) == Hosts(contract)
  {
    hide ModuleName, IsHandle;
    forall name
      ensures name in Handles(items) <==> name in HandleHosts(contract)
    {
      if name in Handles(items) {
        var i :| 0 <= i < |items| && IsHandle(items[i]) && ModuleName(items[i]) == name;
        assert contract[i].handle && contract[i].host == name;
      }
      if name in HandleHosts(contract) {
        var i :| 0 <= i < |contract| && contract[i].handle && contract[i].host == name;
        assert IsHandle(items[i]) && ModuleName(items[i]) == name;
      }
    }
  }

  ghost predicate Shows(contract: seq<Interface>, items: seq<Tree>) {
    |items| == |contract| && forall i :: 0 <= i < |contract| ==> items[i] == InterfaceTree(contract[i])
  }

  lemma HostsAre(contract: seq<Interface>, items: seq<Tree>)
    requires Shows(contract, items)
    ensures Handles(items) == HandleHosts(contract) && ModuleNames(items) == Hosts(contract)
  {
    hide InterfaceTree, Handles, HandleHosts, ModuleNames, Hosts, ModuleName, IsHandle;
    forall i | 0 <= i < |contract|
      ensures ModuleName(items[i]) == contract[i].host && IsHandle(items[i]) == contract[i].handle
    {
      InterfaceParts(contract[i]);
    }
    HandlesAre(contract, items);
  }

  ghost predicate DifferentItems(items: seq<Tree>) {
    forall i, j :: 0 <= i < j < |items| ==> Identity(items[i]) != Identity(items[j])
  }

  ghost predicate DifferentIdentities(contract: seq<Interface>) {
    forall i, j :: 0 <= i < j < |contract| ==> !SameIdentity(contract[i], contract[j])
  }

  lemma IdentityIs(a: Interface, b: Interface)
    ensures Identity(InterfaceTree(a)) == Identity(InterfaceTree(b)) <==> SameIdentity(a, b)
  {
    hide InterfaceTree, Package, Version, TraitPath, IsHandle;
    InterfaceParts(a);
    InterfaceParts(b);
  }

  lemma IdentitiesAre(contract: seq<Interface>, items: seq<Tree>)
    requires Shows(contract, items)
    ensures DifferentItems(items) <==> DifferentIdentities(contract)
  {
    hide InterfaceTree, Identity, SameIdentity;
    forall i, j | 0 <= i < j < |contract|
      ensures Identity(items[i]) == Identity(items[j]) <==> SameIdentity(contract[i], contract[j])
    {
      IdentityIs(contract[i], contract[j]);
    }
    if DifferentItems(items) {
      forall i, j | 0 <= i < j < |contract|
        ensures !SameIdentity(contract[i], contract[j])
      {
        assert Identity(items[i]) != Identity(items[j]);
      }
    }
  }

  ghost predicate AllValid(items: seq<Tree>, handles: set<Name>) {
    forall i :: 0 <= i < |items| ==> ValidItem(items[i], handles)
  }

  ghost predicate AllOk(contract: seq<Interface>, handles: set<Name>) {
    forall i :: 0 <= i < |contract| ==> InterfaceOk(contract[i], handles)
  }

  lemma ItemsOk(contract: seq<Interface>, items: seq<Tree>, handles: set<Name>)
    requires Shows(contract, items)
    ensures AllValid(items, handles) <==> AllOk(contract, handles)
  {
    hide InterfaceTree, ValidItem, InterfaceOk;
    forall i | 0 <= i < |contract|
      ensures ValidItem(items[i], handles) <==> InterfaceOk(contract[i], handles)
    {
      ItemOk(contract[i], handles);
    }
    if AllValid(items, handles) {
      forall i | 0 <= i < |contract|
        ensures InterfaceOk(contract[i], handles)
      {
        assert ValidItem(items[i], handles);
      }
    }
  }

  lemma ValidIs(contract: Tree)
    ensures var items := Items(PartsIn(contract));
            ValidContract(contract) <==>
            DifferentItems(items) && Unique(ModuleNames(items)) && Unique(SelectorNames(items)) && AllValid(items, Handles(items))
  {
    hide Items, PartsIn, Identity, Unique, ModuleNames, SelectorNames, ValidItem, Handles;
  }

  lemma RulesAre(contract: seq<Interface>)
    ensures Rules(contract) <==>
            && DifferentIdentities(contract) && Unique(Hosts(contract)) && Unique(AllSelectors(contract))
            && AllOk(contract, HandleHosts(contract))
  {
    hide SameIdentity, Unique, Hosts, AllSelectors, InterfaceOk, HandleHosts;
  }

  /** The checks on what was read are the rules on the interfaces. */
  lemma RulesExact(contract: seq<Interface>)
    ensures ValidContract(ContractTree(contract)) <==> Rules(contract)
  {
    var tree := ContractTree(contract);
    var items := Items(PartsIn(tree));
    assert items == Items(InterfaceTrees(contract));
    hide ContractTree, InterfaceTrees, PartsIn, Items, ValidContract, Rules, Unique, ModuleNames, SelectorNames, Handles, Hosts, AllSelectors,
      HandleHosts, DifferentItems, DifferentIdentities, AllValid, AllOk, InterfaceTree;
    InterfaceItems(contract);
    ValidIs(tree);
    RulesAre(contract);
    HostsAre(contract, items);
    IdentitiesAre(contract, items);
    SelectorsAre(contract, items);
    ItemsOk(contract, items, HandleHosts(contract));
  }

  // ----- every contract that is read -----

  /**
   * Bytes are read as a contract exactly when they are the bytes of interfaces that fit the widths and keep the
   * rules.
   */
  lemma TypedExact(bytes: seq<Byte>, tree: Tree)
    ensures Accepted(bytes, tree) <==>
            exists contract :: tree == ContractTree(contract) && bytes == ContractBytes(contract) && SoundContract(contract) && Rules(contract)
  {
    hide Accepted, ValidContract, Has, Rules, INTERFACE, SoundInterface, InterfaceTrees, InterfacesBytes, Uleb;
    ContractExact(bytes, tree);
    if Accepted(bytes, tree) {
      HasMany(INTERFACE, tree);
      var contract := InterfacesFrom(tree.items);
      ContractWritten(contract);
      RulesExact(contract);
      assert tree == ContractTree(contract);
    }
    forall contract | tree == ContractTree(contract) && bytes == ContractBytes(contract) && SoundContract(contract) && Rules(contract)
      ensures Accepted(bytes, tree)
    {
      ContractWritten(contract);
      HasMany(INTERFACE, tree);
      HasInterfaces(contract);
      RulesExact(contract);
    }
  }

  lemma ContractWritten(contract: seq<Interface>)
    ensures VERSION + Write(ContractTree(contract)) == ContractBytes(contract)
    ensures Length(InterfaceTrees(contract)) == |contract|
  {
    hide InterfaceTrees, InterfacesBytes, Uleb;
    WritesInterfaces(contract);
  }
}
