/** A provider's private values: an explicit-stack encoder over object graphs and a right-to-left decoder
    (host/package-providers.ts:80-245). */
module PrivateValues {
  import opened Powers
  import opened Rationals
  import FloatLayout
  import opened Options

  /** A value that holds no others; `Other` is one the transport does not support. */
  datatype Leaf = Null | Bool(on: bool) | Str(text: string) | Big(n: int) | Float(bits: nat) | Other

  datatype Ref = Plain(leaf: Leaf) | To(id: nat)

  /** An array's items, or a plain object's keys and values in turn; or an object of another kind. */
  datatype Node = Container(keyed: bool, parts: seq<Ref>) | Foreign

  /** The objects by identity, so that they may be shared and cyclic. */
  type Graph = map<nat, Node>

  datatype Token =
    | TNull
    | TBool(on: bool)
    | TStr(text: string)
    | TNumber(tag: char, text: string)
    | TContainer(keyed: bool, length: int)

  const I63: int := 0x8000_0000_0000_0000
  const I64: int := 0x1_0000_0000_0000_0000
  const SAFE: int := 0x1f_ffff_ffff_ffff

  // ----- numbers as text -----

  function DecimalText(n: int): string {
    if n < 0 then "-" + FloatLayout.NatText(-n) else FloatLayout.NatText(n)
  }

  /** `0`, or digits without a leading zero after an optional minus. */
  predicate IsDecimal(s: string) {
    s == "0" ||
    var digits := if s != "" && s[0] == '-' then s[1..] else s;
    digits != "" && AllDigits(digits) && digits[0] != '0'
  }

  function FromDecimal(s: string): int
    requires IsDecimal(s)
  {
    if s[0] == '-' then -(NatOf(s[1..]) as int) else NatOf(s)
  }

  const HEX: string := "0123456789abcdef"

  function HexValue(c: char): (v: nat)
    ensures v <= 16 && (v < 16 ==> HEX[v] == c)
  {
    if '0' <= c <= '9' then (c - '0') as nat
    else if 'a' <= c <= 'f' then (c - 'a') as nat + 10
    else 16
  }

  function HexText(n: nat, k: nat): (s: string)
    ensures |s| == k
  {
    if k == 0 then "" else HexText(n / 16, k - 1) + [HEX[n % 16]]
  }

  predicate IsHex(s: string) {
    forall i :: 0 <= i < |s| ==> HexValue(s[i]) < 16
  }

  function FromHex(s: string): nat {
    if s == "" then 0 else 16 * FromHex(s[..|s| - 1]) + HexValue(s[|s| - 1])
  }

  lemma HexDigit(d: nat)
    requires d < 16
    ensures HexValue(HEX[d]) == d
  {}

  lemma {:induction false} HexBack(n: nat, k: nat)
    requires n < Pow(16, k)
    ensures IsHex(HexText(n, k)) && FromHex(HexText(n, k)) == n
  {
    if k > 0 {
      HexBack(n / 16, k - 1);
      HexDigit(n % 16);
      var s := HexText(n, k);
      assert s[..k - 1] == HexText(n / 16, k - 1);
    }
  }

  lemma Sixteen()
    ensures Pow(16, 16) == I64 == 2 * I63
  {
    assert Pow(16, 4) == 65536;
    PowAdd(16, 4, 4);
    PowAdd(16, 8, 8);
  }

  lemma DecimalBack(n: int)
    ensures IsDecimal(DecimalText(n)) && FromDecimal(DecimalText(n)) == n
  {
    if n < 0 {
      assert DecimalText(n)[1..] == FloatLayout.NatText(-n);
    } else if n == 0 {
      assert FloatLayout.NatText(0) == "0";
    }
  }

  /** A float that is neither infinite nor a NaN. */
  predicate Finite(bits: nat) {
    (bits / 0x10_0000_0000_0000) % 0x800 != 0x7ff
  }

  /** The floats that are not finite: from the bits of infinity up, of either sign. */
  lemma FiniteBits(bits: nat)
    requires bits < I64
    ensures Finite(bits) <==> bits % I63 < 0x7ff0_0000_0000_0000
  {}

  // ----- encoding -----

  datatype Failure = Cyclic | NotPlain | Unsupported | OutOfRange

  datatype Coded = Done(tokens: seq<Token>) | Failed(why: Failure)

  /** `encodePrimitive` (host/package-providers.ts:80-104). */
  function LeafTokens(l: Leaf): Coded {
    match l
    case Null => Done([TNull])
    case Bool(on) => Done([TBool(on)])
    case Str(text) => Done([TStr(text)])
    case Big(n) =>
      if n < -I63 || n >= I64 then Failed(OutOfRange)
      else Done([TNumber(if n < 0 then 'i' else 'u', DecimalText(n))])
    case Float(bits) => if Finite(bits) then Done([TNumber('f', HexText(bits, 16))]) else Done([TNull])
    case Other => Failed(Unsupported)
  }

  function Header(node: Node): Token
    requires node.Container?
  {
    TContainer(node.keyed, if node.keyed then |node.parts| / 2 else |node.parts|)
  }

  function Joined(a: Coded, b: Coded): Coded {
    if a.Failed? then a else if b.Failed? then b else Done(a.tokens + b.tokens)
  }

  /** The tokens of a value, `active` being the objects it is inside of. */
  function EncodeRef(g: Graph, ref: Ref, active: set<nat>): Coded
    decreases g.Keys - active, 0
  {
    if ref.Plain? then LeafTokens(ref.leaf)
    else if ref.id in active then Failed(Cyclic)
    else if ref.id !in g then Failed(Unsupported)
    else if g[ref.id].Foreign? then Failed(NotPlain)
    else Joined(Done([Header(g[ref.id])]), EncodeAll(g, g[ref.id].parts, active + {ref.id}))
  }

  function EncodeAll(g: Graph, refs: seq<Ref>, active: set<nat>): Coded
    decreases g.Keys - active, |refs| + 1
  {
    if refs == [] then Done([]) else Joined(EncodeRef(g, refs[0], active), EncodeAll(g, refs[1..], active))
  }

  // ----- the encoder's stack -----

  /** What is still to be done: a value to write, or an object to leave. */
  datatype Job = Visit(ref: Ref) | Leave(id: nat)

  /** What the jobs of a stack, the last on top, still write. */
  function Run(g: Graph, stack: seq<Job>, active: set<nat>): Coded
    decreases |stack|
  {
    if stack == [] then Done([])
    else
      var below := stack[..|stack| - 1];
      match stack[|stack| - 1]
      case Visit(ref) => Joined(EncodeRef(g, ref, active), Run(g, below, active))
      case Leave(id) => Run(g, below, active - {id})
  }

  /** How many jobs a value gives rise to. */
  function Weight(g: Graph, ref: Ref, active: set<nat>): (w: nat)
    ensures w >= 1
    decreases g.Keys - active, 0
  {
    if ref.Plain? || ref.id in active || ref.id !in g || g[ref.id].Foreign? then 1
    else 2 + WeightAll(g, g[ref.id].parts, active + {ref.id})
  }

  function WeightAll(g: Graph, refs: seq<Ref>, active: set<nat>): nat
    decreases g.Keys - active, |refs| + 1
  {
    if refs == [] then 0 else Weight(g, refs[0], active) + WeightAll(g, refs[1..], active)
  }

  function StackWeight(g: Graph, stack: seq<Job>, active: set<nat>): nat
    decreases |stack|
  {
    if stack == [] then 0
    else
      var below := stack[..|stack| - 1];
      match stack[|stack| - 1]
      case Visit(ref) => Weight(g, ref, active) + StackWeight(g, below, active)
      case Leave(id) => 1 + StackWeight(g, below, active - {id})
  }

  /** Values pushed last to first. */
  function Pushed(refs: seq<Ref>): (jobs: seq<Job>)
    ensures |jobs| == |refs|
  {
    if refs == [] then [] else Pushed(refs[1..]) + [Visit(refs[0])]
  }

  lemma JoinedAssoc(a: Coded, b: Coded, c: Coded)
    ensures Joined(Joined(a, b), c) == Joined(a, Joined(b, c))
  {
    if a.Done? && b.Done? && c.Done? {
      assert a.tokens + b.tokens + c.tokens == a.tokens + (b.tokens + c.tokens);
    }
  }

  lemma {:induction false} RunPushed(g: Graph, stack: seq<Job>, refs: seq<Ref>, active: set<nat>)
    ensures Run(g, stack + Pushed(refs), active) == Joined(EncodeAll(g, refs, active), Run(g, stack, active))
    ensures StackWeight(g, stack + Pushed(refs), active) == WeightAll(g, refs, active) + StackWeight(g, stack, active)
    decreases |refs|
  {
    hide EncodeRef, Weight, Run, StackWeight, EncodeAll, WeightAll;
    if refs == [] {
      assert stack + Pushed(refs) == stack;
      assert Run(g, stack, active).Done? ==> [] + Run(g, stack, active).tokens == Run(g, stack, active).tokens;
      AllNone(g, active);
    } else {
      var all := stack + Pushed(refs);
      RunTop(g, all, active);
      AllMore(g, refs, active);
      assert all[..|all| - 1] == stack + Pushed(refs[1..]) && all[|all| - 1] == Visit(refs[0]);
      RunPushed(g, stack, refs[1..], active);
      JoinedAssoc(EncodeRef(g, refs[0], active), EncodeAll(g, refs[1..], active), Run(g, stack, active));
    }
  }

  lemma AllNone(g: Graph, active: set<nat>)
    ensures EncodeAll(g, [], active) == Done([]) && WeightAll(g, [], active) == 0
  {}

  lemma AllMore(g: Graph, refs: seq<Ref>, active: set<nat>)
    requires refs != []
    ensures EncodeAll(g, refs, active) == Joined(EncodeRef(g, refs[0], active), EncodeAll(g, refs[1..], active))
    ensures WeightAll(g, refs, active) == Weight(g, refs[0], active) + WeightAll(g, refs[1..], active)
  {
    hide EncodeRef, Weight;
  }

  /** One object opened: its leave below, its parts on top. */
  lemma RunOpened(g: Graph, stack: seq<Job>, id: nat, active: set<nat>)
    requires id !in active && id in g && g[id].Container?
    ensures var entered := stack + [Leave(id)] + Pushed(g[id].parts);
            && Joined(Done([Header(g[id])]), Run(g, entered, active + {id})) == Joined(EncodeRef(g, To(id), active), Run(g, stack, active))
            && StackWeight(g, entered, active + {id}) < Weight(g, To(id), active) + StackWeight(g, stack, active)
  {
    hide EncodeAll, WeightAll;
    var left := stack + [Leave(id)];
    RunPushed(g, left, g[id].parts, active + {id});
    assert left[..|left| - 1] == stack && active + {id} - {id} == active;
    JoinedAssoc(Done([Header(g[id])]), EncodeAll(g, g[id].parts, active + {id}), Run(g, stack, active));
  }

  lemma RunTop(g: Graph, stack: seq<Job>, active: set<nat>)
    requires stack != []
    ensures var below, top := stack[..|stack| - 1], stack[|stack| - 1];
            && (top.Visit? ==> Run(g, stack, active) == Joined(EncodeRef(g, top.ref, active), Run(g, below, active)))
            && (top.Visit? ==> StackWeight(g, stack, active) == Weight(g, top.ref, active) + StackWeight(g, below, active))
            && (top.Leave? ==> Run(g, stack, active) == Run(g, below, active - {top.id}))
            && (top.Leave? ==> StackWeight(g, stack, active) == 1 + StackWeight(g, below, active - {top.id}))
  {
    hide EncodeRef, Weight;
  }

  /** `encodePrivate` (host/package-providers.ts:109-149): it ends on every finite graph, with the tokens of its value. */
  method EncodePrivate(g: Graph, value: Ref) returns (r: Coded)
    ensures r == EncodeRef(g, value, {})
  {
    var tokens: seq<Token> := [];
    var pending: seq<Job> := [Visit(value)];
    var active: set<nat> := {};
    RunTop(g, pending, active);
    assert Joined(Done(tokens), Run(g, pending, active)) == EncodeRef(g, value, {}) by { StartsAll(g, value); }
    hide EncodeRef, Run, StackWeight, Weight, LeafTokens, EncodeAll;
    while pending != []
      invariant Joined(Done(tokens), Run(g, pending, active)) == EncodeRef(g, value, {})
      decreases StackWeight(g, pending, active)
    {
      RunTop(g, pending, active);
      var job := pending[|pending| - 1];
      pending := pending[..|pending| - 1];
      if job.Leave? {
        active := active - {job.id};
        continue;
      }
      var ref := job.ref;
      RefCases(g, ref, active);
      if ref.Plain? {
        var leaf := LeafTokens(ref.leaf);
        if leaf.Failed? {
          return leaf;
        }
        JoinedAssoc(Done(tokens), leaf, Run(g, pending, active));
        tokens := tokens + leaf.tokens;
        continue;
      }
      if ref.id in active {
        return Failed(Cyclic);
      }
      if ref.id !in g {
        return Failed(Unsupported);
      }
      if g[ref.id].Foreign? {
        return Failed(NotPlain);
      }
      RunOpened(g, pending, ref.id, active);
      ghost var below, outside := pending, active;
      active := active + {ref.id};
      pending := pending + [Leave(ref.id)];
      var parts := g[ref.id].parts;
      for i := |parts| downto 0
        invariant pending == below + [Leave(ref.id)] + Pushed(parts[i..])
      {
        assert parts[i..][1..] == parts[i + 1..];
        pending := pending + [Visit(parts[i])];
      }
      assert parts[0..] == parts;
      JoinedAssoc(Done(tokens), Done([Header(g[ref.id])]), Run(g, pending, active));
      tokens := tokens + [Header(g[ref.id])];
    }
    assert tokens + [] == tokens;
    return Done(tokens);
  }

  lemma StartsAll(g: Graph, value: Ref)
    ensures Joined(Done([]), Run(g, [Visit(value)], {})) == EncodeRef(g, value, {})
  {
    hide EncodeRef;
    var stack := [Visit(value)];
    assert stack[..0] == [];
    var r := EncodeRef(g, value, {});
    assert r.Done? ==> r.tokens + [] == r.tokens && [] + r.tokens == r.tokens;
  }

  /** Which values fail at once. */
  lemma RefCases(g: Graph, ref: Ref, active: set<nat>)
    ensures ref.Plain? ==> EncodeRef(g, ref, active) == LeafTokens(ref.leaf)
    ensures ref.To? && ref.id in active ==> EncodeRef(g, ref, active) == Failed(Cyclic)
    ensures ref.To? && ref.id !in active && ref.id !in g ==> EncodeRef(g, ref, active) == Failed(Unsupported)
    ensures ref.To? && ref.id !in active && ref.id in g && g[ref.id].Foreign? ==> EncodeRef(g, ref, active) == Failed(NotPlain)
    ensures Weight(g, ref, active) >= 1
  {
    hide LeafTokens, EncodeAll, WeightAll;
  }

  // ----- which graphs encode -----

  predicate BadLeaf(ref: Ref) {
    && ref.Plain?
    && (ref.leaf.Other? || (ref.leaf.Big? && !(-0x8000_0000_0000_0000 <= ref.leaf.n < 0x1_0000_0000_0000_0000)))
  }

  lemma BadLeafFails(ref: Ref)
    ensures BadLeaf(ref) <==> ref.Plain? && LeafTokens(ref.leaf).Failed?
  {}

  /** An object that is missing, of another kind, or directly holds an unsupported value. */
  predicate BadNode(g: Graph, id: nat) {
    id !in g || g[id].Foreign? || exists k :: 0 <= k < |g[id].parts| && BadLeaf(g[id].parts[k])
  }

  predicate Holds(g: Graph, a: nat, b: nat) {
    a in g && g[a].Container? && To(b) in g[a].parts
  }

  /** Objects each holding the next, the first being the value itself. */
  ghost predicate Path(g: Graph, root: Ref, p: seq<nat>) {
    p != [] && root == To(p[0]) && forall k :: 0 <= k < |p| - 1 ==> Holds(g, p[k], p[k + 1])
  }

  ghost predicate ReachesBad(g: Graph, root: Ref) {
    BadLeaf(root) || exists p :: Path(g, root, p) && BadNode(g, p[|p| - 1])
  }

  ghost predicate Repeats(p: seq<nat>) {
    exists i, j :: 0 <= i < j < |p| && p[i] == p[j]
  }

  ghost predicate ReachesCycle(g: Graph, root: Ref) {
    exists p :: Path(g, root, p) && Repeats(p)
  }

  /** `ref` is the value itself or held by the last object of the trail. */
  ghost predicate At(g: Graph, root: Ref, trail: seq<nat>, ref: Ref) {
    if trail == [] then ref == root
    else Path(g, root, trail) && trail[|trail| - 1] in g && g[trail[|trail| - 1]].Container? && ref in g[trail[|trail| - 1]].parts
  }

  lemma TrailGrows(g: Graph, root: Ref, trail: seq<nat>, id: nat)
    requires At(g, root, trail, To(id))
    ensures Path(g, root, trail + [id])
  {
    var p := trail + [id];
    if trail != [] {
      forall k | 0 <= k < |p| - 1
        ensures Holds(g, p[k], p[k + 1])
      {
        if k < |trail| - 1 {
          assert p[k] == trail[k] && p[k + 1] == trail[k + 1];
        }
      }
    }
  }

  /** A failure has its reason on some path. */
  lemma {:induction false} FailsFor(g: Graph, root: Ref, trail: seq<nat>, ref: Ref, active: set<nat>)
    requires At(g, root, trail, ref) && (forall id <- active :: id in trail) && EncodeRef(g, ref, active).Failed?
    ensures ReachesBad(g, root) || ReachesCycle(g, root)
    decreases g.Keys - active, 0
  {
    hide LeafTokens;
    if ref.Plain? {
      BadLeafFails(ref);
      BadHere(g, root, trail, ref);
    } else {
      var p := trail + [ref.id];
      TrailGrows(g, root, trail, ref.id);
      if ref.id in active {
        var i :| 0 <= i < |trail| && trail[i] == ref.id;
        assert p[i] == p[|trail|];
        assert Repeats(p);
      } else if ref.id !in g || g[ref.id].Foreign? {
        assert BadNode(g, p[|p| - 1]);
      } else {
        assert EncodeAll(g, g[ref.id].parts, active + {ref.id}).Failed?;
        AllFailsFor(g, root, p, g[ref.id].parts, active + {ref.id});
      }
    }
  }

  lemma BadHere(g: Graph, root: Ref, trail: seq<nat>, ref: Ref)
    requires At(g, root, trail, ref) && BadLeaf(ref)
    ensures ReachesBad(g, root)
  {
    hide LeafTokens;
    if trail != [] {
      var last := trail[|trail| - 1];
      var k :| 0 <= k < |g[last].parts| && g[last].parts[k] == ref;
      assert BadNode(g, last);
    }
  }

  lemma {:induction false} AllFailsFor(g: Graph, root: Ref, trail: seq<nat>, refs: seq<Ref>, active: set<nat>)
    requires EncodeAll(g, refs, active).Failed? && forall id <- active :: id in trail
    requires forall k :: 0 <= k < |refs| ==> At(g, root, trail, refs[k])
    ensures ReachesBad(g, root) || ReachesCycle(g, root)
    decreases g.Keys - active, |refs| + 1
  {
    hide At, EncodeRef, ReachesBad, ReachesCycle;
    if EncodeRef(g, refs[0], active).Failed? {
      FailsFor(g, root, trail, refs[0], active);
    } else {
      AllFailsFor(g, root, trail, refs[1..], active);
    }
  }

  lemma {:induction false} AllDone(g: Graph, refs: seq<Ref>, active: set<nat>, k: nat)
    requires EncodeAll(g, refs, active).Done? && k < |refs|
    ensures EncodeRef(g, refs[k], active).Done?
    decreases k
  {
    hide EncodeRef;
    if k > 0 {
      AllDone(g, refs[1..], active, k - 1);
    }
  }

  /** Below a value that encodes, no path comes back, and none ends badly. */
  lemma {:induction false} DonePaths(g: Graph, root: Ref, active: set<nat>, p: seq<nat>)
    requires EncodeRef(g, root, active).Done? && Path(g, root, p)
    ensures !Repeats(p) && !BadNode(g, p[|p| - 1]) && forall k :: 0 <= k < |p| ==> p[k] !in active
    decreases |p|
  {
    hide LeafTokens;
    var id := p[0];
    var inside := active + {id};
    assert EncodeAll(g, g[id].parts, inside).Done?;
    if |p| == 1 {
      forall k | 0 <= k < |g[id].parts|
        ensures !BadLeaf(g[id].parts[k])
      {
        BadLeafFails(g[id].parts[k]);
        AllDone(g, g[id].parts, inside, k);
      }
    } else {
      var rest := p[1..];
      PathRest(g, root, p);
      var k :| 0 <= k < |g[id].parts| && g[id].parts[k] == To(p[1]);
      AllDone(g, g[id].parts, inside, k);
      DonePaths(g, To(p[1]), inside, rest);
      StillDistinct(p);
    }
  }

  lemma PathRest(g: Graph, root: Ref, p: seq<nat>)
    requires Path(g, root, p) && |p| > 1
    ensures Holds(g, p[0], p[1]) && Path(g, To(p[1]), p[1..])
  {
    hide Holds;
    var rest := p[1..];
    forall i | 0 <= i < |rest| - 1
      ensures Holds(g, rest[i], rest[i + 1])
    {
      var j := i + 1;
      assert Holds(g, p[j], p[j + 1]) && rest[i] == p[j] && rest[i + 1] == p[j + 1];
    }
  }

  lemma StillDistinct(p: seq<nat>)
    requires p != [] && !Repeats(p[1..]) && forall k :: 0 <= k < |p[1..]| ==> p[1..][k] != p[0]
    ensures !Repeats(p) && forall k :: 0 < k < |p| ==> p[k] == p[1..][k - 1]
  {
    var rest := p[1..];
    forall i, j | 0 <= i < j < |p|
      ensures p[i] != p[j]
    {
      assert p[j] == rest[j - 1];
      if i > 0 {
        assert p[i] == rest[i - 1];
      }
    }
  }

  /**
   * The encoder succeeds exactly on the graphs where no object reached holds an unsupported value and none is
   * reached from itself; an object reached twice is no hindrance.
   */
  lemma EncodesExactly(g: Graph, root: Ref)
    ensures EncodeRef(g, root, {}).Done? <==> !ReachesBad(g, root) && !ReachesCycle(g, root)
  {
    if EncodeRef(g, root, {}).Failed? {
      hide *;
      assert At(g, root, [], root) by { AtStart(g, root); }
      FailsFor(g, root, [], root, {});
    } else {
      if BadLeaf(root) {
        assert false;
      }
      forall p | Path(g, root, p)
        ensures !Repeats(p) && !BadNode(g, p[|p| - 1])
      {
        DonePaths(g, root, {}, p);
      }
    }
  }

  lemma AtStart(g: Graph, root: Ref)
    ensures At(g, root, [], root)
  {}

  // ----- decoding -----

  /** A value: a leaf, an array's items, or an object's keys and values in turn. */
  datatype Value = Of(leaf: Leaf) | Parts(keyed: bool, parts: seq<Value>)

  predicate IsKey(v: Value) {
    v.Of? && v.leaf.Str?
  }

  /** Keys and values in turn: the keys are strings, no two alike. */
  predicate Keyed(parts: seq<Value>) {
    && |parts| % 2 == 0
    && (forall k :: 0 <= k < |parts| && k % 2 == 0 ==> IsKey(parts[k]))
    && forall j, k :: 0 <= j < k < |parts| && j % 2 == 0 && k % 2 == 0 ==> parts[j] != parts[k]
  }

  /** `decodePrivateNumber` (host/package-providers.ts:151-178). */
  function DecodeNumber(tag: char, text: string): Option<Leaf> {
    if tag == 'f' then
      if |text| != 16 || !IsHex(text) || !Finite(FromHex(text)) then None else Some(Float(FromHex(text)))
    else if !IsDecimal(text) then None
    else
      var n := FromDecimal(text);
      if tag == 'i' then (if n < -I63 || n >= I63 then None else Some(Big(n)))
      else if n < 0 || n >= I64 then None
      else Some(Big(n))
  }

  lemma HexLast(s: string)
    requires IsHex(s) && s != ""
    ensures var n := |s| - 1;
            && IsHex(s[..n]) && HexValue(s[n]) < 16 && HEX[HexValue(s[n])] == s[n]
            && FromHex(s) / 16 == FromHex(s[..n]) && FromHex(s) % 16 == HexValue(s[n])
  {
    hide HexValue;
  }

  lemma HexMore(n: nat, k: nat)
    requires k > 0
    ensures HexText(n, k) == HexText(n / 16, k - 1) + [HEX[n % 16]]
    ensures n / 16 < Pow(16, k - 1) ==> n < Pow(16, k)
  {}

  lemma {:induction false} HexExact(s: string)
    requires IsHex(s)
    ensures HexText(FromHex(s), |s|) == s && FromHex(s) < Pow(16, |s|)
    decreases |s|
  {
    if s == "" {
      assert Pow(16, 0) == 1;
    } else {
      hide HexValue, HexText, FromHex, IsHex, Pow;
      HexLast(s);
      HexExact(s[..|s| - 1]);
      HexMore(FromHex(s), |s|);
      assert s == s[..|s| - 1] + [s[|s| - 1]];
    }
  }

  lemma DecimalExact(s: string)
    requires IsDecimal(s)
    ensures DecimalText(FromDecimal(s)) == s
  {
    hide NatOf, FloatLayout.NatText;
    if s[0] == '-' {
      FloatLayout.PlainInjective(FloatLayout.NatText(NatOf(s[1..])), s[1..]);
      PositiveDigits(s[1..]);
      assert s == "-" + s[1..];
    } else {
      FloatLayout.PlainInjective(FloatLayout.NatText(NatOf(s)), s);
    }
  }

  lemma PositiveDigits(s: string)
    requires AllDigits(s) && s != "" && s[0] != '0'
    ensures NatOf(s) > 0
  {
    FloatLayout.NatOfLeads(s);
  }

  /** A text is taken as a number of a tag exactly when it is the one text of a number in the tag's range. */
  lemma NumberExact(tag: char, text: string, leaf: Leaf)
    ensures DecodeNumber(tag, text) == Some(leaf) <==>
              if tag == 'f' then
                leaf.Float? && leaf.bits < I64 && leaf.bits % I63 < 0x7ff0_0000_0000_0000 && text == HexText(leaf.bits, 16)
              else
                leaf.Big? && text == DecimalText(leaf.n) && if tag == 'i' then -I63 <= leaf.n < I63 else 0 <= leaf.n < I64
  {
    hide HexText, FromHex, DecimalText, FromDecimal, IsDecimal, IsHex, Finite;
    if tag == 'f' {
      Sixteen();
      if |text| == 16 && IsHex(text) {
        HexExact(text);
        FiniteBits(FromHex(text));
      }
      if leaf.Float? && leaf.bits < I64 {
        HexBack(leaf.bits, 16);
        FiniteBits(leaf.bits);
      }
    } else {
      if IsDecimal(text) {
        DecimalExact(text);
      }
      if leaf.Big? {
        DecimalBack(leaf.n);
      }
    }
  }

  /** A token and the values to its right, the nearest first (host/package-providers.ts:204-225). */
  function DecodeToken(token: Token, values: seq<Value>): Option<seq<Value>> {
    match token
    case TNull => Some([Of(Null)] + values)
    case TBool(on) => Some([Of(Bool(on))] + values)
    case TStr(text) => Some([Of(Str(text))] + values)
    case TNumber(tag, text) =>
      if tag !in {'i', 'u', 'f'} || DecodeNumber(tag, text).None? then None
      else Some([Of(DecodeNumber(tag, text).value)] + values)
    case TContainer(keyed, length) =>
      var count := if keyed then 2 * length else length;
      if length < 0 || length > SAFE || count > |values| || (keyed && !Keyed(values[..count])) then None
      else Some([Parts(keyed, values[..count])] + values[count..])
  }

  function DecodeAll(tokens: seq<Token>): Option<seq<Value>>
    decreases |tokens|
  {
    if tokens == [] then Some([])
    else
      match DecodeAll(tokens[1..])
      case None => None
      case Some(values) => DecodeToken(tokens[0], values)
  }

  function Decoded(tokens: seq<Token>): Option<Value> {
    match DecodeAll(tokens)
    case None => None
    case Some(values) => if |values| == 1 then Some(values[0]) else None
  }

  // ----- the decoder's stack -----

  lemma KeyedMore(parts: seq<Value>, key: Value, value: Value)
    requires Keyed(parts)
    ensures Keyed(parts + [key, value]) <==> IsKey(key) && forall k :: 0 <= k < |parts| && k % 2 == 0 ==> parts[k] != key
  {
    hide IsKey;
    var more := parts + [key, value];
    assert more[|parts|] == key;
    if Keyed(more) {
      forall k | 0 <= k < |parts| && k % 2 == 0
        ensures parts[k] != key
      {
        assert more[k] == parts[k];
      }
    }
  }

  lemma KeyedShorter(stack: seq<Value>, n: nat, m: nat)
    requires n <= m <= |stack| && n % 2 == 0
    ensures Keyed(stack[..m]) ==> Keyed(stack[..n])
  {
    if Keyed(stack[..m]) {
      forall k | 0 <= k < n && k % 2 == 0
        ensures IsKey(stack[..n][k])
      {
        assert stack[..n][k] == stack[..m][k];
      }
      forall j, k | 0 <= j < k < n && j % 2 == 0 && k % 2 == 0
        ensures stack[..n][j] != stack[..n][k]
      {
        assert stack[..n][j] == stack[..m][j] && stack[..n][k] == stack[..m][k];
      }
    }
  }

  /** The lengths and keys that a container may have. */
  lemma ContainerExact(keyed: bool, length: int, stack: seq<Value>)
    ensures var r, count := DecodeToken(TContainer(keyed, length), stack), if keyed then 2 * length else length;
            && (r.Some? <==>
                  && 0 <= length < 0x20_0000_0000_0000 && count <= |stack|
                  && (keyed ==>
                        && (forall k :: 0 <= k < 2 * length && k % 2 == 0 ==> stack[k].Of? && stack[k].leaf.Str?)
                        && forall j, k :: 0 <= j < k < 2 * length && j % 2 == 0 && k % 2 == 0 ==> stack[j] != stack[k]))
            && (r.Some? ==> r.value == [Parts(keyed, stack[..count])] + stack[count..])
  {
    if keyed && 0 <= length && 2 * length <= |stack| {
      var parts := stack[..2 * length];
      assert forall k :: 0 <= k < 2 * length ==> parts[k] == stack[k];
      KeyedIs(parts, stack);
    }
    hide Keyed;
  }

  lemma KeyedIs(parts: seq<Value>, stack: seq<Value>)
    requires |parts| <= |stack| && |parts| % 2 == 0 && forall k :: 0 <= k < |parts| ==> parts[k] == stack[k]
    ensures Keyed(parts) <==>
              && (forall k :: 0 <= k < |parts| && k % 2 == 0 ==> stack[k].Of? && stack[k].leaf.Str?)
              && forall j, k :: 0 <= j < k < |parts| && j % 2 == 0 && k % 2 == 0 ==> stack[j] != stack[k]
  {
    if Keyed(parts) {
      forall k | 0 <= k < |parts| && k % 2 == 0
        ensures stack[k].Of? && stack[k].leaf.Str?
      {
        assert IsKey(parts[k]);
      }
      forall j, k | 0 <= j < k < |parts| && j % 2 == 0 && k % 2 == 0
        ensures stack[j] != stack[k]
      {
        assert parts[j] != parts[k];
      }
    }
  }

  /** `decodePrivateContainer` (host/package-providers.ts:180-202), the stack's top first. */
  method DecodeContainer(keyed: bool, length: int, stack: seq<Value>) returns (r: Option<seq<Value>>)
    ensures r == DecodeToken(TContainer(keyed, length), stack)
  {
    hide IsKey;
    if length < 0 || length > SAFE || (if keyed then 2 * length else length) > |stack| {
      return None;
    }
    if !keyed {
      return Some([Parts(false, stack[..length])] + stack[length..]);
    }
    var keys: set<Value> := {};
    for count := 0 to length
      invariant Keyed(stack[..2 * count])
      invariant forall v :: v in keys <==> exists k :: 0 <= k < 2 * count && k % 2 == 0 && stack[k] == v
    {
      var key, value := stack[2 * count], stack[2 * count + 1];
      assert stack[..2 * (count + 1)] == stack[..2 * count] + [key, value];
      KeyedMore(stack[..2 * count], key, value);
      KeyedShorter(stack, 2 * (count + 1), 2 * length);
      if !IsKey(key) || key in keys {
        return None;
      }
      keys := keys + {key};
    }
    return Some([Parts(true, stack[..2 * length])] + stack[2 * length..]);
  }

  /** `decodePrivate` (host/package-providers.ts:227-245). */
  method DecodePrivate(tokens: seq<Token>) returns (r: Option<Value>)
    ensures r == Decoded(tokens)
  {
    hide DecodeToken;
    var values: seq<Value> := [];
    for i := |tokens| downto 0
      invariant DecodeAll(tokens[i..]) == Some(values)
    {
      var rest := tokens[i..];
      assert rest[0] == tokens[i] && rest[1..] == tokens[i + 1..];
      var next;
      if tokens[i].TContainer? {
        next := DecodeContainer(tokens[i].keyed, tokens[i].length, values);
      } else {
        next := DecodeToken(tokens[i], values);
      }
      if next.None? {
        FailsAbove(tokens, i);
        return None;
      }
      values := next.value;
    }
    assert tokens[0..] == tokens;
    return if |values| == 1 then Some(values[0]) else None;
  }

  lemma {:induction false} FailsAbove(tokens: seq<Token>, i: nat)
    requires i <= |tokens| && DecodeAll(tokens[i..]).None?
    ensures DecodeAll(tokens).None?
    decreases i
  {
    hide DecodeToken;
    if i == 0 {
      assert tokens[0..] == tokens;
    } else {
      var j := i - 1;
      assert tokens[j..][1..] == tokens[i..];
      FailsAbove(tokens, j);
    }
  }

  // ----- the value of a graph -----

  /** What a leaf comes back as: a float that is not finite as null. */
  function Kept(l: Leaf): Leaf {
    if l.Float? && !Finite(l.bits) then Null else l
  }

  /** The value that is written for an object: shared objects are written each time. */
  function Unfold(g: Graph, ref: Ref, active: set<nat>): Value
    requires EncodeRef(g, ref, active).Done?
    decreases g.Keys - active, 0
  {
    if ref.Plain? then Of(Kept(ref.leaf))
    else
      assert EncodeAll(g, g[ref.id].parts, active + {ref.id}).Done?;
      Parts(g[ref.id].keyed, UnfoldAll(g, g[ref.id].parts, active + {ref.id}))
  }

  function UnfoldAll(g: Graph, refs: seq<Ref>, active: set<nat>): (vs: seq<Value>)
    requires EncodeAll(g, refs, active).Done?
    ensures |vs| == |refs|
    decreases g.Keys - active, |refs| + 1
  {
    if refs == [] then [] else [Unfold(g, refs[0], active)] + UnfoldAll(g, refs[1..], active)
  }

  /** Plain objects have string keys, no two alike; floats are 64 bits wide; lengths are exact numbers. */
  ghost predicate Proper(g: Graph) {
    forall id <- g :: g[id].Container? ==> ProperParts(g[id])
  }

  ghost predicate ProperParts(node: Node)
    requires node.Container?
  {
    && |node.parts| <= SAFE
    && (forall k :: 0 <= k < |node.parts| ==> ProperRef(node.parts[k]))
    && (node.keyed ==>
          && |node.parts| % 2 == 0
          && (forall k :: 0 <= k < |node.parts| && k % 2 == 0 ==> node.parts[k].Plain? && node.parts[k].leaf.Str?)
          && forall j, k :: 0 <= j < k < |node.parts| && j % 2 == 0 && k % 2 == 0 ==> node.parts[j] != node.parts[k])
  }

  predicate ProperRef(ref: Ref) {
    ref.Plain? && ref.leaf.Float? ==> ref.leaf.bits < I64
  }

  lemma LeafDecodes(l: Leaf, values: seq<Value>)
    requires LeafTokens(l).Done? && (l.Float? ==> l.bits < I64)
    ensures Kept(l) == if l.Float? && l.bits % I63 >= 0x7ff0_0000_0000_0000 then Null else l
    ensures |LeafTokens(l).tokens| == 1 && DecodeToken(LeafTokens(l).tokens[0], values) == Some([Of(Kept(l))] + values)
  {
    hide HexText, FromHex, DecimalText, FromDecimal, IsDecimal, IsHex, Finite, Keyed;
    if l.Big? {
      DecimalBack(l.n);
    } else if l.Float? {
      FiniteBits(l.bits);
      Sixteen();
      HexBack(l.bits, 16);
    }
  }

  lemma {:induction false} UnfoldAt(g: Graph, refs: seq<Ref>, active: set<nat>, k: nat)
    requires EncodeAll(g, refs, active).Done? && k < |refs|
    ensures EncodeRef(g, refs[k], active).Done? && UnfoldAll(g, refs, active)[k] == Unfold(g, refs[k], active)
    decreases k
  {
    hide EncodeRef, Unfold;
    if k > 0 {
      UnfoldAt(g, refs[1..], active, k - 1);
    }
  }

  lemma KeysStay(g: Graph, node: Node, active: set<nat>)
    requires node.Container? && node.keyed && ProperParts(node) && EncodeAll(g, node.parts, active).Done?
    ensures Keyed(UnfoldAll(g, node.parts, active))
  {
    hide EncodeAll, UnfoldAll, LeafTokens;
    var vs := UnfoldAll(g, node.parts, active);
    forall k | 0 <= k < |vs| && k % 2 == 0
      ensures vs[k] == Of(node.parts[k].leaf) && IsKey(vs[k])
    {
      UnfoldAt(g, node.parts, active, k);
    }
  }

  lemma ContainerDecodes(keyed: bool, parts: seq<Value>, values: seq<Value>)
    requires |parts| <= SAFE && (keyed ==> Keyed(parts))
    ensures DecodeToken(TContainer(keyed, if keyed then |parts| / 2 else |parts|), parts + values) == Some([Parts(keyed, parts)] + values)
  {
    hide Keyed;
    assert (parts + values)[..|parts|] == parts && (parts + values)[|parts|..] == values;
    assert keyed ==> |parts| % 2 == 0 by { EvenKeys(keyed, parts); }
  }

  lemma EvenKeys(keyed: bool, parts: seq<Value>)
    requires keyed ==> Keyed(parts)
    ensures keyed ==> |parts| % 2 == 0
  {}

  /** The tokens of a value, read back before some others, give the value before theirs. */
  lemma {:induction false} RefDecodes(g: Graph, ref: Ref, active: set<nat>, rest: seq<Token>)
    requires Proper(g) && ProperRef(ref) && EncodeRef(g, ref, active).Done? && DecodeAll(rest).Some?
    ensures DecodeAll(EncodeRef(g, ref, active).tokens + rest) == Some([Unfold(g, ref, active)] + DecodeAll(rest).value)
    decreases g.Keys - active, 0
  {
    hide LeafTokens, DecodeToken, ProperParts;
    var tokens := EncodeRef(g, ref, active).tokens;
    if ref.Plain? {
      LeafDecodes(ref.leaf, DecodeAll(rest).value);
      assert (tokens + rest)[0] == tokens[0] && (tokens + rest)[1..] == rest;
    } else {
      var node, inside := g[ref.id], active + {ref.id};
      assert EncodeAll(g, node.parts, inside).Done?;
      var more := EncodeAll(g, node.parts, inside).tokens;
      assert tokens == [Header(node)] + more;
      assert (tokens + rest)[0] == Header(node) && (tokens + rest)[1..] == more + rest;
      assert (forall k :: 0 <= k < |node.parts| ==> ProperRef(node.parts[k])) && |node.parts| <= SAFE by { ProperInside(g, ref.id); }
      AllDecodes(g, node.parts, inside, rest);
      if node.keyed {
        KeysStay(g, node, inside);
      }
      ContainerDecodes(node.keyed, UnfoldAll(g, node.parts, inside), DecodeAll(rest).value);
    }
  }

  lemma ProperInside(g: Graph, id: nat)
    requires Proper(g) && id in g && g[id].Container?
    ensures ProperParts(g[id]) && |g[id].parts| <= SAFE && forall k :: 0 <= k < |g[id].parts| ==> ProperRef(g[id].parts[k])
  {}

  lemma {:induction false} AllDecodes(g: Graph, refs: seq<Ref>, active: set<nat>, rest: seq<Token>)
    requires Proper(g) && EncodeAll(g, refs, active).Done? && DecodeAll(rest).Some?
    requires forall k :: 0 <= k < |refs| ==> ProperRef(refs[k])
    ensures DecodeAll(EncodeAll(g, refs, active).tokens + rest) == Some(UnfoldAll(g, refs, active) + DecodeAll(rest).value)
    decreases g.Keys - active, |refs| + 1
  {
    hide EncodeRef, Unfold, DecodeToken, Proper, ProperRef;
    if refs == [] {
      var none: seq<Value> := [];
      assert [] + rest == rest && none + DecodeAll(rest).value == DecodeAll(rest).value;
    } else {
      var first, more := EncodeRef(g, refs[0], active).tokens, EncodeAll(g, refs[1..], active).tokens;
      AllDecodes(g, refs[1..], active, rest);
      RefDecodes(g, refs[0], active, more + rest);
      assert first + more + rest == first + (more + rest);
      var a, b, c := [Unfold(g, refs[0], active)], UnfoldAll(g, refs[1..], active), DecodeAll(rest).value;
      assert a + (b + c) == a + b + c;
    }
  }

  /** Decoding undoes encoding: integers stay integers, and finite floats keep all their bits. */
  lemma RoundTrip(g: Graph, root: Ref)
    requires Proper(g) && ProperRef(root) && EncodeRef(g, root, {}).Done?
    ensures Decoded(EncodeRef(g, root, {}).tokens) == Some(Unfold(g, root, {}))
  {
    hide EncodeRef, Unfold, DecodeToken, Proper, ProperRef;
    var tokens := EncodeRef(g, root, {}).tokens;
    RefDecodes(g, root, {}, []);
    assert tokens + [] == tokens;
  }
}
