/** Byte strings, their integer encodings, and reading them back. */
module ByteStrings {
  import opened Powers

  type Byte = b: int | 0 <= b < 256

  /** What a read gives: the value and where it stopped, or nothing. */
  datatype Read<+T> = Got(value: T, at: nat) | Bad {
    predicate IsFailure() {
      Bad?
    }

    function PropagateFailure<U>(): Read<U>
      requires Bad?
    {
      Bad
    }

    function Extract(): (T, nat)
      requires Got?
    {
      (value, at)
    }
  }

  /** `part` lies in `input` at `at`. */
  predicate Holds(input: seq<Byte>, at: nat, part: seq<Byte>) {
    at + |part| <= |input| && input[at..at + |part|] == part
  }

  lemma HoldsSplit(input: seq<Byte>, at: nat, a: seq<Byte>, b: seq<Byte>)
    ensures Holds(input, at, a + b) <==> Holds(input, at, a) && Holds(input, at + |a|, b)
  {
    if at + |a + b| <= |input| {
      var s := input[at..at + |a + b|];
      assert s[..|a|] == input[at..at + |a|] && s[|a|..] == input[at + |a|..at + |a| + |b|];
      assert (a + b)[..|a|] == a && (a + b)[|a|..] == b;
      assert s == s[..|a|] + s[|a|..];
    }
  }

  lemma HeldSlice(input: seq<Byte>, at: nat, part: seq<Byte>)
    requires Holds(input, at, part)
    ensures at + |part| <= |input| && input[at..at + |part|] == part
  {}

  lemma HeldByte(input: seq<Byte>, at: nat, b: Byte)
    ensures Holds(input, at, [b]) <==> at < |input| && input[at] == b
  {
    if at < |input| {
      assert input[at..at + 1] == [input[at]];
    }
  }

  /** Two inputs with the same bytes in [at, end). */
  predicate Agree(s: seq<Byte>, t: seq<Byte>, at: nat, end: nat) {
    at <= end <= |s| && end <= |t| && s[at..end] == t[at..end]
  }

  lemma SubSlice(s: seq<Byte>, at: nat, end: nat, i: nat, j: nat)
    requires at <= i <= j <= end <= |s|
    ensures s[i..j] == s[at..end][i - at..j - at]
  {
    var u := s[at..end];
    forall k | 0 <= k < j - i
      ensures s[i..j][k] == u[i - at..j - at][k]
    {
      assert u[i - at + k] == s[i + k];
    }
  }

  lemma AgreePart(s: seq<Byte>, t: seq<Byte>, at: nat, end: nat, i: nat, j: nat)
    requires Agree(s, t, at, end) && at <= i <= j <= end
    ensures Agree(s, t, i, j)
  {
    SubSlice(s, at, end, i, j);
    SubSlice(t, at, end, i, j);
  }

  // ----- unsigned LEB128 (section 7.6 of DWARF 5) -----

  function Uleb(n: nat): (s: seq<Byte>)
    ensures |s| >= 1
  {
    if n < 128 then [n] else [n % 128 + 128] + Uleb(n / 128)
  }

  /** `Reader.uleb`: at most `left` more bytes, each worth `unit` times its low seven bits. */
  function ReadUlebFrom(input: seq<Byte>, at: nat, left: nat): (r: Read<nat>)
    ensures r.Got? ==> at < r.at <= |input|
    decreases left
  {
    if left == 0 || at >= |input| then Bad
    else if input[at] < 128 then Got(input[at], at + 1)
    else
      var (high, end) :- ReadUlebFrom(input, at + 1, left - 1);
      Got(input[at] - 128 + 128 * high, end)
  }

  lemma {:induction false} UlebReads(input: seq<Byte>, at: nat, n: nat, left: nat)
    requires Holds(input, at, Uleb(n)) && left >= 1 && n < Pow(128, left)
    ensures ReadUlebFrom(input, at, left) == Got(n, at + |Uleb(n)|)
    decreases left
  {
    assert input[at] == Uleb(n)[0];
    if n >= 128 {
      HoldsSplit(input, at, [n % 128 + 128], Uleb(n / 128));
      UlebReads(input, at + 1, n / 128, left - 1);
    }
  }

  lemma {:induction false} UlebLocal(s: seq<Byte>, t: seq<Byte>, at: nat, left: nat)
    requires var r := ReadUlebFrom(s, at, left); r.Got? && Agree(s, t, at, r.at)
    ensures ReadUlebFrom(t, at, left) == ReadUlebFrom(s, at, left)
    decreases left
  {
    var end := ReadUlebFrom(s, at, left).at;
    assert s[at] == s[at..end][0] == t[at..end][0] == t[at];
    if s[at] >= 128 {
      AgreePart(s, t, at, end, at + 1, end);
      UlebLocal(s, t, at + 1, left - 1);
    }
  }

  // ----- little-endian integers -----

  function Le(n: nat, k: nat): (s: seq<Byte>)
    ensures |s| == k
  {
    if k == 0 then [] else [n % 256] + Le(n / 256, k - 1)
  }

  function FromLe(s: seq<Byte>): (n: nat) {
    if s == [] then 0 else s[0] + 256 * FromLe(s[1..])
  }

  lemma {:induction false} LeReads(n: nat, k: nat)
    requires n < Pow(256, k)
    ensures FromLe(Le(n, k)) == n
  {
    if k > 0 {
      assert Le(n, k)[1..] == Le(n / 256, k - 1);
      LeReads(n / 256, k - 1);
    }
  }

  // ----- the other reads of `Reader` (host/journal.ts:391-413, 425-439) -----

  /** At most 64 bits of shift: ten bytes. */
  function ReadUleb(input: seq<Byte>, at: nat): (r: Read<nat>)
    ensures r.Got? ==> at < r.at <= |input|
  {
    ReadUlebFrom(input, at, 10)
  }

  function ReadNum(input: seq<Byte>, at: nat): (r: Read<nat>)
    ensures r.Got? ==> at < r.at <= |input| && r.value < 0x1_0000_0000
  {
    var (n, end) :- ReadUleb(input, at);
    if n > 0xffff_ffff then Bad else Got(n, end)
  }

  function ReadBytes(input: seq<Byte>, at: nat, k: nat): (r: Read<seq<Byte>>)
    ensures r.Got? ==> r.at == at + k <= |input| && |r.value| == k
  {
    if at + k > |input| then Bad else Got(input[at..at + k], at + k)
  }

  function ReadLe(input: seq<Byte>, at: nat, k: nat): (r: Read<nat>)
    ensures r.Got? ==> r.at == at + k <= |input|
  {
    var (s, end) :- ReadBytes(input, at, k);
    Got(FromLe(s), end)
  }

  /** A length, then that many bytes. */
  function ReadBlock(input: seq<Byte>, at: nat): (r: Read<seq<Byte>>)
    ensures r.Got? ==> at < r.at <= |input|
  {
    var (k, start) :- ReadNum(input, at);
    ReadBytes(input, start, k)
  }

  function Block(s: seq<Byte>): seq<Byte> {
    Uleb(|s|) + s
  }

  lemma TenBytes()
    ensures Pow(128, 10) == 0x40_0000_0000_0000_0000
  {}

  lemma ReadsUleb(input: seq<Byte>, at: nat, n: nat)
    requires Holds(input, at, Uleb(n)) && n < 0x1_0000_0000_0000_0000
    ensures ReadUleb(input, at) == Got(n, at + |Uleb(n)|)
    ensures n < 0x1_0000_0000 ==> ReadNum(input, at) == Got(n, at + |Uleb(n)|)
  {
    TenBytes();
    UlebReads(input, at, n, 10);
  }

  lemma ReadsBlock(input: seq<Byte>, at: nat, s: seq<Byte>)
    requires Holds(input, at, Block(s)) && |s| < 0x1_0000_0000
    ensures ReadBlock(input, at) == Got(s, at + |Block(s)|)
  {
    HoldsSplit(input, at, Uleb(|s|), s);
    ReadsUleb(input, at, |s|);
  }

  lemma ReadsLe(input: seq<Byte>, at: nat, n: nat, k: nat)
    requires Holds(input, at, Le(n, k)) && n < Pow(256, k)
    ensures ReadLe(input, at, k) == Got(n, at + k)
  {
    LeReads(n, k);
  }

  /** A number whose low groups are read: what is left of it counts in units of the next group. */
  function Resumed(low: nat, unit: nat, rest: Read<nat>): Read<nat> {
    match rest
    case Bad => Bad
    case Got(n, end) => Got(low + unit * n, end)
  }

  lemma ResumedGroup(low: nat, unit: nat, group: nat, rest: Read<nat>)
    ensures Resumed(low, unit, if rest.Bad? then Bad else Got(group + 128 * rest.value, rest.at)) ==
            Resumed(low + group * unit, unit * 128, rest)
  {
    if rest.Got? {
      NextGroup(unit, group, rest.value);
    }
  }

  lemma ResumedEnds(low: nat, unit: nat, group: nat, end: nat, rest: Read<nat>)
    ensures Resumed(low, unit, Got(group, end)) == Got(low + group * unit, end)
    ensures Resumed(low, unit, Bad) == Bad && Resumed(0, 1, rest) == rest
  {}

  lemma NextGroup(unit: int, low: int, high: int)
    ensures unit * (low + 128 * high) == low * unit + (unit * 128) * high
  {}
}
