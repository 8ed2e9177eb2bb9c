/** Row framing of the execution journal: `appendRow` and `readRows` of host/journal.ts. */
module JournalRows {
  import opened Powers
  import opened ByteStrings
  import Crc

  const KINDS: nat := 9

  datatype Row = Row(kind: Byte, index: nat, payload: seq<Byte>)

  /** A row to be written; its index is its position. One with a known kind and a 32-bit length reads back. */
  datatype Content = Content(kind: Byte, payload: seq<Byte>)
  type Entry = e: Content | e.kind < KINDS && |e.payload| < 0x1_0000_0000 witness Content(0, [])

  const ROW_LIMIT: nat := 0x1_0000_0000_0000_0000

  datatype Framed = Framed(rows: seq<Row>, valid: nat)

  // ----- writing -----

  function Head(kind: Byte, index: nat, payload: seq<Byte>): seq<Byte> {
    [kind] + (Uleb(index) + (Uleb(|payload|) + payload))
  }

  /** The bytes `appendRow` appends (host/journal.ts:358-365). */
  function RowBytes(e: Content, index: nat): seq<Byte> {
    var head := Head(e.kind, index, e.payload);
    head + Le(Crc.Checksum(head), 4)
  }

  /** A journal: its rows one after another, numbered from zero. */
  function Journal(es: seq<Content>): seq<Byte> {
    if es == [] then [] else Journal(es[..|es| - 1]) + RowBytes(es[|es| - 1], |es| - 1)
  }

  /** Where row j starts, and the rows before it end. */
  function Offset(es: seq<Content>, j: nat): nat
    requires j <= |es|
  {
    |Journal(es[..j])|
  }

  function RowsOf(es: seq<Entry>): (rows: seq<Row>)
    ensures |rows| == |es|
  {
    seq(|es|, i requires 0 <= i < |es| => Row(es[i].kind, i, es[i].payload))
  }

  // ----- reading -----

  /** One row at `start`, or nothing when it is torn, corrupt or out of order. */
  function ReadRow(bytes: seq<Byte>, start: nat, index: nat): (r: Read<Row>)
    ensures r.Got? ==> start < r.at <= |bytes| && r.value.kind <= 8
  {
    if start >= |bytes| then Bad
    else
      var (number, a) :- ReadUleb(bytes, start + 1);
      var (length, b) :- ReadNum(bytes, a);
      var (payload, c) :- ReadBytes(bytes, b, length);
      var (crc, end) :- ReadLe(bytes, c, 4);
      if bytes[start] >= KINDS || crc != Crc.Checksum(bytes[start..c]) || number != index then Bad
      else Got(Row(bytes[start], number, payload), end)
  }

  function ReadFrom(bytes: seq<Byte>, at: nat, index: nat): (r: Framed)
    requires at <= |bytes|
    ensures at <= r.valid <= |bytes|
    decreases |bytes| - at
  {
    match ReadRow(bytes, at, index)
    case Bad => Framed([], at)
    case Got(row, end) =>
      var rest := ReadFrom(bytes, end, index + 1);
      Framed([row] + rest.rows, rest.valid)
  }

  /** The rows up to the end or the first row that does not read, and the length they take. */
  function ReadRows(bytes: seq<Byte>): Framed {
    ReadFrom(bytes, 0, 0)
  }

  /** One turn of the loop: the row read moves from the rest to the rows so far. */
  lemma ReadTurn(bytes: seq<Byte>, at: nat, rows: seq<Row>)
    requires at <= |bytes|
    ensures var r, f := ReadRow(bytes, at, |rows|), ReadFrom(bytes, at, |rows|);
            if r.Bad? then f == Framed([], at) && rows + f.rows == rows
            else var g := ReadFrom(bytes, r.at, |rows| + 1);
                 f.valid == g.valid && rows + f.rows == (rows + [r.value]) + g.rows
  {
    hide ReadRow;
    var r := ReadRow(bytes, at, |rows|);
    if r.Got? {
      assert rows + ([r.value] + ReadFrom(bytes, r.at, |rows| + 1).rows)
          == (rows + [r.value]) + ReadFrom(bytes, r.at, |rows| + 1).rows;
    }
  }

  /** `readRows` (host/journal.ts:444-471). */
  method ReadRowsLoop(bytes: seq<Byte>) returns (r: Framed)
    ensures r == ReadRows(bytes)
  {
    var rows: seq<Row>, at := [], 0;
    hide ReadRow, ReadFrom;
    assert [] + ReadFrom(bytes, 0, 0).rows == ReadFrom(bytes, 0, 0).rows;
    while true
      invariant at <= |bytes|
      invariant ReadRows(bytes).rows == rows + ReadFrom(bytes, at, |rows|).rows
      invariant ReadRows(bytes).valid == ReadFrom(bytes, at, |rows|).valid
      decreases |bytes| - at
    {
      ReadTurn(bytes, at, rows);
      var start := at;
      var row := ReadRow(bytes, at, |rows|);
      if row.Bad? {
        return Framed(rows, start);
      }
      rows, at := rows + [row.value], row.at;
    }
  }

  // ----- a written row reads back; a row that reads depends on its own bytes only -----

  lemma ChecksumSmall(s: seq<Byte>)
    ensures Crc.Checksum(s) < Pow(256, 4)
  {
    Crc.ValueBound(Crc.Xor(Crc.Serial(0xffff_ffff, s), 0xffff_ffff));
    assert Pow(256, 4) == 0x1_0000_0000;
  }

  /** Where the parts of a row lie. */
  ghost predicate RowParts(bytes: seq<Byte>, at: nat, e: Entry, index: nat) {
    var n, k := |Uleb(index)|, |Uleb(|e.payload|)|;
    && Holds(bytes, at, Head(e.kind, index, e.payload))
    && Holds(bytes, at, [e.kind])
    && Holds(bytes, at + 1, Uleb(index))
    && Holds(bytes, at + 1 + n, Uleb(|e.payload|))
    && Holds(bytes, at + 1 + n + k, e.payload)
    && Holds(bytes, at + 1 + n + k + |e.payload|, Le(Crc.Checksum(Head(e.kind, index, e.payload)), 4))
  }

  lemma HeadLength(kind: Byte, index: nat, payload: seq<Byte>)
    ensures |Head(kind, index, payload)| == 1 + |Uleb(index)| + |Uleb(|payload|)| + |payload|
  {}

  lemma RowSplits(bytes: seq<Byte>, at: nat, e: Entry, index: nat)
    ensures Holds(bytes, at, RowBytes(e, index)) <==> RowParts(bytes, at, e, index)
  {
    hide Holds, Uleb, Le, Crc.Checksum;
    var head := Head(e.kind, index, e.payload);
    HeadLength(e.kind, index, e.payload);
    HoldsSplit(bytes, at, head, Le(Crc.Checksum(head), 4));
    HoldsSplit(bytes, at, [e.kind], Uleb(index) + (Uleb(|e.payload|) + e.payload));
    HoldsSplit(bytes, at + 1, Uleb(index), Uleb(|e.payload|) + e.payload);
    HoldsSplit(bytes, at + 1 + |Uleb(index)|, Uleb(|e.payload|), e.payload);
  }

  lemma RowFromReads(bytes: seq<Byte>, at: nat, kind: Byte, index: nat, payload: seq<Byte>, a: nat, b: nat, c: nat, head: seq<Byte>)
    requires at < |bytes| && bytes[at] == kind && kind < KINDS
    requires ReadUleb(bytes, at + 1) == Got(index, a) && ReadNum(bytes, a) == Got(|payload|, b)
    requires c == b + |payload| && at <= c <= |bytes| && bytes[b..c] == payload && bytes[at..c] == head
    requires ReadLe(bytes, c, 4) == Got(Crc.Checksum(head), c + 4)
    ensures ReadRow(bytes, at, index) == Got(Row(kind, index, payload), c + 4)
  {
    hide ReadUleb, ReadNum, ReadLe, Crc.Checksum;
    assert ReadBytes(bytes, b, |payload|) == Got(payload, c);
  }

  lemma NumbersRead(bytes: seq<Byte>, at: nat, e: Entry, index: nat)
    requires index < ROW_LIMIT && RowParts(bytes, at, e, index)
    ensures at < |bytes| && bytes[at] == e.kind
    ensures ReadUleb(bytes, at + 1) == Got(index, at + 1 + |Uleb(index)|)
    ensures ReadNum(bytes, at + 1 + |Uleb(index)|) == Got(|e.payload|, at + 1 + |Uleb(index)| + |Uleb(|e.payload|)|)
  {
    hide Holds, Uleb, Le, ReadUleb, ReadNum, Head, Crc.Checksum;
    HeldByte(bytes, at, e.kind);
    ReadsUleb(bytes, at + 1, index);
    ReadsUleb(bytes, at + 1 + |Uleb(index)|, |e.payload|);
  }

  lemma BodyReads(bytes: seq<Byte>, at: nat, e: Entry, index: nat, c: nat)
    requires RowParts(bytes, at, e, index)
    requires c == at + 1 + |Uleb(index)| + |Uleb(|e.payload|)| + |e.payload|
    ensures c <= |bytes| && bytes[c - |e.payload|..c] == e.payload
    ensures bytes[at..c] == Head(e.kind, index, e.payload)
  {
    HeadLength(e.kind, index, e.payload);
    hide Holds, Uleb, Le, Head, Crc.Checksum;
    HeldSlice(bytes, c - |e.payload|, e.payload);
    HeldSlice(bytes, at, Head(e.kind, index, e.payload));
  }

  lemma ChecksumReads(bytes: seq<Byte>, at: nat, e: Entry, index: nat, c: nat)
    requires RowParts(bytes, at, e, index)
    requires c == at + 1 + |Uleb(index)| + |Uleb(|e.payload|)| + |e.payload|
    ensures ReadLe(bytes, c, 4) == Got(Crc.Checksum(Head(e.kind, index, e.payload)), c + 4)
  {
    hide Holds, Uleb, Le, ReadLe, Head, Crc.Checksum;
    ChecksumSmall(Head(e.kind, index, e.payload));
    ReadsLe(bytes, c, Crc.Checksum(Head(e.kind, index, e.payload)), 4);
  }

  lemma RowLength(e: Entry, index: nat)
    ensures |RowBytes(e, index)| == 5 + |Uleb(index)| + |Uleb(|e.payload|)| + |e.payload|
    ensures e.kind < KINDS
  {
    HeadLength(e.kind, index, e.payload);
  }

  lemma ReadsParts(bytes: seq<Byte>, at: nat, e: Entry, index: nat, a: nat, b: nat, c: nat)
    requires index < ROW_LIMIT && RowParts(bytes, at, e, index)
    requires a == at + 1 + |Uleb(index)| && b == a + |Uleb(|e.payload|)| && c == b + |e.payload|
    ensures ReadRow(bytes, at, index) == Got(Row(e.kind, index, e.payload), c + 4)
  {
    hide *;
    NumbersRead(bytes, at, e, index);
    BodyReads(bytes, at, e, index, c);
    ChecksumReads(bytes, at, e, index, c);
    RowLength(e, index);
    RowFromReads(bytes, at, e.kind, index, e.payload, a, b, c, Head(e.kind, index, e.payload));
  }

  /** A written row reads back. */
  lemma ReadsRow(bytes: seq<Byte>, at: nat, e: Entry, index: nat)
    requires index < ROW_LIMIT && Holds(bytes, at, RowBytes(e, index))
    ensures ReadRow(bytes, at, index) == Got(Row(e.kind, index, e.payload), at + |RowBytes(e, index)|)
  {
    hide *;
    var a := at + 1 + |Uleb(index)|;
    var b := a + |Uleb(|e.payload|)|;
    RowSplits(bytes, at, e, index);
    RowLength(e, index);
    ReadsParts(bytes, at, e, index, a, b, b + |e.payload|);
  }

  lemma LocalNum(s: seq<Byte>, t: seq<Byte>, at: nat)
    requires var r := ReadUleb(s, at); r.Got? && Agree(s, t, at, r.at)
    ensures ReadUleb(t, at) == ReadUleb(s, at) && ReadNum(t, at) == ReadNum(s, at)
  {
    UlebLocal(s, t, at, 10);
  }

  /** The reads behind one row. */
  predicate RowReads(bytes: seq<Byte>, at: nat, index: nat, row: Row, a: nat, b: nat, c: nat) {
    && at < |bytes| && bytes[at] == row.kind && row.kind < KINDS && row.index == index
    && ReadUleb(bytes, at + 1) == Got(index, a) && ReadNum(bytes, a) == Got(|row.payload|, b)
    && at < b <= c == b + |row.payload| <= |bytes| && bytes[b..c] == row.payload
    && ReadLe(bytes, c, 4) == Got(Crc.Checksum(bytes[at..c]), c + 4)
  }

  lemma RowReadsRow(bytes: seq<Byte>, at: nat, index: nat, row: Row, a: nat, b: nat, c: nat)
    requires RowReads(bytes, at, index, row, a, b, c)
    ensures ReadRow(bytes, at, index) == Got(row, c + 4)
  {
    hide ReadUleb, ReadNum, ReadLe, Crc.Checksum;
  }

  lemma RowHasReads(bytes: seq<Byte>, at: nat, index: nat) returns (a: nat, b: nat, c: nat)
    requires ReadRow(bytes, at, index).Got?
    ensures RowReads(bytes, at, index, ReadRow(bytes, at, index).value, a, b, c)
    ensures ReadRow(bytes, at, index).at == c + 4
  {
    hide Crc.Checksum;
    a := ReadUleb(bytes, at + 1).at;
    b := ReadNum(bytes, a).at;
    c := b + ReadNum(bytes, a).value;
  }

  lemma LocalLe(s: seq<Byte>, t: seq<Byte>, at: nat, k: nat)
    requires at + k <= |s| && Agree(s, t, at, at + k)
    ensures ReadLe(t, at, k) == ReadLe(s, at, k)
  {}

  lemma LocalByte(s: seq<Byte>, t: seq<Byte>, at: nat, end: nat)
    requires Agree(s, t, at, end) && at < end
    ensures s[at] == t[at]
  {
    assert s[at] == s[at..end][0] == t[at..end][0] == t[at];
  }

  /** Two inputs agree on every part of a row. */
  predicate SameParts(s: seq<Byte>, t: seq<Byte>, at: nat, a: nat, b: nat, c: nat) {
    && at < |s| && at < |t| && s[at] == t[at] && Agree(s, t, at + 1, a) && Agree(s, t, a, b)
    && Agree(s, t, b, c) && Agree(s, t, at, c) && Agree(s, t, c, c + 4)
  }

  lemma AgreeParts(s: seq<Byte>, t: seq<Byte>, at: nat, a: nat, b: nat, c: nat)
    requires Agree(s, t, at, c + 4) && at < a <= b <= c
    ensures SameParts(s, t, at, a, b, c)
  {
    LocalByte(s, t, at, c + 4);
    AgreePart(s, t, at, c + 4, at + 1, a);
    AgreePart(s, t, at, c + 4, a, b);
    AgreePart(s, t, at, c + 4, b, c);
    AgreePart(s, t, at, c + 4, c, c + 4);
    AgreePart(s, t, at, c + 4, at, c);
  }

  lemma ReadsLocal(s: seq<Byte>, t: seq<Byte>, at: nat, index: nat, row: Row, a: nat, b: nat, c: nat)
    requires RowReads(s, at, index, row, a, b, c) && SameParts(s, t, at, a, b, c)
    ensures RowReads(t, at, index, row, a, b, c)
  {
    hide ReadUleb, ReadNum, ReadLe, Crc.Checksum;
    LocalNum(s, t, at + 1);
    NumIsUleb(s, a);
    LocalNum(s, t, a);
    LocalLe(s, t, c, 4);
  }

  /** A row that reads depends on its own bytes only. */
  lemma RowLocal(s: seq<Byte>, t: seq<Byte>, at: nat, index: nat)
    requires var r := ReadRow(s, at, index); r.Got? && Agree(s, t, at, r.at)
    ensures ReadRow(t, at, index) == ReadRow(s, at, index)
  {
    hide *;
    var row := ReadRow(s, at, index).value;
    var a, b, c := RowHasReads(s, at, index);
    ReadOrder(s, at, index, row, a, b, c);
    AgreeParts(s, t, at, a, b, c);
    ReadsLocal(s, t, at, index, row, a, b, c);
    RowReadsRow(t, at, index, row, a, b, c);
  }

  lemma ReadOrder(s: seq<Byte>, at: nat, index: nat, row: Row, a: nat, b: nat, c: nat)
    requires RowReads(s, at, index, row, a, b, c)
    ensures at + 1 < a < b <= c
  {}

  lemma NumIsUleb(s: seq<Byte>, at: nat)
    requires ReadNum(s, at).Got?
    ensures ReadUleb(s, at) == ReadNum(s, at)
  {}

  // ----- whole journals -----

  lemma HoldsPrefix(s: seq<Byte>, t: seq<Byte>, at: nat, part: seq<Byte>)
    requires Holds(s, at, part)
    ensures Holds(s + t, at, part)
  {
    assert (s + t)[at..at + |part|] == s[at..at + |part|];
  }

  lemma OffsetOfShorter(es: seq<Entry>, n: nat, j: nat)
    requires j <= n <= |es|
    ensures Offset(es[..n], j) == Offset(es, j)
  {
    assert es[..n][..j] == es[..j];
  }

  lemma OffsetEnds(es: seq<Entry>)
    ensures Offset(es, 0) == 0 && Offset(es, |es|) == |Journal(es)|
  {
    assert es[..0] == [] && es[..|es|] == es;
  }

  lemma {:induction false} JournalSplit(es: seq<Entry>, j: nat)
    requires j < |es|
    ensures Holds(Journal(es), Offset(es, j), RowBytes(es[j], j))
    ensures Offset(es, j + 1) == Offset(es, j) + |RowBytes(es[j], j)| <= |Journal(es)|
    decreases |es|
  {
    hide RowBytes;
    var last := |es| - 1;
    var shorter := es[..last];
    var tail := RowBytes(es[last], last);
    assert Journal(es) == Journal(shorter) + tail;
    hide Offset, Journal;
    OffsetOfShorter(es, last, j);
    OffsetEnds(es);
    OffsetEnds(shorter);
    if j < last {
      OffsetOfShorter(es, last, j + 1);
      JournalSplit(shorter, j);
      HoldsPrefix(Journal(shorter), tail, Offset(es, j), RowBytes(es[j], j));
    }
  }

  /** Row j is the first that does not lie wholly within the first n bytes. */
  ghost predicate Whole(es: seq<Entry>, n: nat, j: nat) {
    j <= |es| && Offset(es, j) <= n && (j < |es| ==> n < Offset(es, j + 1))
  }

  lemma AgreeWithPrefix(s: seq<Byte>, n: nat, at: nat, end: nat)
    requires at <= end <= n <= |s|
    ensures Agree(s, s[..n], at, end) && Agree(s[..n], s, at, end)
  {
    assert s[at..end] == s[..n][at..end];
  }

  lemma RowInPrefix(es: seq<Entry>, n: nat, j: nat)
    requires |es| <= ROW_LIMIT && n <= |Journal(es)| && j < |es|
    ensures ReadRow(Journal(es)[..n], Offset(es, j), j) ==
            if Offset(es, j + 1) <= n then Got(Row(es[j].kind, j, es[j].payload), Offset(es, j + 1)) else Bad
  {
    hide Journal, Offset, RowBytes, ReadRow;
    var s, at, end := Journal(es), Offset(es, j), Offset(es, j + 1);
    var t := s[..n];
    JournalSplit(es, j);
    ReadsRow(s, at, es[j], j);
    if end <= n {
      AgreeWithPrefix(s, n, at, end);
      RowLocal(s, t, at, j);
    } else if ReadRow(t, at, j).Got? {
      AgreeWithPrefix(s, n, at, ReadRow(t, at, j).at);
      RowLocal(t, s, at, j);
    }
  }

  lemma OffsetGrows(es: seq<Entry>, i: nat, j: nat)
    requires i <= j <= |es|
    ensures Offset(es, i) <= Offset(es, j)
    decreases j - i
  {
    hide Offset, RowBytes;
    if i < j {
      JournalSplit(es, i);
      OffsetGrows(es, i + 1, j);
    }
  }

  lemma {:induction false} ReadPrefixFrom(es: seq<Entry>, n: nat, i: nat, j: nat)
    requires |es| <= ROW_LIMIT && n <= |Journal(es)| && i <= j && Whole(es, n, j) && Offset(es, i) <= n
    ensures ReadFrom(Journal(es)[..n], Offset(es, i), i) == Framed(RowsOf(es)[i..j], Offset(es, j))
    decreases j - i
  {
    hide Journal, Offset, ReadRow, RowsOf;
    if i < j {
      OffsetGrows(es, i + 1, j);
      ReadPrefixFrom(es, n, i + 1, j);
      RowInPrefix(es, n, i);
      RowAt(es, i);
      assert RowsOf(es)[i..j] == [RowsOf(es)[i]] + RowsOf(es)[i + 1..j];
    } else if i < |es| {
      RowInPrefix(es, n, i);
    } else {
      OffsetEnds(es);
      EndOfInput(Journal(es)[..n], Offset(es, i), i);
    }
  }

  lemma RowAt(es: seq<Entry>, i: nat)
    requires i < |es|
    ensures RowsOf(es)[i] == Row(es[i].kind, i, es[i].payload)
  {}

  lemma EndOfInput(t: seq<Byte>, at: nat, index: nat)
    requires at >= |t|
    ensures ReadRow(t, at, index).Bad?
  {}

  /** Of a written journal cut anywhere, exactly the rows wholly inside are read, and `valid` is their length. */
  lemma PrefixReads(es: seq<Entry>, n: nat, j: nat)
    requires |es| <= ROW_LIMIT && n <= |Journal(es)| && Whole(es, n, j)
    ensures ReadRows(Journal(es)[..n]) == Framed(RowsOf(es)[..j], Offset(es, j))
  {
    hide Journal, Offset, ReadFrom;
    OffsetEnds(es);
    ReadPrefixFrom(es, n, 0, j);
  }

  /** A whole written journal reads back row by row. */
  lemma JournalReads(es: seq<Entry>)
    requires |es| <= ROW_LIMIT
    ensures ReadRows(Journal(es)) == Framed(RowsOf(es), |Journal(es)|)
  {
    hide Journal, Offset, ReadRows;
    OffsetEnds(es);
    PrefixReads(es, |Journal(es)|, |es|);
    assert Journal(es)[..|Journal(es)|] == Journal(es);
    assert RowsOf(es)[..|es|] == RowsOf(es);
  }

  lemma {:induction false} RereadFrom(s: seq<Byte>, at: nat, index: nat)
    requires at <= |s|
    ensures var f := ReadFrom(s, at, index); at <= |s[..f.valid]| && ReadFrom(s[..f.valid], at, index) == f
    decreases |s| - at
  {
    hide ReadRow;
    var f := ReadFrom(s, at, index);
    var t := s[..f.valid];
    var r := ReadRow(s, at, index);
    if r.Got? {
      RereadFrom(s, r.at, index + 1);
      AgreeWithPrefix(s, f.valid, at, r.at);
      RowLocal(s, t, at, index);
    } else {
      EndOfInput(t, at, index);
    }
  }

  /** Cutting any input to its valid length changes nothing that was read. */
  lemma RereadValid(s: seq<Byte>)
    ensures ReadRows(s[..ReadRows(s).valid]) == ReadRows(s)
  {
    RereadFrom(s, 0, 0);
  }

  // ----- damage -----

  /** s with the bytes from x replaced by v. */
  function Damaged(s: seq<Byte>, x: nat, v: seq<Byte>): (t: seq<Byte>)
    requires x + |v| <= |s|
    ensures |t| == |s|
  {
    s[..x] + v + s[x + |v|..]
  }

  lemma DamagedAgrees(s: seq<Byte>, x: nat, v: seq<Byte>, i: nat, j: nat)
    requires x + |v| <= |s| && i <= j <= |s| && (j <= x || x + |v| <= i)
    ensures Agree(s, Damaged(s, x, v), i, j)
  {
    var t := Damaged(s, x, v);
    forall k | i <= k < j
      ensures t[k] == s[k]
    {}
    assert s[i..j] == t[i..j];
  }

  lemma DamagedSlice(s: seq<Byte>, x: nat, v: seq<Byte>, at: nat, c: nat)
    requires at <= x && x + |v| <= c <= |s|
    ensures s[at..c] == s[at..x] + s[x..x + |v|] + s[x + |v|..c]
    ensures Damaged(s, x, v)[at..c] == s[at..x] + v + s[x + |v|..c]
  {
    var t, n := Damaged(s, x, v), |v|;
    var l, r := t[at..c], s[at..x] + v + s[x + n..c];
    forall i | 0 <= i < |l|
      ensures l[i] == r[i]
    {
      var k := at + i;
      assert l[i] == t[k] == if k < x then s[k] else if k < x + n then v[k - x] else s[k];
    }
  }

  lemma DamagedChecksum(s: seq<Byte>, x: nat, v: seq<Byte>, at: nat, c: nat)
    requires at <= x && x + |v| <= c <= |s| && |v| <= 4 && v != s[x..x + |v|]
    ensures Crc.Checksum(Damaged(s, x, v)[at..c]) != Crc.Checksum(s[at..c])
  {
    hide Crc.Checksum, Damaged;
    DamagedSlice(s, x, v, at, c);
    Crc.BurstDetected(s[at..x], s[x..x + |v|], v, s[x + |v|..c]);
  }

  lemma SameReads(s: seq<Byte>, at: nat, index: nat, row: Row, a: nat, b: nat, c: nat,
                  t: seq<Byte>, row': Row, a': nat, b': nat, c': nat)
    requires RowReads(s, at, index, row, a, b, c) && RowReads(t, at, index, row', a', b', c')
    requires Agree(s, t, at + 1, a) && Agree(s, t, a, b) && Agree(s, t, c, c + 4)
    ensures c' == c && Crc.Checksum(t[at..c]) == Crc.Checksum(s[at..c])
  {
    hide ReadUleb, ReadNum, ReadLe, Crc.Checksum;
    LocalNum(s, t, at + 1);
    NumIsUleb(s, a);
    LocalNum(s, t, a);
    LocalLe(s, t, c, 4);
  }

  lemma DamagedRowFails(s: seq<Byte>, at: nat, index: nat, row: Row, a: nat, b: nat, c: nat, x: nat, v: seq<Byte>)
    requires RowReads(s, at, index, row, a, b, c) && c + 4 <= |s|
    requires b <= x && x + |v| <= c && |v| <= 4 && v != s[x..x + |v|]
    ensures ReadRow(Damaged(s, x, v), at, index).Bad?
  {
    hide *;
    var t := Damaged(s, x, v);
    ReadOrder(s, at, index, row, a, b, c);
    DamagedAgrees(s, x, v, at + 1, a);
    DamagedAgrees(s, x, v, a, b);
    DamagedAgrees(s, x, v, c, c + 4);
    DamagedChecksum(s, x, v, at, c);
    if ReadRow(t, at, index).Got? {
      var a', b', c' := RowHasReads(t, at, index);
      SameReads(s, at, index, row, a, b, c, t, ReadRow(t, at, index).value, a', b', c');
      assert false;
    }
  }

  /** Where the payload of row j lies in a journal. */
  function PayloadStart(es: seq<Entry>, j: nat): nat
    requires j < |es|
  {
    Offset(es, j) + 1 + |Uleb(j)| + |Uleb(|es[j].payload|)|
  }

  lemma RowAtOffset(es: seq<Entry>, j: nat)
    requires |es| <= ROW_LIMIT && j < |es|
    ensures var b := PayloadStart(es, j);
            && Offset(es, j) <= b && b + |es[j].payload| + 4 == Offset(es, j + 1) <= |Journal(es)|
            && RowReads(Journal(es), Offset(es, j), j, RowsOf(es)[j], Offset(es, j) + 1 + |Uleb(j)|, b, b + |es[j].payload|)
  {
    hide *;
    var s, at, e := Journal(es), Offset(es, j), es[j];
    var a := at + 1 + |Uleb(j)|;
    var b := a + |Uleb(|e.payload|)|;
    JournalSplit(es, j);
    RowSplits(s, at, e, j);
    RowLength(e, j);
    RowAt(es, j);
    NumbersRead(s, at, e, j);
    BodyReads(s, at, e, j, b + |e.payload|);
    ChecksumReads(s, at, e, j, b + |e.payload|);
    RowReadsFrom(s, at, j, RowsOf(es)[j], a, b, b + |e.payload|, Head(e.kind, j, e.payload));
    PayloadStartIs(es, j);
  }

  lemma PayloadStartIs(es: seq<Entry>, j: nat)
    requires j < |es|
    ensures PayloadStart(es, j) == Offset(es, j) + 1 + |Uleb(j)| + |Uleb(|es[j].payload|)|
  {}

  lemma RowReadsFrom(bytes: seq<Byte>, at: nat, index: nat, row: Row, a: nat, b: nat, c: nat, head: seq<Byte>)
    requires at < |bytes| && bytes[at] == row.kind && row.kind < KINDS && row.index == index && at < b
    requires ReadUleb(bytes, at + 1) == Got(index, a) && ReadNum(bytes, a) == Got(|row.payload|, b)
    requires c == b + |row.payload| <= |bytes| && bytes[b..c] == row.payload && bytes[at..c] == head
    requires ReadLe(bytes, c, 4) == Got(Crc.Checksum(head), c + 4)
    ensures RowReads(bytes, at, index, row, a, b, c)
  {
    hide Crc.Checksum;
  }

  lemma {:induction false} ReadUpTo(es: seq<Entry>, t: seq<Byte>, i: nat, j: nat)
    requires |es| <= ROW_LIMIT && i <= j < |es|
    requires Agree(Journal(es), t, 0, Offset(es, j)) && ReadRow(t, Offset(es, j), j).Bad?
    ensures Offset(es, i) <= |t| && ReadFrom(t, Offset(es, i), i) == Framed(RowsOf(es)[i..j], Offset(es, j))
    decreases j - i
  {
    hide *;
    var s := Journal(es);
    AgreeLong(s, t, 0, Offset(es, j));
    OffsetGrows(es, i, j);
    RowsSlice(es, i, j);
    if i < j {
      var at, end := Offset(es, i), Offset(es, i + 1);
      OffsetGrows(es, i + 1, j);
      ReadUpTo(es, t, i + 1, j);
      JournalSplit(es, i);
      AgreePart(s, t, 0, Offset(es, j), at, end);
      ReadsRow(s, at, es[i], i);
      RowLocal(s, t, at, i);
    }
    ReadFromStep(t, Offset(es, i), i);
  }

  lemma RowsSlice(es: seq<Entry>, i: nat, j: nat)
    requires i <= j <= |es|
    ensures if i == j then RowsOf(es)[i..j] == []
            else RowsOf(es)[i..j] == [Row(es[i].kind, i, es[i].payload)] + RowsOf(es)[i + 1..j]
  {}

  lemma ReadFromStep(t: seq<Byte>, at: nat, index: nat)
    requires at <= |t|
    ensures ReadFrom(t, at, index) == match ReadRow(t, at, index)
            case Bad => Framed([], at)
            case Got(row, end) => var rest := ReadFrom(t, end, index + 1); Framed([row] + rest.rows, rest.valid)
  {
    hide ReadRow;
  }

  lemma AgreeLong(s: seq<Byte>, t: seq<Byte>, at: nat, end: nat)
    requires Agree(s, t, at, end)
    ensures at <= end <= |s| && end <= |t|
  {}

  /** A payload damaged within four consecutive bytes stops the reader right before its row. */
  lemma DamageDetected(es: seq<Entry>, j: nat, x: nat, v: seq<Byte>)
    requires |es| <= ROW_LIMIT && j < |es|
    requires PayloadStart(es, j) <= x && x + |v| <= PayloadStart(es, j) + |es[j].payload| && |v| <= 4
    requires x + |v| <= |Journal(es)| && v != Journal(es)[x..x + |v|]
    ensures ReadRows(Damaged(Journal(es), x, v)) == Framed(RowsOf(es)[..j], Offset(es, j))
  {
    hide *;
    var s, b := Journal(es), PayloadStart(es, j);
    RowAtOffset(es, j);
    DamagedRowFails(s, Offset(es, j), j, RowsOf(es)[j], Offset(es, j) + 1 + |Uleb(j)|, b, b + |es[j].payload|, x, v);
    DamagedAgrees(s, x, v, 0, Offset(es, j));
    OffsetEnds(es);
    ReadUpTo(es, Damaged(s, x, v), 0, j);
    ReadRowsIs(Damaged(s, x, v));
    assert RowsOf(es)[0..j] == RowsOf(es)[..j];
  }

  lemma ReadRowsIs(t: seq<Byte>)
    ensures ReadRows(t) == ReadFrom(t, 0, 0)
  {}
}
