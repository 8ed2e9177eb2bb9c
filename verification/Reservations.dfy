/** Received bytes in pieces: queued, reserved by reads, or delivered; each byte in exactly one place. */
module Reservations {
  import opened ByteStrings

  /** Where a received byte is: in the queue, reserved by a read, or taken by the program. */
  datatype Place = Queued | Reserved(id: nat) | Delivered

  /** A run of received bytes, by its position. */
  datatype Piece = Piece(at: nat, bytes: seq<Byte>) {
    function End(): nat {
      at + |bytes|
    }
  }

  predicate Covers(p: Piece, i: int) {
    p.at <= i < p.End()
  }

  ghost predicate CoversSome(ps: seq<Piece>, i: int) {
    exists k :: 0 <= k < |ps| && Covers(ps[k], i)
  }

  predicate Fits(received: seq<Byte>, p: Piece) {
    p.bytes != [] && p.End() <= |received| && received[p.at..p.End()] == p.bytes
  }

  /** No byte is in two pieces. */
  ghost predicate Disjoint(ps: seq<Piece>) {
    forall j, k :: 0 <= j < k < |ps| ==> ps[j].End() <= ps[k].at || ps[k].End() <= ps[j].at
  }

  ghost predicate Sorted(ps: seq<Piece>) {
    forall j, k :: 0 <= j < k < |ps| ==> ps[j].End() <= ps[k].at
  }

  ghost predicate Covering(owner: seq<Place>, place: Place, ps: seq<Piece>) {
    forall i :: 0 <= i < |owner| ==> (owner[i] == place <==> CoversSome(ps, i))
  }

  ghost predicate AllFit(received: seq<Byte>, ps: seq<Piece>) {
    forall k :: 0 <= k < |ps| ==> Fits(received, ps[k])
  }

  /** The pieces hold exactly the bytes at `place`, each once. */
  ghost predicate Keeps(received: seq<Byte>, owner: seq<Place>, place: Place, ps: seq<Piece>) {
    |owner| == |received| && AllFit(received, ps) && Disjoint(ps) && Covering(owner, place, ps)
  }

  /** The queued, reserved and delivered pieces partition the received bytes. */
  ghost predicate Partition(received: seq<Byte>, owner: seq<Place>, queue: seq<Piece>, held: map<nat, seq<Piece>>, delivered: seq<Piece>) {
    && Keeps(received, owner, Queued, queue) && Sorted(queue)
    && (forall id <- held :: Keeps(received, owner, Reserved(id), held[id]))
    && Keeps(received, owner, Delivered, delivered)
    && forall i :: 0 <= i < |owner| && owner[i].Reserved? ==> owner[i].id in held
  }

  // ----- moving a piece -----

  function Assign(owner: seq<Place>, p: Piece, place: Place): (r: seq<Place>)
    ensures |r| == |owner|
    ensures forall i :: 0 <= i < |owner| ==> r[i] == if Covers(p, i) then place else owner[i]
  {
    seq(|owner|, i requires 0 <= i < |owner| => if Covers(p, i) then place else owner[i])
  }

  lemma CoversJoin(a: seq<Piece>, b: seq<Piece>, i: int)
    ensures CoversSome(a + b, i) <==> CoversSome(a, i) || CoversSome(b, i)
  {
    var s := a + b;
    if k :| 0 <= k < |a| && Covers(a[k], i) {
      assert Covers(s[k], i);
    }
    if k :| 0 <= k < |b| && Covers(b[k], i) {
      assert Covers(s[|a| + k], i);
    }
    if k :| 0 <= k < |s| && Covers(s[k], i) {
      if k < |a| {
        assert Covers(a[k], i);
      } else {
        assert Covers(b[k - |a|], i);
      }
    }
  }

  lemma CoversInsert(a: seq<Piece>, p: Piece, b: seq<Piece>, i: int)
    ensures CoversSome(a + [p] + b, i) <==> CoversSome(a + b, i) || Covers(p, i)
  {
    hide CoversSome;
    CoversJoin(a + [p], b, i);
    CoversJoin(a, [p], i);
    CoversJoin(a, b, i);
    assert CoversSome([p], i) <==> Covers(p, i) by { CoversOne(p, i); }
  }

  lemma CoversOne(p: Piece, i: int)
    ensures CoversSome([p], i) <==> Covers(p, i)
  {
    if Covers(p, i) {
      assert Covers([p][0], i);
    }
  }

  /** A byte of a piece at `place` is owned by that place, and so by no other piece. */
  lemma PieceOwned(received: seq<Byte>, owner: seq<Place>, place: Place, ps: seq<Piece>, k: nat)
    requires Keeps(received, owner, place, ps) && k < |ps|
    ensures ps[k].bytes != [] && ps[k].End() <= |owner| && forall i :: ps[k].at <= i < ps[k].End() ==> owner[i] == place
  {
    assert Fits(received, ps[k]);
    forall i | ps[k].at <= i < ps[k].End()
      ensures owner[i] == place
    {
      assert Covers(ps[k], i);
    }
  }

  lemma Shorter(a: seq<Piece>, p: Piece, b: seq<Piece>, k: nat)
    requires k < |a + b|
    ensures (a + b)[k] == (a + [p] + b)[if k < |a| then k else k + 1]
  {}

  lemma DropsOne(received: seq<Byte>, a: seq<Piece>, p: Piece, b: seq<Piece>)
    requires AllFit(received, a + [p] + b) && Disjoint(a + [p] + b)
    ensures AllFit(received, a + b) && Disjoint(a + b)
  {
    forall k | 0 <= k < |a + b|
      ensures Fits(received, (a + b)[k])
    {
      Shorter(a, p, b, k);
    }
    forall j, k | 0 <= j < k < |a + b|
      ensures (a + b)[j].End() <= (a + b)[k].at || (a + b)[k].End() <= (a + b)[j].at
    {
      Shorter(a, p, b, j);
      Shorter(a, p, b, k);
    }
  }

  /** Taking a piece out of its place. */
  lemma MovesOut(received: seq<Byte>, owner: seq<Place>, place: Place, a: seq<Piece>, p: Piece, b: seq<Piece>, to: Place)
    requires Keeps(received, owner, place, a + [p] + b) && to != place
    ensures Keeps(received, Assign(owner, p, to), place, a + b)
  {
    hide CoversSome, AllFit, Disjoint;
    DropsOne(received, a, p, b);
    forall i | 0 <= i < |owner|
      ensures Assign(owner, p, to)[i] == place <==> CoversSome(a + b, i)
    {
      CoversInsert(a, p, b, i);
      if Covers(p, i) {
        NotTwice(a, p, b, i);
      }
    }
  }

  lemma NotTwice(a: seq<Piece>, p: Piece, b: seq<Piece>, i: int)
    requires Disjoint(a + [p] + b) && Covers(p, i)
    ensures !CoversSome(a + b, i)
  {
    var ps := a + [p] + b;
    assert ps[|a|] == p;
    forall k | 0 <= k < |a + b|
      ensures !Covers((a + b)[k], i)
    {
      Shorter(a, p, b, k);
    }
  }

  /** Putting a piece that was elsewhere into a place. */
  lemma MovesIn(received: seq<Byte>, owner: seq<Place>, place: Place, a: seq<Piece>, p: Piece, b: seq<Piece>)
    requires Keeps(received, owner, place, a + b) && Fits(received, p)
    requires forall i :: p.at <= i < p.End() ==> owner[i] != place
    ensures Keeps(received, Assign(owner, p, place), place, a + [p] + b)
  {
    hide CoversSome;
    var ps, next := a + [p] + b, Assign(owner, p, place);
    forall k | 0 <= k < |ps|
      ensures Fits(received, ps[k])
    {
      if k != |a| {
        assert ps[k] == (a + b)[if k < |a| then k else k - 1];
      }
    }
    forall j, k | 0 <= j < k < |ps|
      ensures ps[j].End() <= ps[k].at || ps[k].End() <= ps[j].at
    {
      var j', k' := if j < |a| then j else j - 1, if k < |a| then k else k - 1;
      if k == |a| {
        assert ps[j] == (a + b)[j];
        ApartFrom(received, owner, place, a + b, j, p);
      } else if j == |a| {
        assert ps[k] == (a + b)[k'];
        ApartFrom(received, owner, place, a + b, k', p);
      } else {
        assert ps[j] == (a + b)[j'] && ps[k] == (a + b)[k'];
      }
    }
    forall i | 0 <= i < |owner|
      ensures next[i] == place <==> CoversSome(ps, i)
    {
      CoversInsert(a, p, b, i);
    }
  }

  lemma ApartFrom(received: seq<Byte>, owner: seq<Place>, place: Place, ps: seq<Piece>, k: nat, p: Piece)
    requires Keeps(received, owner, place, ps) && Fits(received, p) && k < |ps|
    requires forall i :: p.at <= i < p.End() ==> owner[i] != place
    ensures ps[k].End() <= p.at || p.End() <= ps[k].at
  {
    hide CoversSome;
    PieceOwned(received, owner, place, ps, k);
    var i := if p.at < ps[k].at then ps[k].at else p.at;
    assert ps[k].at <= i < ps[k].End() ==> owner[i] == place;
    assert p.at <= i < p.End() ==> owner[i] != place;
  }

  /** Other places keep what they hold. */
  lemma MovesPast(received: seq<Byte>, owner: seq<Place>, other: Place, ps: seq<Piece>, p: Piece, from: Place, to: Place)
    requires Keeps(received, owner, other, ps) && other != from && other != to && p.End() <= |owner|
    requires forall i :: p.at <= i < p.End() ==> owner[i] == from
    ensures Keeps(received, Assign(owner, p, to), other, ps)
  {
    hide CoversSome;
  }

  lemma CutFits(received: seq<Byte>, p: Piece, n: nat)
    requires Fits(received, p) && 0 < n < |p.bytes|
    ensures Fits(received, Piece(p.at, p.bytes[..n])) && Fits(received, Piece(p.at + n, p.bytes[n..]))
  {
    assert received[p.at..p.End()][..n] == received[p.at..p.at + n];
    assert received[p.at..p.End()][n..] == received[p.at + n..p.End()];
  }

  /** The index of the uncut piece that piece k of the cut ones is from. */
  function Origin(at: nat, k: nat): nat {
    if k <= at then k else k - 1
  }

  lemma CutApart(ps: seq<Piece>, cut: seq<Piece>, at: nat)
    requires |cut| == |ps| + 1 && at < |ps| && cut[at].End() <= cut[at + 1].at
    requires forall k :: 0 <= k < |cut| ==> cut[k].at >= ps[Origin(at, k)].at && cut[k].End() <= ps[Origin(at, k)].End()
    ensures Disjoint(ps) ==> Disjoint(cut)
    ensures Sorted(ps) ==> Sorted(cut)
  {
    hide Disjoint, Sorted;
    forall j, k | 0 <= j < k < |cut|
      ensures Disjoint(ps) ==> cut[j].End() <= cut[k].at || cut[k].End() <= cut[j].at
      ensures Sorted(ps) ==> cut[j].End() <= cut[k].at
    {
      PairApart(ps, Origin(at, j), Origin(at, k));
    }
    PairsApart(cut);
  }

  lemma PairApart(ps: seq<Piece>, j: nat, k: nat)
    requires j < |ps| && k < |ps|
    ensures j < k && Disjoint(ps) ==> ps[j].End() <= ps[k].at || ps[k].End() <= ps[j].at
    ensures j < k && Sorted(ps) ==> ps[j].End() <= ps[k].at
  {}

  lemma PairsApart(ps: seq<Piece>)
    ensures (forall j, k :: 0 <= j < k < |ps| ==> ps[j].End() <= ps[k].at || ps[k].End() <= ps[j].at) ==> Disjoint(ps)
    ensures (forall j, k :: 0 <= j < k < |ps| ==> ps[j].End() <= ps[k].at) ==> Sorted(ps)
  {}

  /** A piece cut in two holds the same bytes. */
  lemma CutsPiece(received: seq<Byte>, owner: seq<Place>, place: Place, a: seq<Piece>, p: Piece, b: seq<Piece>, n: nat)
    requires Keeps(received, owner, place, a + [p] + b) && 0 < n < |p.bytes|
    ensures var first, rest := Piece(p.at, p.bytes[..n]), Piece(p.at + n, p.bytes[n..]);
            && Keeps(received, owner, place, a + [first, rest] + b)
            && (Sorted(a + [p] + b) ==> Sorted(a + [first, rest] + b))
  {
    hide CoversSome, Disjoint, Sorted, Fits;
    var first, rest := Piece(p.at, p.bytes[..n]), Piece(p.at + n, p.bytes[n..]);
    var ps, cut := a + [p] + b, a + [first, rest] + b;
    assert ps[|a|] == p && Fits(received, ps[|a|]);
    CutFits(received, p, n);
    forall k | 0 <= k < |cut|
      ensures Fits(received, cut[k]) && cut[k].at >= ps[Origin(|a|, k)].at && cut[k].End() <= ps[Origin(|a|, k)].End()
    {
      if k != |a| && k != |a| + 1 {
        assert cut[k] == ps[Origin(|a|, k)];
      }
    }
    CutApart(ps, cut, |a|);
    assert Covering(owner, place, cut) by { CutCovers(owner, place, a, p, b, n); }
  }

  lemma CutCovers(owner: seq<Place>, place: Place, a: seq<Piece>, p: Piece, b: seq<Piece>, n: nat)
    requires Covering(owner, place, a + [p] + b) && 0 < n < |p.bytes|
    ensures Covering(owner, place, a + [Piece(p.at, p.bytes[..n]), Piece(p.at + n, p.bytes[n..])] + b)
  {
    hide CoversSome;
    var first, rest := Piece(p.at, p.bytes[..n]), Piece(p.at + n, p.bytes[n..]);
    var cut := a + [first, rest] + b;
    forall i | 0 <= i < |owner|
      ensures owner[i] == place <==> CoversSome(cut, i)
    {
      CoversInsert(a, p, b, i);
      CoversInsert(a, first, [rest] + b, i);
      assert a + [first] + ([rest] + b) == cut && a + ([rest] + b) == a + [rest] + b;
      CoversInsert(a, rest, b, i);
    }
  }

  // ----- the queue in order -----

  function Flatten(ps: seq<Piece>): seq<Byte> {
    if ps == [] then [] else Flatten(ps[..|ps| - 1]) + ps[|ps| - 1].bytes
  }

  lemma {:induction false} FlattenJoins(a: seq<Piece>, b: seq<Piece>)
    ensures Flatten(a + b) == Flatten(a) + Flatten(b)
    decreases |b|
  {
    if b == [] {
      assert a + b == a;
    } else {
      var n := |b| - 1;
      assert (a + b)[..|a| + n] == a + b[..n];
      FlattenJoins(a, b[..n]);
    }
  }

  /** The first piece comes first. */
  lemma FlattenFirst(p: Piece, rest: seq<Piece>)
    ensures Flatten([p]) == p.bytes && Flatten([p] + rest) == p.bytes + Flatten(rest)
  {
    assert [p][..0] == [];
    FlattenJoins([p], rest);
  }

  /** The received bytes at a place, in order. */
  function Select(received: seq<Byte>, owner: seq<Place>, place: Place): seq<Byte>
    requires |owner| == |received|
  {
    if received == [] then []
    else
      var n := |received| - 1;
      Select(received[..n], owner[..n], place) + if owner[n] == place then [received[n]] else []
  }

  lemma Slices<T>(s: seq<T>, i: nat, n: nat)
    requires i <= n <= |s|
    ensures s[..n][..i] == s[..i] && s[i..][..n - i] == s[..n][i..]
  {}

  lemma SelectLast(received: seq<Byte>, owner: seq<Place>, place: Place, n: nat)
    requires |owner| == |received| == n + 1
    ensures Select(received, owner, place) == Select(received[..n], owner[..n], place) + if owner[n] == place then [received[n]] else []
  {}

  lemma {:induction false} SelectSplits(received: seq<Byte>, owner: seq<Place>, place: Place, i: nat)
    requires |owner| == |received| && i <= |received|
    ensures Select(received, owner, place) == Select(received[..i], owner[..i], place) + Select(received[i..], owner[i..], place)
    decreases |received|
  {
    var n := |received| - 1;
    if i == |received| {
      assert received[..i] == received && owner[..i] == owner && received[i..] == [];
    } else {
      hide Select;
      SelectSplits(received[..n], owner[..n], place, i);
      Slices(received, i, n);
      Slices(owner, i, n);
      SelectLast(received, owner, place, n);
      SelectLast(received[i..], owner[i..], place, n - i);
    }
  }

  lemma {:induction false} SelectAll(received: seq<Byte>, owner: seq<Place>, place: Place)
    requires |owner| == |received| && forall i :: 0 <= i < |owner| ==> owner[i] == place
    ensures Select(received, owner, place) == received
    decreases |received|
  {
    if received != [] {
      var n := |received| - 1;
      SelectAll(received[..n], owner[..n], place);
      assert received == received[..n] + [received[n]];
    }
  }

  lemma {:induction false} SelectNone(received: seq<Byte>, owner: seq<Place>, place: Place)
    requires |owner| == |received| && forall i :: 0 <= i < |owner| ==> owner[i] != place
    ensures Select(received, owner, place) == []
    decreases |received|
  {
    if received != [] {
      var n := |received| - 1;
      SelectNone(received[..n], owner[..n], place);
    }
  }

  /** A run of bytes at the place, and none after it. */
  lemma SelectEnds(received: seq<Byte>, owner: seq<Place>, place: Place, a: nat, e: nat)
    requires |owner| == |received| && a <= e <= |received|
    requires forall i :: a <= i < e ==> owner[i] == place
    requires forall i :: e <= i < |owner| ==> owner[i] != place
    ensures Select(received, owner, place) == Select(received[..a], owner[..a], place) + received[a..e]
  {
    hide Select;
    SelectSplits(received, owner, place, e);
    SelectSplits(received[..e], owner[..e], place, a);
    Slices(received, a, e);
    Slices(owner, a, e);
    SelectAll(received[..e][a..], owner[..e][a..], place);
    SelectNone(received[e..], owner[e..], place);
    assert received[..e][a..] == received[a..e];
  }

  /** The bytes of sorted pieces are the received bytes at their place, in order. */
  lemma {:induction false} FlattensInOrder(received: seq<Byte>, owner: seq<Place>, place: Place, ps: seq<Piece>)
    requires Keeps(received, owner, place, ps) && Sorted(ps)
    ensures Flatten(ps) == Select(received, owner, place)
    decreases |ps|
  {
    hide CoversSome, Select, Sorted, Keeps;
    if ps == [] {
      NothingKept(received, owner, place);
    } else {
      var n := |ps| - 1;
      PieceOwned(received, owner, place, ps, n);
      NoneAfter(received, owner, place, ps);
      SelectEnds(received, owner, place, ps[n].at, ps[n].End());
      KeepsBefore(received, owner, place, ps);
      FlattensInOrder(received[..ps[n].at], owner[..ps[n].at], place, ps[..n]);
    }
  }

  lemma NothingKept(received: seq<Byte>, owner: seq<Place>, place: Place)
    requires Keeps(received, owner, place, [])
    ensures |owner| == |received| && Select(received, owner, place) == []
  {
    SelectNone(received, owner, place);
  }

  lemma NoneAfter(received: seq<Byte>, owner: seq<Place>, place: Place, ps: seq<Piece>)
    requires Keeps(received, owner, place, ps) && Sorted(ps) && ps != []
    ensures Fits(received, ps[|ps| - 1]) && |owner| == |received|
    ensures ps[|ps| - 1].End() <= |owner| && forall i :: ps[|ps| - 1].End() <= i < |owner| ==> owner[i] != place
  {
    assert Fits(received, ps[|ps| - 1]);
  }

  lemma KeepsBefore(received: seq<Byte>, owner: seq<Place>, place: Place, ps: seq<Piece>)
    requires Keeps(received, owner, place, ps) && Sorted(ps) && ps != []
    ensures var n := |ps| - 1;
            && ps[n].at <= |received| && Keeps(received[..ps[n].at], owner[..ps[n].at], place, ps[..n]) && Sorted(ps[..n])
  {
    var n := |ps| - 1;
    var p := ps[n];
    assert Fits(received, p);
    forall k | 0 <= k < n
      ensures Fits(received[..p.at], ps[..n][k])
    {
      assert Fits(received, ps[k]) && ps[k].End() <= p.at;
      assert received[..p.at][ps[k].at..ps[k].End()] == received[ps[k].at..ps[k].End()];
    }
    forall i | 0 <= i < p.at
      ensures owner[i] == place <==> CoversSome(ps[..n], i)
    {
      assert ps == ps[..n] + [p];
      CoversJoin(ps[..n], [p], i);
      CoversOne(p, i);
    }
  }

  // ----- the steps of a queue with reservations -----

  /** A piece moves between the places of `from` and `to`; all else stays. */
  lemma OthersKeep(received: seq<Byte>, owner: seq<Place>, held: map<nat, seq<Piece>>, p: Piece, from: Place, to: Place)
    requires forall id <- held :: Keeps(received, owner, Reserved(id), held[id])
    requires p.End() <= |owner| && forall i :: p.at <= i < p.End() ==> owner[i] == from
    ensures forall id <- held :: Reserved(id) != from && Reserved(id) != to ==> Keeps(received, Assign(owner, p, to), Reserved(id), held[id])
  {
    hide Keeps, Assign;
    forall id | id in held && Reserved(id) != from && Reserved(id) != to
      ensures Keeps(received, Assign(owner, p, to), Reserved(id), held[id])
    {
      MovesPast(received, owner, Reserved(id), held[id], p, from, to);
    }
  }

  lemma MiddleOwned(received: seq<Byte>, owner: seq<Place>, place: Place, a: seq<Piece>, p: Piece, b: seq<Piece>)
    requires Keeps(received, owner, place, a + [p] + b)
    ensures Fits(received, p) && |owner| == |received| && p.End() <= |owner| && forall i :: p.at <= i < p.End() ==> owner[i] == place
  {
    var ps := a + [p] + b;
    assert ps[|a|] == p;
    PieceOwned(received, owner, place, ps, |a|);
  }

  lemma HoldersStay(owner: seq<Place>, held: map<nat, seq<Piece>>, p: Piece, to: Place)
    requires forall i :: 0 <= i < |owner| && owner[i].Reserved? ==> owner[i].id in held
    requires to.Reserved? ==> to.id in held
    ensures forall i :: 0 <= i < |Assign(owner, p, to)| && Assign(owner, p, to)[i].Reserved? ==> Assign(owner, p, to)[i].id in held
  {}

  /** The front of the queue is reserved by a read. */
  lemma Reserves(received: seq<Byte>, owner: seq<Place>, queue: seq<Piece>, held: map<nat, seq<Piece>>, delivered: seq<Piece>, id: nat)
    requires Partition(received, owner, queue, held, delivered) && queue != [] && id in held
    ensures Partition(received, Assign(owner, queue[0], Reserved(id)), queue[1..], held[id := held[id] + [queue[0]]], delivered)
  {
    hide Keeps, Assign, Sorted;
    var p, to := queue[0], Reserved(id);
    assert queue == [] + [p] + queue[1..];
    MiddleOwned(received, owner, Queued, [], p, queue[1..]);
    MovesOut(received, owner, Queued, [], p, queue[1..], to);
    assert [] + queue[1..] == queue[1..];
    assert held[id] + [] == held[id] && held[id] + [p] + [] == held[id] + [p];
    MovesIn(received, owner, to, held[id], p, []);
    MovesPast(received, owner, Delivered, delivered, p, Queued, to);
    OthersKeep(received, owner, held, p, Queued, to);
    HoldersStay(owner, held, p, to);
    assert Sorted(queue[1..]) by { SortedRest(queue); }
  }

  lemma SortedRest(ps: seq<Piece>)
    requires Sorted(ps) && ps != []
    ensures Sorted(ps[1..])
  {}

  /** Where a piece goes back: before the first piece that starts after it. */
  ghost predicate GoesAt(queue: seq<Piece>, p: Piece, at: nat) {
    && at <= |queue| && (at < |queue| ==> queue[at].at > p.at)
    && forall k :: 0 <= k < at ==> queue[k].at <= p.at
  }

  lemma InsertSorts(received: seq<Byte>, owner: seq<Place>, queue: seq<Piece>, p: Piece, at: nat)
    requires Keeps(received, owner, Queued, queue) && Sorted(queue) && Fits(received, p) && GoesAt(queue, p, at)
    requires forall i :: p.at <= i < p.End() ==> owner[i] != Queued
    ensures Sorted(queue[..at] + [p] + queue[at..])
  {
    hide CoversSome;
    forall k | 0 <= k < |queue|
      ensures if k < at then queue[k].End() <= p.at else p.End() <= queue[k].at
    {
      ApartFrom(received, owner, Queued, queue, k, p);
      assert Fits(received, queue[k]);
      if k > at {
        assert queue[at].End() <= queue[k].at;
      }
    }
  }

  /** A reserved piece goes back to its place in the queue. */
  lemma Restores(received: seq<Byte>, owner: seq<Place>, queue: seq<Piece>, held: map<nat, seq<Piece>>, delivered: seq<Piece>, id: nat,
      a: seq<Piece>, p: Piece, b: seq<Piece>, at: nat)
    requires Partition(received, owner, queue, held, delivered) && id in held && held[id] == a + [p] + b && GoesAt(queue, p, at)
    ensures Partition(received, Assign(owner, p, Queued), queue[..at] + [p] + queue[at..], held[id := a + b], delivered)
  {
    hide Keeps, Assign, Sorted, Fits;
    var from := Reserved(id);
    MiddleOwned(received, owner, from, a, p, b);
    MovesOut(received, owner, from, a, p, b, Queued);
    assert queue == queue[..at] + queue[at..];
    MovesIn(received, owner, Queued, queue[..at], p, queue[at..]);
    MovesPast(received, owner, Delivered, delivered, p, from, Queued);
    OthersKeep(received, owner, held, p, from, Queued);
    HoldersStay(owner, held, p, Queued);
    InsertSorts(received, owner, queue, p, at);
  }

  /** A reserved piece is cut in two. */
  lemma CutsHeld(received: seq<Byte>, owner: seq<Place>, queue: seq<Piece>, held: map<nat, seq<Piece>>, delivered: seq<Piece>, id: nat,
      a: seq<Piece>, p: Piece, b: seq<Piece>, n: nat)
    requires Partition(received, owner, queue, held, delivered) && id in held && held[id] == a + [p] + b && 0 < n < |p.bytes|
    ensures var cut := a + [Piece(p.at, p.bytes[..n]), Piece(p.at + n, p.bytes[n..])] + b;
            Partition(received, owner, queue, held[id := cut], delivered)
  {
    hide Keeps, Sorted;
    CutsPiece(received, owner, Reserved(id), a, p, b, n);
  }

  /** The front of the queue is cut in two. */
  lemma CutsQueue(received: seq<Byte>, owner: seq<Place>, queue: seq<Piece>, held: map<nat, seq<Piece>>, delivered: seq<Piece>, n: nat)
    requires Partition(received, owner, queue, held, delivered) && queue != [] && 0 < n < |queue[0].bytes|
    ensures var cut := [Piece(queue[0].at, queue[0].bytes[..n]), Piece(queue[0].at + n, queue[0].bytes[n..])] + queue[1..];
            Partition(received, owner, cut, held, delivered)
  {
    hide Keeps, Sorted;
    var first, rest := Piece(queue[0].at, queue[0].bytes[..n]), Piece(queue[0].at + n, queue[0].bytes[n..]);
    assert queue == [] + [queue[0]] + queue[1..];
    assert [] + [first, rest] + queue[1..] == [first, rest] + queue[1..];
    CutsPiece(received, owner, Queued, [], queue[0], queue[1..], n);
  }

  /** A reserved piece is taken by the program. */
  lemma Delivers(received: seq<Byte>, owner: seq<Place>, queue: seq<Piece>, held: map<nat, seq<Piece>>, delivered: seq<Piece>, id: nat,
      a: seq<Piece>, p: Piece, b: seq<Piece>)
    requires Partition(received, owner, queue, held, delivered) && id in held && held[id] == a + [p] + b
    ensures Partition(received, Assign(owner, p, Delivered), queue, held[id := a + b], delivered + [p])
  {
    hide Keeps, Assign, Sorted, Fits;
    var from := Reserved(id);
    MiddleOwned(received, owner, from, a, p, b);
    MovesOut(received, owner, from, a, p, b, Delivered);
    assert delivered + [] == delivered && delivered + [p] + [] == delivered + [p];
    MovesIn(received, owner, Delivered, delivered, p, []);
    MovesPast(received, owner, Queued, queue, p, from, Delivered);
    OthersKeep(received, owner, held, p, from, Delivered);
    HoldersStay(owner, held, p, Delivered);
  }

  /** A read starts without a reservation. */
  lemma Starts(received: seq<Byte>, owner: seq<Place>, queue: seq<Piece>, held: map<nat, seq<Piece>>, delivered: seq<Piece>, id: nat)
    requires Partition(received, owner, queue, held, delivered) && id !in held
    ensures Partition(received, owner, queue, held[id := []], delivered)
  {
    hide Sorted, Fits;
  }

  /** A read without a reservation ends. */
  lemma Leaves(received: seq<Byte>, owner: seq<Place>, queue: seq<Piece>, held: map<nat, seq<Piece>>, delivered: seq<Piece>, id: nat)
    requires Partition(received, owner, queue, held, delivered) && id in held && held[id] == []
    ensures Partition(received, owner, queue, held - {id}, delivered)
  {
    hide Sorted, Fits, Disjoint;
    assert Keeps(received, owner, Reserved(id), []);
    forall i | 0 <= i < |owner| && owner[i].Reserved?
      ensures owner[i].id in held - {id}
    {
      assert owner[i] == Reserved(id) <==> CoversSome([], i);
    }
  }

  /** Bytes arrive. */
  lemma {:induction false} Arrives(received: seq<Byte>, owner: seq<Place>, queue: seq<Piece>, held: map<nat, seq<Piece>>, delivered: seq<Piece>,
      bytes: seq<Byte>)
    requires Partition(received, owner, queue, held, delivered) && bytes != []
    ensures Partition(received + bytes, owner + seq(|bytes|, i => Queued), queue + [Piece(|received|, bytes)], held, delivered)
  {
    hide Keeps, Sorted;
    var grown, places, p := received + bytes, owner + seq(|bytes|, i => Queued), Piece(|received|, bytes);
    forall id | id in held
      ensures Keeps(grown, places, Reserved(id), held[id])
    {
      KeepsMore(received, owner, Reserved(id), held[id], bytes);
    }
    KeepsMore(received, owner, Delivered, delivered, bytes);
    QueueGrows(received, owner, queue, bytes);
  }

  lemma FitsMore(received: seq<Byte>, bytes: seq<Byte>, ps: seq<Piece>)
    requires AllFit(received, ps)
    ensures AllFit(received + bytes, ps)
  {
    forall k | 0 <= k < |ps|
      ensures Fits(received + bytes, ps[k])
    {
      assert Fits(received, ps[k]);
      assert (received + bytes)[ps[k].at..ps[k].End()] == received[ps[k].at..ps[k].End()];
    }
  }

  lemma KeepsMore(received: seq<Byte>, owner: seq<Place>, place: Place, ps: seq<Piece>, bytes: seq<Byte>)
    requires Keeps(received, owner, place, ps) && place != Queued
    ensures Keeps(received + bytes, owner + seq(|bytes|, i => Queued), place, ps)
  {
    hide Disjoint;
    FitsMore(received, bytes, ps);
    forall i | |owner| <= i < |owner| + |bytes|
      ensures !CoversSome(ps, i)
    {
      forall k | 0 <= k < |ps|
        ensures !Covers(ps[k], i)
      {
        assert Fits(received, ps[k]);
      }
    }
  }

  lemma QueueGrows(received: seq<Byte>, owner: seq<Place>, queue: seq<Piece>, bytes: seq<Byte>)
    requires Keeps(received, owner, Queued, queue) && Sorted(queue) && bytes != []
    ensures var more := queue + [Piece(|received|, bytes)];
            Keeps(received + bytes, owner + seq(|bytes|, i => Queued), Queued, more) && Sorted(more)
  {
    hide CoversSome;
    var p := Piece(|received|, bytes);
    var more := queue + [p];
    FitsMore(received, bytes, queue);
    assert Fits(received + bytes, p);
    forall k | 0 <= k < |queue|
      ensures queue[k].End() <= p.at
    {
      assert Fits(received, queue[k]);
    }
    forall i | 0 <= i < |owner| + |bytes|
      ensures (owner + seq(|bytes|, i => Queued))[i] == Queued <==> CoversSome(more, i)
    {
      CoversJoin(queue, [p], i);
      CoversOne(p, i);
    }
  }

  /** When no read holds a reservation, the queue holds in order every byte the program has not taken. */
  lemma UntakenInOrder(received: seq<Byte>, owner: seq<Place>, queue: seq<Piece>, held: map<nat, seq<Piece>>, delivered: seq<Piece>)
    requires Partition(received, owner, queue, held, delivered) && forall id <- held :: held[id] == []
    ensures |owner| == |received| && Flatten(queue) == Select(received, owner, Queued)
    ensures forall i :: 0 <= i < |owner| ==> owner[i] == Queued || owner[i] == Delivered
  {
    hide Select, Disjoint, Sorted, AllFit;
    FlattensInOrder(received, owner, Queued, queue);
    forall id | id in held
      ensures forall i :: 0 <= i < |owner| ==> owner[i] != Reserved(id)
    {
      assert Keeps(received, owner, Reserved(id), []);
    }
  }
}
