/** A stream's received data and the reads that reserve it (host/net.ts:177-260, 325-395, 547-583). */
module NetInbox {
  import opened ByteStrings
  import opened Reservations
  import opened Options

  /** A chunk of data, or what is left of it: `order` numbers the chunk, `offset` is where this part starts. */
  datatype Item = Item(value: seq<Byte>, order: nat, offset: nat)

  datatype InboxEnd = Eof | Failed

  /** What a read gives the program. */
  datatype Result = Data(bytes: seq<Byte>) | Failure | TimedOut | Pending | Unknown

  /** A wait the program knows: its result once there is one, and what an abort puts back. */
  datatype Wait = Wait(result: Result, undo: Option<Item>)

  /** A read under way: it asks for data, or holds an item it has taken. */
  datatype Flight = Flight(max: nat, taken: Option<Item>, aborted: bool)

  // ----- positions -----

  function Flat(chunks: seq<seq<Byte>>): seq<Byte> {
    if chunks == [] then [] else Flat(chunks[..|chunks| - 1]) + chunks[|chunks| - 1]
  }

  /** Where chunk `order` starts in all that was received. */
  function Base(chunks: seq<seq<Byte>>, order: nat): nat
    requires order <= |chunks|
  {
    |Flat(chunks[..order])|
  }

  predicate Within(chunks: seq<seq<Byte>>, item: Item) {
    item.order < |chunks| && item.value != [] && item.offset + |item.value| <= |chunks[item.order]|
  }

  function PieceOf(chunks: seq<seq<Byte>>, item: Item): Piece
    requires Within(chunks, item)
  {
    Piece(Base(chunks, item.order) + item.offset, item.value)
  }

  ghost predicate AllIn(chunks: seq<seq<Byte>>, items: seq<Item>) {
    forall k :: 0 <= k < |items| ==> Within(chunks, items[k])
  }

  ghost function Pieces(chunks: seq<seq<Byte>>, items: seq<Item>): (ps: seq<Piece>)
    requires AllIn(chunks, items)
    ensures |ps| == |items|
    ensures forall k :: 0 <= k < |items| ==> ps[k] == PieceOf(chunks, items[k])
  {
    seq(|items|, k requires 0 <= k < |items| => PieceOf(chunks, items[k]))
  }

  lemma {:induction false} BaseGrows(chunks: seq<seq<Byte>>, i: nat, j: nat)
    requires i < j <= |chunks|
    ensures Base(chunks, i) + |chunks[i]| <= Base(chunks, j)
    decreases j
  {
    assert chunks[..j][..j - 1] == chunks[..j - 1];
    if i < j - 1 {
      BaseGrows(chunks, i, j - 1);
    }
  }

  /** `restore` compares items: the other is of a later chunk, or a later part of the same one. */
  predicate Later(other: Item, item: Item) {
    other.order > item.order || (other.order == item.order && other.offset > item.offset)
  }

  lemma LaterIsAfter(chunks: seq<seq<Byte>>, other: Item, item: Item)
    requires Within(chunks, other) && Within(chunks, item)
    ensures Later(other, item) <==> PieceOf(chunks, other).at > PieceOf(chunks, item).at
  {
    hide Base;
    if other.order > item.order {
      BaseGrows(chunks, item.order, other.order);
    } else if other.order < item.order {
      BaseGrows(chunks, other.order, item.order);
    }
  }

  lemma SameBase(chunks: seq<seq<Byte>>, more: seq<Byte>, order: nat)
    requires order <= |chunks|
    ensures Base(chunks + [more], order) == Base(chunks, order)
  {
    assert (chunks + [more])[..order] == chunks[..order];
  }

  lemma SamePieces(chunks: seq<seq<Byte>>, more: seq<Byte>, items: seq<Item>)
    requires AllIn(chunks, items)
    ensures AllIn(chunks + [more], items) && Pieces(chunks + [more], items) == Pieces(chunks, items)
  {
    hide Base;
    forall k | 0 <= k < |items|
      ensures Within(chunks + [more], items[k]) && PieceOf(chunks + [more], items[k]) == PieceOf(chunks, items[k])
    {
      SameBase(chunks, more, items[k].order);
    }
  }

  /** What a read's item is in the books. */
  function Share(chunks: seq<seq<Byte>>, item: Option<Item>): seq<Piece> {
    if item.None? || !Within(chunks, item.value) then [] else [PieceOf(chunks, item.value)]
  }

  /** The item a read has: taken in flight, or kept for an abort. */
  function Has(flights: map<nat, Flight>, waits: map<nat, Wait>, id: nat): Option<Item> {
    if id in flights && flights[id].taken.Some? then flights[id].taken
    else if id in waits then waits[id].undo
    else None
  }

  /** A read in flight is waited for unless it was aborted, and has its result only when it is back. */
  predicate Stage(flights: map<nat, Flight>, waits: map<nat, Wait>, id: nat) {
    if id in flights then
      && flights[id].max > 0 && (flights[id].aborted <==> id !in waits)
      && (id in waits ==> waits[id] == Wait(Pending, None))
    else
      && id in waits && waits[id].result != Pending
      && (waits[id].undo.Some? ==> waits[id].result == Data(waits[id].undo.value.value))
      && (waits[id].undo.None? && waits[id].result.Data? ==> waits[id].result.bytes == [])
  }

  predicate Booked(chunks: seq<seq<Byte>>, flights: map<nat, Flight>, waits: map<nat, Wait>, held: map<nat, seq<Piece>>, id: nat) {
    var item := Has(flights, waits, id);
    Stage(flights, waits, id) && id in held && (item.Some? ==> Within(chunks, item.value)) && held[id] == Share(chunks, item)
  }

  ghost predicate Books(chunks: seq<seq<Byte>>, flights: map<nat, Flight>, waits: map<nat, Wait>, held: map<nat, seq<Piece>>) {
    forall id :: id in flights || id in waits || id in held ==> Booked(chunks, flights, waits, held, id)
  }

  ghost predicate SameBut<V(!new)>(m: map<nat, V>, m': map<nat, V>, id: nat) {
    forall j :: j != id ==> (j in m <==> j in m') && (j in m ==> m[j] == m'[j])
  }

  lemma BookAt(chunks: seq<seq<Byte>>, flights: map<nat, Flight>, waits: map<nat, Wait>, held: map<nat, seq<Piece>>, id: nat)
    requires Books(chunks, flights, waits, held)
    ensures id in flights || id in waits || id in held ==> Booked(chunks, flights, waits, held, id)
  {}

  /** The books change for one read. */
  lemma BooksChange(chunks: seq<seq<Byte>>, flights: map<nat, Flight>, waits: map<nat, Wait>, held: map<nat, seq<Piece>>,
      flights': map<nat, Flight>, waits': map<nat, Wait>, held': map<nat, seq<Piece>>, id: nat)
    requires Books(chunks, flights, waits, held)
    requires SameBut(flights, flights', id) && SameBut(waits, waits', id) && SameBut(held, held', id)
    requires id in flights' || id in waits' || id in held' ==> Booked(chunks, flights', waits', held', id)
    ensures Books(chunks, flights', waits', held')
  {
    hide PieceOf, Within, Share;
    forall j | j in flights' || j in waits' || j in held'
      ensures Booked(chunks, flights', waits', held', j)
    {
      if j != id {
        BookAt(chunks, flights, waits, held, j);
      }
    }
  }

  class Stream {
    var items: seq<Item>
    var nextItem: nat
    var end: Option<InboxEnd>
    var waits: map<nat, Wait>
    var flights: map<nat, Flight>
    var nextWait: nat
    /** Everything received, who has it, and what the program took, in the order it took it. */
    ghost var chunks: seq<seq<Byte>>
    ghost var owner: seq<Place>
    ghost var held: map<nat, seq<Piece>>
    ghost var delivered: seq<Piece>

    ghost predicate Valid()
      reads this
    {
      && AllIn(chunks, items) && nextItem == |chunks|
      && Partition(Flat(chunks), owner, Pieces(chunks, items), held, delivered)
      && Books(chunks, flights, waits, held)
      && forall id <- held :: id < nextWait
    }

    constructor ()
      ensures Valid() && items == [] && chunks == [] && delivered == [] && end == None
    {
      items, nextItem, end, waits, flights, nextWait := [], 0, None, map[], map[], 1;
      chunks, owner, held, delivered := [], [], map[], [];
    }

    /** `push`: data arrives; a socket's chunk is never empty. */
    method Push(value: seq<Byte>)
      requires Valid() && value != []
      modifies this`items, this`nextItem, this`chunks, this`owner
      ensures Valid() && chunks == old(chunks) + [value]
      ensures items == old(items) + [Item(value, old(nextItem), 0)]
    {
      hide Partition, Base, Flat, Books;
      PushKeeps(chunks, owner, items, held, delivered, value);
      BooksGrow(chunks, flights, waits, held, value);
      items := items + [Item(value, nextItem, 0)];
      nextItem := nextItem + 1;
      chunks := chunks + [value];
      owner := owner + seq(|value|, i => Queued);
    }

    /** `restore`: the item goes before the first later one. */
    method Restore(item: Item) returns (ghost at: nat)
      requires AllIn(chunks, items) && Within(chunks, item)
      modifies this`items
      ensures at <= |old(items)| && items == old(items)[..at] + [item] + old(items)[at..]
      ensures AllIn(chunks, items) && GoesAt(Pieces(chunks, old(items)), PieceOf(chunks, item), at)
    {
      hide Base;
      var i := 0;
      while i < |items| && !Later(items[i], item)
        invariant i <= |items| && forall k :: 0 <= k < i ==> !Later(items[k], item)
      {
        i := i + 1;
      }
      forall k | 0 <= k < |items|
        ensures Later(items[k], item) <==> PieceOf(chunks, items[k]).at > PieceOf(chunks, item).at
      {
        LaterIsAfter(chunks, items[k], item);
      }
      at := i;
      items := items[..i] + [item] + items[i..];
    }

    /** `finish` of the inbox: the first end stays. */
    method Close(why: InboxEnd)
      requires Valid()
      modifies this`end
      ensures Valid() && end == if old(end).Some? then old(end) else Some(why)
    {
      if end.None? {
        end := Some(why);
      }
    }

    /** `wait_start` of a read; one of no bytes gives none at once. */
    method WaitStart(max: nat) returns (id: nat)
      requires Valid()
      modifies this`waits, this`flights, this`nextWait, this`held
      ensures Valid() && id == old(nextWait) && id !in old(held)
      ensures waits == old(waits)[id := Wait(if max == 0 then Data([]) else Pending, None)]
      ensures flights == if max == 0 then old(flights) else old(flights)[id := Flight(max, None, false)]
    {
      hide Partition, Base, Flat, Within, Books, AllIn;
      id := nextWait;
      nextWait := nextWait + 1;
      NoBook(chunks, flights, waits, held, id);
      Starts(Flat(chunks), owner, Pieces(chunks, items), held, delivered, id);
      held := held[id := []];
      waits := waits[id := Wait(if max == 0 then Data([]) else Pending, None)];
      if max != 0 {
        flights := flights[id := Flight(max, None, false)];
      }
      BooksChange(chunks, old(flights), old(waits), old(held), flights, waits, held, id);
    }

    /** `next` comes back to a read: an aborted one ends, another takes the first item or the end. */
    method Next(id: nat)
      requires Valid() && id in flights && flights[id].taken.None?
      modifies this`items, this`waits, this`flights, this`held, this`owner
      ensures Valid() && old(waits).Keys == waits.Keys
      ensures if old(flights)[id].aborted then
                items == old(items) && flights == old(flights) - {id} && waits == old(waits)
              else if old(items) != [] then
                items == old(items)[1..] && waits == old(waits)
                && flights == old(flights)[id := old(flights)[id].(taken := Some(old(items)[0]))]
              else if end.Some? then
                items == [] && flights == old(flights) - {id}
                && waits == old(waits)[id := Wait(if end == Some(Failed) then Failure else Data([]), None)]
              else
                items == old(items) && flights == old(flights) && waits == old(waits)
    {
      hide Partition, Base, Flat, Books, Within, Pieces, AllIn, Assign, PieceOf;
      BookAt(chunks, flights, waits, held, id);
      if flights[id].aborted {
        Leaves(Flat(chunks), owner, Pieces(chunks, items), held, delivered, id);
        held, flights := held - {id}, flights - {id};
      } else if items != [] {
        ghost var p := FrontTaken(id);
        owner, held := Assign(owner, p, Reserved(id)), held[id := [p]];
        flights := flights[id := flights[id].(taken := Some(items[0]))];
        items := items[1..];
      } else if end.Some? {
        waits := waits[id := Wait(if end == Some(Failed) then Failure else Data([]), None)];
        flights := flights - {id};
      }
      BooksChange(chunks, old(flights), old(waits), old(held), flights, waits, held, id);
    }

    lemma FrontTaken(id: nat) returns (p: Piece)
      requires Valid() && items != [] && id in held && held[id] == []
      ensures Within(chunks, items[0]) && p == PieceOf(chunks, items[0]) && AllIn(chunks, items[1..])
      ensures Partition(Flat(chunks), Assign(owner, p, Reserved(id)), Pieces(chunks, items[1..]), held[id := [p]], delivered)
    {
      hide Partition, Base, Flat, Books;
      p := PieceOf(chunks, items[0]);
      var queue := Pieces(chunks, items);
      Reserves(Flat(chunks), owner, queue, held, delivered, id);
      assert Pieces(chunks, items[1..]) == queue[1..] && [] + [p] == [p];
    }

    /** A read that waited too long ends without data. */
    method TimeOut(id: nat)
      requires Valid() && id in flights && flights[id].taken.None? && !flights[id].aborted
      modifies this`waits, this`flights
      ensures Valid() && flights == old(flights) - {id} && waits == old(waits)[id := Wait(TimedOut, None)]
    {
      hide Partition, Base, Flat, Within, Books, AllIn, Pieces;
      BookAt(chunks, flights, waits, held, id);
      waits := waits[id := Wait(TimedOut, None)];
      flights := flights - {id};
      BooksChange(chunks, old(flights), old(waits), old(held), flights, waits, held, id);
    }

    /** An item that a read has goes back to the queue. */
    method PutBack(ghost id: nat, ghost a: seq<Piece>, item: Item, ghost b: seq<Piece>)
      requires AllIn(chunks, items) && Within(chunks, item)
      requires Partition(Flat(chunks), owner, Pieces(chunks, items), held, delivered)
      requires id in held && held[id] == a + [PieceOf(chunks, item)] + b
      modifies this`items, this`owner, this`held
      ensures AllIn(chunks, items) && held == old(held)[id := a + b]
      ensures Partition(Flat(chunks), owner, Pieces(chunks, items), held, delivered)
    {
      hide Partition, Base, Flat, Within, Books;
      ghost var queue, p := Pieces(chunks, items), PieceOf(chunks, item);
      ghost var at := Restore(item);
      Restores(Flat(chunks), owner, queue, held, delivered, id, a, p, b, at);
      assert Pieces(chunks, items) == queue[..at] + [p] + queue[at..];
      owner, held := Assign(owner, p, Queued), held[id := a + b];
    }

    /** A read with an item keeps at most `max` bytes of it; one aborted meanwhile gives those back as well. */
    method Settle(id: nat)
      requires Valid() && id in flights && flights[id].taken.Some?
      modifies this`items, this`waits, this`flights, this`held, this`owner
      ensures Valid() && flights == old(flights) - {id}
      ensures var first := Kept(old(flights)[id].taken.value, old(flights)[id].max);
              waits == if old(flights)[id].aborted then old(waits) else old(waits)[id := Wait(Data(first.value), Some(first))]
    {
      hide Partition, Base, Flat, Books, AllIn, Pieces;
      BookAt(chunks, flights, waits, held, id);
      var item, max, aborted := flights[id].taken.value, flights[id].max, flights[id].aborted;
      var first := Trim(id, item, max);
      flights := flights - {id};
      if aborted {
        assert held[id] == [] + [PieceOf(chunks, first)] + [];
        EmptyPieces();
        PutBack(id, [], first, []);
        Leaves(Flat(chunks), owner, Pieces(chunks, items), held, delivered, id);
        held := held - {id};
      } else {
        waits := waits[id := Wait(Data(first.value), Some(first))];
      }
      BooksChange(chunks, old(flights), old(waits), old(held), flights, waits, held, id);
    }

    /** An item longer than `max` is cut, and its rest goes back to the queue. */
    method Trim(ghost id: nat, item: Item, max: nat) returns (first: Item)
      requires AllIn(chunks, items) && Partition(Flat(chunks), owner, Pieces(chunks, items), held, delivered)
      requires Within(chunks, item) && id in held && held[id] == [PieceOf(chunks, item)] && 0 < max
      modifies this`items, this`owner, this`held
      ensures first == Kept(item, max) && Within(chunks, first) && held == old(held)[id := [PieceOf(chunks, first)]]
      ensures AllIn(chunks, items) && Partition(Flat(chunks), owner, Pieces(chunks, items), held, delivered)
    {
      hide Partition, Base, Flat, Books, AllIn, Pieces;
      first := Kept(item, max);
      if |item.value| > max {
        SplitShare(id, item, max);
        var rest := Item(item.value[max..], item.order, item.offset + max);
        held := held[id := [PieceOf(chunks, first)] + [PieceOf(chunks, rest)] + []];
        PutBack(id, [PieceOf(chunks, first)], rest, []);
        assert [PieceOf(chunks, first)] + [] == [PieceOf(chunks, first)];
      }
    }

    lemma SplitShare(id: nat, item: Item, max: nat)
      requires AllIn(chunks, items) && Partition(Flat(chunks), owner, Pieces(chunks, items), held, delivered)
      requires Within(chunks, item) && id in held && held[id] == [PieceOf(chunks, item)] && 0 < max < |item.value|
      ensures var first, rest := Kept(item, max), Item(item.value[max..], item.order, item.offset + max);
              && Within(chunks, first) && Within(chunks, rest)
              && Partition(Flat(chunks), owner, Pieces(chunks, items), held[id := [PieceOf(chunks, first)] + [PieceOf(chunks, rest)] + []], delivered)
    {
      hide Partition, Base, Flat, Books;
      var p := PieceOf(chunks, item);
      var kept, rest := PieceOf(chunks, Kept(item, max)), PieceOf(chunks, Item(item.value[max..], item.order, item.offset + max));
      assert held[id] == [] + [p] + [];
      CutsHeld(Flat(chunks), owner, Pieces(chunks, items), held, delivered, id, [], p, [], max);
      assert [] + [kept, rest] + [] == [kept] + [rest] + [];
    }

    /** The result there is; data is exactly the bytes that the read reserves. */
    method Poll(id: nat) returns (r: Result)
      requires Valid()
      ensures r == if id in waits then waits[id].result else Unknown
      ensures r.Data? ==> id in held && Flatten(held[id]) == r.bytes
    {
      hide Partition, Base, Flat, Books, AllIn, Pieces;
      r := if id in waits then waits[id].result else Unknown;
      BookAt(chunks, flights, waits, held, id);
      if r.Data? && waits[id].undo.Some? {
        FlattenOne(PieceOf(chunks, waits[id].undo.value));
      }
    }

    /** The program takes a result: its bytes are delivered, and an abort gives nothing back any more. */
    method Finish(id: nat) returns (done: bool)
      requires Valid()
      modifies this`waits, this`held, this`owner, this`delivered
      ensures Valid() && (done <==> id in old(waits) && old(waits)[id].result != Pending)
      ensures waits == if done then old(waits) - {id} else old(waits)
      ensures delivered == old(delivered) + if done then Share(chunks, old(waits)[id].undo) else []
      ensures done && old(waits)[id].result.Data? ==> Flatten(Share(chunks, old(waits)[id].undo)) == old(waits)[id].result.bytes
    {
      hide Partition, Base, Flat, Books, AllIn, Pieces;
      if id !in waits || waits[id].result == Pending {
        return false;
      }
      BookAt(chunks, flights, waits, held, id);
      var undo := waits[id].undo;
      if undo.Some? {
        ghost var p := PieceOf(chunks, undo.value);
        assert held[id] == [] + [p] + [];
        EmptyPieces();
        FlattenOne(p);
        Delivers(Flat(chunks), owner, Pieces(chunks, items), held, delivered, id, [], p, []);
        owner, held, delivered := Assign(owner, p, Delivered), held[id := []], delivered + [p];
      }
      Leaves(Flat(chunks), owner, Pieces(chunks, items), held, delivered, id);
      held := held - {id};
      waits := waits - {id};
      BooksChange(chunks, old(flights), old(waits), old(held), flights, waits, held, id);
      return true;
    }

    /** The program gives a read up: what it reserved goes back, now or when the read comes back. */
    method Abort(id: nat)
      requires Valid()
      modifies this`items, this`waits, this`flights, this`held, this`owner
      ensures Valid() && waits == old(waits) - {id}
      ensures flights == if id in old(waits) && id in old(flights) then old(flights)[id := old(flights)[id].(aborted := true)] else old(flights)
    {
      hide Partition, Base, Flat, Books, AllIn, Pieces;
      if id !in waits {
        return;
      }
      BookAt(chunks, flights, waits, held, id);
      var undo := waits[id].undo;
      if id in flights {
        flights := flights[id := flights[id].(aborted := true)];
      } else {
        if undo.Some? {
          assert held[id] == [] + [PieceOf(chunks, undo.value)] + [];
          EmptyPieces();
          PutBack(id, [], undo.value, []);
        }
        Leaves(Flat(chunks), owner, Pieces(chunks, items), held, delivered, id);
        held := held - {id};
      }
      waits := waits - {id};
      BooksChange(chunks, old(flights), old(waits), old(held), flights, waits, held, id);
    }
  }

  lemma FlattenOne(p: Piece)
    ensures Flatten([p]) == p.bytes
  {
    assert [p][..0] == [];
  }

  lemma EmptyPieces()
    ensures var none: seq<Piece> := []; none + none == none
  {}

  lemma NoBook(chunks: seq<seq<Byte>>, flights: map<nat, Flight>, waits: map<nat, Wait>, held: map<nat, seq<Piece>>, id: nat)
    requires Books(chunks, flights, waits, held) && id !in held
    ensures id !in flights && id !in waits
  {
    BookAt(chunks, flights, waits, held, id);
  }

  /** What a read keeps of an item. */
  function Kept(item: Item, max: nat): (first: Item)
    ensures |first.value| <= max && first.value <= item.value && (|first.value| == max || first.value == item.value)
  {
    item.(value := if |item.value| > max then item.value[..max] else item.value)
  }

  lemma PushKeeps(chunks: seq<seq<Byte>>, owner: seq<Place>, items: seq<Item>, held: map<nat, seq<Piece>>, delivered: seq<Piece>, value: seq<Byte>)
    requires AllIn(chunks, items) && value != []
    requires Partition(Flat(chunks), owner, Pieces(chunks, items), held, delivered)
    ensures var more, grown := items + [Item(value, |chunks|, 0)], chunks + [value];
            && AllIn(grown, more)
            && Partition(Flat(grown), owner + seq(|value|, i => Queued), Pieces(grown, more), held, delivered)
  {
    hide Partition, Base, Flat, Pieces, AllIn;
    var item, grown := Item(value, |chunks|, 0), chunks + [value];
    SamePieces(chunks, value, items);
    Arrives(Flat(chunks), owner, Pieces(chunks, items), held, delivered, value);
    FlatGrows(chunks, value);
    PiecesMore(grown, items, item);
  }

  lemma PiecesMore(chunks: seq<seq<Byte>>, items: seq<Item>, item: Item)
    requires AllIn(chunks, items) && Within(chunks, item)
    ensures AllIn(chunks, items + [item]) && Pieces(chunks, items + [item]) == Pieces(chunks, items) + [PieceOf(chunks, item)]
  {
    hide Base;
  }

  lemma FlatGrows(chunks: seq<seq<Byte>>, value: seq<Byte>)
    ensures Flat(chunks + [value]) == Flat(chunks) + value
    ensures Base(chunks + [value], |chunks|) == |Flat(chunks)|
  {
    assert (chunks + [value])[..|chunks|] == chunks;
  }

  lemma BooksGrow(chunks: seq<seq<Byte>>, flights: map<nat, Flight>, waits: map<nat, Wait>, held: map<nat, seq<Piece>>, value: seq<Byte>)
    requires Books(chunks, flights, waits, held)
    ensures Books(chunks + [value], flights, waits, held)
  {
    hide Base, Stage, Has;
    forall id | id in flights || id in waits || id in held
      ensures Booked(chunks + [value], flights, waits, held, id)
    {
      BookAt(chunks, flights, waits, held, id);
      var item := Has(flights, waits, id);
      if item.Some? {
        SameBase(chunks, value, item.value.order);
      }
    }
  }

  // ----- what every run keeps -----

  /** The queued items are strictly increasing by (order, offset). */
  lemma QueueIncreases(stream: Stream)
    requires stream.Valid()
    ensures forall j, k :: 0 <= j < k < |stream.items| ==> Later(stream.items[k], stream.items[j])
  {
    hide Base, Flat, Keeps, Books;
    var ps := Pieces(stream.chunks, stream.items);
    forall j, k | 0 <= j < k < |stream.items|
      ensures Later(stream.items[k], stream.items[j])
    {
      assert ps[j].End() <= ps[k].at && stream.items[j].value != [];
      LaterIsAfter(stream.chunks, stream.items[k], stream.items[j]);
    }
  }

  /** The bytes of the items, one after another. */
  function Values(items: seq<Item>): seq<Byte> {
    if items == [] then [] else Values(items[..|items| - 1]) + items[|items| - 1].value
  }

  lemma {:induction false} ValuesFlatten(chunks: seq<seq<Byte>>, items: seq<Item>)
    requires AllIn(chunks, items)
    ensures Flatten(Pieces(chunks, items)) == Values(items)
    decreases |items|
  {
    hide Base;
    if items != [] {
      var n := |items| - 1;
      ValuesFlatten(chunks, items[..n]);
      assert Pieces(chunks, items)[..n] == Pieces(chunks, items[..n]);
    }
  }

  /**
   * Once every read is finished or aborted, and has come back, the queue holds in their order exactly the received
   * bytes that the program did not take.
   */
  lemma AbortsRestore(stream: Stream)
    requires stream.Valid() && stream.waits == map[] && stream.flights == map[]
    ensures |stream.owner| == |Flat(stream.chunks)|
    ensures Values(stream.items) == Select(Flat(stream.chunks), stream.owner, Queued)
    ensures forall i :: 0 <= i < |stream.owner| ==>
              (stream.owner[i] == Queued <==> !CoversSome(stream.delivered, i))
  {
    hide Base, Flat, Select, Flatten, Within, CoversSome;
    UntakenInOrder(Flat(stream.chunks), stream.owner, Pieces(stream.chunks, stream.items), stream.held, stream.delivered);
    ValuesFlatten(stream.chunks, stream.items);
  }
}
