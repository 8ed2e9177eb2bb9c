/** The texts of the package-host contract are exactly the encodings of Unicode scalar values (section 3 of RFC 3629). */
module ContractText {
  import opened ByteStrings
  import opened PackageContract

  predicate Scalar(c: nat) {
    c < 0xd800 || 0xe000 <= c < 0x11_0000
  }

  /** The bytes of a scalar value: its low bits in groups of six behind a lead byte. */
  function Utf8(c: nat): (s: seq<Byte>)
    requires Scalar(c)
    ensures 1 <= |s| <= 4
  {
    if c < 0x80 then [c]
    else if c < 0x800 then [0xc0 + c / 64, 0x80 + c % 64]
    else if c < 0x1_0000 then [0xe0 + c / 4096, 0x80 + c / 64 % 64, 0x80 + c % 64]
    else [0xf0 + c / 0x4_0000, 0x80 + c / 4096 % 64, 0x80 + c / 64 % 64, 0x80 + c % 64]
  }

  ghost predicate Scalars(cs: seq<nat>) {
    forall i :: 0 <= i < |cs| ==> Scalar(cs[i])
  }

  ghost function TextBytes(cs: seq<nat>): seq<Byte>
    requires Scalars(cs)
  {
    if cs == [] then [] else Utf8(cs[0]) + TextBytes(cs[1..])
  }

  lemma FrontSequence(c: nat, rest: seq<Byte>)
    requires Scalar(c)
    ensures Sequence(Utf8(c) + rest) == |Utf8(c)|
  {
    var u := Utf8(c);
    var s := u + rest;
    assert forall i :: 0 <= i < |u| ==> s[i] == u[i];
  }

  lemma TwoBytes(a: Byte, b: Byte) returns (c: nat)
    requires 0xc2 <= a < 0xe0 && Tail(b)
    ensures Scalar(c) && Utf8(c) == [a, b]
  {
    c := (a - 0xc0) * 64 + (b - 0x80);
  }

  lemma ThreeBytes(a: Byte, b: Byte, d: Byte) returns (c: nat)
    requires 0xe0 <= a < 0xf0 && Tail(b) && Tail(d) && (a == 0xe0 ==> b >= 0xa0) && (a == 0xed ==> b < 0xa0)
    ensures Scalar(c) && Utf8(c) == [a, b, d]
  {
    c := (a - 0xe0) * 4096 + (b - 0x80) * 64 + (d - 0x80);
    assert c / 64 == (a - 0xe0) * 64 + (b - 0x80);
  }

  lemma FourBytes(a: Byte, b: Byte, d: Byte, e: Byte) returns (c: nat)
    requires 0xf0 <= a < 0xf5 && Tail(b) && Tail(d) && Tail(e) && (a == 0xf0 ==> b >= 0x90) && (a == 0xf4 ==> b < 0x90)
    ensures Scalar(c) && Utf8(c) == [a, b, d, e]
  {
    c := (a - 0xf0) * 0x4_0000 + (b - 0x80) * 4096 + (d - 0x80) * 64 + (e - 0x80);
    assert c / 64 == (a - 0xf0) * 4096 + (b - 0x80) * 64 + (d - 0x80);
    assert c / 4096 == (a - 0xf0) * 64 + (b - 0x80);
  }

  /** A well-formed sequence is the bytes of a scalar value. */
  lemma SequenceScalar(s: seq<Byte>) returns (c: nat)
    requires s != [] && Sequence(s) > 0
    ensures Scalar(c) && s[..Sequence(s)] == Utf8(c)
  {
    var n := Sequence(s);
    if n == 1 {
      c := s[0];
    } else if n == 2 {
      c := TwoBytes(s[0], s[1]);
    } else if n == 3 {
      c := ThreeBytes(s[0], s[1], s[2]);
    } else {
      c := FourBytes(s[0], s[1], s[2], s[3]);
    }
  }

  lemma {:induction false} ScalarsRead(cs: seq<nat>)
    requires Scalars(cs)
    ensures IsUtf8(TextBytes(cs))
    decreases |cs|
  {
    hide Sequence, Utf8;
    if cs != [] {
      var s := TextBytes(cs);
      FrontSequence(cs[0], TextBytes(cs[1..]));
      ScalarsRead(cs[1..]);
      assert s[|Utf8(cs[0])|..] == TextBytes(cs[1..]);
    }
  }

  lemma {:induction false} TextScalars(s: seq<Byte>) returns (cs: seq<nat>)
    requires IsUtf8(s)
    ensures Scalars(cs) && TextBytes(cs) == s
    decreases |s|
  {
    hide Sequence, Utf8;
    if s == [] {
      cs := [];
    } else {
      var n := Sequence(s);
      var c := SequenceScalar(s);
      var rest := TextScalars(s[n..]);
      cs := [c] + rest;
      assert cs[1..] == rest && s == s[..n] + s[n..];
    }
  }

  /** A text is taken exactly when it encodes some scalar values. */
  lemma Utf8Exact(s: seq<Byte>)
    ensures IsUtf8(s) <==> exists cs :: Scalars(cs) && TextBytes(cs) == s
  {
    hide IsUtf8, TextBytes, Scalars;
    if IsUtf8(s) {
      var cs := TextScalars(s);
    }
    forall cs | Scalars(cs) && TextBytes(cs) == s
      ensures IsUtf8(s)
    {
      ScalarsRead(cs);
    }
  }
}
