/** Which names need the UTF-8 flag: valid UTF-8 that other encodings of plain text would show
    differently. */
module Utf8 {
  import opened Bytes

  predicate Continues(s: seq<byte>, i: nat) {
    i < |s| && 0x80 <= s[i] <= 0xbf
  }

  /** The length of the UTF-8 encoded character `s` starts with; 0 if there is none. */
  function RuneSize(s: seq<byte>): (n: nat)
    requires s != []
    ensures n <= |s|
  {
    if s[0] < 0x80 then 1
    else if 0xc2 <= s[0] <= 0xdf && Continues(s, 1) then 2
    else if 0xe0 <= s[0] <= 0xef && Continues(s, 1) && Continues(s, 2)
      && (s[0] == 0xe0 ==> s[1] >= 0xa0) && (s[0] == 0xed ==> s[1] <= 0x9f) then 3
    else if 0xf0 <= s[0] <= 0xf4 && Continues(s, 1) && Continues(s, 2) && Continues(s, 3)
      && (s[0] == 0xf0 ==> s[1] >= 0x90) && (s[0] == 0xf4 ==> s[1] <= 0x8f) then 4
    else 0
  }

  predicate Utf8Valid(s: seq<byte>)
    decreases |s|
  {
    s == [] || (RuneSize(s) > 0 && Utf8Valid(s[RuneSize(s)..]))
  }

  /** The verdict of the character-set detection: valid UTF-8 that is not plain CP-437. */
  predicate NeedsUtf8(name: seq<byte>) {
    Utf8Valid(name) && exists c <- name :: c < 0x20 || c > 0x7d || c == 0x5c
  }

  // ---------- the encoding itself ----------

  /** A character: a Unicode scalar value. */
  type scalar = c: int | 0 <= c < 0xd800 || 0xe000 <= c < 0x11_0000

  /** Six bits of a character, as a byte that continues an encoding. */
  function Tail(c: nat): byte {
    0x80 + c % 64
  }

  /** Table 3-6 of the Unicode standard. */
  function Encode(c: scalar): (s: seq<byte>)
    ensures s != []
  {
    if c < 0x80 then
      var x: byte := c;
      [x]
    else if c < 0x800 then
      var x: byte := 0xc0 + c / 64;
      [x, Tail(c)]
    else if c < 0x1_0000 then
      var x: byte := 0xe0 + c / 64 / 64;
      [x, Tail(c / 64), Tail(c)]
    else
      var x: byte := 0xf0 + c / 64 / 64 / 64;
      [x, Tail(c / 64 / 64), Tail(c / 64), Tail(c)]
  }

  function EncodeAll(cs: seq<scalar>): seq<byte> {
    if cs == [] then [] else Encode(cs[0]) + EncodeAll(cs[1..])
  }

  /** What a byte that continues an encoding adds to what came before. */
  function Joined(front: nat, x: byte): int {
    front * 64 + (x as int - 0x80)
  }

  lemma TailJoined(front: nat, x: byte)
    requires 0x80 <= x <= 0xbf
    ensures Joined(front, x) >= 0 && Tail(Joined(front, x)) == x && Joined(front, x) / 64 == front
  {
  }

  lemma OneDecoded(s: seq<byte>) returns (c: scalar)
    requires s != [] && RuneSize(s) == 1
    ensures s[..1] == Encode(c)
  {
    c := s[0] as int;
  }

  lemma TwoDecoded(s: seq<byte>) returns (c: scalar)
    requires s != [] && RuneSize(s) == 2
    ensures s[..2] == Encode(c)
  {
    var front := s[0] as int - 0xc0;
    TailJoined(front, s[1]);
    c := Joined(front, s[1]);
    assert Encode(c) == [s[0], s[1]];
  }

  lemma ThreeDecoded(s: seq<byte>) returns (c: scalar)
    requires s != [] && RuneSize(s) == 3
    ensures s[..3] == Encode(c)
  {
    var front := s[0] as int - 0xe0;
    var middle := Joined(front, s[1]);
    TailJoined(front, s[1]);
    TailJoined(middle, s[2]);
    c := Joined(middle, s[2]);
    assert Encode(c) == [s[0], s[1], s[2]];
  }

  lemma FourDecoded(s: seq<byte>) returns (c: scalar)
    requires s != [] && RuneSize(s) == 4
    ensures s[..4] == Encode(c)
  {
    var front := s[0] as int - 0xf0;
    var middle := Joined(front, s[1]);
    TailJoined(front, s[1]);
    var later := Joined(middle, s[2]);
    TailJoined(middle, s[2]);
    TailJoined(later, s[3]);
    c := Joined(later, s[3]);
    assert Encode(c) == [s[0], s[1], s[2], s[3]];
  }

  /** The first bytes of a valid text encode a character. */
  lemma Decoded(s: seq<byte>) returns (c: scalar)
    requires s != [] && RuneSize(s) > 0
    ensures s[..RuneSize(s)] == Encode(c)
  {
    hide Encode;
    var n := RuneSize(s);
    if n == 1 {
      c := OneDecoded(s);
    } else if n == 2 {
      c := TwoDecoded(s);
    } else if n == 3 {
      c := ThreeDecoded(s);
    } else {
      c := FourDecoded(s);
    }
  }

  lemma EncodedIsFound(c: scalar, rest: seq<byte>)
    ensures RuneSize(Encode(c) + rest) == |Encode(c)|
    ensures (Encode(c) + rest)[|Encode(c)|..] == rest
  {
    var e := Encode(c);
    var s := e + rest;
    assert forall i :: 0 <= i < |e| ==> s[i] == e[i];
    if 0x800 <= c < 0xd800 {
      assert c / 64 < 0x360;
    } else if 0xe000 <= c < 0x1_0000 {
      assert c / 64 / 64 >= 14;
    } else if c >= 0x1_0000 {
      assert c / 64 / 64 >= 16 && c / 64 / 64 < 0x110;
    }
  }

  lemma {:induction false} EncodedIsValid(cs: seq<scalar>)
    ensures Utf8Valid(EncodeAll(cs))
  {
    hide RuneSize, Encode;
    if cs != [] {
      EncodedIsValid(cs[1..]);
      EncodedIsFound(cs[0], EncodeAll(cs[1..]));
    }
  }

  lemma {:induction false} ValidIsEncoded(s: seq<byte>) returns (cs: seq<scalar>)
    requires Utf8Valid(s)
    ensures EncodeAll(cs) == s
    decreases |s|
  {
    hide RuneSize, Encode;
    if s == [] {
      cs := [];
    } else {
      var n := RuneSize(s);
      var rest := ValidIsEncoded(s[n..]);
      var c := Decoded(s);
      cs := [c] + rest;
      assert cs[1..] == rest && s == s[..n] + s[n..];
    }
  }

  /** A character outside of what CP-437 and UTF-8 have in common. */
  predicate Special(c: int) {
    c < 0x20 || c > 0x7d || c == 0x5c
  }

  lemma SpecialByte(c: scalar)
    ensures (exists x <- Encode(c) :: Special(x as int)) <==> Special(c)
  {
    assert Encode(c)[0] in Encode(c);
  }

  lemma {:induction false} SpecialBytes(cs: seq<scalar>)
    ensures (exists x <- EncodeAll(cs) :: Special(x as int)) <==> exists c <- cs :: Special(c)
  {
    hide Encode, Special;
    if cs != [] {
      SpecialByte(cs[0]);
      SpecialBytes(cs[1..]);
      assert cs == [cs[0]] + cs[1..];
      assert forall c :: c in cs <==> c == cs[0] || c in cs[1..];
      assert forall x :: x in EncodeAll(cs) <==> x in Encode(cs[0]) || x in EncodeAll(cs[1..]);
    }
  }

  /** The UTF-8 encoding of some characters, one of them a control character, a backslash, or past the
      closing brace. */
  ghost predicate SpecialText(name: seq<byte>) {
    exists cs: seq<scalar> :: EncodeAll(cs) == name && exists c <- cs :: c < 0x20 || c > 0x7d || c == 0x5c
  }

  lemma FlagNeededIff(name: seq<byte>)
    ensures NeedsUtf8(name) <==> SpecialText(name)
  {
    hide RuneSize, Encode, Utf8Valid;
    if NeedsUtf8(name) {
      var cs := ValidIsEncoded(name);
      SpecialBytes(cs);
      assert exists x <- EncodeAll(cs) :: Special(x as int);
    }
    if cs: seq<scalar> :| EncodeAll(cs) == name && exists c <- cs :: c < 0x20 || c > 0x7d || c == 0x5c {
      EncodedIsValid(cs);
      SpecialBytes(cs);
      assert exists c <- cs :: Special(c);
    }
  }
}
