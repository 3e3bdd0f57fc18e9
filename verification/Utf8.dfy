/** UTF-8, as section 3 of RFC 3629 defines it: characters, their encoding, and strict decoding. */
module Utf8 {
  import opened Bytes
  import opened Results

  /** A Unicode scalar value. */
  type Scalar = c: int | 0 <= c < 0x11_0000 && !(0xd800 <= c <= 0xdfff)

  type Text = seq<Scalar>

  function EncodedScalar(c: Scalar): (s: seq<u8>)
    ensures 1 <= |s| <= 4
  {
    if c < 0x80 then [c]
    else if c < 0x800 then [0xc0 + c / 0x40, 0x80 + c % 0x40]
    else if c < 0x1_0000 then [0xe0 + c / 0x1000, 0x80 + c / 0x40 % 0x40, 0x80 + c % 0x40]
    else [0xf0 + c / 0x4_0000, 0x80 + c / 0x1000 % 0x40, 0x80 + c / 0x40 % 0x40, 0x80 + c % 0x40]
  }

  function Encoded(t: Text): (s: seq<u8>)
    ensures |s| >= |t|
  {
    if t == [] then [] else EncodedScalar(t[0]) + Encoded(t[1..])
  }

  datatype First = First(scalar: Scalar, width: nat)

  predicate Tail(b: u8) {
    0x80 <= b <= 0xbf
  }

  function Low(b: u8): (n: int)
    requires Tail(b)
    ensures 0 <= n < 0x40
  {
    b - 0x80
  }

  /** The character a byte string starts with: shortest form, no surrogates, nothing above U+10FFFF. */
  function DecodedFirst(s: seq<u8>): (f: Option<First>)
    requires s != []
    ensures f.Some? ==> 1 <= f.value.width <= |s|
  {
    var a: int := s[0];
    if a < 0x80 then Some(First(a, 1))
    else if a < 0xc2 then None
    else if a < 0xe0 then
      if |s| >= 2 && Tail(s[1]) then Some(First((a - 0xc0) * 0x40 + Low(s[1]), 2)) else None
    else if a < 0xf0 then
      if && |s| >= 3 && Tail(s[1]) && Tail(s[2])
         && (a == 0xe0 ==> s[1] >= 0xa0)
         && (a == 0xed ==> s[1] < 0xa0)
      then Some(First((a - 0xe0) * 0x1000 + Low(s[1]) * 0x40 + Low(s[2]), 3)) else None
    else if a < 0xf5 then
      if && |s| >= 4 && Tail(s[1]) && Tail(s[2]) && Tail(s[3])
         && (a == 0xf0 ==> s[1] >= 0x90)
         && (a == 0xf4 ==> s[1] < 0x90)
      then
        Some(First((a - 0xf0) * 0x4_0000 + Low(s[1]) * 0x1000 + Low(s[2]) * 0x40 + Low(s[3]), 4))
      else None
    else None
  }

  function Decoded(s: seq<u8>): Option<Text>
    decreases |s|
  {
    if s == [] then Some([])
    else
      var first := DecodedFirst(s);
      if first.None? then None
      else
        var rest := Decoded(s[first.value.width..]);
        if rest.None? then None else Some([first.value.scalar] + rest.value)
  }

  lemma EncodedScalarDecodes(c: Scalar, tail: seq<u8>)
    ensures DecodedFirst(EncodedScalar(c) + tail) == Some(First(c, |EncodedScalar(c)|))
  {
    var e := EncodedScalar(c);
    var s := e + tail;
    assert forall i :: 0 <= i < |e| ==> s[i] == e[i];
    Recomposed(c);
    if c < 0x800 {
    } else if c < 0x1_0000 {
      assert |e| == 3 && Low(s[1]) == c / 0x40 % 0x40 && Low(s[2]) == c % 0x40;
    } else {
      assert |e| == 4 && Low(s[1]) == c / 0x1000 % 0x40 && Low(s[2]) == c / 0x40 % 0x40 && Low(s[3]) == c % 0x40;
    }
  }

  lemma Recomposed(c: nat)
    ensures c == c / 0x40 * 0x40 + c % 0x40
    ensures c == c / 0x1000 * 0x1000 + c / 0x40 % 0x40 * 0x40 + c % 0x40
    ensures c == c / 0x4_0000 * 0x4_0000 + c / 0x1000 % 0x40 * 0x1000 + c / 0x40 % 0x40 * 0x40 + c % 0x40
  {
    assert c / 0x1000 == c / 0x40 / 0x40;
    assert c / 0x4_0000 == c / 0x1000 / 0x40;
  }

  /** The bytes of a character as in the table of section 3 of RFC 3629: marks above six-bit digits, high ones first. */
  lemma BytesOfScalar(c: Scalar)
    ensures forall i :: 1 <= i < |EncodedScalar(c)| ==> Tail(EncodedScalar(c)[i])
    ensures var e := EncodedScalar(c);
            var lead: int := e[0];
            && (c < 0x80 ==> e == [c])
            && (0x80 <= c < 0x800 ==> |e| == 2 && 0xc0 <= lead < 0xe0 && c == (lead - 0xc0) * 0x40 + Low(e[1]))
            && (0x800 <= c < 0x1_0000 ==>
                  |e| == 3 && 0xe0 <= lead < 0xf0 && c == (lead - 0xe0) * 0x1000 + Low(e[1]) * 0x40 + Low(e[2]))
            && (0x1_0000 <= c ==>
                  && |e| == 4 && 0xf0 <= lead < 0xf8
                  && c == (lead - 0xf0) * 0x4_0000 + Low(e[1]) * 0x1000 + Low(e[2]) * 0x40 + Low(e[3]))
  {
    Recomposed(c);
  }

  /** The six-bit digits of a number. */
  lemma Digits(h: nat, a: nat, b: nat, c: nat)
    requires a < 0x40 && b < 0x40 && c < 0x40
    ensures var n := h * 0x4_0000 + a * 0x1000 + b * 0x40 + c;
            n % 0x40 == c && n / 0x40 % 0x40 == b && n / 0x1000 % 0x40 == a && n / 0x4_0000 == h
  {
    var n := h * 0x4_0000 + a * 0x1000 + b * 0x40 + c;
    assert n / 0x40 == h * 0x1000 + a * 0x40 + b;
    assert n / 0x1000 == h * 0x40 + a;
  }

  lemma DecodedScalarIsEncoded(s: seq<u8>)
    requires s != [] && DecodedFirst(s).Some?
    ensures EncodedScalar(DecodedFirst(s).value.scalar) == s[..DecodedFirst(s).value.width]
  {
    var a, n := s[0], DecodedFirst(s).value.width;
    if n == 2 {
      Digits(0, 0, a - 0xc0, Low(s[1]));
      assert s[..2] == [s[0], s[1]];
    } else if n == 3 {
      Digits(0, a - 0xe0, Low(s[1]), Low(s[2]));
      assert s[..3] == [s[0], s[1], s[2]];
    } else if n == 4 {
      Digits(a - 0xf0, Low(s[1]), Low(s[2]), Low(s[3]));
      assert s[..4] == [s[0], s[1], s[2], s[3]];
    }
  }

  /** Decoding yields exactly the text whose encoding the bytes are, and fails if they are no text's. */
  lemma {:induction false} DecodesExactly(s: seq<u8>, t: Text)
    ensures Decoded(s) == Some(t) <==> Encoded(t) == s
    decreases |s|, |t|
  {
    hide EncodedScalar, DecodedFirst;
    if s == [] {
    } else {
      var first := DecodedFirst(s);
      if first.Some? {
        DecodedScalarIsEncoded(s);
        var c, n := first.value.scalar, first.value.width;
        assert s == s[..n] + s[n..];
        if t != [] {
          DecodesExactly(s[n..], t[1..]);
          assert t == [t[0]] + t[1..];
        }
      }
      if t != [] && Encoded(t) == s {
        EncodedScalarDecodes(t[0], Encoded(t[1..]));
        assert s[|EncodedScalar(t[0])|..] == Encoded(t[1..]);
      }
    }
  }

  lemma EncodedFirst(t: Text)
    requires t != []
    ensures Encoded(t) == EncodedScalar(t[0]) + Encoded(t[1..])
  {
  }

  lemma Appended(a: Text, b: Text)
    requires a != []
    ensures (a + b)[0] == a[0] && (a + b)[1..] == a[1..] + b
  {
  }

  lemma Regrouped(a: seq<u8>, b: seq<u8>, c: seq<u8>)
    ensures a + (b + c) == a + b + c
  {
  }

  lemma {:induction false} EncodedAppend(a: Text, b: Text)
    ensures Encoded(a + b) == Encoded(a) + Encoded(b)
  {
    if a == [] {
      assert a + b == b;
    } else {
      hide EncodedScalar, Encoded;
      EncodedAppend(a[1..], b);
      EncodedFirst(a);
      EncodedFirst(a + b);
      Appended(a, b);
      Regrouped(EncodedScalar(a[0]), Encoded(a[1..]), Encoded(b));
    }
  }

  lemma DecodedStep(s: seq<u8>)
    requires s != [] && Decoded(s).Some?
    ensures DecodedFirst(s).Some?
    ensures var first, t := DecodedFirst(s).value, Decoded(s).value;
            && t != [] && t[0] == first.scalar && EncodedScalar(t[0]) == s[..first.width]
            && Decoded(s[first.width..]) == Some(t[1..])
  {
    hide DecodedFirst, EncodedScalar;
    DecodedScalarIsEncoded(s);
  }

  predicate IsUtf8(s: seq<u8>) {
    Decoded(s).Some?
  }

  /** Characters with the Unicode White_Space property. */
  predicate IsWhitespace(c: Scalar) {
    || 0x9 <= c <= 0xd || c == 0x20 || c == 0x85 || c == 0xa0 || c == 0x1680
    || 0x2000 <= c <= 0x200a || c == 0x2028 || c == 0x2029 || c == 0x202f || c == 0x205f || c == 0x3000
  }
}
