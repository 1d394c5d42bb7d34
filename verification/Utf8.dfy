/**
 The lossy UTF-8 decoding the cache reader applies to every name
 (`String::from_utf8_lossy`). A Rust `String` is modelled by its UTF-8 octets.
 */
module Utf8 {
  import opened Bytes

  /** What decoding one position finds: a whole scalar value, or an invalid stretch, of `width` octets. */
  datatype Step = Step(width: nat, valid: bool)

  predicate Continuation(s: seq<Byte>, i: nat) {
    i < |s| && 0x80 <= s[i] < 0xC0
  }

  predicate InRange(s: seq<Byte>, i: nat, low: int, high: int) {
    i < |s| && low <= s[i] <= high
  }

  /** The second octet a three- or four-octet sequence may have after lead octet `b`. */
  predicate SecondOctet(b: Byte, s: seq<Byte>) {
    if b == 0xE0 then InRange(s, 1, 0xA0, 0xBF)
    else if b == 0xED then InRange(s, 1, 0x80, 0x9F)
    else if b == 0xF0 then InRange(s, 1, 0x90, 0xBF)
    else if b == 0xF4 then InRange(s, 1, 0x80, 0x8F)
    else InRange(s, 1, 0x80, 0xBF)
  }

  function First(s: seq<Byte>): (r: Step)
    requires s != []
    ensures 1 <= r.width <= |s| && r.width <= 4
  {
    var b := s[0];
    if b < 0x80 then Step(1, true)
    else if 0xC2 <= b <= 0xDF then
      if Continuation(s, 1) then Step(2, true) else Step(1, false)
    else if 0xE0 <= b <= 0xEF then
      if !SecondOctet(b, s) then Step(1, false)
      else if Continuation(s, 2) then Step(3, true) else Step(2, false)
    else if 0xF0 <= b <= 0xF4 then
      if !SecondOctet(b, s) then Step(1, false)
      else if !Continuation(s, 2) then Step(2, false)
      else if Continuation(s, 3) then Step(4, true) else Step(3, false)
    else Step(1, false)
  }

  predicate Valid(s: seq<Byte>) {
    s == [] || (First(s).valid && Valid(s[First(s).width..]))
  }

  // What a valid step reads: exactly the encodings of the Unicode scalar values.

  predicate Scalar(c: int) {
    0 <= c < 0x11_0000 && !(0xD800 <= c < 0xE000)
  }

  function EncodeScalar(c: int): seq<Byte>
    requires Scalar(c)
  {
    if c < 0x80 then [c]
    else if c < 0x800 then [0xC0 + c / 64, 0x80 + c % 64]
    else if c < 0x1_0000 then [0xE0 + c / 4096, 0x80 + c / 64 % 64, 0x80 + c % 64]
    else [0xF0 + c / 262_144, 0x80 + c / 4096 % 64, 0x80 + c / 64 % 64, 0x80 + c % 64]
  }

  /** The octets of a three-octet encoding, in the ranges a reader looks for. */
  lemma ThreeRanges(c: int)
    requires 0x800 <= c < 0x1_0000 && Scalar(c)
    ensures var a, b := c / 4096, c / 64 % 64;
            0 <= a < 16 && 0 <= b < 64 && 0 <= c % 64 < 64 && (a == 0 ==> b >= 32) && (a == 13 ==> b < 32)
  {
    assert c / 64 == 64 * (c / 4096) + c / 64 % 64;
  }

  lemma FourRanges(c: int)
    requires 0x1_0000 <= c < 0x11_0000
    ensures var a, b := c / 262_144, c / 4096 % 64;
            && 0 <= a < 5 && 0 <= b < 64 && 0 <= c / 64 % 64 < 64 && 0 <= c % 64 < 64
            && (a == 0 ==> b >= 16) && (a == 4 ==> b < 16)
  {
    assert c / 4096 == 64 * (c / 262_144) + c / 4096 % 64;
  }

  lemma ReadThree(s: seq<Byte>, a: int, b: int, d: int)
    requires |s| >= 3 && s[0] == 0xE0 + a && s[1] == 0x80 + b && s[2] == 0x80 + d
    requires 0 <= a < 16 && 0 <= b < 64 && 0 <= d < 64 && (a == 0 ==> b >= 32) && (a == 13 ==> b < 32)
    ensures First(s) == Step(3, true)
  {
  }

  lemma ReadFour(s: seq<Byte>, a: int, b: int, d: int, e: int)
    requires |s| >= 4 && s[0] == 0xF0 + a && s[1] == 0x80 + b && s[2] == 0x80 + d && s[3] == 0x80 + e
    requires 0 <= a < 5 && 0 <= b < 64 && 0 <= d < 64 && 0 <= e < 64 && (a == 0 ==> b >= 16) && (a == 4 ==> b < 16)
    ensures First(s) == Step(4, true)
  {
  }

  /** Every encoded scalar value is read as one whole step, whatever follows it. */
  lemma ScalarIsRead(c: int, rest: seq<Byte>)
    requires Scalar(c)
    ensures EncodeScalar(c) + rest != [] && First(EncodeScalar(c) + rest) == Step(|EncodeScalar(c)|, true)
  {
    var s := EncodeScalar(c) + rest;
    if c < 0x800 {
      assert s[0] == EncodeScalar(c)[0];
    } else {
      hide First;
      if c < 0x1_0000 {
        ThreeRanges(c);
        ReadThree(s, c / 4096, c / 64 % 64, c % 64);
      } else {
        FourRanges(c);
        ReadFour(s, c / 262_144, c / 4096 % 64, c / 64 % 64, c % 64);
      }
    }
  }

  lemma TwoOctets(a: int, b: int)
    requires 2 <= a < 32 && 0 <= b < 64
    ensures var c := 64 * a + b; Scalar(c) && EncodeScalar(c) == [0xC0 + a, 0x80 + b]
  {
  }

  lemma ThreeOctets(a: int, b: int, d: int)
    requires 0 <= a < 16 && 0 <= b < 64 && 0 <= d < 64 && (a == 0 ==> b >= 32) && (a == 13 ==> b < 32)
    ensures var c := 4096 * a + 64 * b + d; Scalar(c) && EncodeScalar(c) == [0xE0 + a, 0x80 + b, 0x80 + d]
  {
    var c := 4096 * a + 64 * b + d;
    assert c / 4096 == a && c / 64 == 64 * a + b && c % 64 == d;
    assert c / 64 % 64 == b;
  }

  lemma FourOctets(a: int, b: int, d: int, e: int)
    requires 0 <= a < 5 && 0 <= b < 64 && 0 <= d < 64 && 0 <= e < 64 && (a == 0 ==> b >= 16) && (a == 4 ==> b < 16)
    ensures var c := 262_144 * a + 4096 * b + 64 * d + e;
            Scalar(c) && EncodeScalar(c) == [0xF0 + a, 0x80 + b, 0x80 + d, 0x80 + e]
  {
    var c := 262_144 * a + 4096 * b + 64 * d + e;
    assert c / 262_144 == a && c / 4096 == 64 * a + b && c / 64 == 4096 * a + 64 * b + d && c % 64 == e;
    assert c / 4096 % 64 == b && c / 64 % 64 == d;
  }

  /** And nothing else is: the octets of a valid step are the encoding of a scalar value. */
  lemma ReadIsScalar(s: seq<Byte>)
    requires s != [] && First(s).valid
    ensures exists c :: Scalar(c) && EncodeScalar(c) == s[..First(s).width]
  {
    var w := First(s).width;
    var a: int := s[0];
    if w == 1 {
      assert Scalar(a) && EncodeScalar(a) == s[..1];
    } else {
      hide Scalar, EncodeScalar;
      var b := s[1] as int - 0x80;
      if w == 2 {
        TwoOctets(a - 0xC0, b);
        assert s[..2] == [s[0], s[1]];
      } else {
        var d := s[2] as int - 0x80;
        if w == 3 {
          ThreeOctets(a - 0xE0, b, d);
          assert s[..3] == [s[0], s[1], s[2]];
        } else {
          FourOctets(a - 0xF0, b, d, s[3] as int - 0x80);
          assert s[..4] == [s[0], s[1], s[2], s[3]];
        }
      }
    }
  }

  /** U+FFFD, the replacement character, as UTF-8. */
  const REPLACEMENT: seq<Byte> := [0xEF, 0xBF, 0xBD]

  /** `String::from_utf8_lossy`: each invalid stretch becomes one replacement character. */
  function Lossy(s: seq<Byte>): seq<Byte> {
    if s == [] then []
    else
      var step := First(s);
      (if step.valid then s[..step.width] else REPLACEMENT) + Lossy(s[step.width..])
  }

  /** A decoding step looks only at the octets it reports as valid. */
  lemma FirstIsLocal(s: seq<Byte>, rest: seq<Byte>)
    requires s != [] && First(s) == Step(|s|, true)
    ensures First(s + rest) == First(s)
  {
  }

  lemma LossyStep(s: seq<Byte>)
    requires s != []
    ensures var head := if First(s).valid then s[..First(s).width] else REPLACEMENT;
            && First(head) == Step(|head|, true)
            && Lossy(s) == head + Lossy(s[First(s).width..])
            && First(Lossy(s)) == Step(|head|, true)
  {
    var head := if First(s).valid then s[..First(s).width] else REPLACEMENT;
    assert First(head) == Step(|head|, true);
    FirstIsLocal(head, Lossy(s[First(s).width..]));
  }

  /** The decoded text is always valid UTF-8. */
  lemma {:induction false} LossyIsValid(s: seq<Byte>)
    ensures Valid(Lossy(s))
  {
    if s != [] {
      LossyStep(s);
      var tail := s[First(s).width..];
      LossyIsValid(tail);
      assert Lossy(s)[First(Lossy(s)).width..] == Lossy(tail);
    }
  }

  /** Decoding changes nothing exactly when the octets were valid UTF-8 already. */
  lemma {:induction false} LossyIdentity(s: seq<Byte>)
    ensures Lossy(s) == s <==> Valid(s)
  {
    if s != [] {
      LossyStep(s);
      var w := First(s).width;
      LossyIdentity(s[w..]);
      if First(s).valid {
        assert s == s[..w] + s[w..];
        assert Lossy(s)[w..] == Lossy(s[w..]);
      }
    }
  }

  /** A decoding step that leaves no trace of which octets it read. */
  predicate Blurs(s: seq<Byte>)
    requires s != []
  {
    !First(s).valid || s[..First(s).width] == REPLACEMENT
  }

  /** Valid UTF-8 that does not itself spell U+FFFD. */
  predicate Unambiguous(s: seq<Byte>) {
    s == [] || (!Blurs(s) && Unambiguous(s[First(s).width..]))
  }

  lemma {:induction false} UnambiguousIsValid(s: seq<Byte>)
    requires Unambiguous(s)
    ensures Valid(s)
  {
    if s != [] {
      UnambiguousIsValid(s[First(s).width..]);
    }
  }

  /** Nothing else decodes to an unambiguous text. */
  lemma {:induction false} UnambiguousIsUnique(x: seq<Byte>, s: seq<Byte>)
    requires Unambiguous(s) && Lossy(x) == s
    ensures x == s
  {
    if x != [] {
      LossyStep(x);
      var w := First(s).width;
      assert s[..w] == if First(x).valid then x[..First(x).width] else REPLACEMENT;
      assert First(x) == Step(w, true);
      assert Lossy(x)[w..] == Lossy(x[w..]);
      UnambiguousIsUnique(x[w..], s[w..]);
      assert x == x[..w] + x[w..] && s == s[..w] + s[w..];
    }
  }

  /** Another text of the same decoding: the first blurred step is put as a single bad octet. */
  function Twin(s: seq<Byte>): seq<Byte>
    requires !Unambiguous(s)
  {
    var w := First(s).width;
    if Blurs(s) then [if s[..w] == [0xFF] then 0xFE else 0xFF] + s[w..]
    else s[..w] + Twin(s[w..])
  }

  lemma {:induction false} TwinDecodesAlike(s: seq<Byte>)
    requires !Unambiguous(s)
    ensures Lossy(Twin(s)) == Lossy(s) && Twin(s) != s && |Twin(s)| <= |s|
  {
    var w := First(s).width;
    var head, tail := s[..w], s[w..];
    var t := Twin(s);
    assert s == head + tail;
    LossyStep(s);
    if Blurs(s) {
      assert t[1..] == tail && First(t) == Step(1, false);
      assert t[0] != head[0] || |head| > 1;
    } else {
      TwinDecodesAlike(tail);
      FirstIsLocal(head, Twin(tail)) by {
        assert First(head) == Step(w, true);
      }
      assert t[..w] == head && t[w..] == Twin(tail);
    }
  }

  /** Decoding loses nothing about `s` exactly when `s` is valid and holds no U+FFFD. */
  lemma UnambiguousIff(s: seq<Byte>)
    ensures (forall x :: Lossy(x) == Lossy(s) ==> x == s) <==> Unambiguous(s)
  {
    if Unambiguous(s) {
      UnambiguousIsValid(s);
      LossyIdentity(s);
      forall x | Lossy(x) == Lossy(s) ensures x == s {
        UnambiguousIsUnique(x, s);
      }
    } else {
      TwinDecodesAlike(s);
    }
  }

  lemma {:induction false} LossyOfAscii(s: seq<Byte>, ascii: seq<Byte>)
    requires forall i :: 0 <= i < |ascii| ==> ascii[i] < 0x80
    ensures Lossy(s) == ascii <==> s == ascii
  {
    if s == [] {
    } else {
      LossyStep(s);
      var w := First(s).width;
      if Lossy(s) == ascii || s == ascii {
        assert ascii[0] < 0x80;
        assert First(s) == Step(1, true);
        LossyOfAscii(s[1..], ascii[1..]);
        assert s == s[..1] + s[1..] && ascii == ascii[..1] + ascii[1..];
        assert Lossy(s)[1..] == Lossy(s[1..]);
      }
    }
  }
}
