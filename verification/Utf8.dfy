/** UTF-8 as section 4 of RFC 3629 defines it: an encoder for Unicode scalar values, and the validator
    that accepts exactly what the encoder produces. */
module Utf8 {
  import opened Common
  import Ignoring

  /** Every code point but the surrogates. */
  predicate IsScalar(s: nat) {
    s < 0x11_0000 && !(0xD800 <= s < 0xE000)
  }

  function Tail(s: nat): Byte {
    (0x80 + s % 64) as Byte
  }

  function Encode(s: nat): (bytes: Bytes)
    requires IsScalar(s)
    ensures 1 <= |bytes| <= 4
  {
    if s < 0x80 then [s as Byte]
    else if s < 0x800 then [(0xC0 + s / 64) as Byte, Tail(s)]
    else if s < 0x1_0000 then [(0xE0 + s / 4096) as Byte, Tail(s / 64), Tail(s)]
    else [(0xF0 + s / 262144) as Byte, Tail(s / 4096), Tail(s / 64), Tail(s)]
  }

  predicate AllScalars(ss: seq<nat>) {
    forall i :: 0 <= i < |ss| ==> IsScalar(ss[i])
  }

  function EncodeAll(ss: seq<nat>): Bytes
    requires AllScalars(ss)
  {
    if ss == [] then [] else Encode(ss[0]) + EncodeAll(ss[1..])
  }

  /** The text is the encoding of some sequence of scalar values. */
  ghost predicate WellFormed(text: Bytes) {
    exists ss: seq<nat> :: AllScalars(ss) && EncodeAll(ss) == text
  }

  predicate IsTail(b: Byte) {
    b / 64 == 2
  }

  /** The length that a first byte announces; zero for bytes that begin nothing. */
  function Announced(first: Byte): (n: nat)
    ensures n <= 4
  {
    if first <= 0x7F then 1
    else if 0xC2 <= first <= 0xDF then 2
    else if 0xE0 <= first <= 0xEF then 3
    else if 0xF0 <= first <= 0xF4 then 4
    else 0
  }

  /** The second byte rules out overlong forms, surrogates and values beyond the last code point. */
  predicate SecondFits(first: Byte, second: Byte) {
    && (first == 0xE0 ==> second >= 0xA0)
    && (first == 0xED ==> second <= 0x9F)
    && (first == 0xF0 ==> second >= 0x90)
    && (first == 0xF4 ==> second <= 0x8F)
  }

  /** A character of `n` bytes begins at position `i`. */
  predicate Begins(text: Bytes, i: nat, n: nat) {
    && i < |text| && n > 0 && Announced(text[i]) == n <= |text| - i
    && (forall k :: i < k < i + n ==> IsTail(text[k]))
    && (n > 1 ==> SecondFits(text[i], text[i + 1]))
  }

  /** From position `i` on the text is a sequence of characters. */
  predicate ValidFrom(text: Bytes, i: nat)
    requires i <= |text|
    decreases |text| - i
  {
    i == |text| || (Begins(text, i, Announced(text[i])) && ValidFrom(text, i + Announced(text[i])))
  }

  predicate Valid(text: Bytes) {
    ValidFrom(text, 0)
  }

  /** The scalar value at position `i`. */
  function ScalarAt(text: Bytes, i: nat): (s: nat)
    requires i < |text| && Begins(text, i, Announced(text[i]))
  {
    var n := Announced(text[i]);
    if n == 1 then text[i] as nat
    else if n == 2 then (text[i] as nat - 0xC0) * 64 + (text[i + 1] as nat - 0x80)
    else if n == 3 then ((text[i] as nat - 0xE0) * 64 + (text[i + 1] as nat - 0x80)) * 64 + (text[i + 2] as nat - 0x80)
    else
      (((text[i] as nat - 0xF0) * 64 + (text[i + 1] as nat - 0x80)) * 64 + (text[i + 2] as nat - 0x80)) * 64 + (text[i + 3] as nat - 0x80)
  }

  /** Decoding: the encoder's inverse. */
  function DecodeFrom(text: Bytes, i: nat): seq<nat>
    requires i <= |text| && ValidFrom(text, i)
    decreases |text| - i
  {
    if i == |text| then [] else [ScalarAt(text, i)] + DecodeFrom(text, i + Announced(text[i]))
  }

  lemma DigitsOfSum(high: nat, low: nat)
    requires low < 64
    ensures (high * 64 + low) / 64 == high && (high * 64 + low) % 64 == low
  {
  }

  lemma TailOf(b: Byte)
    requires IsTail(b)
    ensures 0x80 <= b < 0xC0 && (b as nat - 0x80) < 64
  {
  }

  lemma TwoBytes(text: Bytes, i: nat, s: nat)
    requires i < |text| && Begins(text, i, 2) && s == ScalarAt(text, i)
    ensures 0x80 <= s < 0x800 && IsScalar(s) && Encode(s) == text[i..i + 2]
  {
    TailOf(text[i + 1]);
    DigitsOfSum(text[i] as nat - 0xC0, text[i + 1] as nat - 0x80);
  }

  lemma ThreeBytes(text: Bytes, i: nat, s: nat)
    requires i < |text| && Begins(text, i, 3) && s == ScalarAt(text, i)
    ensures 0x800 <= s < 0x1_0000 && IsScalar(s) && Encode(s) == text[i..i + 3]
  {
    TailOf(text[i + 1]);
    TailOf(text[i + 2]);
    var high := (text[i] as nat - 0xE0) * 64 + (text[i + 1] as nat - 0x80);
    DigitsOfSum(text[i] as nat - 0xE0, text[i + 1] as nat - 0x80);
    DigitsOfSum(high, text[i + 2] as nat - 0x80);
    assert s / 64 == high && s / 4096 == high / 64;
  }

  lemma FourBytes(text: Bytes, i: nat, s: nat)
    requires i < |text| && Begins(text, i, 4) && s == ScalarAt(text, i)
    ensures 0x1_0000 <= s && IsScalar(s) && Encode(s) == text[i..i + 4]
  {
    TailOf(text[i + 1]);
    TailOf(text[i + 2]);
    TailOf(text[i + 3]);
    var high := (text[i] as nat - 0xF0) * 64 + (text[i + 1] as nat - 0x80);
    var middle := high * 64 + (text[i + 2] as nat - 0x80);
    DigitsOfSum(text[i] as nat - 0xF0, text[i + 1] as nat - 0x80);
    DigitsOfSum(high, text[i + 2] as nat - 0x80);
    DigitsOfSum(middle, text[i + 3] as nat - 0x80);
    assert s / 64 == middle && s / 4096 == high && s / 262144 == high / 64;
  }

  /** What begins at a position of a valid text is the encoding of a scalar value. */
  lemma CharacterIsEncoded(text: Bytes, i: nat)
    requires i < |text| && Begins(text, i, Announced(text[i]))
    ensures IsScalar(ScalarAt(text, i)) && Encode(ScalarAt(text, i)) == text[i..i + Announced(text[i])]
  {
    var n, s := Announced(text[i]), ScalarAt(text, i);
    if n == 2 {
      TwoBytes(text, i, s);
    } else if n == 3 {
      ThreeBytes(text, i, s);
    } else if n == 4 {
      FourBytes(text, i, s);
    }
  }

  /** Everything valid is well-formed, as the encoding of what it decodes to. */
  lemma {:induction false} ValidIsEncoded(text: Bytes, i: nat)
    requires i <= |text| && ValidFrom(text, i)
    ensures AllScalars(DecodeFrom(text, i)) && EncodeAll(DecodeFrom(text, i)) == text[i..]
    decreases |text| - i
  {
    if i < |text| {
      var n := Announced(text[i]);
      CharacterIsEncoded(text, i);
      ValidIsEncoded(text, i + n);
      EncodeFirst(ScalarAt(text, i), DecodeFrom(text, i + n));
      assert text[i..] == text[i..i + n] + text[i + n..];
    }
  }

  lemma EncodeFirst(s: nat, ss: seq<nat>)
    requires IsScalar(s) && AllScalars(ss)
    ensures AllScalars([s] + ss) && EncodeAll([s] + ss) == Encode(s) + EncodeAll(ss)
  {
    assert ([s] + ss)[1..] == ss;
  }

  lemma DigitsOf(s: nat)
    ensures s == s / 64 * 64 + s % 64 && s % 64 < 64 && s / 4096 == s / 64 / 64 && s / 262144 == s / 4096 / 64
  {
  }

  lemma TailIsTail(s: nat)
    ensures IsTail(Tail(s)) && Tail(s) as nat == 0x80 + s % 64
  {
  }

  lemma TwoEncoded(s: nat, text: Bytes, i: nat)
    requires 0x80 <= s < 0x800 && i + 2 <= |text| && text[i..i + 2] == Encode(s)
    ensures Begins(text, i, 2) && ScalarAt(text, i) == s
  {
    TailIsTail(s);
    DigitsOf(s);
    assert text[i] == text[i..i + 2][0] && text[i + 1] == text[i..i + 2][1];
  }

  lemma ThreeEncoded(s: nat, text: Bytes, i: nat)
    requires 0x800 <= s < 0x1_0000 && IsScalar(s) && i + 3 <= |text| && text[i..i + 3] == Encode(s)
    ensures Begins(text, i, 3) && ScalarAt(text, i) == s
  {
    TailIsTail(s);
    TailIsTail(s / 64);
    DigitsOf(s);
    DigitsOf(s / 64);
    var code := text[i..i + 3];
    assert text[i] == code[0] && text[i + 1] == code[1] && text[i + 2] == code[2];
  }

  lemma FourEncoded(s: nat, text: Bytes, i: nat)
    requires 0x1_0000 <= s && IsScalar(s) && i + 4 <= |text| && text[i..i + 4] == Encode(s)
    ensures Begins(text, i, 4) && ScalarAt(text, i) == s
  {
    TailIsTail(s);
    TailIsTail(s / 64);
    TailIsTail(s / 4096);
    DigitsOf(s);
    DigitsOf(s / 64);
    DigitsOf(s / 4096);
    var code := text[i..i + 4];
    assert text[i] == code[0] && text[i + 1] == code[1] && text[i + 2] == code[2] && text[i + 3] == code[3];
  }

  /** The encoding of a scalar value begins wherever it stands, and decodes to the value. */
  lemma EncodedBegins(s: nat, text: Bytes, i: nat)
    requires IsScalar(s) && i + |Encode(s)| <= |text| && text[i..i + |Encode(s)|] == Encode(s)
    ensures Announced(text[i]) == |Encode(s)| && Begins(text, i, |Encode(s)|) && ScalarAt(text, i) == s
  {
    if s < 0x80 {
      assert text[i] == text[i..i + 1][0];
    } else if s < 0x800 {
      TwoEncoded(s, text, i);
    } else if s < 0x1_0000 {
      ThreeEncoded(s, text, i);
    } else {
      FourEncoded(s, text, i);
    }
  }

  /** Everything encoded is valid, and decodes to what was encoded: no two sequences share an encoding. */
  lemma {:induction false} EncodedIsValid(text: Bytes, i: nat, ss: seq<nat>)
    requires AllScalars(ss) && i <= |text| && text[i..] == EncodeAll(ss)
    ensures ValidFrom(text, i) && DecodeFrom(text, i) == ss
    decreases |ss|
  {
    if ss != [] {
      var s, rest := ss[0], ss[1..];
      var next := i + |Encode(s)|;
      assert next <= |text| && Announced(text[i]) == next - i && Begins(text, i, next - i) && ScalarAt(text, i) == s
             && ValidFrom(text, next) && DecodeFrom(text, next) == rest by {
        Parts(text, i, Encode(s), EncodeAll(rest));
        EncodedBegins(s, text, i);
        EncodedIsValid(text, next, rest);
      }
      OneMoreCharacter(text, i, next, ss);
    }
  }

  lemma Parts(text: Bytes, i: nat, a: Bytes, b: Bytes)
    requires i <= |text| && text[i..] == a + b
    ensures i + |a| <= |text| && text[i..i + |a|] == a && text[i + |a|..] == b
  {
    assert text[i..i + |a|] == text[i..][..|a|];
    assert text[i + |a|..] == text[i..][|a|..];
  }

  lemma OneMoreCharacter(text: Bytes, i: nat, next: nat, ss: seq<nat>)
    requires i < next <= |text| && Announced(text[i]) == next - i && Begins(text, i, next - i) && ss != []
    requires ScalarAt(text, i) == ss[0] && ValidFrom(text, next) && DecodeFrom(text, next) == ss[1..]
    ensures ValidFrom(text, i) && DecodeFrom(text, i) == ss
  {
    assert ss == [ss[0]] + ss[1..];
  }

  /** The validator accepts exactly the well-formed strings. */
  lemma ValidIffWellFormed(text: Bytes)
    ensures Valid(text) <==> WellFormed(text)
  {
    assert text[0..] == text;
    if Valid(text) {
      ValidIsEncoded(text, 0);
    }
    if WellFormed(text) {
      var ss: seq<nat> :| AllScalars(ss) && EncodeAll(ss) == text;
      EncodedIsValid(text, 0, ss);
    }
  }

  /** `is_valid_utf8`. */
  method IsValidUtf8(text: Bytes) returns (r: bool)
    ensures r <==> WellFormed(text)
  {
    ValidIffWellFormed(text);
    var index := 0;
    while index < |text|
      invariant index <= |text| && (ValidFrom(text, index) <==> Valid(text))
    {
      var first := text[index];
      var length := 0;
      if first <= 0x7F {
        length := 1;
      } else if 0xC2 <= first <= 0xDF {
        length := 2;
      } else if 0xE0 <= first <= 0xEF {
        length := 3;
      } else if 0xF0 <= first <= 0xF4 {
        length := 4;
      } else {
        return false;
      }
      if index + length > |text| {
        return false;
      }
      var offset := 1;
      while offset < length
        invariant 1 <= offset <= length && forall k :: index < k < index + offset ==> IsTail(text[k])
      {
        if text[index + offset] / 64 != 2 {
          assert !IsTail(text[index + offset]);
          return false;
        }
        offset := offset + 1;
      }
      if (first == 0xE0 && text[index + 1] < 0xA0) || (first == 0xED && text[index + 1] > 0x9F)
         || (first == 0xF0 && text[index + 1] < 0x90) || (first == 0xF4 && text[index + 1] > 0x8F)
      {
        return false;
      }
      index := index + length;
    }
    return true;
  }

  // ----- for the ignore rules ------------------------------------------------------------------

  /** A stretch of a valid text that begins with a character and ends before an ASCII byte, or at the end,
      consists of whole characters in the sense of the ignore rules; and the rest is valid. */
  lemma {:induction false} StretchIsWhole(text: Bytes, from: nat, i: nat, end: nat)
    requires from <= i <= end <= |text| && ValidFrom(text, i) && (end < |text| ==> text[end] < 0x80)
    ensures Ignoring.WholeFrom(text[from..end], i - from)
    ensures end < |text| ==> ValidFrom(text, end + 1)
    decreases end - i
  {
    if i < end {
      var n := Announced(text[i]);
      assert forall k :: i < k < i + n ==> text[k] >= 0x80;
      assert Ignoring.CharacterLength(text[i]) == n;
      StretchIsWhole(text, from, i + n, end);
    }
  }

  lemma {:induction false} StretchIsValid(text: Bytes, from: nat, i: nat, end: nat)
    requires from <= i <= end <= |text| && ValidFrom(text, i) && (end < |text| ==> text[end] < 0x80)
    ensures ValidFrom(text[from..end], i - from)
    ensures end < |text| ==> ValidFrom(text, end + 1)
    decreases end - i
  {
    if i < end {
      var n := Announced(text[i]);
      assert forall k :: i < k < i + n ==> text[k] >= 0x80;
      StretchIsValid(text, from, i + n, end);
      assert Begins(text[from..end], i - from, n);
    }
  }

  lemma {:induction false} ValidPatternIsWhole(text: Bytes, from: nat)
    requires from <= |text| && ValidFrom(text, from)
    ensures Ignoring.WholeAll(Ignoring.Components(text, from))
    decreases |text| - from
  {
    var end := Ignoring.ComponentEnd(text, from);
    StretchIsWhole(text, from, from, end);
    if end < |text| {
      ValidPatternIsWhole(text, end + 1);
    }
    WholeFirst(text, from);
  }

  lemma WholeFirst(text: Bytes, from: nat)
    requires from <= |text|
    requires var end := Ignoring.ComponentEnd(text, from);
             Ignoring.Whole(text[from..end]) && (end < |text| ==> Ignoring.WholeAll(Ignoring.Components(text, end + 1)))
    ensures Ignoring.WholeAll(Ignoring.Components(text, from))
  {
    var end := Ignoring.ComponentEnd(text, from);
    var rest := if end < |text| then Ignoring.Components(text, end + 1) else [];
    assert Ignoring.WholeAll([text[from..end]] + rest) by {
      assert ([text[from..end]] + rest)[1..] == rest;
    }
    assert Ignoring.Components(text, from) == [text[from..end]] + rest;
  }

  /** Well-formed patterns are made of whole characters, component by component, so for them the answers of
      both matchers are exactly those of the recursive definition. */
  lemma WellFormedPatternsAreExact(pattern: Bytes)
    requires WellFormed(pattern)
    ensures Ignoring.Whole(pattern) && Ignoring.WholeAll(Ignoring.Components(pattern, 0))
  {
    ValidIffWellFormed(pattern);
    StretchIsWhole(pattern, 0, 0, |pattern|);
    assert pattern[0..|pattern|] == pattern;
    ValidPatternIsWhole(pattern, 0);
  }
}
