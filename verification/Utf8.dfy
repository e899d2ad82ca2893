/** UTF-8 well-formedness (table 3-7 of the Unicode Standard), which every string read
    from the wire is checked for, and which every stored string is shown through. */
module Utf8 {
  import opened Basics

  predicate Continuation(b: byte) {
    0x80 <= b < 0xC0
  }

  /** Length of the well-formed code unit sequence at the front; 0 when there is none. */
  function SequenceLength(s: Bytes): (n: nat)
    ensures n <= |s|
  {
    if s == [] then 0
    else if s[0] < 0x80 then 1
    else if 0xC2 <= s[0] < 0xE0 then
      if |s| >= 2 && Continuation(s[1]) then 2 else 0
    else if 0xE0 <= s[0] < 0xF0 then
      if |s| >= 3 && Continuation(s[1]) && Continuation(s[2])
         && (s[0] == 0xE0 ==> s[1] >= 0xA0) && (s[0] == 0xED ==> s[1] < 0xA0)
      then 3 else 0
    else if 0xF0 <= s[0] < 0xF5 then
      if |s| >= 4 && Continuation(s[1]) && Continuation(s[2]) && Continuation(s[3])
         && (s[0] == 0xF0 ==> s[1] >= 0x90) && (s[0] == 0xF4 ==> s[1] < 0x90)
      then 4 else 0
    else 0
  }

  predicate Valid(s: Bytes)
    decreases |s|
  {
    s == [] || (SequenceLength(s) > 0 && Valid(s[SequenceLength(s)..]))
  }

  /** `as_str`: what a stored string shows. Bytes that are not UTF-8 show as nothing. */
  function AsStr(s: Bytes): Bytes {
    if Valid(s) then s else []
  }

  lemma {:induction false} AsciiIsText(s: Bytes)
    requires forall i :: 0 <= i < |s| ==> s[i] < 128
    ensures Valid(s)
  {
    if s != [] {
      AsciiIsText(s[1..]);
    }
  }

  /** Only the bytes of the first character decide how long it is. */
  lemma {:induction false} SequenceLengthIsLocal(s: Bytes, t: Bytes)
    requires SequenceLength(s) > 0 && s[..SequenceLength(s)] <= t
    ensures SequenceLength(t) == SequenceLength(s)
  {
    var n := SequenceLength(s);
    assert forall i :: 0 <= i < n ==> t[i] == s[..n][i] == s[i];
  }

  /** Behind text, exactly text makes text. */
  lemma {:induction false} ConcatValidIff(a: Bytes, b: Bytes)
    requires Valid(a)
    ensures Valid(a + b) <==> Valid(b)
    decreases |a|
  {
    if a == [] {
      assert a + b == b;
    } else {
      var n := SequenceLength(a);
      SequenceLengthIsLocal(a, a + b);
      ConcatValidIff(a[n..], b);
      assert (a + b)[n..] == a[n..] + b;
    }
  }

  /** A character starts with no continuation byte and goes on with nothing else. */
  lemma {:induction false} CharacterShape(s: Bytes, k: nat)
    requires k < SequenceLength(s)
    ensures Continuation(s[k]) <==> k > 0
    ensures k > 0 ==> SequenceLength(s[..k]) == 0
  {
  }

  /** Cutting text leaves text if and only if the cut is not inside a character. */
  lemma {:induction false} PrefixValidIff(s: Bytes, k: nat)
    requires Valid(s) && k <= |s|
    ensures Valid(s[..k]) <==> k == |s| || !Continuation(s[k])
    decreases |s|
  {
    var n := SequenceLength(s);
    if k < n {
      CharacterShape(s, k);
    } else if s != [] {
      var t := s[..k];
      assert t[..n] == s[..n];
      SequenceLengthIsLocal(s, t);
      PrefixValidIff(s[n..], k - n);
      assert t[n..] == s[n..][..k - n];
    }
  }

  // ---------- text as a sequence of characters ----------

  /** Unicode scalar values: all code points but the surrogates. */
  predicate Scalar(c: int) {
    0 <= c < 0xD800 || 0xE000 <= c < 0x11_0000
  }

  /** `encode_utf8` */
  function EncodeChar(c: int): Bytes
    requires Scalar(c)
  {
    if c < 0x80 then [c]
    else if c < 0x800 then [0xC0 + c / 0x40, 0x80 + c % 0x40]
    else if c < 0x1_0000 then [0xE0 + c / 0x1000, 0x80 + c / 0x40 % 0x40, 0x80 + c % 0x40]
    else [0xF0 + c / 0x4_0000, 0x80 + c / 0x1000 % 0x40, 0x80 + c / 0x40 % 0x40, 0x80 + c % 0x40]
  }

  predicate Scalars(cs: seq<int>) {
    forall i :: 0 <= i < |cs| ==> Scalar(cs[i])
  }

  function EncodeText(cs: seq<int>): Bytes
    requires Scalars(cs)
  {
    if cs == [] then [] else EncodeChar(cs[0]) + EncodeText(cs[1..])
  }

  lemma {:induction false} ThreeByteLead(c: int)
    requires 0x800 <= c < 0x1_0000
    ensures c / 0x1000 == 0 ==> c / 0x40 % 0x40 >= 0x20
    ensures c / 0x1000 == 0xD ==> (c < 0xD800 <==> c / 0x40 % 0x40 < 0x20) && c < 0xE000
  {
    assert c / 0x40 == 0x40 * (c / 0x1000) + c / 0x40 % 0x40;
  }

  lemma {:induction false} FourByteLead(c: int)
    requires 0x1_0000 <= c < 0x11_0000
    ensures c / 0x4_0000 == 0 ==> c / 0x1000 % 0x40 >= 0x10
    ensures c / 0x4_0000 == 4 ==> c / 0x1000 % 0x40 < 0x10
  {
    assert c / 0x1000 == 0x40 * (c / 0x4_0000) + c / 0x1000 % 0x40;
  }

  /** An encoded character is one well-formed sequence, whatever follows. */
  lemma {:induction false} CharIsSequence(c: int, rest: Bytes)
    requires Scalar(c)
    ensures SequenceLength(EncodeChar(c) + rest) == |EncodeChar(c)|
  {
    var s := EncodeChar(c) + rest;
    assert forall i :: 0 <= i < |EncodeChar(c)| ==> s[i] == EncodeChar(c)[i];
    if 0x800 <= c < 0x1_0000 {
      ThreeByteLead(c);
    } else if c >= 0x1_0000 {
      FourByteLead(c);
    }
  }

  lemma {:induction false} LowDigit(q: int, r: int)
    requires 0 <= r < 0x40
    ensures (0x40 * q + r) / 0x40 == q && (0x40 * q + r) % 0x40 == r
  {
  }

  lemma {:induction false} DivideByDigits(c: int)
    ensures c / 0x1000 == c / 0x40 / 0x40 && c / 0x4_0000 == c / 0x40 / 0x40 / 0x40
  {
  }

  lemma {:induction false} DigitsOfTwo(a: int, b: int)
    requires 2 <= a < 0x20 && 0 <= b < 0x40
    ensures var c := 0x40 * a + b; Scalar(c) && EncodeChar(c) == [0xC0 + a, 0x80 + b]
  {
  }

  lemma {:induction false} DigitsOfThree(a: int, b: int, d: int)
    requires 0 <= a < 0x10 && 0 <= b < 0x40 && 0 <= d < 0x40
    requires (a == 0 ==> b >= 0x20) && (a == 0xD ==> b < 0x20)
    ensures var c := 0x1000 * a + 0x40 * b + d; Scalar(c) && EncodeChar(c) == [0xE0 + a, 0x80 + b, 0x80 + d]
  {
    LowDigit(a, b);
    LowDigit(0x40 * a + b, d);
    DivideByDigits(0x1000 * a + 0x40 * b + d);
  }

  lemma {:induction false} DigitsOfFour(a: int, b: int, d: int, e: int)
    requires 0 <= a < 5 && 0 <= b < 0x40 && 0 <= d < 0x40 && 0 <= e < 0x40
    requires (a == 0 ==> b >= 0x10) && (a == 4 ==> b < 0x10)
    ensures var c := 0x4_0000 * a + 0x1000 * b + 0x40 * d + e;
            Scalar(c) && EncodeChar(c) == [0xF0 + a, 0x80 + b, 0x80 + d, 0x80 + e]
  {
    LowDigit(a, b);
    LowDigit(0x40 * a + b, d);
    LowDigit(0x1000 * a + 0x40 * b + d, e);
    DivideByDigits(0x4_0000 * a + 0x1000 * b + 0x40 * d + e);
  }

  /** And every well-formed sequence is an encoded character. */
  lemma {:induction false} SequenceIsChar(s: Bytes) returns (c: int)
    requires SequenceLength(s) > 0
    ensures Scalar(c) && EncodeChar(c) == s[..SequenceLength(s)]
  {
    var n := SequenceLength(s);
    var b0: int := s[0];
    if n == 1 {
      return b0;
    }
    var b1: int := s[1];
    if n == 2 {
      c := 0x40 * (b0 - 0xC0) + (b1 - 0x80);
      DigitsOfTwo(b0 - 0xC0, b1 - 0x80);
      return;
    }
    var b2: int := s[2];
    if n == 3 {
      c := 0x1000 * (b0 - 0xE0) + 0x40 * (b1 - 0x80) + (b2 - 0x80);
      DigitsOfThree(b0 - 0xE0, b1 - 0x80, b2 - 0x80);
      return;
    }
    var b3: int := s[3];
    c := 0x4_0000 * (b0 - 0xF0) + 0x1000 * (b1 - 0x80) + 0x40 * (b2 - 0x80) + (b3 - 0x80);
    DigitsOfFour(b0 - 0xF0, b1 - 0x80, b2 - 0x80, b3 - 0x80);
  }

  lemma {:induction false} EncodedIsValid(cs: seq<int>)
    requires Scalars(cs)
    ensures Valid(EncodeText(cs))
  {
    if cs != [] {
      var head, rest := EncodeChar(cs[0]), EncodeText(cs[1..]);
      EncodedIsValid(cs[1..]);
      CharIsSequence(cs[0], rest);
      assert (head + rest)[|head|..] == rest;
    }
  }

  lemma {:induction false} ValidIsEncoded(s: Bytes) returns (cs: seq<int>)
    requires Valid(s)
    ensures Scalars(cs) && EncodeText(cs) == s
    decreases |s|
  {
    if s == [] {
      cs := [];
    } else {
      var n := SequenceLength(s);
      var c := SequenceIsChar(s);
      var rest := ValidIsEncoded(s[n..]);
      cs := [c] + rest;
      EncodeTextCons(c, rest);
      assert s == s[..n] + s[n..];
    }
  }

  lemma {:induction false} EncodeTextCons(c: int, cs: seq<int>)
    requires Scalar(c) && Scalars(cs)
    ensures Scalars([c] + cs) && EncodeText([c] + cs) == EncodeChar(c) + EncodeText(cs)
  {
    assert ([c] + cs)[1..] == cs;
  }

  /** Exactly the encodings of sequences of Unicode scalar values are valid. */
  lemma {:induction false} ValidIffEncoded(s: Bytes)
    ensures Valid(s) <==> exists cs: seq<int> :: Scalars(cs) && EncodeText(cs) == s
  {
    if Valid(s) {
      var cs := ValidIsEncoded(s);
    }
    if cs: seq<int> :| Scalars(cs) && EncodeText(cs) == s {
      EncodedIsValid(cs);
    }
  }
}
