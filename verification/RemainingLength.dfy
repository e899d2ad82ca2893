/** Remaining Length (section 2.2.3 of MQTT 3.1.1): little-endian base 128, the high
    bit of a byte meaning that another byte follows; at most four bytes. */
module RemainingLength {
  import opened Basics

  const MAX_LENGTH: nat := 268_435_455

  datatype LengthResult = Length(value: nat, size: nat) | Incomplete | Malformed

  function Pow128(n: nat): (p: nat)
    ensures p >= 1
  {
    if n == 0 then 1 else 128 * Pow128(n - 1)
  }

  /** The number that a sequence of length bytes stands for. */
  function Value(s: Bytes): nat {
    if s == [] then 0 else s[0] % 128 + 128 * Value(s[1..])
  }

  /** The shortest encoding. */
  function Encode(v: nat): (r: Bytes)
    ensures r != []
    decreases v
  {
    if v < 128 then [v] else [128 + v % 128] + Encode(v / 128)
  }

  /** `variable_length_length` */
  function Size(v: nat): nat {
    if v < 128 then 1 else if v < 16384 then 2 else if v < 2097152 then 3 else 4
  }

  /** Position of the first byte without the high bit, or the length. */
  function Terminator(s: Bytes): (k: nat)
    ensures k <= |s|
    ensures k < |s| ==> s[k] < 128
    ensures forall i :: 0 <= i < k ==> s[i] >= 128
  {
    if s == [] || s[0] < 128 then 0 else 1 + Terminator(s[1..])
  }

  /** A length is read when one of the first four bytes ends it. A fifth byte shows
      that the length is malformed; without it the input is merely incomplete. */
  function Read(s: Bytes): LengthResult {
    var k := Terminator(s);
    if k < |s| && k < 4 then Length(Value(s[..k + 1]), k + 1)
    else if |s| >= 5 then Malformed
    else Incomplete
  }

  /** The server's own reader, on a buffer with the packet type in front, already gives
      up after four bytes that all announce another one. */
  function Parse(buffer: Bytes): LengthResult
    requires buffer != []
  {
    var s := buffer[1..];
    var k := Terminator(s);
    if k < |s| && k < 4 then Length(Value(s[..k + 1]), k + 1)
    else if |s| >= 4 then Malformed
    else Incomplete
  }

  lemma {:induction false} ValueSnoc(s: Bytes, b: byte)
    ensures Value(s + [b]) == Value(s) + b % 128 * Pow128(|s|)
  {
    if s == [] {
      assert (s + [b])[1..] == [];
    } else {
      ValueSnoc(s[1..], b);
      assert (s + [b])[1..] == s[1..] + [b];
      var d, p := b % 128, Pow128(|s| - 1);
      assert 128 * (d * p) == d * (128 * p);
    }
  }

  lemma {:induction false} ValueBound(s: Bytes)
    ensures Value(s) < Pow128(|s|)
  {
    if s != [] {
      ValueBound(s[1..]);
    }
  }

  lemma PowersOf128()
    ensures Pow128(0) == 1 && Pow128(1) == 128 && Pow128(2) == 16384 && Pow128(3) == 2097152 && Pow128(4) == 268435456
  {
    assert Pow128(1) == 128 * Pow128(0);
    assert Pow128(2) == 128 * Pow128(1);
    assert Pow128(3) == 128 * Pow128(2);
    assert Pow128(4) == 128 * Pow128(3);
  }

  method ReadVariableLength(bytes: Bytes) returns (r: LengthResult)
    ensures r == Read(bytes)
  {
    var multiplier: nat := 1;
    var value: nat := 0;
    var bytesRead: nat := 0;
    PowersOf128();
    while true
      invariant bytesRead <= |bytes| && bytesRead <= 4
      invariant forall i :: 0 <= i < bytesRead ==> bytes[i] >= 128
      invariant value == Value(bytes[..bytesRead]) && multiplier == Pow128(bytesRead)
      decreases 4 - bytesRead
    {
      if bytesRead >= |bytes| {
        return Incomplete;
      }
      var b := bytes[bytesRead];
      ValueSnoc(bytes[..bytesRead], b);
      ValueBound(bytes[..bytesRead + 1]);
      assert bytes[..bytesRead + 1] == bytes[..bytesRead] + [b];
      bytesRead := bytesRead + 1;
      value := value + b % 128 * multiplier;
      if value > MAX_LENGTH {
        return Malformed;
      }
      multiplier := multiplier * 128;
      if multiplier > 128 * 128 * 128 * 128 {
        return Malformed;
      }
      if b < 128 {
        break;
      }
    }
    return Length(value, bytesRead);
  }

  method ParseRemainingLength(buffer: Bytes) returns (r: LengthResult)
    requires buffer != []
    ensures r == Parse(buffer)
  {
    var idx: nat := 1;
    var multiplier: nat := 1;
    var value: nat := 0;
    ghost var s := buffer[1..];
    PowersOf128();
    while true
      invariant 1 <= idx <= |buffer| && idx <= 4
      invariant forall i :: 0 <= i < idx - 1 ==> s[i] >= 128
      invariant value == Value(s[..idx - 1]) && multiplier == Pow128(idx - 1)
      decreases 4 - idx
    {
      if idx >= |buffer| {
        return Incomplete;
      }
      var b := buffer[idx];
      ValueSnoc(s[..idx - 1], b);
      assert s[..idx] == s[..idx - 1] + [b];
      idx := idx + 1;
      value := value + b % 128 * multiplier;
      if b < 128 {
        break;
      }
      multiplier := multiplier * 128;
      if multiplier > 128 * 128 * 128 {
        return Malformed;
      }
    }
    return Length(value, idx - 1);
  }

  /** Both readers accept the same inputs with the same result; they disagree only on
      why to reject four bytes that all announce another one. */
  lemma {:induction false} ReadersAgree(header: byte, s: Bytes)
    ensures Read(s).Length? <==> Parse([header] + s).Length?
    ensures Read(s).Length? ==> Read(s) == Parse([header] + s)
    ensures Read(s) == Parse([header] + s) <==> !(|s| == 4 && Terminator(s) == 4)
  {
    assert ([header] + s)[1..] == s;
  }

  // ---------- writing and reading undo each other ----------

  /** The shortest encoding has the announced size. */
  lemma {:induction false} EncodeSize(v: nat)
    requires v <= MAX_LENGTH
    ensures |Encode(v)| == Size(v)
    decreases v
  {
    if v >= 128 {
      EncodeSize(v / 128);
      assert Size(v) == 1 + Size(v / 128);
    }
  }

  lemma {:induction false} EncodeEnds(v: nat)
    ensures Terminator(Encode(v)) == |Encode(v)| - 1
    decreases v
  {
    if v >= 128 {
      EncodeEnds(v / 128);
      assert Encode(v)[1..] == Encode(v / 128);
    }
  }

  lemma {:induction false} EncodeValue(v: nat)
    ensures Value(Encode(v)) == v
    decreases v
  {
    if v < 128 {
      assert Value([v]) == v % 128 + 128 * Value([]);
    } else {
      EncodeValue(v / 128);
      assert Encode(v)[1..] == Encode(v / 128);
    }
  }

  lemma {:induction false} EncodeLast(v: nat)
    ensures v > 0 ==> Encode(v)[|Encode(v)| - 1] != 0
    ensures v == 0 ==> |Encode(v)| == 1
    decreases v
  {
    if v >= 128 {
      EncodeLast(v / 128);
      assert Encode(v)[|Encode(v)| - 1] == Encode(v / 128)[|Encode(v / 128)| - 1];
    }
  }

  lemma {:induction false} TerminatorConcat(e: Bytes, tail: Bytes)
    requires Terminator(e) < |e|
    ensures Terminator(e + tail) == Terminator(e)
  {
    var k, s := Terminator(e), e + tail;
    assert s[k] == e[k];
    assert forall i :: 0 <= i < |e| ==> s[i] == e[i];
  }

  /** Whatever follows, a written length is read back with its own size. */
  lemma {:induction false} WriteThenRead(v: nat, tail: Bytes)
    requires v <= 268_435_455
    ensures Read(Encode(v) + tail) == Length(v, Size(v)) && |Encode(v)| == Size(v)
  {
    var e := Encode(v);
    EncodeEnds(v);
    EncodeValue(v);
    EncodeSize(v);
    TerminatorConcat(e, tail);
    assert (e + tail)[..|e|] == e;
  }

  /** The bytes of every length. */
  lemma {:induction false} EncodeBytes(v: nat)
    ensures v < 128 ==> Encode(v) == [v]
    ensures 128 <= v < 16384 ==> Encode(v) == [128 + v % 128, v / 128]
    ensures 16384 <= v < 2097152 ==> Encode(v) == [128 + v % 128, 128 + v / 128 % 128, v / 16384]
    ensures 2097152 <= v < 268435456 ==>
              Encode(v) == [128 + v % 128, 128 + v / 128 % 128, 128 + v / 16384 % 128, v / 2097152]
    decreases v
  {
    if v >= 128 {
      EncodeBytes(v / 128);
      assert v / 128 / 128 == v / 16384 && v / 128 / 16384 == v / 2097152;
    }
  }

  lemma {:induction false} Digits(d: nat, q: nat)
    requires d < 128
    ensures (d + 128 * q) % 128 == d && (d + 128 * q) / 128 == q
  {
  }

  /** Putting a low digit in front. */
  lemma {:induction false} EncodePrepend(d: nat, q: nat)
    requires d < 128 && q > 0
    ensures Encode(d + 128 * q) == [128 + d] + Encode(q)
  {
    Digits(d, q);
  }

  /** An encoding that ends itself and does not end in a superfluous zero is the
      shortest one. */
  lemma {:induction false} MinimalIsEncode(e: Bytes)
    requires e != [] && Terminator(e) == |e| - 1 && e[|e| - 1] != 0
    ensures Encode(Value(e)) == e && Value(e) > 0
  {
    if |e| == 1 {
      assert Value(e) == e[0] % 128 + 128 * Value([]);
    } else {
      var rest := e[1..];
      assert Terminator(e) == 1 + Terminator(rest);
      MinimalIsEncode(rest);
      EncodePrepend(e[0] % 128, Value(rest));
      assert e == [e[0]] + rest;
    }
  }

  /** Writing a length that was read reproduces its bytes if and only if they had no
      superfluous zero at the end. */
  lemma {:induction false} RereadIffMinimal(s: Bytes)
    requires Read(s).Length?
    ensures var Length(v, k) := Read(s);
            && v <= MAX_LENGTH && 0 < k <= |s|
            && (Encode(v) == s[..k] <==> k == 1 || s[k - 1] != 0)
  {
    var Length(v, k) := Read(s);
    var e := s[..k];
    TerminatorPrefix(s, k);
    ValueBound(e);
    PowersOf128();
    EncodeLast(v);
    if s[k - 1] != 0 {
      MinimalIsEncode(e);
    } else if k == 1 {
      assert e == [0] && Value(e) == 0 % 128 + 128 * Value([]);
    }
  }

  lemma {:induction false} TerminatorPrefix(s: Bytes, k: nat)
    requires Terminator(s) < |s| && k == Terminator(s) + 1
    ensures Terminator(s[..k]) == k - 1
  {
    var e := s[..k];
    assert e[k - 1] == s[k - 1];
    assert forall i :: 0 <= i < k ==> e[i] == s[i];
  }
}
