/** `HeaplessString<N>`: a byte buffer that starts zeroed, and a `u8` length. Topic
    filters are looked up with the derived equality, which compares the length and
    the WHOLE buffer; this module shows why that is equality of strings. */
module HeaplessStrings {
  import opened Basics
  import Utf8

  function Zeros(n: nat): (r: Bytes)
    ensures |r| == n && forall i :: 0 <= i < n ==> r[i] == 0
  {
    seq(n, _ => 0)
  }

  function Copies(k: nat, ch: Bytes): Bytes {
    if k == 0 then [] else Copies(k - 1, ch) + ch
  }

  /** The two fields `try_from` stores for a value that fits: the length is cast to `u8`. */
  function Stored(n: nat, value: Bytes): (nat, Bytes)
    requires |value| <= n
  {
    (|value| % 256, value + Zeros(n - |value|))
  }

  /** Every byte past the length is zero. */
  ghost predicate ZeroTail(length: nat, data: Bytes) {
    length <= |data| && forall i :: length <= i < |data| ==> data[i] == 0
  }

  /** With zero tails, comparing both fields is comparing the visible strings. */
  lemma DerivedEquality(m: nat, a: Bytes, n: nat, b: Bytes)
    requires ZeroTail(m, a) && ZeroTail(n, b) && |a| == |b|
    ensures m == n && a == b <==> a[..m] == b[..n]
  {
    if a[..m] == b[..n] {
      assert m == |a[..m]| == |b[..n]| == n;
      forall i | 0 <= i < |a|
        ensures a[i] == b[i]
      {
        assert i < m ==> a[i] == a[..m][i] == b[..n][i] == b[i];
      }
    }
  }

  ghost predicate EqualityIsFaithful(n: nat) {
    forall a: Bytes, b: Bytes :: |a| <= n && |b| <= n ==> (Stored(n, a) == Stored(n, b) <==> a == b)
  }

  /** The derived equality identifies exactly the equal strings if and only if the
      capacity fits the `u8` length. */
  lemma FaithfulIffCapacityFits(n: nat)
    ensures EqualityIsFaithful(n) <==> n <= 255
  {
    if n <= 255 {
      forall a: Bytes, b: Bytes | |a| <= n && |b| <= n
        ensures Stored(n, a) == Stored(n, b) <==> a == b
      {
        DerivedEquality(|a|, Stored(n, a).1, |b|, Stored(n, b).1);
        assert Stored(n, a).1[..|a|] == a && Stored(n, b).1[..|b|] == b;
      }
    } else {
      var wraps: Bytes, empty: Bytes := Zeros(256), [];
      assert wraps + Zeros(n - 256) == empty + Zeros(n);
      assert Stored(n, wraps) == Stored(n, empty);
      assert wraps != empty;
    }
  }

  /** Keeping the first `n` bytes of this text does not cut a character. */
  predicate StaysText(n: nat, text: Bytes) {
    |text| <= n || !Utf8.Continuation(text[n])
  }

  lemma {:induction false} WriteStaysText(n: nat, a: Bytes, b: Bytes)
    ensures Utf8.Valid(a) && Utf8.Valid(b) ==> (Utf8.Valid(Take(n, a + b)) <==> StaysText(n, a + b))
  {
    if Utf8.Valid(a) && Utf8.Valid(b) {
      Utf8.ConcatValidIff(a, b);
      if n < |a + b| {
        Utf8.PrefixValidIff(a + b, n);
      }
    }
  }

  /** The smallest case: one byte of a character of two, which then shows as nothing. */
  lemma {:induction false} CutCharacterShowsNothing()
    ensures Utf8.Valid([0xC3, 0xA9]) && !StaysText(1, [0xC3, 0xA9])
    ensures Take(1, [0xC3, 0xA9]) == [0xC3] && Utf8.AsStr([0xC3]) == []
  {
    assert [0xC3, 0xA9][2..] == [];
    Utf8.PrefixValidIff([0xC3, 0xA9], 1);
  }

  class HeaplessString {
    const data: array<byte>
    var length: nat

    ghost predicate Valid()
      reads this, data
    {
      data.Length <= 255 && ZeroTail(length, data[..])
    }

    ghost function Contents(): Bytes
      requires Valid()
      reads this, data
    {
      data[..length]
    }

    constructor (capacity: nat)
      requires capacity <= 255
      ensures Valid() && fresh(data) && data.Length == capacity && Contents() == []
    {
      data := new byte[capacity](_ => 0);
      length := 0;
    }

    /** `try_from`: None when the value does not fit. */
    static method TryFrom(capacity: nat, value: Bytes) returns (s: HeaplessString?)
      requires capacity <= 255
      ensures s == null <==> |value| > capacity
      ensures s != null ==>
                && fresh(s) && fresh(s.data) && s.data.Length == capacity
                && s.Valid() && s.Contents() == value
                && (s.length, s.data[..]) == Stored(capacity, value)
    {
      if |value| > capacity {
        return null;
      }
      s := new HeaplessString(capacity);
      s.CopyIn(value);
      assert s.data[..] == value + Zeros(capacity - |value|);
    }

    /** `repeat`: as many copies of one encoded character as fit. */
    static method Repeat(capacity: nat, ch: Bytes) returns (s: HeaplessString, ghost copies: nat)
      requires capacity <= 255 && 0 < |ch| <= 4
      ensures fresh(s) && fresh(s.data) && s.data.Length == capacity
      ensures s.Valid() && s.Contents() == Copies(copies, ch)
      ensures |Copies(copies + 1, ch)| > capacity
    {
      s := new HeaplessString(capacity);
      copies := 0;
      while s.length + |ch| <= capacity
        invariant s.Valid() && s.data.Length == capacity && fresh(s) && fresh(s.data)
        invariant s.Contents() == Copies(copies, ch)
        decreases capacity - s.length
      {
        s.CopyIn(ch);
        copies := copies + 1;
      }
    }

    method Clear()
      requires Valid()
      modifies this`length, data
      ensures Valid() && Contents() == []
    {
      length := 0;
      forall i | 0 <= i < data.Length {
        data[i] := 0;
      }
    }

    /** `push_str`; `push` is the same on the encoding of one character. */
    method PushStr(s: Bytes) returns (ok: bool)
      requires Valid()
      modifies this`length, data
      ensures Valid()
      ensures ok <==> |old(Contents())| + |s| <= data.Length
      ensures Contents() == if ok then old(Contents()) + s else old(Contents())
      ensures Utf8.Valid(old(Contents())) && Utf8.Valid(s) ==> Utf8.Valid(Contents())
    {
      if Utf8.Valid(data[..length]) {
        Utf8.ConcatValidIff(data[..length], s);
      }
      if length + |s| > data.Length {
        return false;
      }
      CopyIn(s);
      return true;
    }

    /** `write_str` never fails: it keeps what fits. What is then stored is still text,
        and shown by `as_str`, if and only if the cut is not inside a character. */
    method WriteStr(s: Bytes)
      requires Valid()
      modifies this`length, data
      ensures Valid()
      ensures Contents() == Take(data.Length, old(Contents()) + s)
      ensures Utf8.Valid(old(Contents())) && Utf8.Valid(s) ==>
                (Utf8.Valid(Contents()) <==> StaysText(data.Length, old(Contents()) + s))
    {
      WriteStaysText(data.Length, data[..length], s);
      var remaining := data.Length - length;
      var toCopy := if |s| < remaining then |s| else remaining;
      CopyIn(s[..toCopy]);
    }

    /** `copy_from_slice` at the end, then the length update. */
    method CopyIn(s: Bytes)
      requires Valid() && length + |s| <= data.Length
      modifies this`length, data
      ensures Valid() && Contents() == old(Contents()) + s
    {
      forall i | 0 <= i < |s| {
        data[length + i] := s[i];
      }
      length := length + |s|;
    }

    /** `as_str`: the contents if they are UTF-8, else nothing. */
    method AsStr() returns (s: Bytes)
      requires Valid()
      ensures s == Utf8.AsStr(Contents())
    {
      s := if Utf8.Valid(data[..length]) then data[..length] else [];
    }

    /** The derived `PartialEq`. */
    method Equals(other: HeaplessString) returns (eq: bool)
      requires Valid() && other.Valid() && data.Length == other.data.Length
      ensures eq <==> Contents() == other.Contents()
    {
      eq := length == other.length && data[..] == other.data[..];
      DerivedEquality(length, data[..], other.length, other.data[..]);
      assert data[..][..length] == data[..length];
      assert other.data[..][..other.length] == other.data[..other.length];
    }
  }
}
