/** Vocabulary shared by every component: bytes, options, and the few sequence
    operations the broker's containers are specified with. */
module Basics {

  datatype Option<+T> = None | Some(value: T)

  type byte = b: int | 0 <= b < 256

  type Bytes = seq<byte>

  /** Session identifiers (`u128` in the broker; only compared, never computed with). */
  type SessionId = nat

  /** No element occurs twice. */
  ghost predicate NoDup<T>(s: seq<T>) {
    forall i, j :: 0 <= i < j < |s| ==> s[i] != s[j]
  }

  ghost function Members<T>(s: seq<T>): set<T> {
    set x | x in s
  }

  /** The first `n` elements, or all of them when there are fewer. */
  function Take<T>(n: nat, s: seq<T>): seq<T> {
    if |s| <= n then s else s[..n]
  }

  /** Stable filter. */
  function Filter<T>(keep: T -> bool, s: seq<T>): (r: seq<T>)
    ensures |r| <= |s|
    ensures forall i :: 0 <= i < |r| ==> r[i] in s && keep(r[i])
  {
    if s == [] then []
    else
      var init, last := s[..|s| - 1], s[|s| - 1];
      assert s == init + [last];
      Filter(keep, init) + if keep(last) then [last] else []
  }

  lemma {:induction false} FilterStep<T>(keep: T -> bool, s: seq<T>, k: nat)
    requires k < |s|
    ensures Filter(keep, s[..k + 1]) == Filter(keep, s[..k]) + if keep(s[k]) then [s[k]] else []
  {
    assert s[..k + 1][..k] == s[..k];
  }

  /** Keeps the first occurrence of every element, in order. */
  function Dedup<T(==,!new)>(s: seq<T>): (r: seq<T>)
    ensures forall x :: x in r <==> x in s
    ensures NoDup(r)
  {
    if s == [] then []
    else
      var init, last := s[..|s| - 1], s[|s| - 1];
      assert s == init + [last];
      var d := Dedup(init);
      if last in d then d else d + [last]
  }

  lemma {:induction false} DedupSnoc<T(!new)>(s: seq<T>, x: T)
    ensures Dedup(s + [x]) == if x in Dedup(s) then Dedup(s) else Dedup(s) + [x]
  {
    assert (s + [x])[..|s|] == s;
  }

  /** A duplicate-free sequence is as long as its set of elements is large. */
  lemma {:induction false} NoDupCardinality<T>(s: seq<T>)
    requires NoDup(s)
    ensures |set x | x in s| == |s|
  {
    if s == [] {
      assert (set x | x in s) == {};
    } else {
      var init, last := s[..|s| - 1], s[|s| - 1];
      NoDupCardinality(init);
      assert (set x | x in s) == (set x | x in init) + {last};
    }
  }

  /** Pigeonhole: a duplicate-free sequence drawn from another is no longer than it. */
  lemma {:induction false} Pigeonhole<T>(s: seq<T>, pool: seq<T>)
    requires NoDup(s) && NoDup(pool)
    requires forall x :: x in s ==> x in pool
    ensures |s| <= |pool|
  {
    var small, big := set x | x in s, set x | x in pool;
    NoDupCardinality(s);
    NoDupCardinality(pool);
    assert small <= big;
    SubsetCardinality(small, big);
  }

  lemma {:induction false} SubsetCardinality<T>(a: set<T>, b: set<T>)
    requires a <= b
    ensures |a| <= |b|
  {
    assert b == a + (b - a);
    assert |b| == |a| + |b - a|;
  }

  lemma {:induction false} Assoc<T>(a: seq<T>, b: seq<T>, c: seq<T>)
    ensures a + b + c == a + (b + c)
  {
  }

  /** Deleting a position that is not the last commutes with dropping the last. */
  lemma {:induction false} DeleteBeforeLast<T>(s: seq<T>, i: nat)
    requires i < |s| - 1
    ensures s[..i] + s[i + 1..] == s[..|s| - 1][..i] + s[..|s| - 1][i + 1..] + [s[|s| - 1]]
  {
  }

  lemma {:induction false} MembersStep<T>(s: seq<T>, k: nat)
    requires k < |s|
    ensures Members(s[..k + 1]) == Members(s[..k]) + {s[k]}
  {
    assert s[..k + 1] == s[..k] + [s[k]];
  }

  lemma {:induction false} InitLast<T>(s: seq<T>)
    requires s != []
    ensures s == s[..|s| - 1] + [s[|s| - 1]]
  {
  }

  lemma {:induction false} ConcatTail<T>(a: seq<T>, b: seq<T>)
    requires a != []
    ensures (a + b)[0] == a[0] && (a + b)[1..] == a[1..] + b
  {
  }

  lemma {:induction false} TakeCons<T>(s: seq<T>, k: nat)
    requires 0 < k <= |s|
    ensures s[..k] == [s[0]] + s[1..][..k - 1]
  {
  }
}
