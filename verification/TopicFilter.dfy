/** Topic levels and wildcard matching: the hand-written level iterator, the matching
    loop over two of them, and how it compares with section 4.7.1 of MQTT 3.1.1. */
module TopicFilter {
  import opened Basics
  import Utf8

  type Level = Bytes

  const SLASH: byte := 47
  const HASH: Level := [35]
  const PLUS: Level := [43]

  /** Position of the first '/', or the length when there is none (`str::find`). */
  function FindSlash(s: Bytes): (k: nat)
    ensures k <= |s|
    ensures k < |s| ==> s[k] == SLASH
    ensures SLASH !in s[..k]
  {
    if s == [] || s[0] == SLASH then 0
    else
      var k := FindSlash(s[1..]);
      assert s[..1 + k] == [s[0]] + s[1..][..k];
      1 + k
  }

  /** The levels of a topic: the pieces between slashes, always at least one. */
  function Split(s: Bytes): (r: seq<Level>)
    ensures r != []
    decreases |s|
  {
    var k := FindSlash(s);
    if k == |s| then [s] else [s[..k]] + Split(s[k + 1..])
  }

  /** Section 4.7.1: '+' stands for one level; a final '#' for any number of levels,
      none included; a '#' anywhere else matches nothing. */
  predicate Rule(topic: seq<Level>, filter: seq<Level>) {
    if filter == [] then topic == []
    else if filter[0] == HASH then |filter| == 1
    else topic != [] && (filter[0] == PLUS || filter[0] == topic[0]) && Rule(topic[1..], filter[1..])
  }

  /** The levels the iterator still has to yield. */
  function LevelsLeft(remaining: Bytes, pendingEmpty: bool): seq<Level> {
    if pendingEmpty then [[]] else if remaining == [] then [] else Split(remaining)
  }

  class LevelIterator {
    var remaining: Bytes
    var pendingEmpty: bool

    ghost predicate Valid()
      reads this
    {
      pendingEmpty ==> remaining == []
    }

    ghost function Left(): seq<Level>
      reads this
    {
      LevelsLeft(remaining, pendingEmpty)
    }

    /** Remaining bytes, with room for the empty level that a trailing slash leaves. */
    ghost function Measure(): nat
      reads this
    {
      2 * |remaining| + if pendingEmpty then 1 else 0
    }

    constructor (topic: Bytes)
      ensures Valid() && Left() == LevelsLeft(topic, false)
    {
      remaining := topic;
      pendingEmpty := false;
    }

    method Next() returns (level: Option<Level>)
      requires Valid()
      modifies this
      ensures Valid()
      ensures level.None? <==> old(Left()) == []
      ensures level.None? ==> Left() == []
      ensures level.Some? ==> [level.value] + Left() == old(Left()) && Measure() < old(Measure())
    {
      if pendingEmpty {
        pendingEmpty := false;
        return Some([]);
      }
      if remaining == [] {
        return None;
      }
      var pos := FindSlash(remaining);
      if pos < |remaining| {
        level := Some(remaining[..pos]);
        ghost var rest := remaining[pos + 1..];
        assert Left() == [level.value] + Split(rest);
        remaining := remaining[pos + 1..];
        if remaining == [] {
          SplitSingletonEmpty(rest);
          pendingEmpty := true;
        }
      } else {
        level := Some(remaining);
        remaining := [];
      }
    }
  }

  /** What the loop decides, on level lists. The lookahead after a '#' that is not
      final has swallowed the level behind it. */
  predicate LoopMatch(topic: seq<Level>, filter: seq<Level>)
    decreases |filter|
  {
    if filter == [] then topic == []
    else if filter == [HASH] then true
    else if topic == [] then false
    else if filter[0] == HASH then topic[0] == HASH && LoopMatch(topic[1..], filter[2..])
    else (filter[0] == PLUS || filter[0] == topic[0]) && LoopMatch(topic[1..], filter[1..])
  }

  predicate CodeMatches(published: Bytes, filter: Bytes) {
    LoopMatch(LevelsLeft(published, false), LevelsLeft(filter, false))
  }

  method TopicMatches(published: Bytes, filter: Bytes) returns (matches: bool)
    ensures matches <==> CodeMatches(published, filter)
  {
    var pubLevels := new LevelIterator(published);
    var subLevels := new LevelIterator(filter);
    while true
      invariant pubLevels.Valid() && subLevels.Valid() && pubLevels != subLevels
      invariant CodeMatches(published, filter) <==> LoopMatch(pubLevels.Left(), subLevels.Left())
      decreases subLevels.Measure()
    {
      ghost var topic, rest := pubLevels.Left(), subLevels.Left();
      var pubLevel := pubLevels.Next();
      var subLevel := subLevels.Next();
      LoopTurn(topic, rest);
      if subLevel.Some? {
        if subLevel.value == HASH {
          var lookahead := subLevels.Next();
          if lookahead.None? {
            return true;
          }
        }
      } else {
        return pubLevel.None?;
      }
      if pubLevel.None? {
        return false;
      }
      if subLevel == Some(PLUS) {
        continue;
      }
      if pubLevel != subLevel {
        return false;
      }
    }
  }

  /** The decision of one turn of the loop, in terms of the first levels. */
  lemma {:induction false} LoopTurn(topic: seq<Level>, filter: seq<Level>)
    ensures filter == [] ==> (LoopMatch(topic, filter) <==> topic == [])
    ensures filter == [HASH] ==> LoopMatch(topic, filter)
    ensures filter != [] && filter != [HASH] && topic == [] ==> !LoopMatch(topic, filter)
    ensures |filter| >= 2 && filter[0] == HASH && topic != [] ==>
              (LoopMatch(topic, filter) <==> topic[0] == HASH && LoopMatch(topic[1..], filter[1..][1..]))
    ensures filter != [] && filter[0] == PLUS && topic != [] ==>
              (LoopMatch(topic, filter) <==> LoopMatch(topic[1..], filter[1..]))
    ensures filter != [] && filter[0] !in {HASH, PLUS} && topic != [] ==>
              (LoopMatch(topic, filter) <==> filter[0] == topic[0] && LoopMatch(topic[1..], filter[1..]))
  {
    if |filter| >= 2 {
      assert filter[1..][1..] == filter[2..];
    }
  }

  /** Without a literal '#' level in the topic, the swallowed level never matters. */
  lemma {:induction false} LoopMatchIsRule(topic: seq<Level>, filter: seq<Level>)
    requires HASH !in topic
    ensures LoopMatch(topic, filter) == Rule(topic, filter)
  {
    if filter != [] && filter[0] != HASH && topic != [] {
      LoopMatchIsRule(topic[1..], filter[1..]);
    }
  }

  /** For every filter, which is text like every `str`. */
  ghost predicate AgreesWithRule(published: Bytes) {
    forall filter: Bytes :: Utf8.Valid(filter) ==> CodeMatches(published, filter) == Rule(Split(published), Split(filter))
  }

  /** The topics a caller may publish on: not empty (section 4.7.3), and without a
      level that is a bare '#' (section 4.7.1 forbids wildcards in topic names). */
  predicate Publishable(published: Bytes) {
    published != [] && HASH !in Split(published)
  }

  /** The matcher implements section 4.7.1, for every filter, on exactly the
      publishable topics. */
  lemma {:induction false} AgreesIffPublishable(published: Bytes)
    ensures AgreesWithRule(published) <==> Publishable(published)
  {
    if Publishable(published) {
      forall filter: Bytes
        ensures CodeMatches(published, filter) == Rule(Split(published), Split(filter))
      {
        LoopMatchIsRule(Split(published), LevelsLeft(filter, false));
        if filter == [] {
          SplitSingletonEmpty(published);
        }
      }
    } else if published == [] {
      assert Split(PLUS) == [PLUS] && Split(published) == [[]];
      Utf8.AsciiIsText(PLUS);
      assert !CodeMatches(published, PLUS) && Rule(Split(published), Split(PLUS));
    } else {
      var filter := FoolingFilter(published);
      Utf8.AsciiIsText(filter);
      assert CodeMatches(published, filter) != Rule(Split(published), Split(filter));
    }
  }

  lemma {:induction false} SplitSingletonEmpty(s: Bytes)
    ensures Split(s) == [[]] <==> s == []
  {
    assert FindSlash(s) < |s| ==> |Split(s)| >= 2;
  }

  predicate Ascii(s: Bytes) {
    forall i :: 0 <= i < |s| ==> s[i] < 128
  }

  lemma {:induction false} AsciiJoin(level: Level, rest: Bytes)
    requires Ascii(level) && Ascii(rest)
    ensures Ascii(level + [SLASH] + rest)
  {
  }

  /** One "+" for each level of `s`. */
  lemma {:induction false} PlusFilter(s: Bytes) returns (filter: Bytes)
    ensures filter != [] && Ascii(filter) && LoopMatch(Split(s), Split(filter))
    decreases |s|
  {
    var k := FindSlash(s);
    assert Split(PLUS) == [PLUS];
    if k == |s| {
      filter := PLUS;
      assert LoopMatch([], []);
      assert Split(s)[1..] == [] && Split(PLUS)[1..] == [];
    } else {
      var rest := PlusFilter(s[k + 1..]);
      filter := PLUS + [SLASH] + rest;
      SplitJoin(PLUS, rest);
      PlusStep(s[..k], Split(s[k + 1..]), Split(rest));
    }
  }

  /** A "+" in front accepts any level in front. */
  lemma {:induction false} PlusStep(level: Level, topic: seq<Level>, filter: seq<Level>)
    ensures LoopMatch([level] + topic, [PLUS] + filter) == LoopMatch(topic, filter)
    ensures Rule([level] + topic, [PLUS] + filter) == Rule(topic, filter)
  {
    var t, f := [level] + topic, [PLUS] + filter;
    assert t[1..] == topic && f[1..] == filter;
    assert f[0] == PLUS && PLUS != HASH && t[0] == level;
  }

  /** A "#" that is not final accepts a literal "#" and swallows the level behind it;
      by the rule it accepts nothing. */
  lemma {:induction false} HashStep(topic: seq<Level>, swallowed: Level, filter: seq<Level>)
    ensures LoopMatch([HASH] + topic, [HASH, swallowed] + filter) == LoopMatch(topic, filter)
    ensures !Rule([HASH] + topic, [HASH, swallowed] + filter)
  {
    var t, f := [HASH] + topic, [HASH, swallowed] + filter;
    assert t[1..] == topic && f[2..] == filter;
    assert f[0] == HASH == t[0] && |f| >= 2;
  }

  /** For the topic "#": "#/x". The loop skips "x" and accepts. */
  lemma {:induction false} FoolHash(published: Bytes) returns (filter: Bytes)
    requires Split(published) == [HASH]
    ensures filter != [] && Ascii(filter)
    ensures LoopMatch(Split(published), Split(filter)) && !Rule(Split(published), Split(filter))
  {
    var x: Bytes := [120];
    filter := HASH + [SLASH] + x;
    SplitJoin(HASH, x);
    assert Split(x) == [x];
    HashStep([], x, []);
    assert [HASH] + [] == [HASH] && [HASH, x] + [] == [HASH] + [x];
  }

  /** In front of further levels, which `plus` accepts: "#/x/" and then `plus`. */
  lemma {:induction false} FoolHashThen(topic: seq<Level>, plus: Bytes) returns (filter: Bytes)
    requires Ascii(plus) && LoopMatch(topic, Split(plus))
    ensures filter != [] && Ascii(filter)
    ensures LoopMatch([HASH] + topic, Split(filter)) && !Rule([HASH] + topic, Split(filter))
  {
    var x: Bytes := [120];
    var tail := x + [SLASH] + plus;
    filter := HASH + [SLASH] + tail;
    AsciiJoin(x, plus);
    AsciiJoin(HASH, tail);
    SplitJoin(HASH, tail);
    SplitJoin(x, plus);
    HashStep(topic, x, Split(plus));
    Assoc([HASH], [x], Split(plus));
  }

  /** For a topic whose first level is '#'. */
  lemma {:induction false} FoolAtFront(published: Bytes) returns (filter: Bytes)
    requires Split(published)[0] == HASH
    ensures filter != [] && Ascii(filter)
    ensures LoopMatch(Split(published), Split(filter)) && !Rule(Split(published), Split(filter))
  {
    var k := FindSlash(published);
    if k == |published| {
      filter := FoolHash(published);
    } else {
      var plus := PlusFilter(published[k + 1..]);
      filter := FoolHashThen(Split(published[k + 1..]), plus);
    }
  }

  /** For every topic with a '#' level, wherever it is: a filter that the loop accepts
      and the rule rejects. */
  lemma {:induction false} FoolingFilter(published: Bytes) returns (filter: Bytes)
    requires HASH in Split(published)
    ensures filter != [] && Ascii(filter)
    ensures LoopMatch(Split(published), Split(filter)) && !Rule(Split(published), Split(filter))
    decreases |published|
  {
    if Split(published)[0] == HASH {
      filter := FoolAtFront(published);
    } else {
      var k := FindSlash(published);
      assert Split(published) == [published[..k]] + Split(published[k + 1..]);
      var rest := FoolingFilter(published[k + 1..]);
      filter := PLUS + [SLASH] + rest;
      AsciiJoin(PLUS, rest);
      SplitJoin(PLUS, rest);
      PlusStep(published[..k], Split(published[k + 1..]), Split(rest));
    }
  }

  /** The shortest instance: topic "#" and filter "#/x". */
  lemma {:induction false} SmallestMismatch()
    ensures CodeMatches(HASH, HASH + [SLASH, 120]) && !Rule(Split(HASH), Split(HASH + [SLASH, 120]))
  {
    var x: Bytes := [120];
    assert HASH + [SLASH, 120] == HASH + [SLASH] + x;
    SplitJoin(HASH, x);
    assert Split(x) == [x] && Split(HASH) == [HASH];
    HashStep([], x, []);
    assert [HASH] + [] == [HASH] && [HASH, x] + [] == [HASH] + [x];
  }

  lemma {:induction false} SplitJoin(level: Level, rest: Bytes)
    requires SLASH !in level
    ensures Split(level + [SLASH] + rest) == [level] + Split(rest)
  {
    var s := level + [SLASH] + rest;
    var k := FindSlash(s);
    assert s[|level|] == SLASH;
    assert k == |level|;
    assert s[..k] == level && s[k + 1..] == rest;
  }

  // ---------- the matcher in bytes: 47 is '/', 35 is '#', 43 is '+' ----------

  /** The slash split, byte by byte. */
  lemma {:induction false} SplitBytes(a: Bytes, b: Bytes)
    requires 47 !in a
    ensures Split(a) == [a] && Split(a + [47] + b) == [a] + Split(b)
  {
    SplitJoin(a, b);
    assert FindSlash(a) == |a|;
  }

  /** "#" matches everything. */
  lemma {:induction false} MatchesAll(topic: Bytes)
    ensures CodeMatches(topic, [35])
  {
    SplitBytes([35], []);
  }

  /** One level against one level. */
  lemma {:induction false} MatchesOneLevel(a: Bytes, b: Bytes)
    requires a != [] && b != [] && 47 !in a && 47 !in b
    ensures CodeMatches(a, b) <==> b == [35] || b == [43] || a == b
  {
    SplitBytes(a, []);
    SplitBytes(b, []);
    assert [a][1..] == [] && [b][1..] == [];
    assert LoopMatch([], []);
  }

  /** Level by level: "+" stands for any level, every other level but "#" for itself. */
  lemma {:induction false} MatchesLevelByLevel(a: Bytes, topic: Bytes, b: Bytes, filter: Bytes)
    requires 47 !in a && 47 !in b && b != [35] && topic != [] && filter != []
    ensures CodeMatches(a + [47] + topic, b + [47] + filter) <==> (b == [43] || a == b) && CodeMatches(topic, filter)
  {
    SplitBytes(a, topic);
    SplitBytes(b, filter);
    var t, f := [a] + Split(topic), [b] + Split(filter);
    assert t[1..] == Split(topic) && f[1..] == Split(filter);
    LoopTurn(t, f);
  }

  /** A filter with further levels matches a topic of one only by a final "#". */
  lemma {:induction false} MatchesParent(a: Bytes, b: Bytes, filter: Bytes)
    requires a != [] && 47 !in a && 47 !in b && b != [35] && filter != []
    ensures CodeMatches(a, b + [47] + filter) <==> (b == [43] || a == b) && filter == [35]
  {
    SplitBytes(a, []);
    SplitBytes(b, filter);
    var f := [b] + Split(filter);
    assert [a][1..] == [] && f[1..] == Split(filter);
    LoopTurn([a], f);
    LoopTurn([], Split(filter));
    OnlyHashSplitsToHash(filter);
  }

  lemma {:induction false} OnlyHashSplitsToHash(s: Bytes)
    ensures Split(s) == [[35]] <==> s == [35]
  {
    if FindSlash(s) == |s| {
      assert Split(s) == [s];
    } else {
      assert |Split(s)| >= 2;
    }
  }

  /** A filter of one level matches a topic of several only if it is "#". */
  lemma {:induction false} MatchesDeeperTopic(a: Bytes, topic: Bytes, b: Bytes)
    requires 47 !in a && 47 !in b && b != []
    ensures CodeMatches(a + [47] + topic, b) <==> b == [35]
  {
    SplitBytes(a, topic);
    SplitBytes(b, []);
    var t := [a] + Split(topic);
    assert t[1..] == Split(topic) && [b][1..] == [];
    LoopTurn(t, [b]);
    LoopTurn(Split(topic), []);
  }

  /** The empty level behind a trailing slash counts. */
  lemma {:induction false} MatchesTrailingSlash(a: Bytes, b: Bytes)
    requires 47 !in a && 47 !in b && b != [35]
    ensures CodeMatches(a + [47], b + [47]) <==> b == [43] || a == b
  {
    SplitBytes(a, []);
    SplitBytes(b, []);
    SplitSingletonEmpty([]);
    assert a + [47] + [] == a + [47] && b + [47] + [] == b + [47];
    var empty: seq<Level> := [[]];
    var t, f := [a] + empty, [b] + empty;
    assert t[1..] == empty == f[1..] && empty[1..] == [];
    LoopTurn(t, f);
    LoopTurn(empty, empty);
  }
}
