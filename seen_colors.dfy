/** The distinct values of a sequence, in the order of their first
    occurrence: the order in which the baker assigns palette slots. */
module SeenColors {
  import opened Ppu

  /** The set of values that occur in s. */
  function Values(s: seq<Color>): set<Color> {
    set c | c in s
  }

  /** No value occurs twice in s: it has as many values as elements. */
  predicate Distinct(s: seq<Color>) {
    |Values(s)| == |s|
  }

  /** A sequence never has more values than elements. */
  lemma {:induction false} ValuesBound(s: seq<Color>)
    ensures |Values(s)| <= |s|
  {
    if s != [] {
      var init := s[..|s| - 1];
      ValuesBound(init);
      assert s == init + [s[|s| - 1]];
      assert Values(s) == Values(init) + {s[|s| - 1]};
    }
  }

  /** Appending a value not yet present keeps a sequence distinct. */
  lemma DistinctSnoc(s: seq<Color>, c: Color)
    requires Distinct(s) && c !in s
    ensures Distinct(s + [c])
  {
    assert Values(s + [c]) == Values(s) + {c};
  }

  /** One scan step over the values found so far: a value already found
      leaves them alone, a new one is appended. */
  function Extend(found: seq<Color>, c: Color): (r: seq<Color>)
    ensures c in r
  {
    if c in found then found else found + [c]
  }

  /** The distinct values of s, each once, in first-occurrence order. */
  function FirstSeen(s: seq<Color>): (r: seq<Color>)
    ensures |r| <= |s|
  {
    if s == [] then [] else Extend(FirstSeen(s[..|s| - 1]), s[|s| - 1])
  }

  /** FirstSeen(s) lists each value of s exactly once, and nothing else. */
  lemma {:induction false} FirstSeenValues(s: seq<Color>)
    ensures Distinct(FirstSeen(s))
    ensures forall c :: c in FirstSeen(s) <==> c in s
  {
    if s != [] {
      var init := s[..|s| - 1];
      FirstSeenValues(init);
      assert s == init + [s[|s| - 1]];
      var prev := FirstSeen(init);
      if s[|s| - 1] !in prev {
        DistinctSnoc(prev, s[|s| - 1]);
      }
    }
  }

  /** One scan step: a value already seen leaves the slots alone, a new one
      takes the next slot. */
  lemma FirstSeenSnoc(s: seq<Color>, c: Color)
    ensures FirstSeen(s + [c]) == Extend(FirstSeen(s), c)
  {
    assert (s + [c])[..|s|] == s;
  }

  /** The first position at which c occurs in s; in a distinct sequence, the only one. */
  function IndexOf(s: seq<Color>, c: Color): (i: nat)
    requires c in s
    ensures i < |s| && s[i] == c
  {
    if s[0] == c then 0 else 1 + IndexOf(s[1..], c)
  }

  /** No position before IndexOf(s, c) holds c. */
  lemma {:induction false} IndexOfFirst(s: seq<Color>, c: Color)
    requires c in s
    ensures forall j :: 0 <= j < IndexOf(s, c) ==> s[j] != c
  {
    if s[0] != c {
      IndexOfFirst(s[1..], c);
    }
  }

  /** A value's position in a sequence is its position in any extension of it. */
  lemma {:induction false} IndexOfPrefix(p: seq<Color>, s: seq<Color>, c: Color)
    requires p <= s && c in p
    ensures c in s && IndexOf(s, c) == IndexOf(p, c)
  {
    assert s[0] == p[0];
    if p[0] != c {
      assert p[1..] <= s[1..];
      IndexOfPrefix(p[1..], s[1..], c);
    }
  }

  /** In a distinct sequence no element occurs before its own position:
      otherwise the values of s would fit in fewer than |s| elements. */
  lemma DistinctNotBefore(s: seq<Color>, i: nat)
    requires Distinct(s) && i < |s|
    ensures s[i] !in s[..i]
  {
    var before, after := s[..i], s[i + 1..];
    ValuesBound(before);
    ValuesBound(after);
    assert s == before + [s[i]] + after;
    assert Values(s) == Values(before) + {s[i]} + Values(after);
  }

  /** In a distinct sequence, an index holding c is the index of c. */
  lemma IndexOfDistinct(s: seq<Color>, i: nat)
    requires Distinct(s) && i < |s|
    ensures IndexOf(s, s[i]) == i
  {
    DistinctNotBefore(s, i);
    IndexOfFirst(s, s[i]);
  }

  /** FirstSeen(s) has exactly one entry per distinct value of s. */
  lemma FirstSeenCount(s: seq<Color>)
    ensures |FirstSeen(s)| == |Values(s)|
  {
    FirstSeenValues(s);
    assert Values(FirstSeen(s)) == Values(s);
  }

  /** The first slot holds the first value scanned. */
  lemma {:induction false} FirstSeenHead(s: seq<Color>)
    requires s != []
    ensures FirstSeen(s)[0] == s[0]
  {
    if |s| > 1 {
      FirstSeenHead(s[..|s| - 1]);
    }
  }

  /** Scanning further only appends: the slots found in a prefix keep their
      values and positions. */
  lemma {:induction false} FirstSeenPrefix(s: seq<Color>, n: nat)
    requires n <= |s|
    ensures FirstSeen(s[..n]) <= FirstSeen(s)
    decreases |s|
  {
    if n < |s| {
      FirstSeenPrefix(s[..|s| - 1], n);
      assert s[..|s| - 1][..n] == s[..n];
    } else {
      assert s[..n] == s;
    }
  }

  /** Slots are ordered by first occurrence: slot i's value first appears in s
      before slot j's whenever i < j. */
  lemma {:induction false} FirstSeenOrder(s: seq<Color>)
    ensures forall i, j :: 0 <= i < j < |FirstSeen(s)| ==>
              FirstSeen(s)[i] in s && FirstSeen(s)[j] in s &&
              IndexOf(s, FirstSeen(s)[i]) < IndexOf(s, FirstSeen(s)[j])
  {
    FirstSeenValues(s);
    if s != [] {
      var init := s[..|s| - 1];
      var c := s[|s| - 1];
      var prev := FirstSeen(init);
      FirstSeenOrder(init);
      FirstSeenValues(init);
      forall d | d in init
        ensures IndexOf(s, d) == IndexOf(init, d)
      {
        IndexOfPrefix(init, s, d);
      }
      if c !in prev {
        assert c !in init;
        IndexOfFirst(s, c);
        assert IndexOf(s, c) == |s| - 1;
      }
    }
  }

  /** While scanning, the number of values found grows by at most one per
      element: if s has more than n distinct values, some element is new at a
      point where exactly n values had been found. */
  lemma {:induction false} FirstSeenReaches(s: seq<Color>, n: nat)
    requires |Values(s)| > n
    ensures exists k :: 0 <= k < |s| && |FirstSeen(s[..k])| == n && s[k] !in FirstSeen(s[..k])
    decreases |s|
  {
    FirstSeenCount(s);
    var init := s[..|s| - 1];
    var c := s[|s| - 1];
    assert s[..|s| - 1] == init;
    FirstSeenCount(init);
    if |Values(init)| > n {
      FirstSeenReaches(init, n);
      var k :| 0 <= k < |init| && |FirstSeen(init[..k])| == n && init[k] !in FirstSeen(init[..k]);
      assert init[..k] == s[..k];
      assert s[k] == init[k];
    } else {
      assert |FirstSeen(init)| == n && c !in FirstSeen(init);
    }
  }
}
