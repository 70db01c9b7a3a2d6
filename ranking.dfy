/** Ordering the detected technologies by confidence, and the filtered views over them. */
module Ranking {
  import opened Wrappers
  import opened Manifest
  import opened Rules

  /** Highest confidence first. */
  predicate SortedByConfidence(s: seq<DetectedTech>) {
    forall i, j :: 0 <= i < j < |s| ==> s[i].confidence >= s[j].confidence
  }

  /** Places `x` after every element of `sorted` whose confidence is at least `x`'s,
      scanning from the back. */
  function InsertByConfidence(sorted: seq<DetectedTech>, x: DetectedTech): seq<DetectedTech> {
    if sorted == [] || sorted[|sorted| - 1].confidence >= x.confidence then sorted + [x]
    else InsertByConfidence(sorted[..|sorted| - 1], x) + [sorted[|sorted| - 1]]
  }

  /** `detected.sort((a, b) => b.confidence - a.confidence)`: a stable sort (as
      `Array.prototype.sort` is), highest confidence first. */
  function SortByConfidence(s: seq<DetectedTech>): seq<DetectedTech> {
    if s == [] then []
    else InsertByConfidence(SortByConfidence(s[..|s| - 1]), s[|s| - 1])
  }

  /** The entries of confidence `c`, in order. */
  function WithConfidence(s: seq<DetectedTech>, c: int): (r: seq<DetectedTech>)
    ensures |r| <= |s|
  {
    if s == [] then []
    else WithConfidence(s[..|s| - 1], c) + (if s[|s| - 1].confidence == c then [s[|s| - 1]] else [])
  }

  lemma {:induction false} WithConfidenceMembers(s: seq<DetectedTech>, c: int)
    ensures forall t :: t in WithConfidence(s, c) <==> t in s && t.confidence == c
  {
    if s != [] {
      WithConfidenceMembers(s[..|s| - 1], c);
      assert s == s[..|s| - 1] + [s[|s| - 1]];
    }
  }

  lemma {:induction false} WithConfidenceAppend(a: seq<DetectedTech>, b: seq<DetectedTech>, c: int)
    ensures WithConfidence(a + b, c) == WithConfidence(a, c) + WithConfidence(b, c)
    decreases |b|
  {
    if b == [] {
      assert a + b == a;
    } else {
      WithConfidenceAppend(a, b[..|b| - 1], c);
      assert (a + b)[..|a + b| - 1] == a + b[..|b| - 1];
    }
  }

  /** Inserting keeps the elements, as a multiset. */
  lemma {:induction false} InsertPermutes(sorted: seq<DetectedTech>, x: DetectedTech)
    ensures multiset(InsertByConfidence(sorted, x)) == multiset(sorted) + multiset{x}
    decreases |sorted|
  {
    if !(sorted == [] || sorted[|sorted| - 1].confidence >= x.confidence) {
      var front := sorted[..|sorted| - 1];
      InsertPermutes(front, x);
      assert sorted == front + [sorted[|sorted| - 1]];
    }
  }

  /** A lower bound on every confidence survives inserting an entry above that bound. */
  lemma {:induction false} InsertLowerBound(s: seq<DetectedTech>, x: DetectedTech, c: int)
    requires forall k :: 0 <= k < |s| ==> s[k].confidence >= c
    requires x.confidence >= c
    ensures forall k :: 0 <= k < |InsertByConfidence(s, x)| ==> InsertByConfidence(s, x)[k].confidence >= c
    decreases |s|
  {
    if !(s == [] || s[|s| - 1].confidence >= x.confidence) {
      InsertLowerBound(s[..|s| - 1], x, c);
    }
  }

  /** Inserting into a sorted sequence leaves it sorted. */
  lemma {:induction false} InsertSorted(sorted: seq<DetectedTech>, x: DetectedTech)
    requires SortedByConfidence(sorted)
    ensures SortedByConfidence(InsertByConfidence(sorted, x))
    decreases |sorted|
  {
    if !(sorted == [] || sorted[|sorted| - 1].confidence >= x.confidence) {
      var front := sorted[..|sorted| - 1];
      var last := sorted[|sorted| - 1];
      InsertSorted(front, x);
      InsertLowerBound(front, x, last.confidence);
      var inserted := InsertByConfidence(front, x);
      var r := inserted + [last];
      forall i, j | 0 <= i < j < |r| ensures r[i].confidence >= r[j].confidence {
        if j < |r| - 1 {
          assert r[i] == inserted[i] && r[j] == inserted[j];
        }
      }
    }
  }

  /** Inserting `x` puts it after the entries of its confidence already there, and leaves
      every other confidence's entries as they were. */
  lemma {:induction false} InsertStable(sorted: seq<DetectedTech>, x: DetectedTech, c: int)
    ensures WithConfidence(InsertByConfidence(sorted, x), c) ==
      WithConfidence(sorted, c) + (if x.confidence == c then [x] else [])
    decreases |sorted|
  {
    var r := InsertByConfidence(sorted, x);
    if sorted == [] || sorted[|sorted| - 1].confidence >= x.confidence {
      assert r[..|r| - 1] == sorted;
    } else {
      var front := sorted[..|sorted| - 1];
      var last := sorted[|sorted| - 1];
      InsertStable(front, x, c);
      var inserted := InsertByConfidence(front, x);
      assert r[..|r| - 1] == inserted;
    }
  }

  /** The sort returns a permutation of its input. */
  lemma {:induction false} SortPermutes(s: seq<DetectedTech>)
    ensures multiset(SortByConfidence(s)) == multiset(s)
  {
    if s != [] {
      var front := s[..|s| - 1];
      SortPermutes(front);
      InsertPermutes(SortByConfidence(front), s[|s| - 1]);
      assert s == front + [s[|s| - 1]];
    }
  }

  /** The sort returns its entries highest confidence first. */
  lemma {:induction false} SortSorts(s: seq<DetectedTech>)
    ensures SortedByConfidence(SortByConfidence(s))
  {
    if s != [] {
      SortSorts(s[..|s| - 1]);
      InsertSorted(SortByConfidence(s[..|s| - 1]), s[|s| - 1]);
    }
  }

  /** The sort is stable: the entries of each confidence keep their input order, so ties
      keep catalog order. */
  lemma {:induction false} SortStable(s: seq<DetectedTech>, c: int)
    ensures WithConfidence(SortByConfidence(s), c) == WithConfidence(s, c)
  {
    if s != [] {
      var front := s[..|s| - 1];
      SortStable(front, c);
      InsertStable(SortByConfidence(front), s[|s| - 1], c);
    }
  }

  /** `detect()`: every rule's outcome in catalog order, the present ones kept, then sorted. */
  function DetectAll(rules: seq<Rule>, fileList: seq<string>, packageJson: Option<PackageJson>): seq<DetectedTech> {
    SortByConfidence(Collect(rules, fileList, packageJson))
  }

  /** `filter((tech) => tech.type === kind)`: the entries of one type, in order. */
  function OfKind(s: seq<DetectedTech>, kind: TechType): (view: seq<DetectedTech>)
    ensures |view| <= |s|
  {
    if s == [] then []
    else OfKind(s[..|s| - 1], kind) + (if s[|s| - 1].kind == kind then [s[|s| - 1]] else [])
  }

  /** A view holds exactly the entries of its type. */
  lemma {:induction false} OfKindMembers(s: seq<DetectedTech>, kind: TechType)
    ensures forall t :: t in OfKind(s, kind) <==> t in s && t.kind == kind
  {
    if s != [] {
      OfKindMembers(s[..|s| - 1], kind);
      assert s == s[..|s| - 1] + [s[|s| - 1]];
    }
  }

  /** Filtering keeps relative order: the view of two runs is the view of each, in turn. */
  lemma {:induction false} OfKindAppend(a: seq<DetectedTech>, b: seq<DetectedTech>, kind: TechType)
    ensures OfKind(a + b, kind) == OfKind(a, kind) + OfKind(b, kind)
    decreases |b|
  {
    if b == [] {
      assert a + b == a;
    } else {
      OfKindAppend(a, b[..|b| - 1], kind);
      assert (a + b)[..|a + b| - 1] == a + b[..|b| - 1];
    }
  }

  /** A view of a sorted sequence is sorted. */
  lemma {:induction false} OfKindSorted(s: seq<DetectedTech>, kind: TechType)
    requires SortedByConfidence(s)
    ensures SortedByConfidence(OfKind(s, kind))
  {
    if s != [] {
      var front := s[..|s| - 1];
      assert SortedByConfidence(front);
      OfKindSorted(front, kind);
      OfKindMembers(front, kind);
      var v := OfKind(s, kind);
      if s[|s| - 1].kind == kind {
        forall i, j | 0 <= i < j < |v| ensures v[i].confidence >= v[j].confidence {
          if j == |v| - 1 {
            assert v[i] in OfKind(front, kind);
            var k :| 0 <= k < |front| && front[k] == v[i];
            assert s[k] == v[i];
          }
        }
      }
    }
  }

  /** `getPrimaryFramework()`: the first framework, or null when there is none. */
  function PrimaryFramework(detected: seq<DetectedTech>): Option<DetectedTech> {
    var frameworks := OfKind(detected, Framework);
    if |frameworks| > 0 then Some(frameworks[0]) else None
  }

  /** The primary framework is absent exactly when no framework was detected. */
  lemma PrimaryFrameworkAbsent(detected: seq<DetectedTech>)
    ensures PrimaryFramework(detected).None? <==> forall t :: t in detected ==> t.kind != Framework
  {
    var frameworks := OfKind(detected, Framework);
    OfKindMembers(detected, Framework);
    if |frameworks| > 0 {
      assert frameworks[0] in frameworks;
    }
  }

  /** Over a sorted sequence, the primary framework is a detected framework of highest
      confidence. */
  lemma PrimaryFrameworkHighest(detected: seq<DetectedTech>)
    requires SortedByConfidence(detected)
    ensures PrimaryFramework(detected).Some? ==>
      && PrimaryFramework(detected).value in detected
      && PrimaryFramework(detected).value.kind == Framework
      && forall t :: t in detected && t.kind == Framework ==> t.confidence <= PrimaryFramework(detected).value.confidence
  {
    var frameworks := OfKind(detected, Framework);
    if |frameworks| > 0 {
      OfKindSorted(detected, Framework);
      OfKindMembers(detected, Framework);
      assert frameworks[0] in frameworks;
      forall t | t in detected && t.kind == Framework
        ensures t.confidence <= frameworks[0].confidence
      {
        assert t in frameworks;
        var k :| 0 <= k < |frameworks| && frameworks[k] == t;
      }
    }
  }

  /** Where `x` lands: behind the last entry of at least its confidence, ahead of the run of
      lower-confidence entries that ends the sequence. */
  lemma {:induction false} InsertSplit(sorted: seq<DetectedTech>, x: DetectedTech, j: int)
    requires 0 <= j <= |sorted|
    requires j == 0 || sorted[j - 1].confidence >= x.confidence
    requires forall k :: j <= k < |sorted| ==> sorted[k].confidence < x.confidence
    ensures InsertByConfidence(sorted, x) == sorted[..j] + [x] + sorted[j..]
    decreases |sorted|
  {
    if j == |sorted| {
      assert sorted[..j] == sorted;
    } else {
      var front := sorted[..|sorted| - 1];
      InsertSplit(front, x, j);
      assert front[..j] == sorted[..j];
      assert front[j..] + [sorted[|sorted| - 1]] == sorted[j..];
    }
  }

  /** One round of the in-place sort: the entry at `i` moves backwards past the entries of
      lower confidence, so the first `i + 1` entries become the insertion of that entry into
      the first `i`, and the rest stay. */
  method InsertBackward(a: array<DetectedTech>, i: int)
    requires 0 <= i < a.Length
    modifies a
    ensures a[..i + 1] == InsertByConfidence(old(a[..i]), old(a[i]))
    ensures a[i + 1..] == old(a[i + 1..])
  {
    var x := a[i];
    ghost var sorted := a[..i];
    var j := i;
    while j > 0 && a[j - 1].confidence < x.confidence
      invariant 0 <= j <= i
      invariant forall k :: 0 <= k < j ==> a[k] == sorted[k]
      invariant a[j] == x
      invariant forall k :: j < k <= i ==> a[k] == sorted[k - 1]
      invariant forall k :: i < k < a.Length ==> a[k] == old(a[k])
      invariant forall k :: j <= k < i ==> sorted[k].confidence < x.confidence
    {
      a[j - 1], a[j] := a[j], a[j - 1];
      j := j - 1;
    }
    InsertSplit(sorted, x, j);
    assert a[..i + 1] == sorted[..j] + [x] + sorted[j..];
  }

  /** Stable insertion sort in place: after round `i` the first `i` entries are the sort of
      the first `i` entries of the input. */
  method SortInPlace(a: array<DetectedTech>)
    modifies a
    ensures a[..] == SortByConfidence(old(a[..]))
  {
    ghost var input := a[..];
    var i := 0;
    while i < a.Length
      invariant 0 <= i <= a.Length
      invariant a[..i] == SortByConfidence(input[..i])
      invariant a[i..] == input[i..]
    {
      assert input[..i + 1] == input[..i] + [input[i]];
      InsertBackward(a, i);
      i := i + 1;
    }
    assert a[..] == a[..a.Length];
    assert input == input[..a.Length];
  }
}
