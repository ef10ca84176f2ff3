/** Colour-based hold detection: per-contour acceptance and the greedy
    suppression of duplicate detections (frontend/FermataBeta/src/v1.py). */
module HoldDetector {
  import opened Types

  /** The measurements of one contour found in a colour mask: its colour
      name, area, closed perimeter and bounding box. */
  datatype Contour = Contour(color: string, area: real, perimeter: real, x: int, y: int, w: int, h: int)

  /** One detection: the centre in pixels and normalised to the image size,
      the confidence, the colour, the area and the bounding box. */
  datatype Detection = Detection(cx: int, cy: int, normX: real, normY: real, confidence: real,
                                 color: string, area: real, x: int, y: int, w: int, h: int)

  const MinArea: real := 200.0
  const MaxArea: real := 8000.0
  const MinCircularity: real := 0.3
  const MaxConfidence: real := 0.99
  /** The shortest decimal representation of the double closest to pi. */
  const Pi: real := 3.141592653589793
  /** Two centres closer than 30 pixels are one hold: the squared bound. */
  const MinSqSeparation: int := 900

  function Circularity(area: real, perimeter: real): real
    requires perimeter > 0.0
  {
    4.0 * Pi * area / (perimeter * perimeter)
  }

  /** The acceptance tests, in the order the code applies them. */
  predicate Accepted(c: Contour)
  {
    MinArea < c.area < MaxArea && c.perimeter > 0.0 && Circularity(c.area, c.perimeter) > MinCircularity
  }

  function MinReal(a: real, b: real): real
  {
    if a <= b then a else b
  }

  /** The detection an accepted contour yields. `w // 2` is floor division;
      Dafny's `/` on `int` agrees with it for the divisor 2. */
  function Detect(c: Contour, imageWidth: int, imageHeight: int): Detection
    requires Accepted(c) && imageWidth > 0 && imageHeight > 0
  {
    var cx := c.x + c.w / 2;
    var cy := c.y + c.h / 2;
    var confidence := MinReal(MaxConfidence, (c.area / 1000.0) * Circularity(c.area, c.perimeter));
    Detection(cx, cy, cx as real / imageWidth as real, cy as real / imageHeight as real, confidence,
              c.color, c.area, c.x, c.y, c.w, c.h)
  }

  /** The detections of the accepted contours, in contour order. */
  function DetectAll(contours: seq<Contour>, imageWidth: int, imageHeight: int): (ds: seq<Detection>)
    requires imageWidth > 0 && imageHeight > 0
  {
    if contours == [] then []
    else
      var c := contours[|contours| - 1];
      DetectAll(contours[..|contours| - 1], imageWidth, imageHeight)
      + (if Accepted(c) then [Detect(c, imageWidth, imageHeight)] else [])
  }

  /** The contour loop of `detect_holds`. */
  method CollectDetections(contours: seq<Contour>, imageWidth: int, imageHeight: int) returns (holds: seq<Detection>)
    requires imageWidth > 0 && imageHeight > 0
    ensures holds == DetectAll(contours, imageWidth, imageHeight)
  {
    holds := [];
    for i := 0 to |contours|
      invariant holds == DetectAll(contours[..i], imageWidth, imageHeight)
    {
      var c := contours[i];
      assert contours[..i + 1][..i] == contours[..i];
      if MinArea < c.area < MaxArea {
        if c.perimeter > 0.0 {
          var circularity := 4.0 * Pi * c.area / (c.perimeter * c.perimeter);
          assert circularity == Circularity(c.area, c.perimeter);
          if circularity > MinCircularity {
            holds := holds + [Detect(c, imageWidth, imageHeight)];
          }
        }
      }
    }
    assert contours[..|contours|] == contours;
  }

  /** An accepted contour yields a detection centred on its bounding box,
      with a confidence in (0, 0.99]. */
  lemma DetectionBounds(c: Contour, imageWidth: int, imageHeight: int)
    requires Accepted(c) && imageWidth > 0 && imageHeight > 0
    ensures var d := Detect(c, imageWidth, imageHeight);
            && 0.0 < d.confidence <= MaxConfidence
            && 2 * (d.cx - c.x) <= c.w <= 2 * (d.cx - c.x) + 1
            && 2 * (d.cy - c.y) <= c.h <= 2 * (d.cy - c.y) + 1
            && d.normX * imageWidth as real == d.cx as real
            && d.normY * imageHeight as real == d.cy as real
  {
    var circ := Circularity(c.area, c.perimeter);
    assert c.area / 1000.0 > 0.0;
    SignOfProductStrict(c.area / 1000.0, circ);
  }

  /** Every detection comes from an accepted contour, in order. */
  lemma {:induction false} DetectAllAccepted(contours: seq<Contour>, imageWidth: int, imageHeight: int)
    requires imageWidth > 0 && imageHeight > 0
    ensures |DetectAll(contours, imageWidth, imageHeight)| <= |contours|
    ensures forall d :: d in DetectAll(contours, imageWidth, imageHeight)
              ==> exists c :: c in contours && Accepted(c) && d == Detect(c, imageWidth, imageHeight)
    ensures forall c :: c in contours && Accepted(c) ==> Detect(c, imageWidth, imageHeight) in DetectAll(contours, imageWidth, imageHeight)
  {
    if contours != [] {
      var init := contours[..|contours| - 1];
      assert contours == init + [contours[|contours| - 1]];
      DetectAllAccepted(init, imageWidth, imageHeight);
    }
  }

  // ---------------------------------------------------------------------
  // Sorting by confidence, highest first, keeping ties in input order

  predicate NonIncreasing(s: seq<Detection>)
  {
    forall i, j :: 0 <= i < j < |s| ==> s[i].confidence >= s[j].confidence
  }

  /** `d` placed after every element of at least its confidence. */
  function InsertDesc(sorted: seq<Detection>, d: Detection): (r: seq<Detection>)
    ensures |r| == |sorted| + 1
  {
    if sorted == [] then [d]
    else if sorted[0].confidence >= d.confidence then [sorted[0]] + InsertDesc(sorted[1..], d)
    else [d] + sorted
  }

  /** `holds.sort(key=confidence, reverse=True)`: a stable sort. */
  function SortDesc(s: seq<Detection>): (r: seq<Detection>)
    ensures |r| == |s|
  {
    if s == [] then [] else InsertDesc(SortDesc(s[..|s| - 1]), s[|s| - 1])
  }

  predicate AllAtMost(s: seq<Detection>, c: real)
  {
    forall k :: 0 <= k < |s| ==> s[k].confidence <= c
  }

  lemma {:induction false} InsertKeepsBound(sorted: seq<Detection>, d: Detection, c: real)
    requires AllAtMost(sorted, c) && d.confidence <= c
    ensures AllAtMost(InsertDesc(sorted, d), c)
  {
    if sorted != [] && sorted[0].confidence >= d.confidence {
      InsertKeepsBound(sorted[1..], d, c);
      var r := InsertDesc(sorted, d);
      assert forall k :: 1 <= k < |r| ==> r[k] == InsertDesc(sorted[1..], d)[k - 1];
    }
  }

  lemma {:induction false} InsertDescSorted(sorted: seq<Detection>, d: Detection)
    requires NonIncreasing(sorted)
    ensures NonIncreasing(InsertDesc(sorted, d))
  {
    if sorted != [] && sorted[0].confidence >= d.confidence {
      var rest := sorted[1..];
      assert sorted == [sorted[0]] + rest;
      assert NonIncreasing(rest) by {
        forall i, j | 0 <= i < j < |rest| ensures rest[i].confidence >= rest[j].confidence {
          assert rest[i] == sorted[i + 1] && rest[j] == sorted[j + 1];
        }
      }
      assert AllAtMost(rest, sorted[0].confidence) by {
        forall k | 0 <= k < |rest| ensures rest[k].confidence <= sorted[0].confidence {
          assert rest[k] == sorted[k + 1];
        }
      }
      InsertDescSorted(rest, d);
      InsertKeepsBound(rest, d, sorted[0].confidence);
      var ins := InsertDesc(rest, d);
      var r := [sorted[0]] + ins;
      forall i, j | 0 <= i < j < |r| ensures r[i].confidence >= r[j].confidence {
        if i == 0 {
          assert r[j] == ins[j - 1];
        } else {
          assert r[i] == ins[i - 1] && r[j] == ins[j - 1];
        }
      }
    } else if sorted != [] {
      var r := [d] + sorted;
      forall i, j | 0 <= i < j < |r| ensures r[i].confidence >= r[j].confidence {
        if i == 0 {
          assert r[j] == sorted[j - 1];
          if j > 1 { assert sorted[0].confidence >= sorted[j - 1].confidence; }
        } else {
          assert r[i] == sorted[i - 1] && r[j] == sorted[j - 1];
        }
      }
    }
  }

  lemma {:induction false} InsertDescPerm(sorted: seq<Detection>, d: Detection)
    ensures multiset(InsertDesc(sorted, d)) == multiset(sorted) + multiset{d}
  {
    if sorted != [] && sorted[0].confidence >= d.confidence {
      InsertDescPerm(sorted[1..], d);
      assert sorted == [sorted[0]] + sorted[1..];
    }
  }

  /** The sort orders by non-increasing confidence and is a permutation. */
  lemma {:induction false} SortDescSorted(s: seq<Detection>)
    ensures NonIncreasing(SortDesc(s))
    ensures multiset(SortDesc(s)) == multiset(s)
  {
    if s != [] {
      var init := s[..|s| - 1];
      assert s == init + [s[|s| - 1]];
      SortDescSorted(init);
      InsertDescSorted(SortDesc(init), s[|s| - 1]);
      InsertDescPerm(SortDesc(init), s[|s| - 1]);
    }
  }

  /** `InsertDesc` puts `d` at the first position holding a lower
      confidence. */
  lemma {:induction false} InsertDescAt(sorted: seq<Detection>, d: Detection, j: nat)
    requires j <= |sorted|
    requires forall k :: 0 <= k < j ==> sorted[k].confidence >= d.confidence
    requires forall k :: j <= k < |sorted| ==> sorted[k].confidence < d.confidence
    ensures InsertDesc(sorted, d) == sorted[..j] + [d] + sorted[j..]
  {
    if j > 0 {
      var rest := sorted[1..];
      assert sorted[0].confidence >= d.confidence;
      assert InsertDesc(sorted, d) == [sorted[0]] + InsertDesc(rest, d);
      forall k | 0 <= k < j - 1 ensures rest[k].confidence >= d.confidence {
        assert rest[k] == sorted[k + 1];
      }
      forall k | j - 1 <= k < |rest| ensures rest[k].confidence < d.confidence {
        assert rest[k] == sorted[k + 1];
      }
      InsertDescAt(rest, d, j - 1);
      assert sorted[..j] == [sorted[0]] + rest[..j - 1];
      assert sorted[j..] == rest[j - 1..];
    } else if sorted != [] {
      assert sorted[0].confidence < d.confidence;
    }
  }

  /** The in-place sort of the detections (insertion sort: same result as a
      stable sort). */
  method SortByConfidence(a: array<Detection>)
    modifies a
    ensures a[..] == SortDesc(old(a[..]))
  {
    ghost var input := a[..];
    for i := 0 to a.Length
      invariant a[..i] == SortDesc(input[..i])
      invariant a[i..] == input[i..]
    {
      assert a[i] == input[i];
      SortDescSorted(input[..i]);
      InsertAt(a, i);
      assert input[..i + 1][..i] == input[..i];
      assert a[i + 1..] == input[i + 1..];
    }
    assert input[..a.Length] == input;
  }

  /** One insertion step: `a[i]` moves left past the entries of lower
      confidence in the sorted prefix `a[..i]`. */
  method InsertAt(a: array<Detection>, i: nat)
    requires i < a.Length && NonIncreasing(a[..i])
    modifies a
    ensures a[..i + 1] == InsertDesc(old(a[..i]), old(a[i]))
    ensures a[i + 1..] == old(a[i + 1..])
  {
    var d := a[i];
    ghost var sorted := a[..i];
    assert sorted == old(a[..i]) && d == old(a[i]);
    var j := ShiftLower(a, i, d);
    ghost var shifted := a[..i + 1];
    assert forall k :: 0 <= k < j ==> shifted[k] == sorted[k];
    assert forall k :: j < k <= i ==> shifted[k] == sorted[k - 1];
    a[j] := d;
    assert a[..i + 1] == shifted[j := d];
    assert a[i + 1..] == old(a[i + 1..]) by {
      assert forall k :: i < k < a.Length ==> a[k] == old(a[k]);
    }
    forall k | 0 <= k < j ensures sorted[k].confidence >= d.confidence {
      assert sorted[k].confidence >= sorted[j - 1].confidence;
    }
    InsertDescAt(sorted, d, j);
    SplicedAt(shifted, sorted, d, j);
    assert a[..i + 1] == InsertDesc(sorted, d);
  }

  /** The shifting loop of an insertion step: the entries of `a[..i]` below
      the confidence of `d`, at the end of the prefix, move one place right;
      `j` is the gap they leave. */
  method ShiftLower(a: array<Detection>, i: nat, d: Detection) returns (j: nat)
    requires i < a.Length
    modifies a
    ensures j <= i
    ensures forall k :: 0 <= k < j ==> a[k] == old(a[k])
    ensures forall k :: j < k <= i ==> a[k] == old(a[k - 1])
    ensures forall k :: i < k < a.Length ==> a[k] == old(a[k])
    ensures forall k :: j <= k < i ==> old(a[k]).confidence < d.confidence
    ensures j > 0 ==> old(a[j - 1]).confidence >= d.confidence
  {
    j := i;
    while j > 0 && a[j - 1].confidence < d.confidence
      invariant 0 <= j <= i
      invariant forall k :: 0 <= k < j ==> a[k] == old(a[k])
      invariant forall k :: j < k <= i ==> a[k] == old(a[k - 1])
      invariant forall k :: i < k < a.Length ==> a[k] == old(a[k])
      invariant forall k :: j <= k < i ==> old(a[k]).confidence < d.confidence
    {
      a[j] := a[j - 1];
      j := j - 1;
    }
  }

  /** A sequence that agrees with `sorted` before `j` and with `sorted`
      shifted by one after `j`, given `d` at `j`, is `sorted` with `d`
      spliced in at `j`. */
  lemma SplicedAt(x: seq<Detection>, sorted: seq<Detection>, d: Detection, j: nat)
    requires j <= |sorted| && |x| == |sorted| + 1
    requires forall k :: 0 <= k < j ==> x[k] == sorted[k]
    requires forall k :: j < k < |x| ==> x[k] == sorted[k - 1]
    ensures x[j := d] == sorted[..j] + [d] + sorted[j..]
  {
    var y := sorted[..j] + [d] + sorted[j..];
    forall k | 0 <= k < |x| ensures x[j := d][k] == y[k] {
      if k > j { assert y[k] == sorted[k - 1]; }
    }
  }

  // ---------------------------------------------------------------------
  // Greedy suppression

  function SqDistPx(a: Detection, b: Detection): int
  {
    (a.cx - b.cx) * (a.cx - b.cx) + (a.cy - b.cy) * (a.cy - b.cy)
  }

  /** Centres less than 30 pixels apart: `sqrt(d2) < 30` exactly when
      `d2 < 900` for a whole number `d2`. */
  predicate TooClose(a: Detection, b: Detection)
  {
    SqDistPx(a, b) < MinSqSeparation
  }

  predicate NearAny(kept: seq<Detection>, d: Detection)
  {
    exists k :: 0 <= k < |kept| && TooClose(kept[k], d)
  }

  /** The holds the loop keeps out of `s`: each is kept unless it is too
      close to one already kept. */
  function Kept(s: seq<Detection>): seq<Detection>
  {
    if s == [] then []
    else
      var k := Kept(s[..|s| - 1]);
      if NearAny(k, s[|s| - 1]) then k else k + [s[|s| - 1]]
  }

  /** `remove_duplicates`: sorts the caller's list in place, then keeps each
      hold not too close to a hold kept before it. */
  method RemoveDuplicates(holds: array<Detection>) returns (filtered: seq<Detection>)
    modifies holds
    ensures holds.Length == 0 ==> filtered == [] && holds[..] == old(holds[..])
    ensures holds.Length > 0 ==> holds[..] == SortDesc(old(holds[..])) && filtered == Kept(holds[..])
  {
    if holds.Length == 0 {
      return [];
    }
    SortByConfidence(holds);
    ghost var sorted := holds[..];
    filtered := [];
    for i := 0 to holds.Length
      invariant holds[..] == sorted
      invariant filtered == Kept(holds[..i])
    {
      var hold := holds[i];
      assert holds[..i + 1][..i] == holds[..i];
      var isDuplicate := NearKept(filtered, hold);
      if !isDuplicate {
        filtered := filtered + [hold];
      }
    }
    assert holds[..holds.Length] == holds[..];
  }

  /** The inner loop of `remove_duplicates`: whether `hold` is too close to
      a hold already kept. */
  method NearKept(filtered: seq<Detection>, hold: Detection) returns (isDuplicate: bool)
    ensures isDuplicate <==> NearAny(filtered, hold)
  {
    isDuplicate := false;
    for k := 0 to |filtered|
      invariant isDuplicate <==> exists m :: 0 <= m < k && TooClose(filtered[m], hold)
    {
      var existing := filtered[k];
      var sq := (hold.cx - existing.cx) * (hold.cx - existing.cx) + (hold.cy - existing.cy) * (hold.cy - existing.cy);
      assert sq == SqDistPx(existing, hold);
      if sq < MinSqSeparation {
        isDuplicate := true;
        break;
      }
    }
  }

  /** `a` is obtained from `b` by deleting elements. */
  predicate IsSubsequence(a: seq<Detection>, b: seq<Detection>)
    decreases |b|
  {
    if a == [] then true
    else if b == [] then false
    else if a[|a| - 1] == b[|b| - 1] then IsSubsequence(a[..|a| - 1], b[..|b| - 1])
    else IsSubsequence(a, b[..|b| - 1])
  }

  /** Appending to the longer list keeps a subsequence. */
  lemma {:induction false} SubsequenceLift(a: seq<Detection>, b: seq<Detection>, x: Detection)
    requires IsSubsequence(a, b)
    ensures IsSubsequence(a, b + [x])
    decreases |b|, 1
  {
    assert (b + [x])[..|b|] == b;
    if a != [] && a[|a| - 1] == x {
      SubsequenceDropLast(a, b);
    }
  }

  /** Dropping the last element of the shorter list keeps a subsequence. */
  lemma {:induction false} SubsequenceDropLast(a: seq<Detection>, b: seq<Detection>)
    requires a != [] && IsSubsequence(a, b)
    ensures IsSubsequence(a[..|a| - 1], b)
    decreases |b|, 0
  {
    var init := b[..|b| - 1];
    assert b == init + [b[|b| - 1]];
    if a[|a| - 1] != b[|b| - 1] {
      SubsequenceDropLast(a, init);
    }
    SubsequenceLift(a[..|a| - 1], init, b[|b| - 1]);
  }

  /** A subsequence uses only elements of the list, and an ordered list
      stays ordered. */
  lemma {:induction false} SubsequenceOrdered(a: seq<Detection>, b: seq<Detection>)
    requires IsSubsequence(a, b)
    ensures forall x :: x in a ==> x in b
    ensures NonIncreasing(b) ==> NonIncreasing(a)
    decreases |b|
  {
    if a != [] {
      var init := b[..|b| - 1];
      assert b == init + [b[|b| - 1]];
      if a[|a| - 1] == b[|b| - 1] {
        var a' := a[..|a| - 1];
        assert a == a' + [a[|a| - 1]];
        SubsequenceOrdered(a', init);
        if NonIncreasing(b) {
          forall i, j | 0 <= i < j < |a| ensures a[i].confidence >= a[j].confidence {
            if j < |a| - 1 {
              assert a[i] == a'[i] && a[j] == a'[j];
              assert NonIncreasing(init);
            } else {
              assert a[i] in init;
              var m :| 0 <= m < |init| && init[m] == a[i];
              assert b[m] == a[i];
            }
          }
        }
      } else {
        SubsequenceOrdered(a, init);
      }
    }
  }

  /** The kept holds are a subsequence of the input. */
  lemma {:induction false} KeptSubsequence(s: seq<Detection>)
    ensures IsSubsequence(Kept(s), s)
  {
    if s != [] {
      var init := s[..|s| - 1];
      var x := s[|s| - 1];
      assert s == init + [x];
      KeptSubsequence(init);
      var k := Kept(init);
      if NearAny(k, x) {
        SubsequenceLift(k, init, x);
      } else {
        assert (k + [x])[..|k|] == k;
      }
    }
  }

  /** What the loop has kept after a prefix is a prefix of what it keeps. */
  lemma {:induction false} KeptPrefix(s: seq<Detection>, i: nat)
    requires i <= |s|
    ensures Kept(s[..i]) <= Kept(s)
  {
    if i < |s| {
      var init := s[..|s| - 1];
      assert init[..i] == s[..i];
      KeptPrefix(init, i);
    } else {
      assert s[..i] == s;
    }
  }

  /** No two kept holds are too close. */
  lemma {:induction false} KeptApart(s: seq<Detection>)
    ensures forall i, j :: 0 <= i < j < |Kept(s)| ==> !TooClose(Kept(s)[i], Kept(s)[j])
  {
    if s != [] {
      KeptApart(s[..|s| - 1]);
    }
  }

  /** A non-empty input keeps its first hold. */
  lemma {:induction false} KeptFirst(s: seq<Detection>)
    requires s != []
    ensures Kept(s) != [] && Kept(s)[0] == s[0]
  {
    KeptPrefix(s, 1);
    assert s[..1][..0] == [];
    assert Kept(s[..1]) == [s[0]];
  }

  /** Every input hold lies within 30 pixels of a kept hold that comes no
      later than it does: a dropped hold is near an earlier kept one. */
  lemma NearKeptHold(s: seq<Detection>, i: nat)
    requires i < |s|
    ensures exists y :: y in Kept(s) && y in s[..i + 1] && TooClose(y, s[i])
  {
    var k := Kept(s[..i]);
    KeptStep(s, i);
    KeptPrefix(s, i + 1);
    var y: Detection;
    if NearAny(k, s[i]) {
      var m :| 0 <= m < |k| && TooClose(k[m], s[i]);
      y := k[m];
      KeptMember(s[..i], m);
      PrefixMember(s, i, y);
      PrefixElement(k, Kept(s[..i + 1]), m);
    } else {
      y := s[i];
      TooCloseSelf(y);
      assert s[..i + 1][i] == y;
      assert Kept(s[..i + 1])[|k|] == y;
    }
    PrefixElement(Kept(s[..i + 1]), Kept(s), IndexOf(Kept(s[..i + 1]), y));
  }

  /** Each kept hold is an input hold. */
  lemma KeptMember(s: seq<Detection>, m: nat)
    requires m < |Kept(s)|
    ensures Kept(s)[m] in s
  {
    KeptSubsequence(s);
    SubsequenceOrdered(Kept(s), s);
  }

  lemma TooCloseSelf(d: Detection)
    ensures TooClose(d, d)
  {
    assert SqDistPx(d, d) == 0;
  }

  /** The loop's step on hold `i`, in terms of the kept prefix. */
  lemma KeptStep(s: seq<Detection>, i: nat)
    requires i < |s|
    ensures Kept(s[..i + 1]) == if NearAny(Kept(s[..i]), s[i]) then Kept(s[..i]) else Kept(s[..i]) + [s[i]]
  {
    assert s[..i + 1][..i] == s[..i];
  }

  lemma PrefixMember(s: seq<Detection>, i: nat, y: Detection)
    requires i < |s| && y in s[..i]
    ensures y in s[..i + 1]
  {
    var m :| 0 <= m < i && s[..i][m] == y;
    assert s[..i + 1][m] == y;
  }

  lemma PrefixElement(a: seq<Detection>, b: seq<Detection>, m: nat)
    requires a <= b && m < |a|
    ensures a[m] in b
  {
    assert b[m] == a[m];
  }

  function IndexOf(a: seq<Detection>, y: Detection): (m: nat)
    requires y in a
    ensures m < |a| && a[m] == y
  {
    if a[0] == y then 0 else 1 + IndexOf(a[1..], y)
  }

  /** The output of the filter on the sorted list is ordered by
      non-increasing confidence and draws only on input holds. */
  lemma KeptSorted(input: seq<Detection>)
    ensures NonIncreasing(Kept(SortDesc(input)))
    ensures forall d :: d in Kept(SortDesc(input)) ==> d in multiset(input)
  {
    SortDescSorted(input);
    KeptSubsequence(SortDesc(input));
    SubsequenceOrdered(Kept(SortDesc(input)), SortDesc(input));
  }

  /** An empty list of detections comes back unchanged. */
  lemma NothingToFilter()
    ensures Kept([]) == [] && SortDesc([]) == []
  {
  }
}
