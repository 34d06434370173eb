// The scorer against what its figures are meant to say.
module ScorerTheorems {
  import opened Reals
  import opened Sequences
  import opened Scorer

  // Some detection matches the truth, whatever else it matches.
  ghost predicate Matched(detections: seq<Detection>, truths: seq<GroundTruth>, grace: int, i: nat)
    requires i < |truths|
  {
    exists j :: 0 <= j < |detections| && Matches(detections[j], truths[i], grace)
  }

  lemma {:induction false} FirstMatchFromIs(d: Detection, truths: seq<GroundTruth>, grace: int, i: nat, from: nat)
    requires from <= i < |truths|
    ensures FirstMatchFrom(d, truths, grace, from) == i <==>
            Matches(d, truths[i], grace) && forall k :: from <= k < i ==> !Matches(d, truths[k], grace)
  {
  }

  // A truth is found exactly when some detection matches it and no earlier truth.
  lemma DetectedIff(detections: seq<Detection>, truths: seq<GroundTruth>, grace: int, i: nat)
    requires i < |truths|
    ensures Detected(detections, truths, grace, i) <==>
            exists j :: 0 <= j < |detections| && Matches(detections[j], truths[i], grace) &&
                        forall k :: 0 <= k < i ==> !Matches(detections[j], truths[k], grace)
  {
    forall j | 0 <= j < |detections|
      ensures CountsFor(truths, grace, i)(detections[j]) <==>
              Matches(detections[j], truths[i], grace) &&
              forall k :: 0 <= k < i ==> !Matches(detections[j], truths[k], grace)
    {
      FirstMatchFromIs(detections[j], truths, grace, i, 0);
    }
  }

  // The windows of two truths of one series, with grace, share an instant.
  predicate Overlap(a: GroundTruth, b: GroundTruth, grace: int) {
    a.target == b.target && a.start <= a.end + grace && b.start <= b.end + grace &&
    a.start <= b.end + grace && b.start <= a.end + grace
  }

  // "Found" means "matched by some detection", for every list of detections, exactly when
  // no earlier truth of the same series overlaps the window.
  lemma FoundMeansMatchedIff(truths: seq<GroundTruth>, grace: int, i: nat)
    requires i < |truths|
    ensures (forall detections: seq<Detection> ::
               Detected(detections, truths, grace, i) <==> Matched(detections, truths, grace, i))
            <==> (forall k :: 0 <= k < i ==> !Overlap(truths[k], truths[i], grace))
  {
    if forall k :: 0 <= k < i ==> !Overlap(truths[k], truths[i], grace) {
      forall detections: seq<Detection>
        ensures Detected(detections, truths, grace, i) <==> Matched(detections, truths, grace, i)
      {
        DetectedIff(detections, truths, grace, i);
        if j :| 0 <= j < |detections| && Matches(detections[j], truths[i], grace) {
          forall k | 0 <= k < i
            ensures !Matches(detections[j], truths[k], grace)
          {
            assert !Overlap(truths[k], truths[i], grace);
          }
        }
      }
    } else {
      var k :| 0 <= k < i && Overlap(truths[k], truths[i], grace);
      var t := if truths[k].start < truths[i].start then truths[i].start else truths[k].start;
      var d := Detection(truths[i].target, t);
      assert Matches(d, truths[i], grace) && Matches(d, truths[k], grace);
      DetectedIff([d], truths, grace, i);
      assert Matches([d][0], truths[i], grace);
      assert Matched([d], truths, grace, i) && !Detected([d], truths, grace, i);
    }
  }

  // ----- the figures do not depend on the order of the detections -----

  lemma DetectedRespectsPermutation(s: seq<Detection>, t: seq<Detection>, truths: seq<GroundTruth>, grace: int, i: nat)
    requires multiset(s) == multiset(t) && Detected(s, truths, grace, i)
    ensures Detected(t, truths, grace, i)
  {
    var j :| 0 <= j < |s| && CountsFor(truths, grace, i)(s[j]);
    assert s[j] in multiset(t);
    var k :| 0 <= k < |t| && t[k] == s[j];
    assert CountsFor(truths, grace, i)(t[k]);
  }

  lemma OrderDoesNotMatter(s: seq<Detection>, t: seq<Detection>, truths: seq<GroundTruth>, grace: int)
    requires multiset(s) == multiset(t)
    ensures Count(IsTruePositive(truths, grace), s) == Count(IsTruePositive(truths, grace), t)
    ensures Marks(s, truths, grace) == Marks(t, truths, grace)
  {
    CountRespectsPermutation(IsTruePositive(truths, grace), s, t);
    forall i | 0 <= i < |truths|
      ensures Detected(s, truths, grace, i) <==> Detected(t, truths, grace, i)
    {
      if Detected(s, truths, grace, i) {
        DetectedRespectsPermutation(s, t, truths, grace, i);
      }
      if Detected(t, truths, grace, i) {
        DetectedRespectsPermutation(t, s, truths, grace, i);
      }
    }
  }

  lemma LatencyRespectsPermutation(latency: int, key: LatencyKey, s: seq<Detection>, t: seq<Detection>,
                                   truths: seq<GroundTruth>, grace: int, i: nat)
    requires multiset(s) == multiset(t) && i < |truths| && LatencyOf(latency, key, s, truths, grace, i)
    ensures LatencyOf(latency, key, t, truths, grace, i)
  {
    DetectedRespectsPermutation(s, t, truths, grace, i);
    var j :| 0 <= j < |s| && CountsFor(truths, grace, i)(s[j]) && s[j].time - truths[i].start == latency;
    assert s[j] in multiset(t);
    var l :| 0 <= l < |t| && t[l] == s[j];
    forall j | 0 <= j < |t| && CountsFor(truths, grace, i)(t[j])
      ensures latency <= t[j].time - truths[i].start
    {
      assert t[j] in multiset(s);
      var l :| 0 <= l < |s| && s[l] == t[j];
    }
    forall k | i < k < |truths| && KeyOf(truths[k]) == key
      ensures !Detected(t, truths, grace, k)
    {
      if Detected(t, truths, grace, k) {
        DetectedRespectsPermutation(t, s, truths, grace, k);
      }
    }
  }

  lemma LatencyIsUnique(latency: int, latency': int, key: LatencyKey, s: seq<Detection>,
                        truths: seq<GroundTruth>, grace: int, i: nat, i': nat)
    requires i < |truths| && i' < |truths|
    requires LatencyOf(latency, key, s, truths, grace, i) && LatencyOf(latency', key, s, truths, grace, i')
    ensures latency == latency'
  {
    assert i == i';
  }

  lemma LatencyAgrees(latency: map<LatencyKey, int>, latency': map<LatencyKey, int>, key: LatencyKey,
                      s: seq<Detection>, t: seq<Detection>, truths: seq<GroundTruth>, grace: int)
    requires multiset(s) == multiset(t) && key in latency
    requires LatenciesOf(latency, s, truths, grace) && LatenciesOf(latency', t, truths, grace)
    ensures key in latency' && latency[key] == latency'[key]
  {
    var i: nat :| i < |truths| && LatencyOf(latency[key], key, s, truths, grace, i);
    LatencyRespectsPermutation(latency[key], key, s, t, truths, grace, i);
    assert key == KeyOf(truths[i]);
    var i': nat :| i' < |truths| && LatencyOf(latency'[key], key, t, truths, grace, i');
    LatencyIsUnique(latency[key], latency'[key], key, t, truths, grace, i, i');
  }

  ghost predicate Included(latency: map<LatencyKey, int>, latency': map<LatencyKey, int>) {
    forall key :: key in latency ==> key in latency' && latency[key] == latency'[key]
  }

  lemma IncludedBothWays(latency: map<LatencyKey, int>, latency': map<LatencyKey, int>)
    requires Included(latency, latency') && Included(latency', latency)
    ensures latency == latency'
  {
  }

  lemma LatenciesAreIncluded(latency: map<LatencyKey, int>, latency': map<LatencyKey, int>,
                             s: seq<Detection>, t: seq<Detection>, truths: seq<GroundTruth>, grace: int)
    requires multiset(s) == multiset(t)
    requires LatenciesOf(latency, s, truths, grace) && LatenciesOf(latency', t, truths, grace)
    ensures Included(latency, latency')
  {
    forall key | key in latency
      ensures key in latency' && latency[key] == latency'[key]
    {
      LatencyAgrees(latency, latency', key, s, t, truths, grace);
    }
  }

  // Nor do the latencies reported.
  lemma LatenciesAreDetermined(latency: map<LatencyKey, int>, latency': map<LatencyKey, int>,
                               s: seq<Detection>, t: seq<Detection>, truths: seq<GroundTruth>, grace: int)
    requires multiset(s) == multiset(t)
    requires LatenciesOf(latency, s, truths, grace) && LatenciesOf(latency', t, truths, grace)
    ensures latency == latency'
  {
    LatenciesAreIncluded(latency, latency', s, t, truths, grace);
    LatenciesAreIncluded(latency', latency, t, s, truths, grace);
    IncludedBothWays(latency, latency');
  }

  // ----- found truths and true positives -----

  ghost function Hit(detections: seq<Detection>, truths: seq<GroundTruth>, grace: int): set<nat> {
    set i: nat | i < |truths| && Detected(detections, truths, grace, i)
  }

  // Every truth found takes a true positive of its own.
  lemma {:induction false} NoMoreFoundThanTruePositives(detections: seq<Detection>, truths: seq<GroundTruth>,
                                                        grace: int)
    ensures |Hit(detections, truths, grace)| <= Count(IsTruePositive(truths, grace), detections)
  {
    if detections == [] {
      assert Hit(detections, truths, grace) == {};
    } else {
      var n := |detections| - 1;
      var d := detections[n];
      var i := FirstMatch(d, truths, grace);
      NoMoreFoundThanTruePositives(detections[..n], truths, grace);
      var before := Hit(detections[..n], truths, grace);
      forall k | k in Hit(detections, truths, grace)
        ensures k in before || (k == i && i < |truths|)
      {
        var j :| 0 <= j < |detections| && CountsFor(truths, grace, k)(detections[j]);
        if j < n {
          assert detections[..n][j] == detections[j];
        }
      }
      if i < |truths| {
        SubsetIsSmaller(Hit(detections, truths, grace), before + {i});
      } else {
        SubsetIsSmaller(Hit(detections, truths, grace), before);
      }
    }
  }

  function FoundAt(marks: seq<Mark>): set<nat> { set i: nat | i < |marks| && marks[i].detected }

  lemma {:induction false} FoundIsCounted(marks: seq<Mark>)
    ensures Count(Found(), marks) == |FoundAt(marks)|
  {
    if marks != [] {
      var n := |marks| - 1;
      FoundIsCounted(marks[..n]);
      if marks[n].detected {
        assert FoundAt(marks) == FoundAt(marks[..n]) + {n};
      } else {
        assert FoundAt(marks) == FoundAt(marks[..n]);
      }
    }
  }

  // Recall cannot exceed the true positives over the truths.
  lemma RecallIsBackedByTruePositives(detections: seq<Detection>, truths: seq<GroundTruth>, grace: int)
    ensures Count(Found(), Marks(detections, truths, grace)) <= Count(IsTruePositive(truths, grace), detections)
  {
    FoundIsCounted(Marks(detections, truths, grace));
    assert Hit(detections, truths, grace) == FoundAt(Marks(detections, truths, grace));
    NoMoreFoundThanTruePositives(detections, truths, grace);
  }

  // ----- recall by type -----

  // Times what there was, a share gives what was found.
  ghost predicate IsShare(share: real, total: nat, found: real) { share * total as real == found }

  lemma RatioTimes(a: nat, b: nat)
    requires b == 0 ==> a == 0
    ensures IsShare(Ratio(a, b), b, a as real)
  {
    if b > 0 {
      QuotientTimes(a as real, b as real);
    }
  }

  lemma FoundOfTypeAtMost(marks: seq<Mark>, ft: FaultType)
    ensures Count(FoundOfType(ft), marks) <= Count(OfType(ft), marks)
  {
    CountMonotone(FoundOfType(ft), OfType(ft), marks);
  }

  // The recall of a type is such a share.
  lemma RecallTimesTotal(marks: seq<Mark>, ft: FaultType)
    ensures IsShare(Ratio(Count(FoundOfType(ft), marks), Count(OfType(ft), marks)),
                    Count(OfType(ft), marks), Count(FoundOfType(ft), marks) as real)
  {
    FoundOfTypeAtMost(marks, ft);
    RatioTimes(Count(FoundOfType(ft), marks), Count(OfType(ft), marks));
  }

  lemma {:induction false} FoundIsFoundByType(marks: seq<Mark>)
    ensures Count(Found(), marks) ==
            Count(FoundOfType(Spike), marks) + Count(FoundOfType(Ramp), marks) +
            Count(FoundOfType(StepChange), marks) + Count(FoundOfType(Silence), marks)
  {
    if marks != [] {
      FoundIsFoundByType(marks[..|marks| - 1]);
    }
  }

  function WeightedSum(share: FaultType -> real, total: FaultType -> nat): real {
    share(Spike) * total(Spike) as real + share(Ramp) * total(Ramp) as real +
    share(StepChange) * total(StepChange) as real + share(Silence) * total(Silence) as real
  }

  ghost predicate AreShares(share: FaultType -> real, total: FaultType -> nat, found: FaultType -> nat) {
    forall ft :: IsShare(share(ft), total(ft), found(ft) as real)
  }

  lemma Recombine(share: FaultType -> real, total: FaultType -> nat, found: FaultType -> nat)
    requires AreShares(share, total, found)
    ensures WeightedSum(share, total) == (found(Spike) + found(Ramp) + found(StepChange) + found(Silence)) as real
  {
    assert IsShare(share(Spike), total(Spike), found(Spike) as real);
    assert IsShare(share(Ramp), total(Ramp), found(Ramp) as real);
    assert IsShare(share(StepChange), total(StepChange), found(StepChange) as real);
    assert IsShare(share(Silence), total(Silence), found(Silence) as real);
  }

  function Totals(marks: seq<Mark>): FaultType -> nat { (ft: FaultType) => Count(OfType(ft), marks) }
  function FoundTotals(marks: seq<Mark>): FaultType -> nat { (ft: FaultType) => Count(FoundOfType(ft), marks) }

  lemma SharesAddUp(marks: seq<Mark>, share: FaultType -> real)
    requires AreShares(share, Totals(marks), FoundTotals(marks))
    ensures WeightedSum(share, Totals(marks)) == Count(Found(), marks) as real
  {
    FoundIsFoundByType(marks);
    Recombine(share, Totals(marks), FoundTotals(marks));
  }

  // The recalls by type, weighted by how many truths there are of each type, recombine to
  // the overall recall.
  lemma RecallRecombines(marks: seq<Mark>, share: FaultType -> real)
    requires AreShares(share, Totals(marks), FoundTotals(marks))
    ensures IsShare(Ratio(Count(Found(), marks), |marks|), |marks|, WeightedSum(share, Totals(marks)))
  {
    SharesAddUp(marks, share);
    CountBounds(Found(), marks);
    RatioTimes(Count(Found(), marks), |marks|);
  }

  function ShareIn(recallByType: map<FaultType, real>): FaultType -> real {
    (ft: FaultType) => if ft in recallByType then recallByType[ft] else 0.0
  }

  // The recalls are those a scoring reports.
  ghost predicate Reports(recallByType: map<FaultType, real>, marks: seq<Mark>) {
    && (forall ft :: ft in recallByType <==> Count(OfType(ft), marks) > 0)
    && (forall ft :: ft in recallByType ==>
          recallByType[ft] == Ratio(Count(FoundOfType(ft), marks), Count(OfType(ft), marks)))
  }

  function RecallsOf(marks: seq<Mark>): FaultType -> real {
    (ft: FaultType) => Ratio(Count(FoundOfType(ft), marks), Count(OfType(ft), marks))
  }

  lemma RecallsAreShares(marks: seq<Mark>)
    ensures AreShares(RecallsOf(marks), Totals(marks), FoundTotals(marks))
  {
    forall ft
      ensures IsShare(RecallsOf(marks)(ft), Totals(marks)(ft), FoundTotals(marks)(ft) as real)
    {
      RecallTimesTotal(marks, ft);
    }
  }

  lemma ReportedAreRecalls(marks: seq<Mark>, recallByType: map<FaultType, real>)
    requires Reports(recallByType, marks)
    ensures forall ft :: ShareIn(recallByType)(ft) == RecallsOf(marks)(ft)
  {
  }

  lemma SameShares(share: FaultType -> real, share': FaultType -> real, total: FaultType -> nat,
                   found: FaultType -> nat)
    requires AreShares(share', total, found) && forall ft :: share(ft) == share'(ft)
    ensures AreShares(share, total, found)
  {
  }

  // In particular the reported ones do, a type without truths counting nothing.
  lemma ReportedRecallsRecombine(marks: seq<Mark>, recallByType: map<FaultType, real>)
    requires Reports(recallByType, marks)
    ensures IsShare(Ratio(Count(Found(), marks), |marks|), |marks|, WeightedSum(ShareIn(recallByType), Totals(marks)))
  {
    RecallsAreShares(marks);
    ReportedAreRecalls(marks, recallByType);
    SameShares(ShareIn(recallByType), RecallsOf(marks), Totals(marks), FoundTotals(marks));
    RecallRecombines(marks, ShareIn(recallByType));
  }

  lemma MeanBetween(a: real, b: real, f: real)
    requires 0.0 <= a <= b && a + b > 0.0 && f * (a + b) == 2.0 * a * b
    ensures a <= f <= b
  {
    ProductNonnegative(a, b - a);
    ProductNonnegative(b, b - a);
    assert 2.0 * a * b - a * (a + b) == a * (b - a);
    assert b * (a + b) - 2.0 * a * b == b * (b - a);
    QuotientBound(f, 2.0 * a * b, b, a + b);
    if f < a {
      ProductStrictlyMonotone(f, a, a + b);
    }
  }

  // F1 lies between precision and recall.
  lemma F1IsBetween(p: real, r: real)
    requires p >= 0.0 && r >= 0.0
    ensures p <= r ==> p <= F1(p, r) <= r
    ensures r <= p ==> r <= F1(p, r) <= p
  {
    if p + r > 0.0 {
      var s := p + r;
      QuotientTimes(2.0 * p * r, s);
      if p <= r {
        MeanBetween(p, r, F1(p, r));
      } else {
        MeanBetween(r, p, F1(p, r));
      }
    }
  }

  lemma HarmonicTimes(p: real, r: real, f: real, p': real, r': real)
    requires p * p' == 1.0 && r * r' == 1.0 && f * (p + r) == 2.0 * p * r
    ensures f * (p' + r') == 2.0
  {
    var c := p' * r';
    assert (p + r) * c == p' + r';
    assert f * (p + r) * c == 2.0 * (p * p') * (r * r');
  }

  // It is the harmonic mean: its reciprocal is the mean of theirs.
  lemma F1IsHarmonic(p: real, r: real)
    requires p >= 0.0 && r >= 0.0
    ensures p > 0.0 && r > 0.0 ==> F1(p, r) * (1.0 / p + 1.0 / r) == 2.0
    ensures p == 0.0 || r == 0.0 ==> F1(p, r) == 0.0
  {
    if p > 0.0 && r > 0.0 {
      QuotientTimes(2.0 * p * r, p + r);
      HarmonicTimes(p, r, F1(p, r), 1.0 / p, 1.0 / r);
    }
  }
}
