/** Dropout-risk scoring and ranking
    (src/components/dashboard/RiskPrediction.tsx): fixed integer weights
    added up and clamped at 100, a stable ranking by descending score, the
    high/medium/low tiers, and the badge colour and icon of a score. */
module Risk {
  import opened Records
  import opened Seqs
  import Badge

  /** Districts whose children get the regional weight. */
  const HighRiskDistricts: seq<string> := ["Rural District A", "Mountain Region"]

  /** Exactly one age rule fires, tried from the oldest bracket down. */
  function AgeWeight(age: int): (w: nat)
    ensures w == 30 <==> age > 16
    ensures w == 20 <==> 14 < age <= 16
    ensures w == 10 <==> age < 6
    ensures w == 0 <==> 6 <= age <= 14
  {
    if age > 16 then 30 else if age > 14 then 20 else if age < 6 then 10 else 0
  }

  function EducationWeight(e: EducationStatus): nat
  {
    if e == NoEducation then 40 else if e == Primary then 25 else 0
  }

  function HealthWeight(h: HealthStatus): nat
  {
    if h == Poor || h == Critical then 25 else if h == Fair then 15 else 0
  }

  /** `!child.guardian_name`: absent, `null` and the empty string are all
      falsy. */
  predicate GuardianMissing(g: Option<string>)
  {
    g == None || g == Some("")
  }

  function GuardianWeight(g: Option<string>): nat
  {
    if GuardianMissing(g) then 20 else 0
  }

  function DistrictWeight(district: string): nat
  {
    if district in HighRiskDistricts then 15 else 0
  }

  /** The sum of the five weights before clamping. */
  function RawRisk(c: ChildRecord): nat
  {
    AgeWeight(c.age) + EducationWeight(c.education) + HealthWeight(c.health)
    + GuardianWeight(c.guardianName) + DistrictWeight(c.district)
  }

  /** `Math.min(risk, 100)`. */
  function DropoutRisk(c: ChildRecord): int
  {
    if RawRisk(c) < 100 then RawRisk(c) else 100
  }

  /** `calculateDropoutRisk`: the local score grows factor by factor and is
      clamped at the end. */
  method CalculateDropoutRisk(c: ChildRecord) returns (risk: int)
    ensures risk == DropoutRisk(c)
    ensures 0 <= risk <= 100
  {
    risk := 0;
    if c.age > 16 {
      risk := risk + 30;
    } else if c.age > 14 {
      risk := risk + 20;
    } else if c.age < 6 {
      risk := risk + 10;
    }
    if c.education == NoEducation {
      risk := risk + 40;
    } else if c.education == Primary {
      risk := risk + 25;
    }
    if c.health == Poor || c.health == Critical {
      risk := risk + 25;
    } else if c.health == Fair {
      risk := risk + 15;
    }
    if GuardianMissing(c.guardianName) {
      risk := risk + 20;
    }
    if c.district in HighRiskDistricts {
      risk := risk + 15;
    }
    risk := if risk < 100 then risk else 100;
  }

  /** The raw sum never exceeds 130; the score is the raw sum below 100 and
      100 from there on. */
  lemma RiskBounds(c: ChildRecord)
    ensures RawRisk(c) <= 130
    ensures 0 <= DropoutRisk(c) <= 100
    ensures DropoutRisk(c) < 100 <==> RawRisk(c) < 100
    ensures DropoutRisk(c) < 100 ==> DropoutRisk(c) == RawRisk(c)
  {
  }

  /** Every factor at its worst: a raw 130 clamped to exactly 100, in the
      high tier. */
  lemma WorstCaseClamped(c: ChildRecord)
    requires c.age == 17 && c.education == NoEducation && c.health == Critical
    requires c.guardianName == None && c.district == "Rural District A"
    ensures RawRisk(c) == 130
    ensures DropoutRisk(c) == 100
    ensures IsHigh(Score(c))
  {
  }

  /** No factor applies: a score of 0, in the low tier. */
  lemma NoFactorExample(c: ChildRecord, guardian: string)
    requires c.age == 10 && c.education == Secondary && c.health == Good
    requires c.guardianName == Some(guardian) && guardian != "" && c.district == "Urban"
    ensures DropoutRisk(c) == 0
    ensures IsLow(Score(c))
  {
  }

  /** Losing the guardian never lowers the score, and raises it by 20 while
      the raw sum stays below 100. */
  lemma MissingGuardianRaises(c: ChildRecord, name: string)
    requires name != ""
    ensures DropoutRisk(c.(guardianName := None)) >= DropoutRisk(c.(guardianName := Some(name)))
    ensures RawRisk(c.(guardianName := None)) == RawRisk(c.(guardianName := Some(name))) + 20
  {
  }

  /** A child with its score, `{ ...child, dropoutRisk }`. */
  datatype ScoredChild = ScoredChild(child: ChildRecord, dropoutRisk: int)

  function Score(c: ChildRecord): ScoredChild
  {
    ScoredChild(c, DropoutRisk(c))
  }

  function RiskOf(s: ScoredChild): int
  {
    s.dropoutRisk
  }

  /** `childrenWithRisk`: every child scored, then sorted by descending score
      with ties in input order (`Array.prototype.sort` is stable). */
  function ChildrenWithRisk(children: seq<ChildRecord>): (r: seq<ScoredChild>)
    ensures |r| == |children|
    ensures multiset(r) == multiset(Map(children, Score))
    ensures SortedDesc(r, RiskOf)
  {
    SortDesc(Map(children, Score), RiskOf)
  }

  /** Each ranked entry is a child of the input with its own score. */
  lemma RankedEntries(children: seq<ChildRecord>)
    ensures forall s :: s in ChildrenWithRisk(children) ==>
              s.child in children && s.dropoutRisk == DropoutRisk(s.child)
    ensures forall c :: c in children ==> Score(c) in ChildrenWithRisk(children)
  {
    var scored := Map(children, Score);
    var r := ChildrenWithRisk(children);
    forall s | s in r
      ensures s.child in children && s.dropoutRisk == DropoutRisk(s.child)
    {
      assert s in multiset(r);
      assert s in multiset(scored);
      var i :| 0 <= i < |scored| && scored[i] == s;
    }
    forall c | c in children
      ensures Score(c) in r
    {
      var i :| 0 <= i < |children| && children[i] == c;
      assert scored[i] == Score(c);
      assert Score(c) in multiset(scored);
    }
  }

  /** Children with equal scores appear in the ranking in their input
      order. */
  lemma RankingStable(children: seq<ChildRecord>, v: int)
    ensures Filter(ChildrenWithRisk(children), KeyIs(RiskOf, v)) == Filter(Map(children, Score), KeyIs(RiskOf, v))
  {
    SortStable(Map(children, Score), RiskOf, v);
  }

  predicate IsHigh(s: ScoredChild) { s.dropoutRisk >= 70 }

  predicate IsMedium(s: ScoredChild) { s.dropoutRisk >= 40 && s.dropoutRisk < 70 }

  predicate IsLow(s: ScoredChild) { s.dropoutRisk < 40 }

  function HighRisk(ranked: seq<ScoredChild>): seq<ScoredChild>
  {
    Filter(ranked, IsHigh)
  }

  function MediumRisk(ranked: seq<ScoredChild>): seq<ScoredChild>
  {
    Filter(ranked, IsMedium)
  }

  /** The low-risk card: what is left after the two filtered tiers. */
  function LowRiskCount(children: seq<ChildRecord>): int
  {
    var ranked := ChildrenWithRisk(children);
    |children| - |HighRisk(ranked)| - |MediumRisk(ranked)|
  }

  /** The three tiers split any sequence of scored children. */
  lemma {:induction false} TierCounts(xs: seq<ScoredChild>)
    ensures |Filter(xs, IsHigh)| + |Filter(xs, IsMedium)| + |Filter(xs, IsLow)| == |xs|
  {
    if xs != [] {
      TierCounts(xs[1..]);
    }
  }

  /** The tiers partition the children: the low count is never negative and
      is exactly the number of scores below 40, and no tier count depends on
      the ranking order. */
  lemma TiersPartition(children: seq<ChildRecord>)
    ensures LowRiskCount(children) == |Filter(ChildrenWithRisk(children), IsLow)| >= 0
    ensures |HighRisk(ChildrenWithRisk(children))| == |Filter(Map(children, Score), IsHigh)|
    ensures |MediumRisk(ChildrenWithRisk(children))| == |Filter(Map(children, Score), IsMedium)|
    ensures LowRiskCount(children) == |Filter(Map(children, Score), IsLow)|
  {
    var ranked := ChildrenWithRisk(children);
    TierCounts(ranked);
    FilterSameMultiset(ranked, Map(children, Score), IsHigh);
    FilterSameMultiset(ranked, Map(children, Score), IsMedium);
    FilterSameMultiset(ranked, Map(children, Score), IsLow);
  }

  /** Every score is in exactly one tier. */
  lemma TierExclusive(s: ScoredChild)
    ensures IsHigh(s) || IsMedium(s) || IsLow(s)
    ensures !(IsHigh(s) && IsMedium(s)) && !(IsHigh(s) && IsLow(s)) && !(IsMedium(s) && IsLow(s))
  {
  }

  /** `getRiskColor`. */
  function RiskColor(risk: int): Badge.Variant
  {
    if risk >= 70 then Badge.Destructive
    else if risk >= 40 then Badge.Secondary
    else Badge.Default
  }

  datatype RiskIcon = AlertTriangle | TrendingUp | TrendingDown

  /** `getRiskIcon`. */
  function RiskIconOf(risk: int): RiskIcon
  {
    if risk >= 70 then AlertTriangle
    else if risk >= 40 then TrendingUp
    else TrendingDown
  }

  /** Badge colour and icon follow the same thresholds as the tier
      filters. */
  lemma RiskColorMatchesTier(s: ScoredChild)
    ensures RiskColor(s.dropoutRisk) == Badge.Destructive <==> IsHigh(s)
    ensures RiskColor(s.dropoutRisk) == Badge.Secondary <==> IsMedium(s)
    ensures RiskColor(s.dropoutRisk) == Badge.Default <==> IsLow(s)
    ensures RiskIconOf(s.dropoutRisk) == AlertTriangle <==> IsHigh(s)
    ensures RiskIconOf(s.dropoutRisk) == TrendingUp <==> IsMedium(s)
    ensures RiskIconOf(s.dropoutRisk) == TrendingDown <==> IsLow(s)
  {
  }

  /** `childrenWithRisk.slice(0, 10)`. */
  function TopTen(ranked: seq<ScoredChild>): (r: seq<ScoredChild>)
    ensures |r| == if |ranked| < 10 then |ranked| else 10
    ensures r <= ranked
  {
    if |ranked| < 10 then ranked else ranked[..10]
  }

  /** The listed children are the highest-scored: every listed score is at
      least every unlisted one. */
  lemma TopTenAreHighest(children: seq<ChildRecord>)
    ensures var ranked := ChildrenWithRisk(children);
            forall i, j :: 0 <= i < |TopTen(ranked)| <= j < |ranked| ==>
              TopTen(ranked)[i].dropoutRisk >= ranked[j].dropoutRisk
  {
    var ranked := ChildrenWithRisk(children);
    assert SortedDesc(ranked, RiskOf);
    forall i, j | 0 <= i < |TopTen(ranked)| <= j < |ranked|
      ensures TopTen(ranked)[i].dropoutRisk >= ranked[j].dropoutRisk
    {
      assert TopTen(ranked)[i] == ranked[i];
      assert RiskOf(ranked[i]) >= RiskOf(ranked[j]);
    }
  }
}
