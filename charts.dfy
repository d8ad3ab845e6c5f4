/** The chart data of the charts section
    (src/components/dashboard/ChartsSection.tsx): counts by district,
    education status and gender built into a dictionary, four age buckets
    counted in place, and the display labels of each chart. */
module Charts {
  import opened Records
  import opened Text
  import opened Seqs

  function EducationOf(c: ChildRecord): string { EducationLiteral(c.education) }

  function GenderOf(c: ChildRecord): string { GenderLiteral(c.gender) }

  /** `values.reduce((acc, v) => { acc[v] = (acc[v] || 0) + 1; return acc }, {})`
      followed by `Object.entries`: the dictionary is built one value at a
      time, a key being inserted the first time it is seen. */
  method CountBy<K(==,!new)>(values: seq<K>) returns (entries: seq<(K, nat)>)
    ensures entries == Tally(values)
  {
    var order, counts := Accumulate(values);
    entries := seq(|order|, j requires 0 <= j < |order| => (order[j], counts[order[j]]));
    assert entries == Entries(order, multiset(values));
  }

  /** `order` and `counts` are the dictionary built over `xs`: its keys in
      insertion order and the number of occurrences of each. */
  ghost predicate CountsOf<K(!new)>(xs: seq<K>, order: seq<K>, counts: map<K, nat>)
  {
    && order == FirstSeen(xs)
    && (forall k :: k in counts <==> k in order)
    && (forall k :: k in counts ==> counts[k] == multiset(xs)[k])
  }

  /** One `acc[v] = (acc[v] || 0) + 1` step on a key already present keeps
      the dictionary in step with the values seen. */
  lemma CountsStepSeen<K(!new)>(xs: seq<K>, v: K, order: seq<K>, counts: map<K, nat>)
    requires CountsOf(xs, order, counts) && v in counts
    ensures CountsOf(xs + [v], order, counts[v := counts[v] + 1])
  {
    FirstSeenSnoc(xs, v);
    var m := multiset(xs + [v]);
    assert m == multiset(xs) + multiset{v};
    var next := counts[v := counts[v] + 1];
    forall k | k in next ensures next[k] == m[k] {
      if k != v {
        assert next[k] == counts[k];
      }
    }
  }

  /** The same step on a new key appends it to the key order. */
  lemma CountsStepNew<K(!new)>(xs: seq<K>, v: K, order: seq<K>, counts: map<K, nat>)
    requires CountsOf(xs, order, counts) && v !in counts
    ensures CountsOf(xs + [v], order + [v], counts[v := 1])
  {
    FirstSeenSnoc(xs, v);
    var m := multiset(xs + [v]);
    assert m == multiset(xs) + multiset{v};
    var next := counts[v := 1];
    forall k | k in next ensures next[k] == m[k] {
      if k != v {
        assert next[k] == counts[k];
      } else {
        assert multiset(xs)[v] == 0;
      }
    }
    forall k ensures k in next <==> k in order + [v] {
      assert k in order + [v] <==> k in order || k == v;
    }
  }

  /** The `reduce` itself: the keys in insertion order and the dictionary. */
  method Accumulate<K(==,!new)>(values: seq<K>) returns (order: seq<K>, counts: map<K, nat>)
    ensures CountsOf(values, order, counts)
  {
    order, counts := [], map[];
    for i := 0 to |values|
      invariant CountsOf(values[..i], order, counts)
    {
      var k := values[i];
      assert values[..i + 1] == values[..i] + [k];
      if k !in counts {
        CountsStepNew(values[..i], k, order, counts);
        order := order + [k];
        counts := counts[k := 1];
      } else {
        CountsStepSeen(values[..i], k, order, counts);
        counts := counts[k := counts[k] + 1];
      }
    }
    assert values[..|values|] == values;
  }

  /** Replaces each key by its display label and keeps the count. */
  function Relabel<K>(es: seq<(K, nat)>, show: K -> string): (r: seq<(string, nat)>)
    ensures |r| == |es|
    ensures forall i :: 0 <= i < |es| ==> r[i] == (show(es[i].0), es[i].1)
  {
    seq(|es|, i requires 0 <= i < |es| => (show(es[i].0), es[i].1))
  }

  /** Relabelling keeps the total. */
  lemma {:induction false} RelabelKeepsSum<K>(es: seq<(K, nat)>, show: K -> string)
    ensures SumCounts(Relabel(es, show)) == SumCounts(es)
  {
    if es != [] {
      var n := |es| - 1;
      RelabelKeepsSum(es[..n], show);
      assert Relabel(es, show)[..n] == Relabel(es[..n], show);
    }
  }

  /** `district.split(' ')[0]`: the bar label is the text before the first
      space. */
  function DistrictLabel(district: string): string
  {
    BeforeFirst(district, ' ')
  }

  /** `status.charAt(0).toUpperCase() + status.slice(1).replace('_', ' ')`. */
  function EducationSliceLabel(status: string): (r: string)
    ensures |r| == |status|
    ensures |status| > 0 ==> r[0] == UpperChar(status[0])
    ensures |status| > 0 && '_' !in status[1..] ==> r == UpperFirst(status)
  {
    if status == [] then [] else [UpperChar(status[0])] + ReplaceFirst(status[1..], '_', ' ')
  }

  /** `gender.charAt(0).toUpperCase() + gender.slice(1)`. */
  function GenderBarLabel(gender: string): string
  {
    UpperFirst(gender)
  }

  /** The four buckets of the age chart; the last one also takes every age
      above 18. */
  datatype Bucket = UpToFive | SixToTen | ElevenToFifteen | SixteenToEighteen

  function BucketOf(age: int): Bucket
  {
    if age <= 5 then UpToFive
    else if age <= 10 then SixToTen
    else if age <= 15 then ElevenToFifteen
    else SixteenToEighteen
  }

  /** The bucket of every age, including negative ages and ages above 18. */
  lemma BucketBounds(age: int)
    ensures BucketOf(age) == UpToFive <==> age <= 5
    ensures BucketOf(age) == SixToTen <==> 6 <= age <= 10
    ensures BucketOf(age) == ElevenToFifteen <==> 11 <= age <= 15
    ensures BucketOf(age) == SixteenToEighteen <==> age >= 16
  {
  }

  /** Number of children whose age falls in bucket `b`. */
  function CountInBucket(children: seq<ChildRecord>, b: Bucket): nat
  {
    if children == [] then 0
    else
      var last := children[|children| - 1];
      CountInBucket(children[..|children| - 1], b) + (if BucketOf(last.age) == b then 1 else 0)
  }

  /** Every child falls in exactly one bucket, so the buckets add up to the
      number of children. */
  lemma {:induction false} BucketsPartition(children: seq<ChildRecord>)
    ensures CountInBucket(children, UpToFive) + CountInBucket(children, SixToTen)
            + CountInBucket(children, ElevenToFifteen) + CountInBucket(children, SixteenToEighteen)
            == |children|
  {
    if children != [] {
      BucketsPartition(children[..|children| - 1]);
    }
  }

  /** The `ageRanges` counters. */
  datatype AgeRanges = AgeRanges(upToFive: nat, sixToTen: nat, elevenToFifteen: nat, sixteenToEighteen: nat)

  /** `children.forEach(child => { if (child.age <= 5) ageRanges['0-5']++; ... })`. */
  method AgeDistribution(children: seq<ChildRecord>) returns (r: AgeRanges)
    ensures r.upToFive == CountInBucket(children, UpToFive)
    ensures r.sixToTen == CountInBucket(children, SixToTen)
    ensures r.elevenToFifteen == CountInBucket(children, ElevenToFifteen)
    ensures r.sixteenToEighteen == CountInBucket(children, SixteenToEighteen)
    ensures r.upToFive + r.sixToTen + r.elevenToFifteen + r.sixteenToEighteen == |children|
  {
    r := AgeRanges(0, 0, 0, 0);
    for i := 0 to |children|
      invariant r.upToFive == CountInBucket(children[..i], UpToFive)
      invariant r.sixToTen == CountInBucket(children[..i], SixToTen)
      invariant r.elevenToFifteen == CountInBucket(children[..i], ElevenToFifteen)
      invariant r.sixteenToEighteen == CountInBucket(children[..i], SixteenToEighteen)
      invariant r.upToFive + r.sixToTen + r.elevenToFifteen + r.sixteenToEighteen == i
    {
      var age := children[i].age;
      assert children[..i + 1][..i] == children[..i];
      if age <= 5 {
        r := r.(upToFive := r.upToFive + 1);
      } else if age <= 10 {
        r := r.(sixToTen := r.sixToTen + 1);
      } else if age <= 15 {
        r := r.(elevenToFifteen := r.elevenToFifteen + 1);
      } else {
        r := r.(sixteenToEighteen := r.sixteenToEighteen + 1);
      }
    }
    assert children[..|children|] == children;
  }

  /** `Object.entries(ageRanges)`: the four buckets in their fixed order,
      zero counts included. */
  function AgeChartData(r: AgeRanges): seq<(string, nat)>
  {
    [("0-5", r.upToFive), ("6-10", r.sixToTen), ("11-15", r.elevenToFifteen), ("16-18", r.sixteenToEighteen)]
  }

  /** The age chart shows every counted child. */
  lemma AgeChartTotal(r: AgeRanges)
    ensures SumCounts(AgeChartData(r)) == r.upToFive + r.sixToTen + r.elevenToFifteen + r.sixteenToEighteen
  {
    var d := AgeChartData(r);
    SumCountsAppend([], d[0]);
    assert [] + [d[0]] == d[..1];
    SumCountsAppend(d[..1], d[1]);
    assert d[..1] + [d[1]] == d[..2];
    SumCountsAppend(d[..2], d[2]);
    assert d[..2] + [d[2]] == d[..3];
    SumCountsAppend(d[..3], d[3]);
    assert d[..3] + [d[3]] == d;
  }

  /** The four data sets handed to the charts. */
  datatype ChartData = ChartData(
    districtBars: seq<(string, nat)>,
    educationSlices: seq<(string, nat)>,
    genderBars: seq<(string, nat)>,
    ageBars: seq<(string, nat)>)

  /** The body of the charts section: each chart's entries are the tally of
      its key in first-seen order with display labels, and each chart's
      counts add up to the number of children shown. */
  method ChartsSection(children: seq<ChildRecord>) returns (d: ChartData)
    ensures d.districtBars == Relabel(Tally(Map(children, DistrictOf)), DistrictLabel)
    ensures d.educationSlices == Relabel(Tally(Map(children, EducationOf)), EducationSliceLabel)
    ensures d.genderBars == Relabel(Tally(Map(children, GenderOf)), GenderBarLabel)
    ensures d.ageBars == AgeChartData(AgeRanges(
              CountInBucket(children, UpToFive), CountInBucket(children, SixToTen),
              CountInBucket(children, ElevenToFifteen), CountInBucket(children, SixteenToEighteen)))
    ensures SumCounts(d.districtBars) == |children|
    ensures SumCounts(d.educationSlices) == |children|
    ensures SumCounts(d.genderBars) == |children|
    ensures SumCounts(d.ageBars) == |children|
  {
    var districtData := CountBy(Map(children, DistrictOf));
    var educationData := CountBy(Map(children, EducationOf));
    var genderData := CountBy(Map(children, GenderOf));
    var ageRanges := AgeDistribution(children);
    d := ChartData(
      Relabel(districtData, DistrictLabel),
      Relabel(educationData, EducationSliceLabel),
      Relabel(genderData, GenderBarLabel),
      AgeChartData(ageRanges));
    ChartTotal(Map(children, DistrictOf), DistrictLabel);
    ChartTotal(Map(children, EducationOf), EducationSliceLabel);
    ChartTotal(Map(children, GenderOf), GenderBarLabel);
    AgeChartTotal(ageRanges);
  }

  /** A labelled tally counts every value once. */
  lemma ChartTotal(values: seq<string>, show: string -> string)
    ensures SumCounts(Relabel(Tally(values), show)) == |values|
  {
    RelabelKeepsSum(Tally(values), show);
    TallyTotal(values);
  }

  /** One bar per distinct district, whatever the labels: two districts
      whose labels coincide keep separate bars. */
  lemma DistrictBarsPerDistrict(children: seq<ChildRecord>)
    ensures |Relabel(Tally(Map(children, DistrictOf)), DistrictLabel)| == |FirstSeen(Map(children, DistrictOf))|
    ensures forall i, j :: 0 <= i < j < |Tally(Map(children, DistrictOf))| ==>
              Tally(Map(children, DistrictOf))[i].0 != Tally(Map(children, DistrictOf))[j].0
  {
    TallyEntries(Map(children, DistrictOf));
  }

  // The example lemmas below take their string literals as parameters fixed
  // by `requires`: a literal written inside a proof body lets the verifier
  // unfold the recursive string functions on it without bound.

  /** "Mumbai Central" and "Mumbai North" both show as "Mumbai". */
  lemma DistrictLabelsCanCoincide(central: string, north: string)
    requires central == "Mumbai Central" && north == "Mumbai North"
    ensures DistrictLabel(central) == DistrictLabel(north) == "Mumbai"
  {
    MumbaiLabel(central, "Central");
    MumbaiLabel(north, "North");
  }

  lemma MumbaiLabel(d: string, rest: string)
    requires d == "Mumbai" + " " + rest
    ensures DistrictLabel(d) == "Mumbai"
  {
    BeforeFirstStops("Mumbai", rest, ' ');
  }

  /** The pie label of two words joined by `_` upper-cases the first letter
      and joins the words by a space. */
  lemma SliceLabelOfWords(first: char, a: string, b: string)
    requires '_' !in a
    ensures EducationSliceLabel([first] + a + "_" + b) == [UpperChar(first)] + a + " " + b
  {
    var s := [first] + a + "_" + b;
    assert s[1..] == a + "_" + b;
    ReplaceBetween(a, b, '_', ' ');
  }

  /** The pie label upper-cases the first letter only and turns only the
      first underscore into a space: `higher_secondary` is labelled
      "Higher secondary". */
  lemma EducationSliceLabelExample(s: string)
    requires s == "higher_secondary"
    ensures EducationSliceLabel(s) == "Higher secondary"
  {
    SliceLabelWords(s, 'h', "igher", "secondary", "Higher secondary");
  }

  lemma SliceLabelWords(s: string, first: char, a: string, b: string, shown: string)
    requires s == "higher_secondary" && first == 'h' && a == "igher" && b == "secondary"
    requires shown == "Higher secondary"
    ensures EducationSliceLabel(s) == shown
  {
    assert s == [first] + a + "_" + b;
    SliceLabelOfWords(first, a, b);
    JoinWords(UpperChar(first), a, b, shown);
  }

  lemma JoinWords(capital: char, a: string, b: string, shown: string)
    requires capital == 'H' && a == "igher" && b == "secondary" && shown == "Higher secondary"
    ensures [capital] + a + " " + b == shown
  {
  }

  /** Appending a child adds one to its own bucket only. */
  lemma CountInBucketSnoc(children: seq<ChildRecord>, c: ChildRecord, b: Bucket)
    ensures CountInBucket(children + [c], b) == CountInBucket(children, b) + (if BucketOf(c.age) == b then 1 else 0)
  {
    assert (children + [c])[..|children|] == children;
  }

  /** `[4, 6, 15, 19]` gives one child in each bucket: 19 counts as 16-18. */
  lemma AgeBucketsExample(a: ChildRecord, b: ChildRecord, c: ChildRecord, e: ChildRecord, k: Bucket)
    requires a.age == 4 && b.age == 6 && c.age == 15 && e.age == 19
    ensures CountInBucket([a, b, c, e], k) == 1
  {
    CountInBucketSnoc([], a, k);
    assert [] + [a] == [a];
    CountInBucketSnoc([a], b, k);
    assert [a] + [b] == [a, b];
    CountInBucketSnoc([a, b], c, k);
    assert [a, b] + [c] == [a, b, c];
    CountInBucketSnoc([a, b, c], e, k);
    assert [a, b, c] + [e] == [a, b, c, e];
  }
}
