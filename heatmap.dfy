/** The per-district aggregation of the geospatial heat map
    (src/components/dashboard/GeospatialHeatmap.tsx): one accumulator per
    district built in place, turned into regions sorted by density, and the
    colour and badge thresholds. */
module Heatmap {
  import opened Records
  import opened Seqs
  import Badge

  /** Average funding need per child. */
  const FundingPerChild: nat := 15000

  /** Running totals of one district; the random `currentFunding` is not
      part of the model. */
  datatype Accumulator = Accumulator(count: nat, verified: nat, locations: set<string>, fundingNeed: nat)

  function VerifiedIn(district: string): ChildRecord -> bool
  {
    (c: ChildRecord) => c.district == district && c.verified
  }

  /** The distinct locations of the children of `district`. */
  function Locations(children: seq<ChildRecord>, district: string): set<string>
  {
    set c | c in children && c.district == district :: c.location
  }

  /** The accumulator of `district` once `children` have been folded in one
      at a time: it starts empty, and a child of another district leaves it
      as it is. */
  function AccumulatorOf(children: seq<ChildRecord>, district: string): Accumulator
  {
    if children == [] then Accumulator(0, 0, {}, 0)
    else
      var n := |children| - 1;
      var a := AccumulatorOf(children[..n], district);
      if children[n].district == district then Fold(a, children[n]) else a
  }

  /** The in-place updates of one child: `count++`, `verified++` when
      verified, `locations.add(location)`, `fundingNeed += 15000`. */
  function Fold(a: Accumulator, c: ChildRecord): Accumulator
  {
    Accumulator(a.count + 1, if c.verified then a.verified + 1 else a.verified,
                a.locations + {c.location}, a.fundingNeed + FundingPerChild)
  }

  lemma CountStep(children: seq<ChildRecord>, c: ChildRecord, district: string)
    ensures multiset(Map(children + [c], DistrictOf))[district]
            == multiset(Map(children, DistrictOf))[district] + (if c.district == district then 1 else 0)
  {
    assert Map(children + [c], DistrictOf) == Map(children, DistrictOf) + [c.district];
  }

  lemma VerifiedStep(children: seq<ChildRecord>, c: ChildRecord, district: string)
    ensures |Filter(children + [c], VerifiedIn(district))|
            == |Filter(children, VerifiedIn(district))| + (if c.district == district && c.verified then 1 else 0)
  {
    FilterAppend(children, [c], VerifiedIn(district));
    FilterSingleton(c, VerifiedIn(district));
  }

  lemma LocationsStep(children: seq<ChildRecord>, c: ChildRecord, district: string)
    ensures Locations(children + [c], district)
            == if c.district == district then Locations(children, district) + {c.location}
               else Locations(children, district)
  {
    if c.district == district {
      assert Locations(children + [c], district) == Locations(children, district) + {c.location};
    } else {
      assert Locations(children + [c], district) == Locations(children, district);
    }
  }

  /** Folding in one more child updates only its own district's
      accumulator. */
  lemma AccumulatorStep(children: seq<ChildRecord>, c: ChildRecord, district: string)
    ensures AccumulatorOf(children + [c], district)
            == if c.district == district then Fold(AccumulatorOf(children, district), c)
               else AccumulatorOf(children, district)
  {
    assert (children + [c])[..|children|] == children;
  }

  /** What the fold computes: the number of the district's children, the
      number of those verified, the set of their locations, and 15000 per
      child. */
  lemma {:induction false} AccumulatorMeaning(children: seq<ChildRecord>, district: string)
    ensures var a := AccumulatorOf(children, district);
            && a.count == multiset(Map(children, DistrictOf))[district]
            && a.verified == |Filter(children, VerifiedIn(district))|
            && a.locations == Locations(children, district)
            && a.fundingNeed == FundingPerChild * a.count
  {
    if children != [] {
      var n := |children| - 1;
      var p, c := children[..n], children[n];
      assert children == p + [c];
      AccumulatorMeaning(p, district);
      CountStep(p, c, district);
      VerifiedStep(p, c, district);
      LocationsStep(p, c, district);
    }
  }

  /** A district not seen yet has an empty accumulator. */
  lemma AccumulatorEmpty(children: seq<ChildRecord>, district: string)
    requires district !in Map(children, DistrictOf)
    ensures AccumulatorOf(children, district) == Accumulator(0, 0, {}, 0)
  {
    forall i | 0 <= i < |children|
      ensures children[i].district != district
    {
      assert Map(children, DistrictOf)[i] == children[i].district;
    }
    FilterKeepsNone(children, VerifiedIn(district));
    AccumulatorMeaning(children, district);
    assert Locations(children, district) == {};
  }

  /** Every accumulator keeps verified and locations within the count, has
      at least one location once it has a child, and needs 15000 per
      child. */
  lemma {:induction false} AccumulatorBounds(children: seq<ChildRecord>, district: string)
    ensures var a := AccumulatorOf(children, district);
            a.verified <= a.count && |a.locations| <= a.count
            && (a.count > 0 ==> |a.locations| >= 1)
            && a.fundingNeed == FundingPerChild * a.count
  {
    if children != [] {
      var n := |children| - 1;
      var c, a := children[n], AccumulatorOf(children[..n], district);
      AccumulatorBounds(children[..n], district);
      if c.district == district {
        assert c.location in a.locations + {c.location};
        assert |a.locations + {c.location}| <= |a.locations| + 1;
      }
    }
  }

  /** One card of the heat map. */
  datatype Region = Region(
    district: string,
    count: nat,
    verified: nat,
    locations: nat,
    fundingNeed: nat,
    density: nat,
    priority: string)

  /** `count > 20 ? 'high' : count > 10 ? 'medium' : 'low'`. */
  function PriorityOf(count: int): (p: string)
    ensures p == "high" <==> count > 20
    ensures p == "medium" <==> 10 < count <= 20
    ensures p == "low" <==> count <= 10
  {
    if count > 20 then "high" else if count > 10 then "medium" else "low"
  }

  /** The `Object.entries(...).map` step for one district. */
  function ToRegion(district: string, a: Accumulator): Region
  {
    Region(district, a.count, a.verified, |a.locations|, a.fundingNeed, a.count, PriorityOf(a.count))
  }

  function DensityOf(r: Region): int
  {
    r.density
  }

  /** The region of each district of `districts`, in that order. */
  function RegionsFor(children: seq<ChildRecord>, districts: seq<string>): (r: seq<Region>)
    ensures |r| == |districts|
    ensures forall i :: 0 <= i < |districts| ==> r[i] == ToRegion(districts[i], AccumulatorOf(children, districts[i]))
  {
    seq(|districts|, i requires 0 <= i < |districts| => ToRegion(districts[i], AccumulatorOf(children, districts[i])))
  }

  /** The regions in key-insertion order, then stably sorted by descending
      density. */
  function HeatmapData(children: seq<ChildRecord>): seq<Region>
  {
    SortDesc(RegionsFor(children, FirstSeen(Map(children, DistrictOf))), DensityOf)
  }

  /** `order` and `acc` are the accumulators built over `children`: the
      districts in insertion order and each district's totals. */
  ghost predicate DistrictsOf(children: seq<ChildRecord>, order: seq<string>, acc: map<string, Accumulator>)
  {
    && order == FirstSeen(Map(children, DistrictOf))
    && (forall d :: d in acc <==> d in order)
    && (forall d :: d in acc ==> acc[d] == AccumulatorOf(children, d))
  }

  /** The key order after one more child: its district is appended when new. */
  lemma OrderStep(seen: seq<ChildRecord>, c: ChildRecord, order: seq<string>)
    requires order == FirstSeen(Map(seen, DistrictOf))
    ensures FirstSeen(Map(seen + [c], DistrictOf)) == if c.district in order then order else order + [c.district]
  {
    MapSnoc(seen, c, DistrictOf);
    FirstSeenSnoc(Map(seen, DistrictOf), c.district);
  }

  /** Folding one more child into `base`, its district's accumulator so
      far, keeps every accumulator equal to its district's totals. */
  lemma ValuesStep(seen: seq<ChildRecord>, c: ChildRecord, acc: map<string, Accumulator>, base: Accumulator)
    requires base == AccumulatorOf(seen, c.district)
    requires forall d :: d in acc ==> acc[d] == AccumulatorOf(seen, d)
    ensures forall d :: d in acc[c.district := Fold(base, c)] ==>
              acc[c.district := Fold(base, c)][d] == AccumulatorOf(seen + [c], d)
  {
    var next := acc[c.district := Fold(base, c)];
    forall d | d in next ensures next[d] == AccumulatorOf(seen + [c], d) {
      AccumulatorStep(seen, c, d);
    }
  }

  /** Folding a child of a district already present updates that district's
      accumulator in place. */
  lemma DistrictStepSeen(seen: seq<ChildRecord>, c: ChildRecord, order: seq<string>, acc: map<string, Accumulator>)
    requires DistrictsOf(seen, order, acc) && c.district in acc
    ensures DistrictsOf(seen + [c], order, acc[c.district := Fold(acc[c.district], c)])
  {
    OrderStep(seen, c, order);
    ValuesStep(seen, c, acc, acc[c.district]);
    KeysSame(order, acc, c.district, Fold(acc[c.district], c));
  }

  /** A child of a new district creates its empty accumulator, appends the
      district to the key order, and is then folded in. */
  lemma DistrictStepNew(seen: seq<ChildRecord>, c: ChildRecord, order: seq<string>, acc: map<string, Accumulator>)
    requires DistrictsOf(seen, order, acc) && c.district !in acc
    ensures DistrictsOf(seen + [c], order + [c.district], acc[c.district := Fold(Accumulator(0, 0, {}, 0), c)])
  {
    OrderStep(seen, c, order);
    AccumulatorEmpty(seen, c.district);
    ValuesStep(seen, c, acc, Accumulator(0, 0, {}, 0));
    KeysStep(order, acc, c.district, Fold(Accumulator(0, 0, {}, 0), c));
  }

  /** Updating a key already present leaves the key set as it is. */
  lemma KeysSame(order: seq<string>, acc: map<string, Accumulator>, d: string, a: Accumulator)
    requires forall k :: k in acc <==> k in order
    requires d in acc
    ensures forall k :: k in acc[d := a] <==> k in order
  {
  }

  /** Inserting a new key into the map and appending it to the order keeps
      the two in step. */
  lemma KeysStep(order: seq<string>, acc: map<string, Accumulator>, d: string, a: Accumulator)
    requires forall k :: k in acc <==> k in order
    ensures forall k :: k in acc[d := a] <==> k in order + [d]
  {
    forall k ensures k in acc[d := a] <==> k in order + [d] {
      assert k in order + [d] <==> k in order || k == d;
    }
  }

  /** The `reduce` of `processHeatmapData`: a district's accumulator is
      created the first time the district is seen and then updated in place;
      `order` is the order in which the keys were inserted. */
  method AccumulateDistricts(children: seq<ChildRecord>) returns (order: seq<string>, acc: map<string, Accumulator>)
    ensures DistrictsOf(children, order, acc)
  {
    order := [];
    acc := map[];
    for i := 0 to |children|
      invariant DistrictsOf(children[..i], order, acc)
    {
      var c := children[i];
      assert children[..i + 1] == children[..i] + [c];
      if c.district !in acc {
        DistrictStepNew(children[..i], c, order, acc);
        order := order + [c.district];
        acc := acc[c.district := Accumulator(0, 0, {}, 0)];
      } else {
        DistrictStepSeen(children[..i], c, order, acc);
      }
      acc := acc[c.district := Fold(acc[c.district], c)];
    }
    assert children[..|children|] == children;
  }

  /** `processHeatmapData`: the accumulators in key-insertion order become
      regions, sorted by descending density. */
  method ProcessHeatmapData(children: seq<ChildRecord>) returns (regions: seq<Region>)
    ensures regions == HeatmapData(children)
  {
    var order, acc := AccumulateDistricts(children);
    var unsorted := seq(|order|, j requires 0 <= j < |order| => ToRegion(order[j], acc[order[j]]));
    assert unsorted == RegionsFor(children, order);
    regions := SortDesc(unsorted, DensityOf);
  }

  /** Each region of the heat map is the region of its own district, which
      has at least one child. */
  lemma RegionsAreOwnDistricts(children: seq<ChildRecord>)
    ensures forall r :: r in HeatmapData(children) ==>
              r.district in Map(children, DistrictOf) && r == ToRegion(r.district, AccumulatorOf(children, r.district))
    ensures forall d :: d in Map(children, DistrictOf) ==>
              ToRegion(d, AccumulatorOf(children, d)) in HeatmapData(children)
  {
    var ds := FirstSeen(Map(children, DistrictOf));
    var unsorted := RegionsFor(children, ds);
    var sorted := HeatmapData(children);
    forall r | r in sorted
      ensures r.district in Map(children, DistrictOf) && r == ToRegion(r.district, AccumulatorOf(children, r.district))
    {
      assert r in multiset(sorted);
      assert r in multiset(unsorted);
      var i :| 0 <= i < |unsorted| && unsorted[i] == r;
      assert ds[i] in ds;
    }
    forall d | d in Map(children, DistrictOf)
      ensures ToRegion(d, AccumulatorOf(children, d)) in sorted
    {
      var i :| 0 <= i < |ds| && ds[i] == d;
      assert unsorted[i] in multiset(unsorted);
    }
  }

  /** One region per distinct district, covering every district of the
      input. */
  lemma HeatmapDistricts(children: seq<ChildRecord>)
    ensures forall i, j :: 0 <= i < j < |HeatmapData(children)| ==>
              HeatmapData(children)[i].district != HeatmapData(children)[j].district
    ensures forall d :: d in Map(children, DistrictOf) <==>
              exists i :: 0 <= i < |HeatmapData(children)| && HeatmapData(children)[i].district == d
  {
    var ds := FirstSeen(Map(children, DistrictOf));
    var unsorted := RegionsFor(children, ds);
    var sorted := HeatmapData(children);
    RegionsAreOwnDistricts(children);
    forall i, j | 0 <= i < j < |unsorted|
      ensures unsorted[i] != unsorted[j]
    {
      assert unsorted[i].district == ds[i];
    }
    PermutationKeepsDistinct(unsorted, sorted);
    forall i, j | 0 <= i < j < |sorted|
      ensures sorted[i].district != sorted[j].district
    {
      assert sorted[i] in sorted && sorted[j] in sorted;
    }
    forall d | d in Map(children, DistrictOf)
      ensures exists i :: 0 <= i < |sorted| && sorted[i].district == d
    {
      var r := ToRegion(d, AccumulatorOf(children, d));
      assert r in sorted;
      var i :| 0 <= i < |sorted| && sorted[i] == r;
    }
    forall d | exists i :: 0 <= i < |sorted| && sorted[i].district == d
      ensures d in Map(children, DistrictOf)
    {
      var i :| 0 <= i < |sorted| && sorted[i].district == d;
      assert sorted[i] in sorted;
    }
  }

  /** Every region keeps `0 <= verified <= count`,
      `1 <= locations <= count`, a need of 15000 per child, a density equal
      to its count and the priority of its count; the regions come in
      non-increasing density. */
  lemma HeatmapRegionFacts(children: seq<ChildRecord>)
    ensures SortedDesc(HeatmapData(children), DensityOf)
    ensures forall r :: r in HeatmapData(children) ==>
              r.verified <= r.count && 1 <= r.locations <= r.count
              && r.fundingNeed == FundingPerChild * r.count
              && r.density == r.count && r.priority == PriorityOf(r.count)
  {
    RegionsAreOwnDistricts(children);
    forall r | r in HeatmapData(children)
      ensures r.verified <= r.count && 1 <= r.locations <= r.count
              && r.fundingNeed == FundingPerChild * r.count
    {
      AccumulatorBounds(children, r.district);
      AccumulatorMeaning(children, r.district);
      assert r.district in multiset(Map(children, DistrictOf));
    }
  }

  /** The district counts add up to the number of children. */
  lemma HeatmapTotal(children: seq<ChildRecord>)
    ensures SumKey(HeatmapData(children), DensityOf) == |children|
  {
    var districts := Map(children, DistrictOf);
    var unsorted := RegionsFor(children, FirstSeen(districts));
    SortKeepsSum(unsorted, DensityOf);
    forall i | 0 <= i < |unsorted|
      ensures DensityOf(unsorted[i]) == Tally(districts)[i].1
    {
      AccumulatorMeaning(children, FirstSeen(districts)[i]);
    }
    SumKeyMatches(unsorted, DensityOf, Tally(districts));
    TallyTotal(districts);
  }

  /** Tailwind background classes of a heat-map cell. */
  datatype Color = Red | Orange | Yellow | Green

  /** `getDensityColor`. */
  function DensityColor(density: int): (c: Color)
    ensures c == Red <==> density > 20
    ensures c == Orange <==> 15 < density <= 20
    ensures c == Yellow <==> 10 < density <= 15
    ensures c == Green <==> density <= 10
  {
    if density > 20 then Red
    else if density > 15 then Orange
    else if density > 10 then Yellow
    else Green
  }

  /** `getFundingColor`, on an arbitrary integer gap. */
  function FundingColor(gap: int): (c: Color)
    ensures c == Red <==> gap > 100000
    ensures c == Orange <==> 50000 < gap <= 100000
    ensures c == Yellow <==> 25000 < gap <= 50000
    ensures c == Green <==> gap <= 25000
  {
    if gap > 100000 then Red
    else if gap > 50000 then Orange
    else if gap > 25000 then Yellow
    else Green
  }

  /** `getPriorityVariant`: any string other than the two named ones gets
      the default badge. */
  function PriorityVariant(priority: string): Badge.Variant
  {
    if priority == "high" then Badge.Destructive
    else if priority == "medium" then Badge.Secondary
    else Badge.Default
  }

  /** On a region, the priority badge and the density colour agree: high
      exactly when red, medium exactly when orange or yellow, low exactly
      when green. */
  lemma PriorityMatchesDensity(count: int)
    ensures PriorityVariant(PriorityOf(count)) == Badge.Destructive <==> DensityColor(count) == Red
    ensures PriorityVariant(PriorityOf(count)) == Badge.Secondary <==> DensityColor(count) in {Orange, Yellow}
    ensures PriorityVariant(PriorityOf(count)) == Badge.Default <==> DensityColor(count) == Green
  {
  }
}
