/** The dashboard page (src/pages/Dashboard.tsx): the filter record and its
    conjunctive filter over the fetched children, the page state that
    re-filters after every change, the summary counts, and the CSV text of
    the export. */
module Dashboard {
  import opened Records
  import opened Text
  import opened Seqs

  /** The filter record of the page; every field holds the label chosen in
      the filter panel. */
  datatype FilterSpec = FilterSpec(
    district: string,
    ageGroup: string,
    gender: string,
    educationStatus: string,
    search: string)

  const InitialFilters := FilterSpec("All Districts", "All Ages", "All Genders", "All Education Levels", "")

  /** `ageRanges[label] || [0, 100]`: the inclusive bounds of an age bracket
      label, with [0, 100] for any label that is not one of the four. */
  datatype AgeRange = AgeRange(min: int, max: int)

  function AgeBounds(group: string): AgeRange
  {
    if group == "0-5 years" then AgeRange(0, 5)
    else if group == "6-10 years" then AgeRange(6, 10)
    else if group == "11-15 years" then AgeRange(11, 15)
    else if group == "16-18 years" then AgeRange(16, 18)
    else AgeRange(0, 100)
  }

  predicate SearchPasses(spec: FilterSpec, c: ChildRecord)
  {
    spec.search == ""
    || Includes(Lower(c.name), Lower(spec.search))
    || Includes(Lower(c.location), Lower(spec.search))
  }

  predicate DistrictPasses(spec: FilterSpec, c: ChildRecord)
  {
    spec.district == "All Districts" || c.district == spec.district
  }

  predicate GenderPasses(spec: FilterSpec, c: ChildRecord)
  {
    spec.gender == "All Genders" || GenderLiteral(c.gender) == Lower(spec.gender)
  }

  predicate EducationPasses(spec: FilterSpec, c: ChildRecord)
  {
    spec.educationStatus == "All Education Levels"
    || EducationLiteral(c.education) == ReplaceFirst(Lower(spec.educationStatus), ' ', '_')
  }

  predicate AgePasses(spec: FilterSpec, c: ChildRecord)
  {
    spec.ageGroup == "All Ages"
    || (AgeBounds(spec.ageGroup).min <= c.age && c.age <= AgeBounds(spec.ageGroup).max)
  }

  /** The callback given to `children.filter` in `applyFilters`. */
  predicate Matches(spec: FilterSpec, c: ChildRecord)
  {
    SearchPasses(spec, c) && DistrictPasses(spec, c) && GenderPasses(spec, c)
    && EducationPasses(spec, c) && AgePasses(spec, c)
  }

  function Matcher(spec: FilterSpec): ChildRecord -> bool
  {
    c => Matches(spec, c)
  }

  /** `children.filter(...)` in `applyFilters`: exactly the children that
      pass every criterion, each as often as in the input, in input order. */
  function FilterChildren(children: seq<ChildRecord>, spec: FilterSpec): (r: seq<ChildRecord>)
    ensures forall i :: 0 <= i < |r| ==> Matches(spec, r[i])
    ensures forall c :: multiset(r)[c] == if Matches(spec, c) then multiset(children)[c] else 0
    ensures IsSubsequence(r, children)
  {
    FilterContents(children, Matcher(spec));
    Filter(children, Matcher(spec))
  }

  /** Re-applying the same filters to the filtered list changes nothing. */
  lemma FilterChildrenIdempotent(children: seq<ChildRecord>, spec: FilterSpec)
    ensures FilterChildren(FilterChildren(children, spec), spec) == FilterChildren(children, spec)
  {
    FilterIdempotent(children, Matcher(spec));
  }

  /** The initial filters keep every child, in order. */
  lemma InitialFiltersKeepAll(children: seq<ChildRecord>)
    ensures FilterChildren(children, InitialFilters) == children
  {
    FilterKeepsAll(children, Matcher(InitialFilters));
  }

  /** A non-empty search keeps a child exactly when the lower-cased search
      text occurs in the lower-cased name or the lower-cased location. */
  lemma SearchIsSubstring(spec: FilterSpec, c: ChildRecord)
    requires spec.search != ""
    ensures SearchPasses(spec, c) <==>
              (exists i :: OccursAt(Lower(c.name), Lower(spec.search), i))
              || (exists i :: OccursAt(Lower(c.location), Lower(spec.search), i))
  {
    IncludesIffOccurs(Lower(c.name), Lower(spec.search));
    IncludesIffOccurs(Lower(c.location), Lower(spec.search));
  }

  /** Searching "asha" over Asha of Pune and Ravi of Delhi keeps only
      Asha. */
  lemma SearchExample(a: ChildRecord, b: ChildRecord)
    requires a.name == "Asha" && a.location == "Pune"
    requires b.name == "Ravi" && b.location == "Delhi"
    ensures FilterChildren([a, b], InitialFilters.(search := "asha")) == [a]
  {
    var spec := InitialFilters.(search := "asha");
    assert Lower("asha") == "asha" && Lower("Asha") == "asha";
    assert Lower("Ravi") == "ravi" && Lower("Delhi") == "delhi";
    RaviExcluded("ravi", "asha");
    DelhiExcluded("delhi", "asha");
    assert Matches(spec, a) && !Matches(spec, b);
    FilterCons(a, [b], Matcher(spec));
    FilterSingleton(b, Matcher(spec));
  }

  // `RaviExcluded`, `DelhiExcluded` and `FirstSpaceAtSix` take their string
  // literals as parameters fixed by `requires`: a literal written inside a
  // proof body lets the verifier unfold `Includes` and `ReplaceFirst` on it
  // without bound.
  lemma RaviExcluded(s: string, p: string)
    requires s == "ravi" && p == "asha"
    ensures !Includes(s, p)
  {
    assert s[0] != p[0];
    ShorterExcludes(s[1..], p);
  }

  lemma DelhiExcluded(s: string, p: string)
    requires s == "delhi" && p == "asha"
    ensures !Includes(s, p)
  {
    assert s[0] != p[0] && s[1] != p[0];
    assert s[1..][0] == s[1];
    ShorterExcludes(s[2..], p);
    assert s[1..][1..] == s[2..];
  }

  /** The search is case-insensitive: changing the case of the search text
      does not change which children pass. */
  lemma SearchIgnoresCase(spec: FilterSpec, c: ChildRecord)
    requires spec.search != ""
    ensures SearchPasses(spec, c) == SearchPasses(spec.(search := Lower(spec.search)), c)
  {
    LowerIdempotent(spec.search);
  }

  /** The education labels of the filter panel, lower-cased with the first
      space replaced by `_`, are the status literals. */
  lemma EducationLabelsNormalise()
    ensures ReplaceFirst(Lower("None"), ' ', '_') == EducationLiteral(NoEducation)
    ensures ReplaceFirst(Lower("Primary"), ' ', '_') == EducationLiteral(Primary)
    ensures ReplaceFirst(Lower("Secondary"), ' ', '_') == EducationLiteral(Secondary)
    ensures ReplaceFirst(Lower("Higher Secondary"), ' ', '_') == EducationLiteral(HigherSecondary)
    ensures ReplaceFirst(Lower("Vocational"), ' ', '_') == EducationLiteral(Vocational)
  {
    assert Lower("None") == "none";
    assert Lower("Primary") == "primary";
    assert Lower("Secondary") == "secondary";
    assert Lower("Vocational") == "vocational";
    HigherSecondaryLabel();
  }

  lemma HigherSecondaryLabel()
    ensures ReplaceFirst(Lower("Higher Secondary"), ' ', '_') == "higher_secondary"
  {
    assert Lower("Higher Secondary") == "higher secondary";
    FirstSpaceAtSix(Lower("Higher Secondary"), "higher", "secondary");
  }

  lemma FirstSpaceAtSix(s: string, a: string, b: string)
    requires a == "higher" && b == "secondary" && s == a + " " + b
    ensures ReplaceFirst(s, ' ', '_') == "higher_secondary"
  {
    ReplaceBetween(a, b, ' ', '_');
    assert a + "_" + b == "higher_secondary";
  }

  /** Each education label of the filter panel selects exactly the children
      with the matching status; "Higher Secondary" selects
      `higher_secondary`. */
  lemma EducationLabelsSelect(c: ChildRecord, e: EducationStatus)
    ensures EducationPasses(InitialFilters.(educationStatus := EducationOption(e)), c) <==> c.education == e
  {
    EducationLabelsNormalise();
    LiteralsDistinct(Male, Male, c.education, e, Good, Good);
  }

  /** Only the first space of an education label becomes an underscore. */
  lemma EducationLabelFirstSpaceOnly()
    ensures ReplaceFirst(Lower("A B C"), ' ', '_') == "a_b c"
  {
    assert Lower("A B C") == "a b c";
  }

  /** Each gender label of the filter panel selects exactly that gender. */
  lemma GenderLabelsSelect(c: ChildRecord, g: Gender)
    ensures GenderPasses(InitialFilters.(gender := GenderOption(g)), c) <==> c.gender == g
  {
    assert Lower("Male") == "male";
    assert Lower("Female") == "female";
    assert Lower("Other") == "other";
    LiteralsDistinct(c.gender, g, Primary, Primary, Good, Good);
  }

  /** A bracket label keeps exactly the ages within its bounds; an
      unrecognised label keeps the ages 0 to 100. */
  lemma AgeLabelsSelect(spec: FilterSpec, c: ChildRecord)
    ensures spec.ageGroup == "All Ages" ==> AgePasses(spec, c)
    ensures spec.ageGroup == "0-5 years" ==> (AgePasses(spec, c) <==> 0 <= c.age <= 5)
    ensures spec.ageGroup == "6-10 years" ==> (AgePasses(spec, c) <==> 6 <= c.age <= 10)
    ensures spec.ageGroup == "11-15 years" ==> (AgePasses(spec, c) <==> 11 <= c.age <= 15)
    ensures spec.ageGroup == "16-18 years" ==> (AgePasses(spec, c) <==> 16 <= c.age <= 18)
    ensures (spec.ageGroup !in {"All Ages", "0-5 years", "6-10 years", "11-15 years", "16-18 years"}) ==>
              (AgePasses(spec, c) <==> 0 <= c.age <= 100)
  {
  }

  /** The option labels of the filter panel (DataFilters.tsx). */
  function EducationOption(e: EducationStatus): string
  {
    match e
    case NoEducation => "None"
    case Primary => "Primary"
    case Secondary => "Secondary"
    case HigherSecondary => "Higher Secondary"
    case Vocational => "Vocational"
  }

  function GenderOption(g: Gender): string
  {
    match g
    case Male => "Male"
    case Female => "Female"
    case Other => "Other"
  }

  /** The page state: the fetched children, the filter record and the
      filtered list that the effect on `[children, filters]` recomputes. */
  class DashboardState {
    var children: seq<ChildRecord>
    var filters: FilterSpec
    var filteredChildren: seq<ChildRecord>

    /** After every effect has run, the filtered list is the filter applied
        to the children. */
    ghost predicate Valid()
      reads this
    {
      filteredChildren == FilterChildren(children, filters)
    }

    constructor ()
      ensures Valid()
      ensures children == [] && filters == InitialFilters && filteredChildren == []
    {
      children := [];
      filters := InitialFilters;
      filteredChildren := [];
    }

    /** `applyFilters`: recompute the filtered list. */
    method ApplyFilters()
      modifies this`filteredChildren
      ensures filteredChildren == FilterChildren(children, filters)
      ensures Valid()
    {
      filteredChildren := FilterChildren(children, filters);
    }

    /** `setChildren(...)` after a fetch (an empty list on failure), followed
        by the effect that re-applies the filters. */
    method SetChildren(fetched: seq<ChildRecord>)
      modifies this
      ensures children == fetched && filters == old(filters)
      ensures Valid()
    {
      children := fetched;
      ApplyFilters();
    }

    /** `handleFilterChange(key, value)`: `{ ...prev, [key]: value }`. A key
        that is not one of the five filter fields adds a property no
        criterion reads, so the five fields stay as they were. The effect
        then re-applies the filters. */
    method HandleFilterChange(key: string, value: string)
      modifies this
      ensures children == old(children)
      ensures key == "district" ==> filters == old(filters).(district := value)
      ensures key == "ageGroup" ==> filters == old(filters).(ageGroup := value)
      ensures key == "gender" ==> filters == old(filters).(gender := value)
      ensures key == "educationStatus" ==> filters == old(filters).(educationStatus := value)
      ensures key == "search" ==> filters == old(filters).(search := value)
      ensures key !in {"district", "ageGroup", "gender", "educationStatus", "search"} ==> filters == old(filters)
      ensures Valid()
    {
      if key == "district" {
        filters := filters.(district := value);
      } else if key == "ageGroup" {
        filters := filters.(ageGroup := value);
      } else if key == "gender" {
        filters := filters.(gender := value);
      } else if key == "educationStatus" {
        filters := filters.(educationStatus := value);
      } else if key == "search" {
        filters := filters.(search := value);
      }
      ApplyFilters();
    }
  }

  /** The summary cards. They count all fetched children, not the filtered
      list. */
  datatype DashboardStats = DashboardStats(
    totalChildren: nat,
    educatedChildren: nat,
    healthyChildren: nat,
    impactGrowth: int)

  predicate IsEducated(c: ChildRecord)
  {
    c.education != NoEducation
  }

  predicate HasNoEducation(c: ChildRecord)
  {
    c.education == NoEducation
  }

  predicate IsHealthy(c: ChildRecord)
  {
    c.health == Excellent || c.health == Good
  }

  function EducationStatusOf(c: ChildRecord): EducationStatus
  {
    c.education
  }

  function HealthOf(c: ChildRecord): HealthStatus
  {
    c.health
  }

  /** The educated count is everyone but the `none` occurrences; the healthy
      count is the `excellent` plus the `good` occurrences. */
  lemma {:induction false} StatusCounts(children: seq<ChildRecord>)
    ensures |Filter(children, IsEducated)| + multiset(Map(children, EducationStatusOf))[NoEducation] == |children|
    ensures |Filter(children, IsHealthy)|
      == multiset(Map(children, HealthOf))[Excellent] + multiset(Map(children, HealthOf))[Good]
  {
    if children != [] {
      var c := children[0];
      assert children == [c] + children[1..];
      FilterCons(c, children[1..], IsEducated);
      FilterCons(c, children[1..], IsHealthy);
      MapCons(children, EducationStatusOf);
      MapCons(children, HealthOf);
      StatusCounts(children[1..]);
    }
  }

  function Stats(children: seq<ChildRecord>): (s: DashboardStats)
    ensures s.totalChildren == |children|
    ensures s.educatedChildren == |children| - multiset(Map(children, EducationStatusOf))[NoEducation]
    ensures s.healthyChildren
      == multiset(Map(children, HealthOf))[Excellent] + multiset(Map(children, HealthOf))[Good]
    ensures s.educatedChildren <= s.totalChildren && s.healthyChildren <= s.totalChildren
    ensures s.impactGrowth == 24
  {
    StatusCounts(children);
    DashboardStats(|children|, |Filter(children, IsEducated)|, |Filter(children, IsHealthy)|, 24)
  }

  /** Every child is counted as educated or as having no education, never
      both. */
  lemma EducatedComplement(children: seq<ChildRecord>)
    ensures Stats(children).educatedChildren + |Filter(children, HasNoEducation)| == |children|
  {
    FilterComplement(children, IsEducated, HasNoEducation);
  }

  const CsvColumns := ["Name", "Age", "Gender", "District", "Location", "Education", "Health"]

  /** "Name,Age,Gender,District,Location,Education,Health" */
  const CsvHeader := Join(CsvColumns, ",")

  const DataUriPrefix := "data:text/csv;charset=utf-8,"

  /** The seven exported fields of a child, in column order. */
  function CsvFields(c: ChildRecord): seq<string>
  {
    [c.name, IntToString(c.age), GenderLiteral(c.gender), c.district, c.location,
     EducationLiteral(c.education), HealthLiteral(c.health)]
  }

  /** One CSV line: the fields joined by commas, nothing quoted. */
  function CsvRow(c: ChildRecord): string
  {
    Join(CsvFields(c), ",")
  }

  /** The header line, a line break, and the rows joined by line breaks. */
  function CsvText(rows: seq<ChildRecord>): string
  {
    CsvHeader + "\n" + Join(Map(rows, CsvRow), "\n")
  }

  /** `csvContent` of `handleExportData`, before `encodeURI`. */
  function CsvContent(filteredChildren: seq<ChildRecord>): string
  {
    DataUriPrefix + CsvText(filteredChildren)
  }

  /** A field made of digits, a minus sign and lower-case letters holds no
      comma and no line break. */
  lemma CodedFieldsAvoid(c: ChildRecord, ch: char)
    requires ch == ',' || ch == '\n'
    ensures ch !in IntToString(c.age)
    ensures ch !in GenderLiteral(c.gender)
    ensures ch !in EducationLiteral(c.education)
    ensures ch !in HealthLiteral(c.health)
  {
  }

  /** Splitting a row on commas gives back the seven fields when the free
      text fields hold no comma. */
  lemma CsvRowRoundTrip(c: ChildRecord)
    requires ',' !in c.name && ',' !in c.district && ',' !in c.location
    ensures Split(CsvRow(c), ',') == CsvFields(c)
  {
    CodedFieldsAvoid(c, ',');
    SplitJoin(CsvFields(c), ',');
  }

  /** Splitting the CSV text on line breaks gives the header and one row per
      child, in order, when no free text field holds a line break. With no
      children the text ends in a line break and the last piece is empty. */
  lemma CsvLines(rows: seq<ChildRecord>)
    requires forall i :: 0 <= i < |rows| ==>
               '\n' !in rows[i].name && '\n' !in rows[i].district && '\n' !in rows[i].location
    ensures |rows| > 0 ==> Split(CsvText(rows), '\n') == [CsvHeader] + Map(rows, CsvRow)
    ensures rows == [] ==> Split(CsvText(rows), '\n') == [CsvHeader, ""]
  {
    var lines := Map(rows, CsvRow);
    JoinAvoids(CsvColumns, ",", '\n');
    forall i | 0 <= i < |lines| ensures '\n' !in lines[i] {
      CodedFieldsAvoid(rows[i], '\n');
      JoinAvoids(CsvFields(rows[i]), ",", '\n');
    }
    if rows == [] {
      assert CsvText(rows) == CsvHeader + ['\n'] + "";
      SplitAtSeparator(CsvHeader, "", '\n');
    } else {
      var all := [CsvHeader] + lines;
      assert all[1..] == lines;
      assert Join(all, "\n") == CsvText(rows);
      SplitJoin(all, '\n');
    }
  }
}
