/** The registry table (src/components/dashboard/ChildrenTable.tsx): badge
    variants of the education and health statuses, the display formatting
    of statuses and gender, and the header count. */
module ChildrenTable {
  import opened Records
  import opened Text
  import opened Seqs
  import Badge
  import Risk
  import Charts

  /** `getEducationBadgeVariant`: any unlisted status falls to the default
      branch, `secondary`. */
  function EducationBadgeVariant(status: string): Badge.Variant
  {
    if status == "none" then Badge.Destructive
    else if status == "primary" then Badge.Secondary
    else if status == "secondary" then Badge.Default
    else if status == "higher_secondary" then Badge.Default
    else if status == "vocational" then Badge.Default
    else Badge.Secondary
  }

  /** `getHealthBadgeVariant`: any unlisted status falls to the default
      branch, `secondary`. */
  function HealthBadgeVariant(status: string): Badge.Variant
  {
    if status == "excellent" then Badge.Default
    else if status == "good" then Badge.Secondary
    else if status == "fair" then Badge.Secondary
    else if status == "poor" then Badge.Destructive
    else if status == "critical" then Badge.Destructive
    else Badge.Secondary
  }

  /** On the schema's values, the education badge is destructive exactly for
      `none` (the 40-point risk weight) and secondary exactly for `primary`
      (the 25-point weight); every status without a risk weight is
      default. */
  lemma EducationBadgeMatchesRisk(e: EducationStatus)
    ensures EducationBadgeVariant(EducationLiteral(e)) == Badge.Destructive <==> Risk.EducationWeight(e) == 40
    ensures EducationBadgeVariant(EducationLiteral(e)) == Badge.Secondary <==> Risk.EducationWeight(e) == 25
    ensures EducationBadgeVariant(EducationLiteral(e)) == Badge.Default <==> Risk.EducationWeight(e) == 0
  {
  }

  /** On the schema's values, the health badge is destructive exactly for the
      statuses weighted 25 in the risk score; `fair` (weighted 15) and `good`
      (unweighted) share the secondary badge. */
  lemma HealthBadgeMatchesRisk(h: HealthStatus)
    ensures HealthBadgeVariant(HealthLiteral(h)) == Badge.Destructive <==> Risk.HealthWeight(h) == 25
    ensures HealthBadgeVariant(HealthLiteral(h)) == Badge.Secondary <==> h == Good || h == Fair
    ensures HealthBadgeVariant(HealthLiteral(h)) == Badge.Default <==> h == Excellent
  {
  }

  /** Each switch gives the secondary badge to every string outside its own
      enumeration, the other column's literals included. */
  lemma UnknownStatusIsSecondary(status: string)
    ensures (forall e :: status != EducationLiteral(e)) ==> EducationBadgeVariant(status) == Badge.Secondary
    ensures (forall h :: status != HealthLiteral(h)) ==> HealthBadgeVariant(status) == Badge.Secondary
  {
    if forall e :: status != EducationLiteral(e) {
      assert status != EducationLiteral(NoEducation) && status != EducationLiteral(Primary);
      assert status != EducationLiteral(Secondary) && status != EducationLiteral(HigherSecondary);
      assert status != EducationLiteral(Vocational);
    }
    if forall h :: status != HealthLiteral(h) {
      assert status != HealthLiteral(Excellent) && status != HealthLiteral(Good);
      assert status != HealthLiteral(Fair) && status != HealthLiteral(Poor);
      assert status != HealthLiteral(Critical);
    }
  }

  /** `formatEducationStatus`: split on `_`, capitalise each piece, join with
      spaces. */
  function FormatEducationStatus(status: string): string
  {
    Join(Map(Split(status, '_'), UpperFirst), " ")
  }

  /** The same formatting character by character: `_` becomes a space and
      the character after it (or the first character) is upper-cased. */
  function FormatFrom(s: string, atStart: bool): (r: string)
    ensures |r| == |s|
  {
    if s == [] then []
    else if s[0] == '_' then [' '] + FormatFrom(s[1..], true)
    else [if atStart then UpperChar(s[0]) else s[0]] + FormatFrom(s[1..], false)
  }

  /** What `FormatFrom` does at each position. */
  lemma {:induction false} FormatFromAt(s: string, atStart: bool, i: int)
    requires 0 <= i < |s|
    ensures s[i] == '_' ==> FormatFrom(s, atStart)[i] == ' '
    ensures s[i] != '_' && (if i == 0 then atStart else s[i - 1] == '_') ==> FormatFrom(s, atStart)[i] == UpperChar(s[i])
    ensures s[i] != '_' && !(if i == 0 then atStart else s[i - 1] == '_') ==> FormatFrom(s, atStart)[i] == s[i]
  {
    if i > 0 {
      FormatFromAt(s[1..], s[0] == '_', i - 1);
    }
  }

  function Capitalized(w: string, atStart: bool): string
  {
    if atStart then UpperFirst(w) else w
  }

  /** Joining with a first piece that starts with `x`. */
  lemma JoinFirstCons(x: char, w: string, ws: seq<string>, sep: string)
    ensures Join([[x] + w] + ws, sep) == [x] + Join([w] + ws, sep)
  {
    if ws != [] {
      assert ([[x] + w] + ws)[1..] == ws;
      assert ([w] + ws)[1..] == ws;
    }
  }

  /** The split-map-join formatting with the first piece capitalised only
      when `atStart`. */
  function SplitFormat(s: string, atStart: bool): string
  {
    var pieces := Split(s, '_');
    Join([Capitalized(pieces[0], atStart)] + Map(pieces[1..], UpperFirst), " ")
  }

  /** The split-map-join formatting is the character-wise one. */
  lemma {:induction false} SplitFormatIsFormatFrom(s: string, atStart: bool)
    ensures SplitFormat(s, atStart) == FormatFrom(s, atStart)
    decreases |s|, 1
  {
    if s != [] {
      if s[0] == '_' {
        SplitFormatUnderscore(s, atStart);
      } else {
        SplitFormatOther(s, atStart);
      }
    }
  }

  /** An underscore closes an empty first piece and starts a capitalised
      one. */
  lemma {:induction false} SplitFormatUnderscore(s: string, atStart: bool)
    requires s != [] && s[0] == '_'
    ensures SplitFormat(s, atStart) == FormatFrom(s, atStart)
    decreases |s|, 0
  {
    SplitFormatIsFormatFrom(s[1..], true);
    var rest := Split(s[1..], '_');
    var pieces := Split(s, '_');
    assert pieces == [""] + rest;
    assert pieces[1..] == rest;
    assert Map(rest, UpperFirst) == [UpperFirst(rest[0])] + Map(rest[1..], UpperFirst);
    assert [Capitalized("", atStart)] + Map(rest, UpperFirst) == [""] + Map(rest, UpperFirst);
  }

  /** Any other character joins the first piece, capitalised only when it
      starts a word. */
  lemma {:induction false} SplitFormatOther(s: string, atStart: bool)
    requires s != [] && s[0] != '_'
    ensures SplitFormat(s, atStart) == FormatFrom(s, atStart)
    decreases |s|, 0
  {
    SplitFormatIsFormatFrom(s[1..], false);
    var rest := Split(s[1..], '_');
    var tail := Map(rest[1..], UpperFirst);
    var pieces := Split(s, '_');
    assert pieces == [[s[0]] + rest[0]] + rest[1..];
    var c := if atStart then UpperChar(s[0]) else s[0];
    assert Capitalized(pieces[0], atStart) == [c] + rest[0];
    JoinFirstCons(c, rest[0], tail, " ");
  }

  lemma FormatIsFormatFrom(status: string)
    ensures FormatEducationStatus(status) == FormatFrom(status, true)
  {
    MapCons(Split(status, '_'), UpperFirst);
    SplitFormatIsFormatFrom(status, true);
  }

  /** `formatEducationStatus` preserves the length, turns every `_` into a
      space and upper-cases the first character and every character after a
      `_`; every other character is unchanged. */
  lemma FormatEducationStatusChars(status: string)
    ensures FormatEducationStatus(status) == FormatFrom(status, true)
    ensures |FormatEducationStatus(status)| == |status|
    ensures forall i :: 0 <= i < |status| && status[i] == '_' ==> FormatEducationStatus(status)[i] == ' '
    ensures forall i :: 0 <= i < |status| && status[i] != '_' && (i == 0 || status[i - 1] == '_') ==>
              FormatEducationStatus(status)[i] == UpperChar(status[i])
    ensures forall i :: 0 <= i < |status| && status[i] != '_' && i > 0 && status[i - 1] != '_' ==>
              FormatEducationStatus(status)[i] == status[i]
  {
    FormatIsFormatFrom(status);
    forall i | 0 <= i < |status|
      ensures status[i] == '_' ==> FormatEducationStatus(status)[i] == ' '
      ensures status[i] != '_' && (i == 0 || status[i - 1] == '_') ==>
              FormatEducationStatus(status)[i] == UpperChar(status[i])
      ensures status[i] != '_' && i > 0 && status[i - 1] != '_' ==>
              FormatEducationStatus(status)[i] == status[i]
    {
      FormatFromAt(status, true, i);
    }
  }

  // The example lemmas below take their string literals as parameters fixed
  // by `requires`: a literal written inside a proof body lets the verifier
  // unfold the recursive string functions on it without bound.

  /** `higher_secondary` reads "Higher Secondary" in the table. */
  lemma FormatHigherSecondary(s: string)
    requires s == "higher_secondary"
    ensures FormatEducationStatus(s) == "Higher Secondary"
  {
    HigherSecondaryPieces(s);
    HigherSecondaryWords(["higher", "secondary"]);
    assert Join(["Higher", "Secondary"], " ") == "Higher" + " " + "Secondary";
  }

  lemma HigherSecondaryPieces(s: string)
    requires s == "higher_secondary"
    ensures Split(s, '_') == ["higher", "secondary"]
  {
    assert s == "higher" + ['_'] + "secondary";
    assert '_' !in "higher" && '_' !in "secondary";
    SplitAtSeparator("higher", "secondary", '_');
    SplitWithoutSeparator("secondary", '_');
  }

  lemma HigherSecondaryWords(ws: seq<string>)
    requires ws == ["higher", "secondary"]
    ensures Map(ws, UpperFirst) == ["Higher", "Secondary"]
  {
    CapitaliseWord("higher", 'h', "igher");
    CapitaliseWord("secondary", 's', "econdary");
    assert UpperChar('h') == 'H' && UpperChar('s') == 'S';
    assert UpperFirst("higher") == "Higher";
    assert UpperFirst("secondary") == "Secondary";
    var m := Map(ws, UpperFirst);
    assert |m| == 2 && m[0] == "Higher" && m[1] == "Secondary";
  }

  lemma CapitaliseWord(w: string, first: char, rest: string)
    requires w == [first] + rest
    ensures UpperFirst(w) == [UpperChar(first)] + rest
  {
    assert w[1..] == rest;
  }

  /** The table capitalises every word of a status while the education pie
      chart capitalises only the first. */
  lemma TableAndChartLabelsDiffer(s: string)
    requires s == "higher_secondary"
    ensures FormatEducationStatus(s) == "Higher Secondary"
    ensures Charts.EducationSliceLabel(s) == "Higher secondary"
    ensures FormatEducationStatus(s) != Charts.EducationSliceLabel(s)
  {
    FormatHigherSecondary(s);
    Charts.EducationSliceLabelExample(s);
    CaseDiffers("Higher Secondary", "Higher secondary");
  }

  lemma CaseDiffers(a: string, b: string)
    requires a == "Higher Secondary" && b == "Higher secondary"
    ensures a != b
  {
    assert a[7] == 'S' && b[7] == 's';
  }

  /** `formatHealthStatus`. */
  function FormatHealthStatus(status: string): string
  {
    UpperFirst(status)
  }

  /** The health label of a record is its literal with an upper-case first
      letter; an empty status stays empty. */
  lemma FormatHealthStatusLabels(h: HealthStatus, status: string)
    ensures var lit := HealthLiteral(h);
            |FormatHealthStatus(lit)| == |lit| && 'A' <= FormatHealthStatus(lit)[0] <= 'Z'
            && FormatHealthStatus(lit)[1..] == lit[1..]
    ensures status == "" ==> FormatHealthStatus(status) == ""
    ensures |FormatHealthStatus(status)| == |status|
  {
  }

  /** The gender column: `gender.charAt(0).toUpperCase() + gender.slice(1)`. */
  function GenderDisplay(g: Gender): string
  {
    UpperFirst(GenderLiteral(g))
  }

  /** The table and the gender chart show a gender the same way, and
      distinct genders are shown differently. */
  lemma GenderDisplayFacts(g1: Gender, g2: Gender)
    ensures GenderDisplay(g1) == Charts.GenderBarLabel(GenderLiteral(g1))
    ensures GenderDisplay(g1) == GenderDisplay(g2) ==> g1 == g2
    ensures 'A' <= GenderDisplay(g1)[0] <= 'Z'
  {
    if GenderDisplay(g1) == GenderDisplay(g2) {
      var a, b := GenderLiteral(g1), GenderLiteral(g2);
      assert a[1..] == b[1..];
      assert UpperChar(a[0]) == UpperChar(b[0]);
      assert a == [a[0]] + a[1..] && b == [b[0]] + b[1..];
      LiteralsDistinct(g1, g2, NoEducation, NoEducation, Good, Good);
    }
  }

  /** The card title, `Children Registry (${children.length} total)`. */
  function RegistryTitle(children: seq<ChildRecord>): string
  {
    "Children Registry (" + NatToString(|children|) + " total)"
  }

  /** The number in the title is the number of children listed. */
  lemma RegistryTitleCount(children: seq<ChildRecord>)
    ensures var t := RegistryTitle(children);
            |t| >= 27 && (forall i :: 19 <= i < |t| - 7 ==> IsDigit(t[i]))
            && DigitsValue(t[19..|t| - 7]) == |children|
  {
    var t := RegistryTitle(children);
    var digits := NatToString(|children|);
    assert t[19..|t| - 7] == digits;
    NatToStringRoundTrip(|children|);
  }
}
