/** The row of the `children` table as the dashboard reads it
    (src/integrations/supabase/types.ts), with the enumerations of the
    database schema as datatypes and their wire literals. */
module Records {

  datatype Option<T> = None | Some(value: T)

  datatype Gender = Male | Female | Other

  datatype EducationStatus = NoEducation | Primary | Secondary | HigherSecondary | Vocational

  datatype HealthStatus = Excellent | Good | Fair | Poor | Critical

  /** One child record. `age` is an integer (the schema's `number`);
      `guardianName` is `null` or a string, possibly empty. */
  datatype ChildRecord = ChildRecord(
    id: string,
    name: string,
    age: int,
    gender: Gender,
    district: string,
    location: string,
    education: EducationStatus,
    health: HealthStatus,
    guardianName: Option<string>,
    verified: bool)

  function DistrictOf(c: ChildRecord): string
  {
    c.district
  }

  /** Lower-case ASCII letters and underscores, at least one character. */
  predicate IsLowerWord(s: string)
  {
    |s| > 0 && forall i :: 0 <= i < |s| ==> 'a' <= s[i] <= 'z' || s[i] == '_'
  }

  function GenderLiteral(g: Gender): (r: string)
    ensures IsLowerWord(r)
  {
    match g
    case Male => "male"
    case Female => "female"
    case Other => "other"
  }

  function EducationLiteral(e: EducationStatus): (r: string)
    ensures IsLowerWord(r)
  {
    match e
    case NoEducation => "none"
    case Primary => "primary"
    case Secondary => "secondary"
    case HigherSecondary => "higher_secondary"
    case Vocational => "vocational"
  }

  function HealthLiteral(h: HealthStatus): (r: string)
    ensures IsLowerWord(r)
  {
    match h
    case Excellent => "excellent"
    case Good => "good"
    case Fair => "fair"
    case Poor => "poor"
    case Critical => "critical"
  }

  /** Distinct enumeration values have distinct literals. */
  lemma LiteralsDistinct(g1: Gender, g2: Gender, e1: EducationStatus, e2: EducationStatus,
                         h1: HealthStatus, h2: HealthStatus)
    ensures GenderLiteral(g1) == GenderLiteral(g2) ==> g1 == g2
    ensures EducationLiteral(e1) == EducationLiteral(e2) ==> e1 == e2
    ensures HealthLiteral(h1) == HealthLiteral(h2) ==> h1 == h2
  {
  }
}

/** The `variant` of a shadcn `Badge`. */
module Badge {
  datatype Variant = Default | Secondary | Destructive
}
