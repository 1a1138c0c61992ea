/** The test-type and multiple-comparison-correction strings the
    statistics functions dispatch on. Only the exact strings below are
    recognised; every other string, including the "superiority" and
    "two-tailed" labels of the regression fixtures, is kept as `Other`. */
module TestTypes {

  datatype TestType =
    | OneSided          // "one-sided"
    | TwoSided          // "two-sided"
    | NonInferiority    // "non-inferiority"
    | Equivalence       // "equivalence"
    | Other(name: string)

  datatype Correction =
    | NoCorrection      // "none"
    | Bonferroni        // "bonferroni"
    | Sidak             // "sidak"
    | UnknownCorrection(name: string)

  /** The string a recognised test type is written as. */
  function TestTypeName(t: TestType): string {
    match t
    case OneSided => "one-sided"
    case TwoSided => "two-sided"
    case NonInferiority => "non-inferiority"
    case Equivalence => "equivalence"
    case Other(name) => name
  }

  /** A test type is canonical unless it is an `Other` carrying one of the
      recognised strings. */
  predicate Canonical(t: TestType) {
    t.Other? ==> t.name !in {"one-sided", "two-sided", "non-inferiority", "equivalence"}
  }

  /** Strict equality on the four recognised strings. */
  function ParseTestType(s: string): (t: TestType)
    ensures Canonical(t)
    ensures TestTypeName(t) == s
  {
    if s == "one-sided" then OneSided
    else if s == "two-sided" then TwoSided
    else if s == "non-inferiority" then NonInferiority
    else if s == "equivalence" then Equivalence
    else Other(s)
  }

  /** Parsing inverts naming on canonical test types. */
  lemma ParseNameRoundTrip(t: TestType)
    requires Canonical(t)
    ensures ParseTestType(TestTypeName(t)) == t
  {
  }

  /** The fixture labels are not recognised. */
  lemma FixtureLabelsAreOther()
    ensures ParseTestType("superiority") == Other("superiority")
    ensures ParseTestType("two-tailed") == Other("two-tailed")
  {
  }

  function CorrectionName(c: Correction): string {
    match c
    case NoCorrection => "none"
    case Bonferroni => "bonferroni"
    case Sidak => "sidak"
    case UnknownCorrection(name) => name
  }

  /** Strict equality on "none", "bonferroni" and "sidak". */
  function ParseCorrection(s: string): (c: Correction)
    ensures CorrectionName(c) == s
    ensures c.UnknownCorrection? ==> s !in {"none", "bonferroni", "sidak"}
  {
    if s == "none" then NoCorrection
    else if s == "bonferroni" then Bonferroni
    else if s == "sidak" then Sidak
    else UnknownCorrection(s)
  }
}
