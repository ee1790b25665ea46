/**
 * The computer record of computer.py: four fields, an equality over all of
 * them and an order on (difficulty, risk factor, name).
 */
module Computers {
  import StringOrder

  /**
   * `risk_factor` is a float in the source; it is only ever compared here,
   * so it is modelled as a real (NaN is not modelled).
   */
  datatype Computer = Computer(name: string, hackingDifficulty: int, hackedValue: int, riskFactor: real)

  /** `a < b`: by difficulty, then by risk factor, then by name. */
  predicate Less(a: Computer, b: Computer)
    ensures Less(a, b) ==> a.hackingDifficulty <= b.hackingDifficulty
  {
    if a.hackingDifficulty != b.hackingDifficulty then a.hackingDifficulty < b.hackingDifficulty
    else if a.riskFactor != b.riskFactor then a.riskFactor < b.riskFactor
    else StringOrder.Less(a.name, b.name)
  }

  /** `a == b`: all four fields agree. */
  predicate Equal(a: Computer, b: Computer) {
    && a.name == b.name
    && a.hackingDifficulty == b.hackingDifficulty
    && a.hackedValue == b.hackedValue
    && a.riskFactor == b.riskFactor
  }

  /** The source's `==` is the structural equality of the record. */
  lemma EqualIsSameRecord(a: Computer, b: Computer)
    ensures Equal(a, b) <==> a == b
  {
  }

  lemma LessIrreflexive(a: Computer)
    ensures !Less(a, a)
  {
    StringOrder.LessIrreflexive(a.name);
  }

  /** Different difficulties decide the order on their own. */
  lemma LessByDifficulty(a: Computer, b: Computer)
    requires a.hackingDifficulty != b.hackingDifficulty
    ensures Less(a, b) <==> a.hackingDifficulty < b.hackingDifficulty
  {
  }

  /** Equal difficulties: the risk factor decides, then the name. */
  lemma LessOnTies(a: Computer, b: Computer)
    requires a.hackingDifficulty == b.hackingDifficulty
    ensures a.riskFactor != b.riskFactor ==> (Less(a, b) <==> a.riskFactor < b.riskFactor)
    ensures a.riskFactor == b.riskFactor ==> (Less(a, b) <==> StringOrder.Less(a.name, b.name))
  {
  }

  /**
   * Two computers that differ only in `hacked_value` are unordered both
   * ways and yet not equal.
   */
  lemma LessIgnoresHackedValue(a: Computer, b: Computer)
    requires a.name == b.name && a.hackingDifficulty == b.hackingDifficulty
    requires a.riskFactor == b.riskFactor && a.hackedValue != b.hackedValue
    ensures !Less(a, b) && !Less(b, a) && !Equal(a, b)
  {
    StringOrder.LessIrreflexive(a.name);
  }

  lemma LessTransitive(a: Computer, b: Computer, c: Computer)
    requires Less(a, b) && Less(b, c)
    ensures Less(a, c)
  {
    if a.hackingDifficulty == b.hackingDifficulty == c.hackingDifficulty
      && a.riskFactor == b.riskFactor == c.riskFactor
    {
      StringOrder.LessTransitive(a.name, b.name, c.name);
    }
  }
}
