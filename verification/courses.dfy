/** Course records as the scheduler receives them, already cleaned: the
    lecture, tutorial and practical counts are naturals (the source truncates
    them with `int`), a missing classroom has been replaced by a placeholder. */
module Courses {
  import opened Text

  datatype Course = Course(
    code: string,
    name: string,
    lectures: nat,    // L
    tutorials: nat,   // T
    practicals: nat,  // P
    faculty: string,
    classroom: string)

  /** An elective: the code mentions the basket `B1` or `B2`, or the name
      mentions "elective" in any ASCII letter case. */
  predicate IsElective(c: Course) {
    Contains(c.code, "B1") || Contains(c.code, "B2") || Contains(Lower(c.name), "elective")
  }

  /** Any spelling of "elective" in the name, whatever its letter case,
      makes the course an elective, whatever its code. */
  lemma ElectiveInAnyCase(c: Course, i: nat)
    requires i + 8 <= |c.name|
    requires Lower(c.name[i..i + 8]) == "elective"
    ensures IsElective(c)
  {
    LowerSlice(c.name, i, i + 8);
    assert OccursAt(Lower(c.name), "elective", i);
  }

  /** A course whose code has neither basket tag and whose lower-cased name
      nowhere spells "elective" is a regular course. */
  lemma RegularWhenNoMarker(c: Course)
    requires forall i: nat :: !OccursAt(c.code, "B1", i) && !OccursAt(c.code, "B2", i)
    requires forall i: nat :: !OccursAt(Lower(c.name), "elective", i)
    ensures !IsElective(c)
  {
  }
}
