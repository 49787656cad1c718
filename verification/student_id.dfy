/** The `StudentId` value object: a trimmed identifier of 3 to 50 characters. */
module StudentIds {
  import opened Wrappers
  import opened Text
  import opened DomainConstants
  import opened DomainExceptions

  datatype StudentId = StudentId(value: string) {

    /** What `create` guarantees of every identifier it hands out. */
    predicate Valid() {
      && MinStudentIdLength <= |value| <= MaxStudentIdLength
      && IsTrimmed(value)
    }

    function GetValue(): string {
      value
    }

    /** Identifiers are equal exactly when their values are. */
    function Equals(other: StudentId): (b: bool)
      ensures b <==> this == other
    {
      value == other.value
    }

    function ToString(): (s: string)
      ensures s == GetValue()
    {
      value
    }
  }

  /** `StudentId.create`: an input that is empty or whitespace only is
      refused first; then the trimmed length must lie in [3, 50]; the trimmed
      form is what is stored. */
  function Create(raw: string): (r: Result<StudentId, DomainError>)
    ensures r.Success? <==> MinStudentIdLength <= |Trim(raw)| <= MaxStudentIdLength
    ensures r.Success? ==> r.value.GetValue() == Trim(raw) && r.value.Valid()
    ensures AllWhitespace(raw) ==> r == Failure(InvalidValue("StudentId", CannotBeEmpty))
    ensures !AllWhitespace(raw) && !(MinStudentIdLength <= |Trim(raw)| <= MaxStudentIdLength) ==>
              r == Failure(InvalidValue("StudentId",
                                        LengthMustBeBetween(MinStudentIdLength, MaxStudentIdLength)))
  {
    var trimmed := Trim(raw);
    if |raw| == 0 || |trimmed| == 0 then
      Failure(InvalidValue("StudentId", CannotBeEmpty))
    else if |trimmed| < MinStudentIdLength || |trimmed| > MaxStudentIdLength then
      Failure(InvalidValue("StudentId", LengthMustBeBetween(MinStudentIdLength, MaxStudentIdLength)))
    else
      Success(StudentId(trimmed))
  }

  /** Creating an identifier from the value of one already created gives it
      back unchanged. */
  lemma CreateIdempotent(raw: string)
    requires Create(raw).Success?
    ensures Create(Create(raw).value.GetValue()) == Create(raw)
  {
    TrimIdempotent(raw);
  }

  /** A valid identifier is the trim of its own value, so a raw string with
      whitespace around it is never equal to a stored identifier. */
  lemma ValidIdIsFixedByTrim(id: StudentId)
    requires id.Valid()
    ensures Trim(id.GetValue()) == id.GetValue()
  {
    TrimOfTrimmed(id.value);
  }

  /** Surrounding whitespace is dropped before the identifier is stored. */
  lemma CreateTrimsExample()
    ensures Create("  U202012345  ") == Success(StudentId("U202012345"))
  {
    var s := "  U202012345  ";
    assert !IsWhitespace(s[2]) && !IsWhitespace(s[11]);
    assert SkipLeading(s, 1) == 2;
    assert SkipLeading(s, 0) == 2;
    assert SkipTrailing(s, 2, 13) == 12;
    assert SkipTrailing(s, 2, 14) == 12;
    assert Trim(s) == s[2..12];
    assert s[2..12] == "U202012345";
  }

  /** Empty and blank inputs are refused as empty, a two-character one as too short. */
  lemma CreateRefusalExamples()
    ensures Create("") == Failure(InvalidValue("StudentId", CannotBeEmpty))
    ensures Create("   ") == Failure(InvalidValue("StudentId", CannotBeEmpty))
    ensures Create("AB") == Failure(InvalidValue("StudentId", LengthMustBeBetween(3, 50)))
  {
    assert AllWhitespace("   ") by {
      assert forall k :: 0 <= k < 3 ==> "   "[k] == ' ';
    }
    assert !AllWhitespace("AB") by { assert !IsWhitespace("AB"[0]); }
    assert Trim("AB") == "AB";
  }
}
