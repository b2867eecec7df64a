/**
 * The patient risk scorer: three sub-scores (temperature, blood pressure, age)
 * computed from a loosely typed patient record, combined into a risk flag, a
 * fever flag and the text of the last validation error.
 */
module Algorithm {
  import opened Wrappers
  import opened JsText

  // ---------------------------------------------------------------------------
  // Data model
  // ---------------------------------------------------------------------------

  /** A record field as it arrives at run time: absent (null or undefined), a number, or a string. */
  datatype Field = Missing | Num(x: real) | Str(s: string)

  /** The fields of a patient record the scorer reads. */
  datatype Patient = Patient(patientId: Field, bloodPressure: Field, temperature: Field, age: Field)

  /** The object the scorer returns. */
  datatype Assessment = Assessment(patientId: Field, hasHighRiskScore: bool, hasFever: bool, errorCode: string)

  /** The messages of the errors the helpers throw. */
  datatype ErrorKind = IsInvalid | MissingSystolic | MissingDiastolic | IsNotNumber

  function ErrorName(k: ErrorKind): string {
    match k
    case IsInvalid => "is_invalid"
    case MissingSystolic => "missing_systolic"
    case MissingDiastolic => "missing_diastolic"
    case IsNotNumber => "is_not_number"
  }

  const ErrorPrefix: string := "Error: "

  /** The template string `${error}` of a thrown `Error`: its name, a colon and its message. */
  function ErrorText(k: ErrorKind): (t: string)
    ensures |t| > |ErrorPrefix| && t[..|ErrorPrefix|] == ErrorPrefix
    ensures t[|ErrorPrefix|..] == ErrorName(k)
  {
    ErrorPrefix + ErrorName(k)
  }

  /** The message of the error the exported entry point throws for a null record. */
  const NullPatientMessage: string := "Please provide a valid data object"

  /** The nullish-coalescing operator `f ?? default`. */
  function OrElse(f: Field, default: Field): Field {
    if f.Missing? then default else f
  }

  // ---------------------------------------------------------------------------
  // isValidNumber
  // ---------------------------------------------------------------------------

  /**
   * `isValidNumber`: a non-number is `is_not_number`, a number below 1 is
   * `is_invalid`; on success the checked number is passed on.
   */
  function IsValidNumber(v: Field): (r: Result<real, ErrorKind>)
    ensures r.Success? <==> v.Num? && v.x >= 1.0
    ensures r.Success? ==> r.value == v.x
    ensures r == Failure(IsNotNumber) <==> !v.Num?
    ensures r == Failure(IsInvalid) <==> v.Num? && v.x < 1.0
  {
    if !v.Num? then Failure(IsNotNumber)
    else if v.x < 1.0 then Failure(IsInvalid)
    else Success(v.x)
  }

  // ---------------------------------------------------------------------------
  // temperatureRisk
  // ---------------------------------------------------------------------------

  /**
   * The temperature table, first match: at most 99.5 scores 0, 99.6 to 100.9
   * scores 1, from 101 scores 2; a reading in neither gap-free band keeps 0.
   */
  function TemperatureTier(t: real): (r: nat)
    ensures r <= 2
    ensures r == 2 <==> t >= 101.0
    ensures r == 1 <==> 99.6 <= t <= 100.9
  {
    if t <= 99.5 then 0
    else if 99.6 <= t <= 100.9 then 1
    else if t >= 101.0 then 2
    else 0
  }

  /** What `temperatureRisk` returns: the checked temperature and its sub-score. */
  datatype TemperatureReading = TemperatureReading(temperature: real, temperatureRisk: nat)

  function TemperatureRisk(v: Field): (r: Result<TemperatureReading, ErrorKind>)
    ensures r.Success? <==> v.Num? && v.x >= 1.0
    ensures r.Success? ==> r.value.temperature == v.x && r.value.temperatureRisk == TemperatureTier(v.x)
    ensures r.Failure? ==> r == IsValidNumber(v).PropagateFailure()
  {
    var t :- IsValidNumber(v);
    Success(TemperatureReading(t, TemperatureTier(t)))
  }

  // ---------------------------------------------------------------------------
  // ageRisk
  // ---------------------------------------------------------------------------

  /**
   * The age table: under 40 scores 0, 40 to 65 inclusive scores 1, over 65
   * scores 2. The three rows cover every age, so the initial 0 is never kept.
   */
  function AgeTier(a: real): (r: nat)
    ensures r <= 2
    ensures r == 0 <==> a < 40.0
    ensures r == 2 <==> a > 65.0
  {
    if a < 40.0 then 0
    else if a <= 65.0 then 1
    else 2
  }

  function AgeRisk(v: Field): (r: Result<nat, ErrorKind>)
    ensures r.Success? <==> v.Num? && v.x >= 1.0
    ensures r.Success? ==> r.value == AgeTier(v.x)
    ensures r.Failure? ==> r == IsValidNumber(v).PropagateFailure()
  {
    var a :- IsValidNumber(v);
    Success(AgeTier(a))
  }

  // ---------------------------------------------------------------------------
  // bloodPressureRisk
  // ---------------------------------------------------------------------------

  /**
   * The blood-pressure table, first match. Because the first row already takes
   * 120/x for x <= 80, the second row only scores 121..129 systolic; every pair
   * the first three rows miss scores 3.
   */
  function BloodPressureTable(systolic: int, diastolic: int): (r: nat)
    ensures r <= 3
    ensures r == 0 <==> systolic <= 120 && diastolic <= 80
    ensures r == 1 <==> 120 < systolic <= 129 && diastolic < 80
    ensures r == 2 <==> 130 <= systolic <= 139 && 80 <= diastolic <= 89
  {
    if systolic <= 120 && diastolic <= 80 then 0
    else if 120 <= systolic <= 129 && diastolic < 80 then 1
    else if 130 <= systolic <= 139 && 80 <= diastolic <= 89 then 2
    else if systolic >= 140 && diastolic >= 90 then 3
    else 3
  }

  /** `parseInt(s.split('/')[i])`; a missing part is `undefined`, which parses as NaN. */
  function ParsePart(s: string, i: nat): Option<int> {
    match SplitPart(s, i)
    case None => None
    case Some(part) => ParseInt(part)
  }

  /** True for the strings lodash's `isEmpty` or `isNil` accept: anything but a non-empty string. */
  predicate IsEmptyOrNil(v: Field) {
    !(v.Str? && v.s != [])
  }

  /**
   * `bloodPressureRisk`: an empty or absent value (or a number, which lodash
   * calls empty) is `is_invalid`; then systolic NaN is reported before
   * diastolic NaN; otherwise the table scores the pair.
   */
  function BloodPressureRisk(v: Field): (r: Result<nat, ErrorKind>)
    ensures r.Success? ==> r.value <= 3
    ensures r == Failure(IsInvalid) <==> IsEmptyOrNil(v)
    ensures r != Failure(IsNotNumber)
    ensures r == Failure(MissingSystolic) <==> !IsEmptyOrNil(v) && ParsePart(v.s, 0).None?
    ensures r == Failure(MissingDiastolic) <==> !IsEmptyOrNil(v) && ParsePart(v.s, 0).Some? && ParsePart(v.s, 1).None?
    ensures r.Success? ==>
      (var systolic, diastolic := ParsePart(v.s, 0), ParsePart(v.s, 1);
       systolic.Some? && diastolic.Some? && r.value == BloodPressureTable(systolic.value, diastolic.value))
  {
    if IsEmptyOrNil(v) then Failure(IsInvalid)
    else
      var systolic := ParsePart(v.s, 0);
      var diastolic := ParsePart(v.s, 1);
      if systolic.None? then Failure(MissingSystolic)
      else if diastolic.None? then Failure(MissingDiastolic)
      else Success(BloodPressureTable(systolic.value, diastolic.value))
  }

  // ---------------------------------------------------------------------------
  // checkRiskScore
  // ---------------------------------------------------------------------------

  /** The three evaluations the scorer runs, after its `??` defaults. */
  function TemperatureOf(p: Patient): Result<TemperatureReading, ErrorKind> {
    TemperatureRisk(OrElse(p.temperature, Num(0.0)))
  }

  function BloodPressureOf(p: Patient): Result<nat, ErrorKind> {
    BloodPressureRisk(OrElse(p.bloodPressure, Str("")))
  }

  function AgeOf(p: Patient): Result<nat, ErrorKind> {
    AgeRisk(OrElse(p.age, Num(0.0)))
  }

  function ErrorOf<R>(r: Result<R, ErrorKind>): Option<ErrorKind> {
    if r.Failure? then Some(r.error) else None
  }

  /** The error each evaluation throws, if any, in evaluation order. */
  function Failures(p: Patient): seq<Option<ErrorKind>> {
    [ErrorOf(TemperatureOf(p)), ErrorOf(BloodPressureOf(p)), ErrorOf(AgeOf(p))]
  }

  /** The shared error code after catch blocks run in order, each overwriting it. */
  function ErrorCodeAfter(failures: seq<Option<ErrorKind>>, code: string): string {
    if failures == [] then code
    else ErrorCodeAfter(failures[1..], if failures[0].Some? then ErrorText(failures[0].value) else code)
  }

  /** A failed evaluation contributes 0 to the total. */
  function Contribution(r: Result<nat, ErrorKind>): nat {
    if r.Success? then r.value else 0
  }

  function TemperatureContribution(r: Result<TemperatureReading, ErrorKind>): nat {
    if r.Success? then r.value.temperatureRisk else 0
  }

  /** The combined risk score `bp + temperature + age`. */
  function TotalScore(p: Patient): (r: nat)
    ensures r <= 7
  {
    Contribution(BloodPressureOf(p)) + TemperatureContribution(TemperatureOf(p)) + Contribution(AgeOf(p))
  }

  /** The fever test applied to the temperature kept after the first catch block. */
  predicate Fever(p: Patient) {
    TemperatureOf(p).Success? && TemperatureOf(p).value.temperature >= 99.6
  }

  /** What a correct result of the scorer is for record `p`. */
  predicate Assesses(p: Patient, a: Assessment) {
    && a.patientId == p.patientId
    && (a.hasHighRiskScore <==> TotalScore(p) >= 4)
    && (a.hasFever <==> Fever(p))
    && a.errorCode == ErrorCodeAfter(Failures(p), "")
  }

  /**
   * The inner `checkRiskScore`: three guarded evaluations in a fixed order,
   * each failure zeroing its sub-score and overwriting the shared error code.
   */
  method CheckRiskScoreInner(p: Patient) returns (a: Assessment)
    ensures Assesses(p, a)
  {
    var tr := TemperatureReading(0.0, 0);
    var bpr := 0;
    var ar := 0;
    var errorCode := "";
    ghost var codes := [errorCode];

    match TemperatureRisk(OrElse(p.temperature, Num(0.0))) {
      case Success(reading) => tr := reading;
      case Failure(e) =>
        tr := TemperatureReading(0.0, 0);
        errorCode := ErrorText(e);
    }
    codes := codes + [errorCode];

    match BloodPressureRisk(OrElse(p.bloodPressure, Str(""))) {
      case Success(score) => bpr := score;
      case Failure(e) => errorCode := ErrorText(e);
    }
    codes := codes + [errorCode];

    match AgeRisk(OrElse(p.age, Num(0.0))) {
      case Success(score) => ar := score;
      case Failure(e) => errorCode := ErrorText(e);
    }

    var trs := bpr + tr.temperatureRisk + ar;
    a := Assessment(p.patientId, trs >= 4, tr.temperature >= 99.6, errorCode);

    ghost var fs := Failures(p);
    assert fs[1..] == [fs[1], fs[2]] && fs[1..][1..] == [fs[2]] && fs[1..][1..][1..] == [];
    assert ErrorCodeAfter(fs, "") == ErrorCodeAfter([fs[1], fs[2]], codes[1]);
    assert codes[1] == if fs[0].Some? then ErrorText(fs[0].value) else "";
    assert codes[2] == if fs[1].Some? then ErrorText(fs[1].value) else codes[1];
    assert errorCode == if fs[2].Some? then ErrorText(fs[2].value) else codes[2];
    assert ErrorCodeAfter([fs[1], fs[2]], codes[1]) == ErrorCodeAfter([fs[2]], codes[2]);
    assert ErrorCodeAfter([fs[2]], codes[2]) == ErrorCodeAfter([], errorCode);
  }

  /** The exported `checkRiskScore`: rejects a null record, otherwise scores it. */
  method CheckRiskScore(patient: Option<Patient>) returns (r: Result<Assessment, string>)
    ensures patient.None? <==> r == Failure(NullPatientMessage)
    ensures patient.Some? ==> r.Success? && Assesses(patient.value, r.value)
  {
    if patient.None? {
      return Failure(NullPatientMessage);
    }
    var a := CheckRiskScoreInner(patient.value);
    return Success(a);
  }
}
