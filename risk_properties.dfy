/** Properties of the risk scorer, stated over the functions its methods are proved against. */
module RiskProperties {
  import opened Wrappers
  import opened JsText
  import opened Algorithm

  // ---------------------------------------------------------------------------
  // The blood-pressure table
  // ---------------------------------------------------------------------------

  /** Any pair the first three rows miss, whether or not it is a Stage 2 pair, scores 3. */
  lemma BloodPressureTableDefault(systolic: int, diastolic: int)
    requires !(systolic <= 120 && diastolic <= 80)
    requires !(120 <= systolic <= 129 && diastolic < 80)
    requires !(130 <= systolic <= 139 && 80 <= diastolic <= 89)
    ensures BloodPressureTable(systolic, diastolic) == 3
  {
  }

  /** The stage of each reading under the rule the source's comment documents. */
  function SystolicStage(systolic: int): nat {
    if systolic < 120 then 0 else if systolic <= 129 then 1 else if systolic <= 139 then 2 else 3
  }

  function DiastolicStage(diastolic: int): nat {
    if diastolic < 80 then 0 else if diastolic <= 89 then 2 else 3
  }

  /** The documented rule: when the readings disagree, the higher stage wins. */
  function DocumentedStage(systolic: int, diastolic: int): (r: nat)
    ensures r <= 3
    ensures r >= SystolicStage(systolic) && r >= DiastolicStage(diastolic)
    ensures r == SystolicStage(systolic) || r == DiastolicStage(diastolic)
  {
    var s, d := SystolicStage(systolic), DiastolicStage(diastolic);
    if s >= d then s else d
  }

  /** A Stage 2 reading on either side scores 3 in the table too. */
  lemma TableAgreesOnStageTwo(systolic: int, diastolic: int)
    requires DocumentedStage(systolic, diastolic) == 3
    ensures BloodPressureTable(systolic, diastolic) == 3
  {
  }

  /**
   * Away from the 120 systolic and 80 diastolic boundaries of the first row,
   * the table never scores below the documented rule; it scores above it
   * exactly when a pair falls through to the default row.
   */
  lemma TableNeverBelowDocumentedStage(systolic: int, diastolic: int)
    requires !(systolic <= 120 && diastolic <= 80 && (systolic == 120 || diastolic == 80))
    ensures BloodPressureTable(systolic, diastolic) >= DocumentedStage(systolic, diastolic)
    ensures BloodPressureTable(systolic, diastolic) > DocumentedStage(systolic, diastolic) <==>
      BloodPressureTable(systolic, diastolic) == 3 && DocumentedStage(systolic, diastolic) < 3
  {
  }

  /** 120/80 scores 0 (the first row wins), 135/70 and 100/95 fall to the default row. */
  lemma BloodPressureTableExamples()
    ensures BloodPressureTable(120, 80) == 0 && DocumentedStage(120, 80) == 2
    ensures BloodPressureTable(135, 70) == 3 && DocumentedStage(135, 70) == 2
    ensures BloodPressureTable(100, 95) == 3 && BloodPressureTable(150, 95) == 3
  {
  }

  // ---------------------------------------------------------------------------
  // Reading the blood-pressure string
  // ---------------------------------------------------------------------------

  /** An empty, absent or numeric blood pressure is `is_invalid`, before anything is parsed. */
  lemma BloodPressureEmptyIsInvalid(p: Patient, n: real)
    requires p.bloodPressure.Missing? || p.bloodPressure == Str("") || p.bloodPressure == Num(n)
    ensures BloodPressureOf(p) == Failure(IsInvalid)
  {
  }

  /** The two parts of "sys/dia" followed by `rest`. */
  lemma PartsOfNumbers(sys: string, dia: string, rest: string)
    requires Slash !in sys && Slash !in dia
    ensures |Split(sys + "/" + dia + rest)| >= 2
    ensures Split(sys + "/" + dia + rest)[0] == sys
    ensures Split(sys + "/" + dia + rest)[1] == dia + Split(rest)[0]
  {
    var s := sys + "/" + dia + rest;
    assert s == sys + [Slash] + (dia + rest);
    SplitAtSlash(sys, dia + rest);
    SplitWithoutSlash(sys);
    SplitHeadOfConcat(dia, rest);
  }

  /** "sys/dia" written in decimal scores the table's value for the pair. */
  lemma BloodPressureOfNumbers(systolic: int, diastolic: int, rest: string)
    requires rest == [] || !IsDigit(rest[0])
    ensures BloodPressureRisk(Str(Render(systolic) + "/" + Render(diastolic) + rest))
         == Success(BloodPressureTable(systolic, diastolic))
  {
    var sys, dia := Render(systolic), Render(diastolic);
    var s := sys + "/" + dia + rest;
    PartsOfNumbers(sys, dia, rest);
    ParseIntRender(systolic, []);
    assert sys + [] == sys;
    assert ParsePart(s, 0) == Some(systolic);
    var tail := Split(rest)[0];
    SplitHeadIsPrefix(rest);
    assert tail == [] || !IsDigit(tail[0]) by {
      if tail != [] { assert tail[0] == rest[0]; }
    }
    ParseIntRender(diastolic, tail);
    assert ParsePart(s, 1) == Some(diastolic);
  }

  /** A string that starts with '/' is `missing_systolic`, whatever the diastolic part holds. */
  lemma SystolicCheckedFirst(t: string)
    ensures BloodPressureRisk(Str("/" + t)) == Failure(MissingSystolic)
  {
    var s := "/" + t;
    assert s[0] == Slash && s[1..] == t;
    assert Split(s)[0] == [];
    ParseIntEmpty();
  }

  /** A number with no '/' at all is `missing_diastolic`. */
  lemma DiastolicMissingWithoutSlash(systolic: int)
    ensures BloodPressureRisk(Str(Render(systolic))) == Failure(MissingDiastolic)
  {
    var sys := Render(systolic);
    ParseIntRender(systolic, []);
    assert sys + [] == sys;
    SplitWithoutSlash(sys);
    assert ParsePart(sys, 0) == Some(systolic);
    assert ParsePart(sys, 1) == None;
  }

  /** A number followed by a single '/' is `missing_diastolic`. */
  lemma DiastolicMissingAfterSlash(systolic: int)
    ensures BloodPressureRisk(Str(Render(systolic) + "/")) == Failure(MissingDiastolic)
  {
    var sys := Render(systolic);
    var s := sys + "/";
    ParseIntRender(systolic, []);
    assert sys + [] == sys;
    SplitWithoutSlash(sys);
    SplitAtSlash(sys, []);
    assert s == sys + [Slash] + [];
    assert Split([]) == [[]];
    assert Split(s) == [sys, []];
    assert ParsePart(s, 0) == Some(systolic);
    ParseIntEmpty();
    assert ParsePart(s, 1) == None;
  }

  /** Only the first two '/'-separated parts are read. */
  lemma BloodPressureReadsTwoParts(s: string, t: string)
    requires Slash in s
    ensures BloodPressureRisk(Str(s + "/" + t)) == BloodPressureRisk(Str(s))
  {
    SplitAtSlash(s, t);
    SplitSlashTwoParts(s);
    assert s + "/" + t == s + [Slash] + t;
    var parts := Split(s + "/" + t);
    assert parts[0] == Split(s)[0] && parts[1] == Split(s)[1];
  }

  /** Decimal renderings of the readings used below. */
  lemma RenderExamples()
    ensures Render(150) == "150" && Render(95) == "95"
    ensures Render(120) == "120" && Render(80) == "80"
    ensures Render(135) == "135" && Render(70) == "70"
  {
    assert RenderNat(1) == "1" && RenderNat(15) == "15";
    assert RenderNat(12) == "12" && RenderNat(13) == "13";
    assert RenderNat(9) == "9" && RenderNat(8) == "8" && RenderNat(7) == "7";
  }

  /** "150/95" is a Stage 2 pair. */
  lemma BloodPressureStageTwoExample()
    ensures BloodPressureRisk(Str("150/95")) == Success(3)
  {
    RenderExamples();
    BloodPressureOfNumbers(150, 95, []);
    assert "150" + "/" + "95" + [] == "150/95";
  }

  /** "120/80" scores 0: the first row wins over the second. */
  lemma BloodPressureFirstRowExample()
    ensures BloodPressureRisk(Str("120/80")) == Success(0)
  {
    RenderExamples();
    BloodPressureOfNumbers(120, 80, []);
    assert "120" + "/" + "80" + [] == "120/80";
  }

  /** "135/70" matches no named row and scores 3. */
  lemma BloodPressureDefaultExample()
    ensures BloodPressureRisk(Str("135/70")) == Success(3)
  {
    RenderExamples();
    BloodPressureOfNumbers(135, 70, []);
    assert "135" + "/" + "70" + [] == "135/70";
  }

  /** The invalid readings named in the scorer's comments. */
  lemma BloodPressureMissingExamples()
    ensures BloodPressureRisk(Str("/90")) == Failure(MissingSystolic)
    ensures BloodPressureRisk(Str("/")) == Failure(MissingSystolic)
    ensures BloodPressureRisk(Str("150/")) == Failure(MissingDiastolic)
    ensures BloodPressureRisk(Str("150")) == Failure(MissingDiastolic)
  {
    RenderExamples();
    SystolicCheckedFirst("90");
    assert "/" + "90" == "/90";
    SystolicCheckedFirst("");
    assert "/" + "" == "/";
    DiastolicMissingWithoutSlash(150);
    DiastolicMissingAfterSlash(150);
    assert "150" + "/" == "150/";
  }

  // ---------------------------------------------------------------------------
  // Validation and the two threshold tables
  // ---------------------------------------------------------------------------

  /** A missing temperature or age defaults to 0 and so is `is_invalid`; a string is `is_not_number`. */
  lemma NumberFieldErrors(p: Patient)
    ensures p.temperature.Missing? ==> TemperatureOf(p) == Failure(IsInvalid)
    ensures p.age.Missing? ==> AgeOf(p) == Failure(IsInvalid)
    ensures p.temperature.Str? ==> TemperatureOf(p) == Failure(IsNotNumber)
    ensures p.age.Str? ==> AgeOf(p) == Failure(IsNotNumber)
  {
  }

  /** Temperatures in the gaps the table leaves open score 0. */
  lemma TemperatureGapsScoreZero(t: real)
    requires 99.5 < t < 99.6 || 100.9 < t < 101.0
    ensures TemperatureTier(t) == 0
  {
  }

  /** The gap makes the temperature table non-monotone: 100.9 scores 1, 100.95 scores 0. */
  lemma TemperatureTierNotMonotone()
    ensures TemperatureTier(100.9) == 1 && TemperatureTier(100.95) == 0
  {
  }

  /** The age table is non-decreasing. */
  lemma AgeTierMonotone(a: real, b: real)
    requires a <= b
    ensures AgeTier(a) <= AgeTier(b)
  {
  }

  // ---------------------------------------------------------------------------
  // The error code: last error wins
  // ---------------------------------------------------------------------------

  /** With no failure the error code keeps its initial value. */
  lemma {:induction false} ErrorCodeAfterNoFailure(failures: seq<Option<ErrorKind>>, code: string)
    requires forall i :: 0 <= i < |failures| ==> failures[i].None?
    ensures ErrorCodeAfter(failures, code) == code
  {
    if failures != [] {
      ErrorCodeAfterNoFailure(failures[1..], code);
    }
  }

  /** Otherwise it is the text of the last failure. */
  lemma {:induction false} ErrorCodeAfterLastFailure(failures: seq<Option<ErrorKind>>, k: nat, code: string)
    requires k < |failures| && failures[k].Some?
    requires forall j :: k < j < |failures| ==> failures[j].None?
    ensures ErrorCodeAfter(failures, code) == ErrorText(failures[k].value)
  {
    var next := if failures[0].Some? then ErrorText(failures[0].value) else code;
    if k == 0 {
      ErrorCodeAfterNoFailure(failures[1..], next);
    } else {
      ErrorCodeAfterLastFailure(failures[1..], k - 1, next);
    }
  }

  /** Distinct errors leave distinct codes, so which error came last is observable. */
  lemma ErrorTextInjective(a: ErrorKind, b: ErrorKind)
    requires ErrorText(a) == ErrorText(b)
    ensures a == b
  {
    assert ErrorName(a) == ErrorText(a)[|ErrorPrefix|..];
    assert ErrorName(a) == ErrorName(b);
  }

  /** The error code is empty exactly when all three evaluations succeed. */
  lemma ErrorCodeEmptyIffAllSucceed(p: Patient, a: Assessment)
    requires Assesses(p, a)
    ensures a.errorCode == "" <==>
      TemperatureOf(p).Success? && BloodPressureOf(p).Success? && AgeOf(p).Success?
  {
    var fs := Failures(p);
    if fs[2].Some? {
      ErrorCodeAfterLastFailure(fs, 2, "");
    } else if fs[1].Some? {
      ErrorCodeAfterLastFailure(fs, 1, "");
    } else if fs[0].Some? {
      ErrorCodeAfterLastFailure(fs, 0, "");
    } else {
      ErrorCodeAfterNoFailure(fs, "");
    }
  }

  /** The error code names the last failure in the order temperature, blood pressure, age. */
  lemma ErrorCodeIsLastFailure(p: Patient, a: Assessment)
    requires Assesses(p, a)
    ensures AgeOf(p).Failure? ==> a.errorCode == ErrorText(AgeOf(p).error)
    ensures AgeOf(p).Success? && BloodPressureOf(p).Failure? ==>
      a.errorCode == ErrorText(BloodPressureOf(p).error)
    ensures AgeOf(p).Success? && BloodPressureOf(p).Success? && TemperatureOf(p).Failure? ==>
      a.errorCode == ErrorText(TemperatureOf(p).error)
  {
    var fs := Failures(p);
    if fs[2].Some? {
      ErrorCodeAfterLastFailure(fs, 2, "");
    } else if fs[1].Some? {
      ErrorCodeAfterLastFailure(fs, 1, "");
    } else if fs[0].Some? {
      ErrorCodeAfterLastFailure(fs, 0, "");
    }
  }

  /** A non-numeric temperature and an age of 0 report the age's error. */
  lemma InvalidTemperatureAndAgeReportAge(p: Patient, a: Assessment)
    requires Assesses(p, a)
    requires p.temperature == Str("TEMP_ERROR") && p.age == Num(0.0)
    ensures a.errorCode == "Error: is_invalid" && !a.hasFever
  {
    ErrorCodeIsLastFailure(p, a);
  }

  // ---------------------------------------------------------------------------
  // The two flags
  // ---------------------------------------------------------------------------

  /** A high risk score needs at least two successful evaluations. */
  lemma HighRiskNeedsTwoEvaluations(p: Patient, a: Assessment)
    requires Assesses(p, a) && a.hasHighRiskScore
    ensures (TemperatureOf(p).Success? && BloodPressureOf(p).Success?)
         || (TemperatureOf(p).Success? && AgeOf(p).Success?)
         || (BloodPressureOf(p).Success? && AgeOf(p).Success?)
  {
  }

  /** Fever is the raw temperature reaching 99.6; every failed temperature reads as no fever. */
  lemma FeverIffTemperatureReading(p: Patient, a: Assessment)
    requires Assesses(p, a)
    ensures a.hasFever <==> p.temperature.Num? && p.temperature.x >= 99.6
    ensures TemperatureOf(p).Failure? ==> !a.hasFever
    ensures TemperatureContribution(TemperatureOf(p)) > 0 ==> a.hasFever
  {
  }

  /** Fever does not follow the sub-score: 100.95 has fever and scores 0. */
  lemma FeverWithZeroSubScore(p: Patient, a: Assessment)
    requires Assesses(p, a) && p.temperature == Num(100.95)
    ensures a.hasFever && TemperatureContribution(TemperatureOf(p)) == 0
  {
  }

  /** A fully valid record: no error, and the total is the sum of the three tables. */
  lemma ValidRecordScore(p: Patient, a: Assessment, systolic: int, diastolic: int, t: real, age: real)
    requires Assesses(p, a)
    requires p.bloodPressure == Str(Render(systolic) + "/" + Render(diastolic))
    requires p.temperature == Num(t) && t >= 1.0
    requires p.age == Num(age) && age >= 1.0
    ensures a.errorCode == ""
    ensures TotalScore(p) == BloodPressureTable(systolic, diastolic) + TemperatureTier(t) + AgeTier(age)
    ensures a.hasHighRiskScore <==> BloodPressureTable(systolic, diastolic) + TemperatureTier(t) + AgeTier(age) >= 4
    ensures a.hasFever <==> t >= 99.6
  {
    BloodPressureOfNumbers(systolic, diastolic, []);
    assert Render(systolic) + "/" + Render(diastolic) + [] == Render(systolic) + "/" + Render(diastolic);
    ErrorCodeEmptyIffAllSucceed(p, a);
  }
}
