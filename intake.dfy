/**
 * Validation and normalisation of a submitted form (the first part of `doPost`).
 *
 * The request parameters are a map from names to strings; a parameter that is
 * absent reads as "". Every field is trimmed except the user agent, which is
 * cut to its first 200 characters; three fields are mapped from the form's
 * codes to the words stored in the sheet.
 */
module Intake {
  import opened Text
  import opened Wrappers

  /** The query or form parameters of a request. */
  type Params = map<string, string>

  /** `params.key || ""`: the value of a parameter, "" when it is absent. */
  function Param(p: Params, key: string): (v: string)
    ensures key !in p ==> v == ""
    ensures key in p ==> v == p[key]
  {
    if key in p then p[key] else ""
  }

  /** One accepted submission, with every field as it is written to the sheet. */
  datatype Submission = Submission(
    source: string,
    name: string,
    phone: string,
    birthdate: string,
    birthtime: string,
    calendarType: string,
    gender: string,
    memo: string,
    userAgent: string)

  const MissingRequired: string := "missing_required_fields"
  const UserAgentLimit: nat := 200

  const Solar: string := "양력"
  const Lunar: string := "음력"
  const Male: string := "남성"
  const Female: string := "여성"
  const Homepage: string := "홈페이지"
  const OtherSource: string := "기타"

  /** The calendar type as stored: the form codes `solar` and `lunar` become Korean words. */
  function CalendarLabel(t: string): (r: string)
    ensures t == "solar" ==> r == Solar
    ensures t == "lunar" ==> r == Lunar
    ensures t != "solar" && t != "lunar" ==> r == t
  {
    if t == "solar" then Solar else if t == "lunar" then Lunar else t
  }

  /** The gender as stored: the form codes `male` and `female` become Korean words. */
  function GenderLabel(g: string): (r: string)
    ensures g == "male" ==> r == Male
    ensures g == "female" ==> r == Female
    ensures g != "male" && g != "female" ==> r == g
  {
    if g == "male" then Male else if g == "female" then Female else g
  }

  /** Where the submission came from: the site's own tag becomes 홈페이지, no tag becomes 기타. */
  function SourceLabel(s: string): (r: string)
    ensures s == "github_pages" ==> r == Homepage
    ensures s == "" ==> r == OtherSource
    ensures s != "github_pages" && s != "" ==> r == s
  {
    var mapped := if s == "github_pages" then Homepage else s;
    if mapped == "" then OtherSource else mapped
  }

  /**
   * The intake step of doPost: the normalised submission, or the error
   * `missing_required_fields` when name, phone, birthdate, calendar type or
   * gender is empty after trimming and mapping.
   */
  function NormalizeIntake(p: Params): (r: Result<Submission>)
    ensures r.Failure? ==> r.error == MissingRequired
  {
    var name := Trim(Param(p, "name"));
    var phone := Trim(Param(p, "phone"));
    var birthdate := Trim(Param(p, "birthdate"));
    var birthtime := Trim(Param(p, "birthtime"));
    var memo := Trim(Param(p, "memo"));
    var ua := Prefix(Param(p, "user_agent"), UserAgentLimit);
    var calendarType := CalendarLabel(Trim(Param(p, "calendar_type")));
    var gender := GenderLabel(Trim(Param(p, "gender")));
    var source := SourceLabel(Trim(Param(p, "source")));
    if name == "" || phone == "" || birthdate == "" || calendarType == "" || gender == "" then
      Failure(MissingRequired)
    else
      Success(Submission(source, name, phone, birthdate, birthtime, calendarType, gender, memo, ua))
  }

  // ---------------------------------------------------------------------------
  // Properties of the intake step
  // ---------------------------------------------------------------------------

  /** The mapping of codes never turns a given value into an empty one, nor an empty one into a given one. */
  lemma LabelsKeepEmptiness(t: string)
    ensures CalendarLabel(t) == "" <==> t == ""
    ensures GenderLabel(t) == "" <==> t == ""
    ensures SourceLabel(t) != ""
  {
  }

  /**
   * A submission is rejected exactly when one of the five required fields is
   * missing or blank; the rejection carries `missing_required_fields`.
   */
  lemma RejectsExactlyBlankRequired(p: Params)
    ensures NormalizeIntake(p).Failure? <==>
      (Trim(Param(p, "name")) == [] || Trim(Param(p, "phone")) == [] ||
       Trim(Param(p, "birthdate")) == [] || Trim(Param(p, "calendar_type")) == [] ||
       Trim(Param(p, "gender")) == [])
  {
    LabelsKeepEmptiness(Trim(Param(p, "calendar_type")));
    LabelsKeepEmptiness(Trim(Param(p, "gender")));
  }

  /** An accepted submission holds the trimmed, mapped parameters. */
  lemma AcceptedFields(p: Params)
    requires NormalizeIntake(p).Success?
    ensures var s := NormalizeIntake(p).value;
      s.name == Trim(Param(p, "name")) && s.phone == Trim(Param(p, "phone")) &&
      s.birthdate == Trim(Param(p, "birthdate")) && s.birthtime == Trim(Param(p, "birthtime")) &&
      s.memo == Trim(Param(p, "memo")) &&
      s.calendarType == CalendarLabel(Trim(Param(p, "calendar_type"))) &&
      s.gender == GenderLabel(Trim(Param(p, "gender"))) &&
      s.source == SourceLabel(Trim(Param(p, "source")))
  {
  }

  /** In an accepted submission the required fields are non-empty and no field but the user agent has surrounding whitespace. */
  lemma AcceptedTrimmed(p: Params)
    requires NormalizeIntake(p).Success?
    ensures var s := NormalizeIntake(p).value;
      s.name != [] && s.phone != [] && s.birthdate != [] && s.calendarType != [] && s.gender != [] &&
      IsTrimmed(s.name) && IsTrimmed(s.phone) && IsTrimmed(s.birthdate) && IsTrimmed(s.birthtime) &&
      IsTrimmed(s.memo) && IsTrimmed(s.calendarType) && IsTrimmed(s.gender) && IsTrimmed(s.source)
  {
    var s := NormalizeIntake(p).value;
    AcceptedFields(p);
    LabelTrimmed(Trim(Param(p, "calendar_type")));
    LabelTrimmed(Trim(Param(p, "gender")));
    LabelTrimmed(Trim(Param(p, "source")));
  }

  /** Mapping a trimmed code gives a trimmed word. */
  lemma LabelTrimmed(t: string)
    requires IsTrimmed(t)
    ensures IsTrimmed(CalendarLabel(t)) && IsTrimmed(GenderLabel(t)) && IsTrimmed(SourceLabel(t))
  {
  }

  /** The stored user agent is the first (at most) 200 characters of the parameter, untrimmed. */
  lemma AcceptedUserAgent(p: Params)
    requires NormalizeIntake(p).Success?
    ensures var ua := NormalizeIntake(p).value.userAgent;
      |ua| <= UserAgentLimit && ua == Param(p, "user_agent")[..|ua|] &&
      (|Param(p, "user_agent")| <= UserAgentLimit ==> ua == Param(p, "user_agent")) &&
      (|Param(p, "user_agent")| > UserAgentLimit ==> |ua| == UserAgentLimit)
  {
  }

  /** The example of a complete form with the codes the web form sends. */
  lemma CodedFormExample(p: Params)
    requires p == map["name" := " 홍길동 ", "phone" := "010-1234-5678", "birthdate" := "1990-01-01",
                      "calendar_type" := "solar", "gender" := "female", "source" := "github_pages"]
    ensures NormalizeIntake(p) == Success(Submission(Homepage, "홍길동", "010-1234-5678", "1990-01-01", "",
                                                     Solar, Female, "", ""))
  {
    ExampleParams(p);
    ExampleTrims();
  }

  lemma ExampleParams(p: Params)
    requires p == map["name" := " 홍길동 ", "phone" := "010-1234-5678", "birthdate" := "1990-01-01",
                      "calendar_type" := "solar", "gender" := "female", "source" := "github_pages"]
    ensures Param(p, "name") == " 홍길동 " && Param(p, "phone") == "010-1234-5678"
    ensures Param(p, "birthdate") == "1990-01-01" && Param(p, "calendar_type") == "solar"
    ensures Param(p, "gender") == "female" && Param(p, "source") == "github_pages"
    ensures Param(p, "birthtime") == "" && Param(p, "memo") == "" && Param(p, "user_agent") == ""
  {
  }

  lemma ExampleTrims()
    ensures Trim(" 홍길동 ") == "홍길동" && Trim("010-1234-5678") == "010-1234-5678"
    ensures Trim("1990-01-01") == "1990-01-01" && Trim("solar") == "solar"
    ensures Trim("female") == "female" && Trim("github_pages") == "github_pages" && Trim("") == ""
  {
    ExampleName();
    PrintableEndsTrimmed("010-1234-5678");
    PrintableEndsTrimmed("1990-01-01");
    PrintableEndsTrimmed("solar");
    PrintableEndsTrimmed("female");
    PrintableEndsTrimmed("github_pages");
    PrintableEndsTrimmed("");
  }

  lemma ExampleName()
    ensures Trim(" 홍길동 ") == "홍길동"
  {
    TrimUnique(" ", "홍길동", " ");
    assert " " + "홍길동" + " " == " 홍길동 ";
  }

  /** A string that starts and ends with a visible ASCII character (not a space) is its own trim. */
  lemma PrintableEndsTrimmed(s: string)
    requires s == [] || ('!' <= s[0] <= '~' && '!' <= s[|s| - 1] <= '~')
    ensures Trim(s) == s
  {
    TrimOfTrimmed(s);
  }
}
