/**
 * The training record as the client holds it, the ten fields an input event
 * or a filter addresses, and the two form templates handleOpen builds.
 */
module Training {
  import opened JsString

  datatype Option<T> = None | Some(value: T)

  /**
   * The optional percentCompleted slot: absent (undefined or null), a number
   * as the store returns it, or the raw text an input event stored there.
   */
  datatype Percent = Absent | Number(n: nat) | Text(s: string)

  /** One training record; `id` is the store's `_id`, absent until the record is created. */
  datatype Training = Training(
    id: Option<string>,
    empId: string,
    employeeName: string,
    course: string,
    startDate: string,
    endDate: string,
    status: string,
    trainerName: string,
    trainingType: string,
    percentCompleted: Percent,
    projectName: string)

  /** The field names used by the form inputs and by the filter row. */
  datatype Field =
    | EmpId | EmployeeName | Course | TrainerName | TrainingType
    | StartDate | EndDate | Status | PercentCompleted | ProjectName

  /** What a field holds: text for nine fields, the percent slot for the tenth. */
  datatype Value = Str(s: string) | Pct(p: Percent)

  const StatusOptions: seq<string> := ["Completed", "In Progress", "Not Started"]
  const TrainingTypeOptions: seq<string> := ["Udemy", "Coursera", "Classroom", "Virtual"]

  function Get(t: Training, k: Field): Value {
    match k
    case EmpId => Str(t.empId)
    case EmployeeName => Str(t.employeeName)
    case Course => Str(t.course)
    case TrainerName => Str(t.trainerName)
    case TrainingType => Str(t.trainingType)
    case StartDate => Str(t.startDate)
    case EndDate => Str(t.endDate)
    case Status => Str(t.status)
    case PercentCompleted => Pct(t.percentCompleted)
    case ProjectName => Str(t.projectName)
  }

  /** String(p ?? ""): the text the percent slot shows. */
  function PercentText(p: Percent): (r: string)
    ensures p.Absent? ==> r == ""
    ensures p.Text? ==> r == p.s
    ensures p.Number? ==> r != [] && (forall i :: 0 <= i < |r| ==> IsDigit(r[i])) && DigitsValue(r) == p.n
  {
    match p
    case Absent => ""
    case Number(n) => DecimalTextRoundTrip(n); DecimalText(n)
    case Text(s) => s
  }

  /** The text of field k, as the filter reads it. */
  function FieldText(t: Training, k: Field): string {
    match Get(t, k)
    case Str(s) => s
    case Pct(p) => PercentText(p)
  }

  /** The record with field k replaced by v (the percent slot then holds the text v). */
  function SetField(t: Training, k: Field, v: string): (r: Training)
    ensures r.id == t.id
    ensures Get(r, k) == if k == PercentCompleted then Pct(Text(v)) else Str(v)
    ensures FieldText(r, k) == v
    ensures forall j :: j != k ==> Get(r, j) == Get(t, j)
  {
    match k
    case EmpId => t.(empId := v)
    case EmployeeName => t.(employeeName := v)
    case Course => t.(course := v)
    case TrainerName => t.(trainerName := v)
    case TrainingType => t.(trainingType := v)
    case StartDate => t.(startDate := v)
    case EndDate => t.(endDate := v)
    case Status => t.(status := v)
    case PercentCompleted => t.(percentCompleted := Text(v))
    case ProjectName => t.(projectName := v)
  }

  /**
   * The value handleChange stores for an input event: projectName trimmed
   * (empty when the input is blank, otherwise starting and ending outside the
   * white space), anything else verbatim.
   */
  function ChangedValue(name: Field, value: string): (v: string)
    ensures name != ProjectName ==> v == value
    ensures name == ProjectName ==> v == Trim(value)
    ensures name == ProjectName ==> (v == [] <==> IsBlank(value))
    ensures name == ProjectName && v != [] ==> !IsJsWhitespace(v[0]) && !IsJsWhitespace(v[|v| - 1])
  {
    if name == ProjectName then Trim(value) else value
  }

  /** The date part of a stored date: its first ten characters. */
  function DatePart(d: string): (r: string)
    ensures r <= d && |r| <= 10
    ensures |d| >= 10 ==> r == d[..10]
    ensures |d| < 10 ==> r == d
  {
    SliceTo(d, 10)
  }

  /** The form handleOpen() loads with no record: a create template. */
  function BlankTemplate(nowIso: string, projectNames: seq<string>): Training
    requires |projectNames| > 0
  {
    var today := DatePart(nowIso);
    Training(None, "", "", "", today, today, "Not Started", "", "Udemy", Number(0), projectNames[0])
  }

  /**
   * The blank template has no id, offers enumeration values the option lists
   * contain, today's date twice, and a blank trainer name.
   */
  lemma BlankTemplateFacts(nowIso: string, projectNames: seq<string>)
    requires |projectNames| > 0
    ensures var r := BlankTemplate(nowIso, projectNames);
      && r.id == None
      && r.status in StatusOptions && r.status == StatusOptions[2]
      && r.trainingType in TrainingTypeOptions && r.trainingType == TrainingTypeOptions[0]
      && r.projectName in projectNames && r.projectName == projectNames[0]
      && r.startDate == r.endDate == DatePart(nowIso)
      && r.empId == r.employeeName == r.course == ""
      && r.trainerName == "" && IsBlank(r.trainerName)
      && r.percentCompleted == Number(0) && PercentText(r.percentCompleted) == "0"
  {
  }

  /** The form handleOpen(t) loads: the record itself, with both dates cut to their date part. */
  function EditTemplate(t: Training): (r: Training)
    ensures r.id == t.id
    ensures forall k :: k != StartDate && k != EndDate ==> Get(r, k) == Get(t, k)
    ensures r.startDate <= t.startDate && |r.startDate| <= 10
    ensures r.endDate <= t.endDate && |r.endDate| <= 10
    ensures |t.startDate| <= 10 ==> r.startDate == t.startDate
    ensures |t.endDate| <= 10 ==> r.endDate == t.endDate
    ensures |t.startDate| >= 10 ==> r.startDate == t.startDate[..10]
    ensures |t.endDate| >= 10 ==> r.endDate == t.endDate[..10]
  {
    t.(startDate := DatePart(t.startDate), endDate := DatePart(t.endDate))
  }

  /** Opening the edit template of an edit template gives the same form. */
  lemma {:induction false} EditTemplateIdempotent(t: Training)
    ensures EditTemplate(EditTemplate(t)) == EditTemplate(t)
  {
    SliceToIdempotent(t.startDate, 10);
    SliceToIdempotent(t.endDate, 10);
  }
}
