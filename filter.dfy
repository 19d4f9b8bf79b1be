/**
 * The per-field filter of the training table (filteredTrainings): a row is
 * visible when every non-empty filter value accepts it.
 */
module TrainingFilter {
  import opened JsString
  import opened Training

  /** The filter row: one text value per field; "" imposes no constraint. */
  datatype Filters = Filters(
    empId: string,
    employeeName: string,
    course: string,
    trainerName: string,
    trainingType: string,
    startDate: string,
    endDate: string,
    status: string,
    percentCompleted: string,
    projectName: string)

  /** The filter state the component starts with. */
  const NoFilters: Filters := Filters("", "", "", "", "", "", "", "", "", "")

  function FilterValue(f: Filters, k: Field): string {
    match k
    case EmpId => f.empId
    case EmployeeName => f.employeeName
    case Course => f.course
    case TrainerName => f.trainerName
    case TrainingType => f.trainingType
    case StartDate => f.startDate
    case EndDate => f.endDate
    case Status => f.status
    case PercentCompleted => f.percentCompleted
    case ProjectName => f.projectName
  }

  /** What a filter cell's change handler does: field k takes the typed value, the others stay. */
  function WithFilter(f: Filters, k: Field, v: string): (g: Filters)
    ensures FilterValue(g, k) == v
    ensures forall j :: j != k ==> FilterValue(g, j) == FilterValue(f, j)
  {
    match k
    case EmpId => f.(empId := v)
    case EmployeeName => f.(employeeName := v)
    case Course => f.(course := v)
    case TrainerName => f.(trainerName := v)
    case TrainingType => f.(trainingType := v)
    case StartDate => f.(startDate := v)
    case EndDate => f.(endDate := v)
    case Status => f.(status := v)
    case PercentCompleted => f.(percentCompleted := v)
    case ProjectName => f.(projectName := v)
  }

  /** The row test of filteredTrainings, clause by clause in the order the source writes them. */
  predicate Matches(t: Training, f: Filters) {
    && (f.empId == "" || Includes(ToLower(t.empId), ToLower(f.empId)))
    && (f.employeeName == "" || Includes(ToLower(t.employeeName), ToLower(f.employeeName)))
    && (f.course == "" || Includes(ToLower(t.course), ToLower(f.course)))
    && (f.trainerName == "" || Includes(ToLower(t.trainerName), ToLower(f.trainerName)))
    && (f.trainingType == "" || t.trainingType == f.trainingType)
    && (f.startDate == "" || DatePart(t.startDate) == f.startDate)
    && (f.endDate == "" || DatePart(t.endDate) == f.endDate)
    && (f.status == "" || t.status == f.status)
    && (f.percentCompleted == "" || Includes(PercentText(t.percentCompleted), f.percentCompleted))
    && (f.projectName == "" || t.projectName == f.projectName)
  }

  /** Array.prototype.filter: the elements that satisfy p, in their original order. */
  function Filter<T(!new)>(xs: seq<T>, p: T -> bool): (r: seq<T>)
    ensures |r| <= |xs|
    ensures forall x :: x in r <==> x in xs && p(x)
  {
    if xs == [] then []
    else if p(xs[0]) then [xs[0]] + Filter(xs[1..], p)
    else Filter(xs[1..], p)
  }

  /** filteredTrainings: the rows that pass the row test, in their original order. */
  function FilteredTrainings(ts: seq<Training>, f: Filters): (r: seq<Training>)
    ensures |r| <= |ts|
    ensures forall t :: t in r <==> t in ts && Matches(t, f)
  {
    Filter(ts, t => Matches(t, f))
  }

  // ---------------------------------------------------------------------
  // The reference meaning of a filter, field by field.

  /** The four kinds of test a non-empty filter value can impose. */
  datatype MatchKind = CaseInsensitiveSubstring | ExactMatch | DatePartMatch | DecimalSubstring

  function KindOf(k: Field): MatchKind {
    match k
    case EmpId => CaseInsensitiveSubstring
    case EmployeeName => CaseInsensitiveSubstring
    case Course => CaseInsensitiveSubstring
    case TrainerName => CaseInsensitiveSubstring
    case TrainingType => ExactMatch
    case Status => ExactMatch
    case ProjectName => ExactMatch
    case StartDate => DatePartMatch
    case EndDate => DatePartMatch
    case PercentCompleted => DecimalSubstring
  }

  /** The test the non-empty filter value v on field k imposes on the record t. */
  ghost predicate FieldAccepts(t: Training, k: Field, v: string) {
    var text := FieldText(t, k);
    match KindOf(k)
    case CaseInsensitiveSubstring => IsSubstring(ToLower(v), ToLower(text))
    case ExactMatch => text == v
    case DatePartMatch => |v| <= 10 && (if |text| < 10 then text == v else text[..10] == v)
    case DecimalSubstring => IsSubstring(v, text)
  }

  /** Every field whose filter value is non-empty accepts the record. */
  ghost predicate Visible(t: Training, f: Filters) {
    forall k :: FilterValue(f, k) == "" || FieldAccepts(t, k, FilterValue(f, k))
  }

  /** The source's conjunction is exactly the field-by-field reference meaning. */
  lemma MatchesIffVisible(t: Training, f: Filters)
    ensures Matches(t, f) <==> Visible(t, f)
  {
    MatchesIsConjunction(t, f);
    forall k ensures Clause(t, f, k) <==> FilterValue(f, k) == "" || FieldAccepts(t, k, FilterValue(f, k)) {
      FieldClause(t, f, k);
    }
  }

  /** The table shows exactly the records that the reference meaning accepts. */
  lemma FilteredIffVisible(ts: seq<Training>, f: Filters)
    ensures forall t :: t in FilteredTrainings(ts, f) <==> t in ts && Visible(t, f)
  {
    forall t | t in ts ensures Matches(t, f) <==> Visible(t, f) {
      MatchesIffVisible(t, f);
    }
  }

  /** The clause of Matches that concerns field k. */
  predicate Clause(t: Training, f: Filters, k: Field) {
    var v := FilterValue(f, k);
    v == "" ||
    match KindOf(k)
    case CaseInsensitiveSubstring => Includes(ToLower(FieldText(t, k)), ToLower(v))
    case ExactMatch => FieldText(t, k) == v
    case DatePartMatch => DatePart(FieldText(t, k)) == v
    case DecimalSubstring => Includes(FieldText(t, k), v)
  }

  /** Matches is the conjunction of its ten clauses, one per field. */
  lemma MatchesIsConjunction(t: Training, f: Filters)
    ensures Matches(t, f) <==> forall k :: Clause(t, f, k)
  {
    if Matches(t, f) {
      forall k ensures Clause(t, f, k) {
        match k {
          case EmpId => case EmployeeName => case Course => case TrainerName => case TrainingType =>
          case StartDate => case EndDate => case Status => case PercentCompleted => case ProjectName =>
        }
      }
    }
    if forall k :: Clause(t, f, k) {
      assert Clause(t, f, EmpId) && Clause(t, f, EmployeeName) && Clause(t, f, Course);
      assert Clause(t, f, TrainerName) && Clause(t, f, TrainingType) && Clause(t, f, StartDate);
      assert Clause(t, f, EndDate) && Clause(t, f, Status) && Clause(t, f, PercentCompleted);
      assert Clause(t, f, ProjectName);
    }
  }

  /** Each clause of the source holds exactly when its field accepts the record. */
  lemma FieldClause(t: Training, f: Filters, k: Field)
    ensures Clause(t, f, k) <==> FilterValue(f, k) == "" || FieldAccepts(t, k, FilterValue(f, k))
  {
    var text := FieldText(t, k);
    var v := FilterValue(f, k);
    if KindOf(k) == DatePartMatch && v != "" && |text| >= 10 {
      assert DatePart(text) == text[..10];
    }
  }

  // ---------------------------------------------------------------------
  // Properties of the filtered list.

  /** The elements of b at the positions keep marks, in their original order. */
  function Select<T>(b: seq<T>, keep: seq<bool>): (a: seq<T>)
    requires |keep| == |b|
    ensures |a| <= |b|
  {
    if b == [] then [] else (if keep[0] then [b[0]] else []) + Select(b[1..], keep[1..])
  }

  /** a is b with some elements left out, the rest in their original order. */
  ghost predicate IsSubsequence<T>(a: seq<T>, b: seq<T>) {
    exists keep :: |keep| == |b| && Select(b, keep) == a
  }

  /** Filter keeps exactly the positions of xs where p holds, in their original order. */
  lemma {:induction false} FilterSelectsInOrder<T(!new)>(xs: seq<T>, p: T -> bool) returns (keep: seq<bool>)
    ensures |keep| == |xs|
    ensures forall i :: 0 <= i < |xs| ==> keep[i] == p(xs[i])
    ensures Filter(xs, p) == Select(xs, keep)
  {
    if xs == [] {
      keep := [];
    } else {
      var rest := FilterSelectsInOrder(xs[1..], p);
      keep := [p(xs[0])] + rest;
      assert keep[1..] == rest;
      forall i | 1 <= i < |xs| ensures keep[i] == p(xs[i]) {
        assert xs[i] == xs[1..][i - 1];
      }
    }
  }

  /**
   * The filtered list is exactly the matching rows of ts in their original
   * order: it selects from ts the positions whose row matches.
   */
  lemma FilterKeepsMatchingInOrder(ts: seq<Training>, f: Filters) returns (keep: seq<bool>)
    ensures |keep| == |ts|
    ensures forall i :: 0 <= i < |ts| ==> keep[i] == Matches(ts[i], f)
    ensures FilteredTrainings(ts, f) == Select(ts, keep)
  {
    keep := FilterSelectsInOrder(ts, t => Matches(t, f));
  }

  /** The filtered list is an order-preserving subsequence of the records. */
  lemma FilterIsSubsequence(ts: seq<Training>, f: Filters)
    ensures IsSubsequence(FilteredTrainings(ts, f), ts)
  {
    var keep := FilterKeepsMatchingInOrder(ts, f);
  }

  /** With every filter value empty the table shows every record, in order. */
  lemma {:induction false} EmptyFiltersShowAll(ts: seq<Training>)
    ensures FilteredTrainings(ts, NoFilters) == ts
  {
    if ts != [] {
      EmptyFiltersShowAll(ts[1..]);
      assert Matches(ts[0], NoFilters) by {
        IncludesEmpty(ToLower(ts[0].empId), "");
        IncludesEmpty(ToLower(ts[0].employeeName), "");
      }
      assert [ts[0]] + ts[1..] == ts;
    }
  }

  /** g is f with possibly more fields constrained: every non-empty value of f is kept in g. */
  predicate Refines(g: Filters, f: Filters) {
    forall k :: FilterValue(f, k) == "" || FilterValue(g, k) == FilterValue(f, k)
  }

  /** A row accepted by a refined filter is accepted by the coarser one. */
  lemma RefinedMatches(t: Training, f: Filters, g: Filters)
    requires Refines(g, f)
    requires Matches(t, g)
    ensures Matches(t, f)
  {
    MatchesIsConjunction(t, g);
    MatchesIsConjunction(t, f);
    forall k ensures Clause(t, f, k) {
      assert Clause(t, g, k);
    }
  }

  /** Filtering by a refined filter equals filtering the coarser result again. */
  lemma {:induction false} RefinedFilterNarrows(ts: seq<Training>, f: Filters, g: Filters)
    requires Refines(g, f)
    ensures FilteredTrainings(ts, g) == FilteredTrainings(FilteredTrainings(ts, f), g)
    ensures IsSubsequence(FilteredTrainings(ts, g), FilteredTrainings(ts, f))
  {
    if ts != [] {
      RefinedFilterNarrows(ts[1..], f, g);
      if Matches(ts[0], g) {
        RefinedMatches(ts[0], f, g);
      }
    }
    FilterIsSubsequence(FilteredTrainings(ts, f), g);
  }

  /** Typing into an empty filter cell never brings new rows into view. */
  lemma SetEmptyFilterNarrows(ts: seq<Training>, f: Filters, k: Field, v: string)
    requires FilterValue(f, k) == ""
    ensures IsSubsequence(FilteredTrainings(ts, WithFilter(f, k, v)), FilteredTrainings(ts, f))
    ensures |FilteredTrainings(ts, WithFilter(f, k, v))| <= |FilteredTrainings(ts, f)|
  {
    RefinedFilterNarrows(ts, f, WithFilter(f, k, v));
  }

  /** With only field k filtered, a row is visible iff v is empty or field k accepts it. */
  lemma SingleFieldFilter(t: Training, k: Field, v: string)
    ensures Matches(t, WithFilter(NoFilters, k, v)) <==> v == "" || FieldAccepts(t, k, v)
  {
    var f := WithFilter(NoFilters, k, v);
    MatchesIffVisible(t, f);
    if v == "" || FieldAccepts(t, k, v) {
      forall j ensures FilterValue(f, j) == "" || FieldAccepts(t, j, FilterValue(f, j)) { }
    }
  }

  /** A record with no percentCompleted is hidden by every non-empty percent filter. */
  lemma AbsentPercentHidden(t: Training, f: Filters)
    requires t.percentCompleted == Absent && f.percentCompleted != ""
    ensures !Matches(t, f)
  {
    IncludesEmpty("", f.percentCompleted);
  }

  /** A percent filter with a non-digit character hides every record whose percent is a number. */
  lemma NonDigitPercentFilterHidesNumbers(t: Training, f: Filters, k: nat)
    requires t.percentCompleted.Number?
    requires k < |f.percentCompleted| && !IsDigit(f.percentCompleted[k])
    ensures !Matches(t, f)
  {
    NonDigitNotInDecimal(t.percentCompleted.n, f.percentCompleted, k);
  }

  /** A date filter longer than a date part (ten characters) hides every record. */
  lemma LongDateFilterHidesAll(t: Training, f: Filters)
    requires |f.startDate| > 10 || |f.endDate| > 10
    ensures !Matches(t, f)
  {
  }

  /** A non-empty start-date filter shows t exactly when the edit form opened on t would show that date. */
  lemma StartDateFilterAgreesWithEditForm(t: Training, f: Filters)
    requires f.startDate != ""
    requires Matches(t, f.(startDate := ""))
    ensures Matches(t, f) <==> EditTemplate(t).startDate == f.startDate
  {
  }

  /** The free-text filters ignore the case of the typed value. */
  lemma {:induction false} TextFiltersIgnoreCase(t: Training, f: Filters, k: Field, v: string)
    requires KindOf(k) == CaseInsensitiveSubstring
    ensures Matches(t, WithFilter(f, k, v)) <==> Matches(t, WithFilter(f, k, ToLower(v)))
  {
    ToLowerIdempotent(v);
    assert ToLower(v) == "" <==> v == "";
  }
}
