/**
 * The create-class dialog: a three-step wizard whose second step selects
 * exactly five performance indicators, and the check made before the class
 * is sent to the server. The step counter and the selection are the
 * component's state; the form's text inputs are given strings, "" when a
 * field is empty or missing.
 */
module Wizard {
  import opened Wrappers

  const TotalSteps: int := 3

  /** The most indicators that can be selected, and the number a class needs. */
  const MaxIndicators: nat := 5

  // ---------------------------------------------------------------------------
  // Steps

  /** `handleNext`: advance unless on the last step. */
  function NextStep(step: int): (r: int)
    ensures step <= r <= step + 1
    ensures r > step <==> step < TotalSteps
  {
    if step < TotalSteps then step + 1 else step
  }

  /** `handlePrev`: go back unless on the first step. */
  function PrevStep(step: int): (r: int)
    ensures step - 1 <= r <= step
    ensures r < step <==> step > 1
  {
    if step > 1 then step - 1 else step
  }

  /** The step stays within 1..3; Next moves exactly when not on the last
      step and Previous exactly when not on the first, and each undoes the other. */
  lemma StepMoves(step: int)
    requires 1 <= step <= TotalSteps
    ensures 1 <= NextStep(step) <= TotalSteps && 1 <= PrevStep(step) <= TotalSteps
    ensures NextStep(step) == step + 1 <==> step < TotalSteps
    ensures NextStep(step) == step <==> step == TotalSteps
    ensures PrevStep(step) == step - 1 <==> step > 1
    ensures PrevStep(step) == step <==> step == 1
    ensures step < TotalSteps ==> PrevStep(NextStep(step)) == step
    ensures step > 1 ==> NextStep(PrevStep(step)) == step
  {
  }

  /** `getStepTitle`. */
  function StepTitle(step: int): (title: string)
    ensures title != "" <==> 1 <= step <= TotalSteps
  {
    match step
    case 1 => "Class Information"
    case 2 => "Performance Indicators"
    case 3 => "Add Students"
    case _ => ""
  }

  /** The three steps have three different titles. */
  lemma StepTitlesDistinct(s: int, t: int)
    requires 1 <= s <= TotalSteps && 1 <= t <= TotalSteps && s != t
    ensures StepTitle(s) != StepTitle(t)
  {
  }

  // ---------------------------------------------------------------------------
  // Indicator selection

  /** `selectedIndicators.filter((item) => item !== value)`. */
  function Without(s: seq<string>, v: string): (r: seq<string>)
    ensures forall x :: x in r <==> x in s && x != v
    ensures |r| <= |s|
    ensures v in s ==> |r| < |s|
  {
    if s == [] then []
    else if s[0] == v then Without(s[1..], v)
    else [s[0]] + Without(s[1..], v)
  }

  lemma {:induction false} WithoutAbsent(s: seq<string>, v: string)
    requires v !in s
    ensures Without(s, v) == s
  {
    if s != [] {
      WithoutAbsent(s[1..], v);
    }
  }

  lemma {:induction false} WithoutAppend(a: seq<string>, b: seq<string>, v: string)
    ensures Without(a + b, v) == Without(a, v) + Without(b, v)
  {
    if a == [] {
      assert a + b == b;
    } else {
      assert (a + b)[0] == a[0] && (a + b)[1..] == a[1..] + b;
      WithoutAppend(a[1..], b, v);
    }
  }

  lemma {:induction false} WithoutKeepsNoDuplicates(s: seq<string>, v: string)
    requires NoDuplicates(s)
    ensures NoDuplicates(Without(s, v))
  {
    if s != [] {
      assert NoDuplicates(s[1..]) by {
        forall i, j | 0 <= i < j < |s[1..]| ensures s[1..][i] != s[1..][j] {
          assert s[1..][i] == s[i + 1] && s[1..][j] == s[j + 1];
        }
      }
      WithoutKeepsNoDuplicates(s[1..], v);
      assert s[0] !in s[1..] by {
        forall k | 0 <= k < |s[1..]| ensures s[1..][k] != s[0] {
          assert s[1..][k] == s[k + 1];
        }
      }
    }
  }

  /** Removing a selected value from a duplicate-free selection takes out
      that one entry and keeps the others in their order. */
  lemma WithoutAt(s: seq<string>, k: nat)
    requires NoDuplicates(s) && k < |s|
    ensures Without(s, s[k]) == s[..k] + s[k + 1..]
  {
    var v, pre, post := s[k], s[..k], s[k + 1..];
    assert s == pre + ([v] + post);
    assert v !in pre by {
      forall j | 0 <= j < |pre| ensures pre[j] != v { assert pre[j] == s[j]; }
    }
    assert v !in post by {
      forall j | 0 <= j < |post| ensures post[j] != v { assert post[j] == s[k + 1 + j]; }
    }
    WithoutAppend(pre, [v] + post, v);
    WithoutAppend([v], post, v);
    WithoutAbsent(pre, v);
    WithoutAbsent(post, v);
  }

  /** `toggleIndicator`: remove a selected value, append an unselected one
      while fewer than five are selected, and otherwise change nothing. */
  function Toggled(sel: seq<string>, v: string): (r: seq<string>)
    ensures v in r <==> v !in sel && |sel| < MaxIndicators
    ensures forall x :: x != v ==> (x in r <==> x in sel)
    ensures |r| > |sel| ==> |r| == |sel| + 1 <= MaxIndicators
  {
    if v in sel then Without(sel, v)
    else if |sel| < MaxIndicators then sel + [v]
    else sel
  }

  /** The `isDisabled` flag of an indicator's row. */
  predicate IsDisabled(sel: seq<string>, v: string) {
    v !in sel && |sel| >= MaxIndicators
  }

  /** The row's `onClick`: toggle unless disabled. */
  function Click(sel: seq<string>, v: string): (r: seq<string>)
    ensures r == sel <==> IsDisabled(sel, v)
  {
    if IsDisabled(sel, v) then sel else Toggled(sel, v)
  }

  /** Toggling appends an unselected value while there is room, removes a
      selected one (keeping the order of the rest), and leaves a full
      selection alone. */
  lemma ToggleSpec(sel: seq<string>, v: string)
    requires NoDuplicates(sel)
    ensures v !in sel && |sel| < MaxIndicators ==> Toggled(sel, v) == sel + [v]
    ensures v !in sel && |sel| >= MaxIndicators ==> Toggled(sel, v) == sel
    ensures forall k :: 0 <= k < |sel| && sel[k] == v ==> Toggled(sel, v) == sel[..k] + sel[k + 1..]
    ensures forall x :: x in Toggled(sel, v) <==> (x in sel && x != v) || (x == v && v !in sel && |sel| < MaxIndicators)
  {
    forall k | 0 <= k < |sel| && sel[k] == v ensures Toggled(sel, v) == sel[..k] + sel[k + 1..] {
      WithoutAt(sel, k);
    }
  }

  /** A toggle changes nothing exactly when the row is disabled, so the
      click guard only blocks toggles that would do nothing anyway. */
  lemma ToggleNoOpIffDisabled(sel: seq<string>, v: string)
    ensures Toggled(sel, v) == sel <==> IsDisabled(sel, v)
    ensures Click(sel, v) == Toggled(sel, v)
  {
    if v in sel {
      assert |Toggled(sel, v)| < |sel|;
    } else if |sel| < MaxIndicators {
      assert |Toggled(sel, v)| == |sel| + 1;
    }
  }

  /** Toggling an unselected value twice, with room for it, restores the selection. */
  lemma ToggleTwice(sel: seq<string>, v: string)
    requires v !in sel && |sel| < MaxIndicators
    ensures Toggled(Toggled(sel, v), v) == sel
  {
    WithoutAppend(sel, [v], v);
    WithoutAbsent(sel, v);
  }

  /** The selection invariant: duplicate-free and at most five values. */
  predicate ValidSelection(sel: seq<string>) {
    NoDuplicates(sel) && |sel| <= MaxIndicators
  }

  lemma ToggleKeepsValid(sel: seq<string>, v: string)
    requires ValidSelection(sel)
    ensures ValidSelection(Toggled(sel, v))
  {
    if v in sel {
      WithoutKeepsNoDuplicates(sel, v);
    }
  }

  /** A sequence of toggles, in order. */
  function ToggleAll(sel: seq<string>, vs: seq<string>): seq<string>
    decreases |vs|
  {
    if vs == [] then sel else ToggleAll(Toggled(sel, vs[0]), vs[1..])
  }

  /** Any sequence of toggles from a valid selection (the initial empty one
      included) keeps it duplicate-free and at most five long, and only
      ever holds values that were toggled or were there before. */
  lemma {:induction false} ToggleAllKeepsValid(sel: seq<string>, vs: seq<string>)
    requires ValidSelection(sel)
    decreases |vs|
    ensures ValidSelection(ToggleAll(sel, vs))
    ensures forall x :: x in ToggleAll(sel, vs) ==> x in sel || x in vs
  {
    if vs != [] {
      ToggleKeepsValid(sel, vs[0]);
      ToggleAllKeepsValid(Toggled(sel, vs[0]), vs[1..]);
      ToggleSpec(sel, vs[0]);
    }
  }

  /** The id of the n-th performance indicator of the catalogue, `indicator-${id}`. */
  function IndicatorId(n: nat): string
    requires 1 <= n <= 9
  {
    "indicator-" + [('0' as int + n) as char]
  }

  /** The catalogue has seven indicators, with ids 1 to 7. */
  const CatalogueSize: nat := 7

  predicate InCatalogue(v: string) {
    exists n :: 1 <= n <= CatalogueSize && v == IndicatorId(n)
  }

  /** Different indicators have different ids. */
  lemma IndicatorIdsDistinct(n: nat, m: nat)
    requires 1 <= n <= CatalogueSize && 1 <= m <= CatalogueSize && n != m
    ensures IndicatorId(n) != IndicatorId(m)
  {
    assert IndicatorId(n)[10] != IndicatorId(m)[10];
  }

  // ---------------------------------------------------------------------------
  // Submission

  /** The eight text fields of the form, "" when empty or missing. */
  datatype FormFields = FormFields(
    courseName: string, courseCode: string, year: string, semester: string,
    batch: string, department: string, academicYear: string, facultyName: string)

  /** `classData`: the form fields and the selected indicators. */
  datatype ClassData = ClassData(fields: FormFields, indicators: seq<string>)

  /** The check in `handleSubmit`: every field filled in and exactly five indicators. */
  predicate Submittable(d: ClassData) {
    && d.fields.courseName != "" && d.fields.courseCode != "" && d.fields.year != ""
    && d.fields.semester != "" && d.fields.batch != "" && d.fields.department != ""
    && d.fields.academicYear != "" && d.fields.facultyName != ""
    && |d.indicators| == MaxIndicators
  }

  const SubmitAlert: string := "Please fill in all required fields and select exactly 5 indicators."

  /** Send the data to the server, or stop with the alert. */
  datatype SubmitOutcome = Send(data: ClassData) | Alert(message: string)

  function Submit(d: ClassData): (r: SubmitOutcome)
    ensures r.Send? <==> Submittable(d)
    ensures r.Send? ==> r.data == d
    ensures r.Alert? ==> r.message == SubmitAlert
  {
    if Submittable(d) then Send(d) else Alert(SubmitAlert)
  }

  /** A form reached by clicking catalogue rows sends only when all fields are
      filled in, and then sends five different indicators of the catalogue. */
  lemma SubmitFromClicks(fields: FormFields, clicks: seq<nat>)
    requires forall i :: 0 <= i < |clicks| ==> 1 <= clicks[i] <= CatalogueSize
    ensures var vs := seq(|clicks|, i requires 0 <= i < |clicks| => IndicatorId(clicks[i]));
      var r := Submit(ClassData(fields, ToggleAll([], vs)));
      && (r.Send? <==> Submittable(ClassData(fields, ToggleAll([], vs))))
      && (r.Alert? ==> r.message == SubmitAlert)
      && (r.Send? ==> |r.data.indicators| == MaxIndicators && NoDuplicates(r.data.indicators)
                      && forall x :: x in r.data.indicators ==> InCatalogue(x))
  {
    var vs := seq(|clicks|, i requires 0 <= i < |clicks| => IndicatorId(clicks[i]));
    ToggleAllKeepsValid([], vs);
    forall x | x in ToggleAll([], vs) ensures InCatalogue(x) {
      var i :| 0 <= i < |vs| && vs[i] == x;
      assert x == IndicatorId(clicks[i]);
    }
  }

  // ---------------------------------------------------------------------------
  // The component state

  class CreateClassForm {
    var step: int
    var selectedIndicators: seq<string>

    ghost predicate Valid()
      reads this
    {
      1 <= step <= TotalSteps && ValidSelection(selectedIndicators)
    }

    /** The initial state: step 1, nothing selected. */
    constructor ()
      ensures step == 1 && selectedIndicators == [] && Valid()
    {
      step := 1;
      selectedIndicators := [];
    }

    method HandleNext()
      requires Valid()
      modifies this
      ensures Valid()
      ensures step == NextStep(old(step)) && selectedIndicators == old(selectedIndicators)
    {
      if step < TotalSteps {
        step := step + 1;
      }
    }

    method HandlePrev()
      requires Valid()
      modifies this
      ensures Valid()
      ensures step == PrevStep(old(step)) && selectedIndicators == old(selectedIndicators)
    {
      if step > 1 {
        step := step - 1;
      }
    }

    method ToggleIndicator(value: string)
      requires Valid()
      modifies this
      ensures Valid()
      ensures selectedIndicators == Toggled(old(selectedIndicators), value) && step == old(step)
    {
      ToggleKeepsValid(selectedIndicators, value);
      if value in selectedIndicators {
        selectedIndicators := Without(selectedIndicators, value);
      } else if |selectedIndicators| < MaxIndicators {
        selectedIndicators := selectedIndicators + [value];
      }
    }

    /** A click on the row of catalogue indicator `id`. */
    method ClickIndicator(id: nat)
      requires Valid() && 1 <= id <= CatalogueSize
      modifies this
      ensures Valid()
      ensures selectedIndicators == Click(old(selectedIndicators), IndicatorId(id)) && step == old(step)
    {
      var indicatorId := IndicatorId(id);
      if !IsDisabled(selectedIndicators, indicatorId) {
        ToggleIndicator(indicatorId);
      }
    }

    /** `handleSubmit` up to the request: the data to send, or the alert. */
    method HandleSubmit(fields: FormFields) returns (r: SubmitOutcome)
      requires Valid()
      ensures r == Submit(ClassData(fields, selectedIndicators))
      ensures r.Send? ==> NoDuplicates(r.data.indicators) && |r.data.indicators| == MaxIndicators
    {
      var classData := ClassData(fields, selectedIndicators);
      if !Submittable(classData) {
        return Alert(SubmitAlert);
      }
      r := Send(classData);
    }
  }
}
