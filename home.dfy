/**
 * The dashboard's home page: the session it keeps (headers, student id,
 * class id and class name), the two handlers its child forms call back, and
 * which of its two screens it shows.
 */
module Home {
  import opened JsValues
  import opened TestResultsDisplay

  /** The two mutually exclusive screens of the page. */
  datatype Screen = HeaderInputForm | MainView

  /** The condition guarding the main view (class selector, results, "Start Over"). */
  predicate ShowsMainView(headers: Headers, studentId: Nullable<int>) {
    |headers| > 0 && TruthyNumber(studentId)
  }

  /** The condition guarding the header form, written separately in the page. */
  predicate ShowsHeaderInput(headers: Headers, studentId: Nullable<int>) {
    !(|headers| > 0 && TruthyNumber(studentId))
  }

  /**
   * The screen shown for a session: the two guards are negations of each
   * other, so exactly one of the two screens is on the page.
   */
  function ScreenOf(headers: Headers, studentId: Nullable<int>): (screen: Screen)
    ensures screen == HeaderInputForm <==> ShowsHeaderInput(headers, studentId)
    ensures screen == MainView <==> ShowsMainView(headers, studentId)
    ensures screen == MainView ==> headers != map[] && studentId.Just? && studentId.value != 0
  {
    if ShowsMainView(headers, studentId) then MainView else HeaderInputForm
  }

  /** What the `headers && Object.keys(headers).length > 0 && studentId && (...)` slot renders. */
  datatype MainSlot = MainViewShown | SlotText(text: string) | SlotEmpty

  /**
   * The main-view slot: the main view when its guard holds. When there are
   * headers but the student id is the falsy number 0, the guard evaluates to
   * 0, which is rendered as the text "0" beside the header form.
   */
  function MainSlotOf(headers: Headers, studentId: Nullable<int>): (slot: MainSlot)
    ensures slot.MainViewShown? <==> ShowsMainView(headers, studentId)
    ensures slot.SlotText? <==> |headers| > 0 && studentId == Just(0)
    ensures slot.SlotText? ==> slot.text == "0" && ScreenOf(headers, studentId) == HeaderInputForm
    ensures slot.SlotEmpty? <==> |headers| == 0 || studentId.Null?
  {
    if |headers| == 0 then SlotEmpty
    else if studentId.Null? then SlotEmpty
    else if studentId.value == 0 then SlotText(NumberToString(studentId.value))
    else MainViewShown
  }

  /**
   * The page always hands a headers record to the results view, and any
   * record counts as present there, even an empty one: its course-plan
   * query then runs exactly when a class with a non-zero id is chosen.
   */
  lemma PageHeadersEnableCoursePlanOfChosenClass(headers: Headers, classId: Nullable<int>)
    ensures CoursePlanEnabled(Just(headers), classId) <==> classId.Just? && classId.value != 0
  {
  }

  /** The page component's state, updated in place by its handlers. */
  class HomePage {
    var headers: Headers
    var studentId: Nullable<int>
    var classId: Nullable<int>
    var className: Nullable<string>

    function CurrentScreen(): Screen
      reads this
    {
      ScreenOf(headers, studentId)
    }

    /** No headers, no student, no class: the header form is shown first. */
    constructor ()
      ensures headers == map[] && studentId == Null && classId == Null && className == Null
      ensures CurrentScreen() == HeaderInputForm
    {
      headers := map[];
      studentId := Null;
      classId := Null;
      className := Null;
    }

    /** `handleHeadersProcessed`: replaces headers, student id and class id; the class name stays. */
    method HandleHeadersProcessed(processedHeaders: Headers, processedStudentId: Nullable<int>,
                                  processedClassId: Nullable<int>)
      modifies this
      ensures headers == processedHeaders && studentId == processedStudentId && classId == processedClassId
      ensures className == old(className)
      ensures CurrentScreen() == MainView <==> |processedHeaders| > 0 && TruthyNumber(processedStudentId)
    {
      headers := processedHeaders;
      studentId := processedStudentId;
      classId := processedClassId;
    }

    /** `handleClassSelected`: replaces class id and name; the session and the screen stay. */
    method HandleClassSelected(selectedClassId: int, selectedClassName: string)
      modifies this
      ensures classId == Just(selectedClassId) && className == Just(selectedClassName)
      ensures headers == old(headers) && studentId == old(studentId)
      ensures CurrentScreen() == old(CurrentScreen())
    {
      classId := Just(selectedClassId);
      className := Just(selectedClassName);
    }
  }

  /**
   * A session as the page goes through it: headers and a student are
   * entered, then a class is chosen; the results view can then fetch that
   * class's course plan.
   */
  method SignInAndChooseClass(headers: Headers, studentId: int, classId: int, name: string)
    returns (page: HomePage)
    requires |headers| > 0 && studentId != 0 && classId != 0
    ensures page.CurrentScreen() == MainView
    ensures page.classId == Just(classId) && page.className == Just(name)
    ensures CoursePlanEnabled(Just(page.headers), page.classId)
  {
    page := new HomePage();
    page.HandleHeadersProcessed(headers, Just(studentId), Null);
    page.HandleClassSelected(classId, name);
  }
}
