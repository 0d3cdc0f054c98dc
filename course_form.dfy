/**
 * The page's registration-form submit handler (handleSubmit): no course selected means
 * an error status and no request; otherwise the form is posted to the external form
 * service, and the status says whether the post threw.
 */
module CourseForm {

  /** The status message the form shows. */
  datatype FormStatus = Idle | Success | Error

  /** What one submission does: the status it sets, and whether it sent the form. */
  datatype SubmitOutcome = SubmitOutcome(status: FormStatus, posted: bool)

  /** handleSubmit, given the selected course values and whether the no-cors post throws. */
  function HandleSubmit(selectedCourses: seq<string>, postThrows: bool): (r: SubmitOutcome)
    ensures r.posted <==> |selectedCourses| > 0
    ensures r.status == Success <==> |selectedCourses| > 0 && !postThrows
    ensures r.status != Idle
  {
    if |selectedCourses| == 0 then SubmitOutcome(Error, false)
    else if postThrows then SubmitOutcome(Error, true)
    else SubmitOutcome(Success, true)
  }
}
