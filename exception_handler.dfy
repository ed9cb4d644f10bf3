/**
 * The exception-to-response classification of `CustomExceptionHandler.TryHandleAsync`:
 * a validation exception becomes 400 with its messages joined by ", "; anything
 * else becomes 500 with a fixed text.
 */
module ExceptionHandling {
  import opened Validation

  const Status400BadRequest: int := 400
  const Status500InternalServerError: int := 500
  const ValidationTitle := "Validation Error"
  const InternalErrorTitle := "Internal Server Error"
  const InternalErrorDetail := "An unexpected error occurred."
  const Separator := ", "

  /** The exceptions that reach the handler: FluentValidation's `ValidationException`, or any other. */
  datatype Exception = ValidationException(errors: seq<ValidationFailure>) | OtherException(message: string)

  datatype Classification = Classification(statusCode: int, title: string, detail: string)

  datatype ProblemDetails = ProblemDetails(status: int, title: string, detail: string, instance: string)

  /** What the handler produces: its return value, the response status code, and the JSON body. */
  datatype HandledResponse = HandledResponse(handled: bool, statusCode: int, body: ProblemDetails)

  /** `errors.Select(e => e.ErrorMessage)`. */
  function ErrorMessages(errors: seq<ValidationFailure>): (r: seq<string>)
    ensures |r| == |errors|
    ensures forall i :: 0 <= i < |errors| ==> r[i] == errors[i].errorMessage
    decreases |errors|
  {
    if errors == [] then [] else [errors[0].errorMessage] + ErrorMessages(errors[1..])
  }

  /** `string.Join(separator, parts)`: empty for no parts, otherwise it begins with the first part. */
  function Join(separator: string, parts: seq<string>): (r: string)
    ensures parts == [] ==> r == ""
    ensures parts != [] ==> parts[0] <= r
    decreases |parts|
  {
    if parts == [] then ""
    else if |parts| == 1 then parts[0]
    else parts[0] + separator + Join(separator, parts[1..])
  }

  /** Sum of the lengths of `parts`. */
  function TotalLength(parts: seq<string>): nat
    decreases |parts|
  {
    if parts == [] then 0 else |parts[0]| + TotalLength(parts[1..])
  }

  /** Joining keeps every part, in order, and inserts exactly one separator between neighbours. */
  lemma {:induction false} JoinAppend(separator: string, a: seq<string>, b: seq<string>)
    requires a != [] && b != []
    ensures Join(separator, a + b) == Join(separator, a) + separator + Join(separator, b)
    decreases |a|
  {
    if |a| == 1 {
      assert (a + b)[1..] == b;
    } else {
      assert (a + b)[1..] == a[1..] + b;
      JoinAppend(separator, a[1..], b);
    }
  }

  lemma JoinOfFour(separator: string, parts: seq<string>)
    requires |parts| == 4
    ensures Join(separator, parts) == parts[0] + separator + parts[1] + separator + parts[2] + separator + parts[3]
  {
    var tail2, tail1 := parts[2..], parts[1..];
    assert tail2[1..] == [parts[3]] && tail1[1..] == tail2;
    assert Join(separator, tail2) == parts[2] + separator + parts[3];
    assert Join(separator, tail1) == parts[1] + separator + (parts[2] + separator + parts[3]);
  }

  /** The joined text is as long as the parts plus one separator per gap. */
  lemma {:induction false} JoinLength(separator: string, parts: seq<string>)
    requires parts != []
    ensures |Join(separator, parts)| == TotalLength(parts) + (|parts| - 1) * |separator|
    decreases |parts|
  {
    if |parts| > 1 {
      JoinLength(separator, parts[1..]);
    }
  }

  /** The `exception switch`: (status, title, detail). */
  function Classify(e: Exception): (c: Classification)
    ensures c.statusCode == Status400BadRequest <==> e.ValidationException?
    ensures c.statusCode == Status500InternalServerError <==> e.OtherException?
    ensures e.ValidationException? ==> c.title == ValidationTitle && c.detail == Join(Separator, ErrorMessages(e.errors))
    ensures e.OtherException? ==> c.title == InternalErrorTitle && c.detail == InternalErrorDetail
  {
    match e
    case ValidationException(errors) =>
      Classification(Status400BadRequest, ValidationTitle, Join(Separator, ErrorMessages(errors)))
    case OtherException(_) =>
      Classification(Status500InternalServerError, InternalErrorTitle, InternalErrorDetail)
  }

  /** The internal error's own message never reaches the caller: any two non-validation exceptions look alike. */
  lemma OtherExceptionsIndistinguishable(m1: string, m2: string, path: string)
    ensures TryHandle(OtherException(m1), path) == TryHandle(OtherException(m2), path)
  {
  }

  /**
   * `TryHandleAsync` without its I/O: the response status equals the problem's
   * `Status`, the problem carries the classification and the request path, and
   * the exception is always reported handled.
   */
  function TryHandle(e: Exception, requestPath: string): (r: HandledResponse)
    ensures r.handled
    ensures r.statusCode == r.body.status
    ensures r.body.instance == requestPath
    ensures Classification(r.body.status, r.body.title, r.body.detail) == Classify(e)
  {
    var c := Classify(e);
    HandledResponse(true, c.statusCode, ProblemDetails(c.statusCode, c.title, c.detail, requestPath))
  }
}
