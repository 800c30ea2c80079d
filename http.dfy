/** What a route handler answers: an HTTP status and either a JSON body or `{ error }`. */
module Http {

  datatype Payload<+T> = Body(value: T) | Error(message: string)

  datatype Response<+T> = Response(status: int, payload: Payload<T>)

  /** `NextResponse.json(value)`: status 200. */
  function Ok<T>(value: T): Response<T>
  {
    Response(200, Body(value))
  }

  /** `NextResponse.json({ error: message }, { status })`. */
  function Fail<T>(status: int, message: string): Response<T>
  {
    Response(status, Error(message))
  }

  /** The outcome of a handler's guard chain: the value it goes on with, or the error it answers. */
  datatype Guard<+T> = Pass(value: T) | Reject(status: int, message: string)

  /** The body `{ success: true }`. */
  datatype Success = Success

  const Unauthorized := "Unauthorized"
  const InternalError := "Internal server error"
}
