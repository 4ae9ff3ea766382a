/** Identifiers, outcomes and errors shared by every part of the social-network model.

    The backend answers each request either with a value or with an HTTP error. The
    error kinds that the relationship and content rules produce are NotFound (404),
    Forbidden (403) and BadRequest (400), each with the handler's message, and Conflict (409).
    SchemaRejected stands for a document the schema refuses to save; the answer to that
    comes from an error middleware that is not part of this model.
 */
module Base {

  /** A document id (a Mongo ObjectId), kept abstract as a natural number. */
  type Id = nat
  type UserId = Id
  type GroupId = Id
  type PostId = Id
  type CommentId = Id

  /** An id as it arrives in a request. Handlers that call `ObjectId.isValid` first
      answer BadRequest for a `Malformed` one; what makes a string a valid ObjectId is
      not part of this model. */
  datatype Ref = Ref(id: Id) | Malformed

  predicate IsValidRef(r: Ref) { r.Ref? }

  datatype Option<T> = None | Some(value: T)

  datatype Error =
    | NotFound
    | Forbidden(message: string)
    | BadRequest(message: string)
    | Conflict
    | SchemaRejected

  datatype Result<T> = Ok(value: T) | Err(error: Error) {
    predicate IsFailure() { Err? }
    function PropagateFailure<U>(): Result<U>
      requires Err?
    {
      Err(error)
    }
    function Extract(): T
      requires Ok?
    {
      value
    }
  }

  /** The verdict of a request validator: let the request through, or answer an error. */
  datatype Outcome = Pass | Fail(error: Error)
}
