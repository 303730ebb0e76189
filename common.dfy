/** Shared vocabulary of the model: optional values, record identities,
    calendar days and the HTTP status codes the three handlers answer with. */
module Common {

  /** A value that may be absent: `None` stands for a JSON field that is
      `undefined` (or, where noted, one whose value JavaScript treats as falsy). */
  datatype Option<T> = None | Some(value: T)

  /** A document identity (a MongoDB ObjectId, abstracted to a number). */
  type Id = nat

  /** A calendar day; a booking date is only ever compared by its day. */
  type Day = int

  const StatusOk: nat := 200
  const StatusCreated: nat := 201
  const StatusBadRequest: nat := 400
  const StatusConflict: nat := 409
  const StatusServerError: nat := 500

  /** JavaScript's `!x` for a string field of a JSON body: true exactly when
      the field is absent or the empty string. */
  predicate Falsy(s: Option<string>)
  {
    s.None? || s.value == ""
  }
}
