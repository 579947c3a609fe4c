/** Value types shared by the backend model and the two client models. */
module Common {

  datatype Option<+T> = None | Some(value: T)

  /** The answer of a controller action, by the HTTP status it is sent with:
      Ok (200 or 201 with a body), NotFound (404), BadRequest (400) and
      ServerError (500), an exception the action does not catch: a write the
      database refuses because it breaks a foreign key or a unique index, or
      a cast of a missing value. */
  datatype Reply<+T> = Ok(value: T) | NotFound | BadRequest | ServerError

  /** A JSON response body as the React clients see it. The backend serializes
      collections with reference preservation, so a list arrives wrapped as an
      object `{ "$values": [...] }` (Preserved); List is a bare array, Null is a
      missing body, OtherObject any other object. */
  datatype Json<+T> = Null | List(items: seq<T>) | Preserved(values: seq<T>) | OtherObject

  /** The patient client's `userId`: `null` before a token is read, after
      it expires or without a token; `undefined` when the token carries no
      `userSpecificId` claim; otherwise the claim's value. */
  datatype UserId = NullId | UndefinedId | Id(value: string)

  /** The id is truthy when it is a non-empty string. */
  predicate TruthyId(u: UserId) {
    u.Id? && u.value != []
  }

  /** A JavaScript string value is truthy when it is present and not empty. */
  predicate Truthy(s: Option<string>) {
    s.Some? && s.value != []
  }
}
