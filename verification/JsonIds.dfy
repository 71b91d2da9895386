/** Ids that may come as a number or as a text, as JSON and untyped dictionaries hold them. */
module JsonIds {

  datatype Id = Number(n: int) | Word(t: string)

  // Python's truth value: zero and the empty text are false.
  predicate Truthy(id: Id) {
    id != Number(0) && id != Word("")
  }
}
