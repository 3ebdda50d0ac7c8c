/** Values as the core reads them from JSON payloads and MongoDB documents. */
module Values {

  /** A value that may be absent: JavaScript's null and undefined both read as None. */
  datatype Option<+T> = None | Some(value: T)

  /** A reference to another document: null, or an ObjectId given by its hex text.
      An ObjectId is always truthy, and String() of it (or of a document whose
      _id it is) is its hex text. */
  datatype Ref = NoId | ObjectId(hex: string)

  /** The text of a reference (asId in fetchGameResults.js, getId in the leaderboard):
      null for a missing reference, else the ObjectId's hex text. */
  function IdText(v: Ref): (r: Option<string>)
    ensures r.None? <==> v.NoId?
    ensures v.ObjectId? ==> r == Some(v.hex)
  {
    match v
    case NoId => None
    case ObjectId(hex) => Some(hex)
  }
}
