/**
 * The cursor store: one text file holding the id of the last mention the bot
 * considers processed. Its contents are `None` when the file is missing or
 * cannot be read; otherwise they are the text in the file.
 */
module CursorStore {
  import opened Wrappers
  import opened Text
  import opened Numerals

  /**
   * `loadLastMentionId`: the trimmed contents of the file, with a missing,
   * unreadable, empty or all-blank file all read as "no cursor".
   */
  function LoadLastMentionId(file: Option<string>): (r: Option<string>)
    ensures r.Some? ==> file.Some? && r.value != [] && r.value == Trim(file.value)
    ensures r.Some? ==> !IsJsWhitespace(r.value[0]) && !IsJsWhitespace(r.value[|r.value| - 1])
    ensures r.None? <==> file.None? || AllWhitespace(file.value)
  {
    match file
    case None => None
    case Some(text) =>
      var t := Trim(text);
      if t == [] then None else Some(t)
  }

  /** The file contents `saveLastMentionId` leaves behind for a mention id. */
  function SavedForm(id: nat): string {
    Decimal(id)
  }

  /** What the dispatcher's duplicate guard sees when it reads the cursor. */
  datatype CursorRead =
    | NoCursor         // no file, or a blank one: the guard is not applied
    | Cursor(id: int)  // the file holds a BigInt literal
    | Unparsable       // `BigInt` throws on the file's text

  /** The cursor as `BigInt(loadLastMentionId())` sees it, guarded by the truthiness test on the loaded text. */
  function ReadCursor(file: Option<string>): CursorRead {
    match LoadLastMentionId(file)
    case None => NoCursor
    case Some(t) =>
      match ParseBigInt(t)
      case None => Unparsable
      case Some(v) => Cursor(v)
  }

  /** A saved cursor reads back as exactly the id that was saved. */
  lemma ReadSavedCursor(id: nat)
    ensures LoadLastMentionId(Some(SavedForm(id))) == Some(SavedForm(id))
    ensures ReadCursor(Some(SavedForm(id))) == Cursor(id)
  {
    DigitsAreUnpadded(Decimal(id));
    ParseDecimal(id);
  }
}
