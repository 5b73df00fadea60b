/**
 The values that flow through one polling cycle of the monitor bot: a
 conversation record as the conversations endpoint returns it, and the
 chat notices the cycle sends.
 */
module Types {

  datatype Option<T> = None | Some(value: T)

  /** One record of the conversations list. `title` and `status` may be
      missing from the record; `id` is always read. */
  datatype Conv = Conv(id: string, title: Option<string>, status: Option<string>)

  /** A chat notice, carrying the fields the formatted text is built from. */
  datatype Msg =
    | NewTask(title: string, id: string)
    | StatusUpdate(title: string, status: string)

  const UntitledTitle: string := "Untitled"
  const UnknownStatus: string := "UNKNOWN"

  /** The title used in notices: the record's own, or "Untitled". */
  function TitleOf(c: Conv): string
  {
    match c.title
    case Some(t) => t
    case None => UntitledTitle
  }

  /** The status that is compared and recorded: the record's own, or "UNKNOWN". */
  function StatusOf(c: Conv): string
  {
    match c.status
    case Some(st) => st
    case None => UnknownStatus
  }
}
