/** The nullable values of the state layer (`string | null`, `number | null`)
    and the error text a `createAsyncThunk` rejection leaves in a store. */
module Wrappers {

  /** `null` is `None`; any other value `v` is `Some(v)`. */
  datatype Option<+T> = None | Some(value: T)

  /** The text a rejected fetch stores: `action.error.message || fallback`.
      A missing message and an empty one are both falsy in JavaScript, so
      both give way to the fallback; any other message is kept verbatim. */
  function RejectionMessage(message: Option<string>, fallback: string): (text: string)
    ensures message.Some? && message.value != "" ==> text == message.value
    ensures message == None || message == Some("") ==> text == fallback
    ensures fallback != "" ==> text != ""
  {
    match message
    case Some(m) => if m != "" then m else fallback
    case None => fallback
  }
}
