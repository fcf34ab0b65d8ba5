/** Types shared by every part of the model of the vacancy bot. */
module Common {

  datatype Option<+T> = None | Some(value: T)

  /** The outcome of a call into a collaborator that may fail: `Threw` is an
      exception (a rejected promise), `Returned(None)` a null or undefined result. */
  datatype Fetch<+T> = Threw | Returned(result: Option<T>)

  /** Telegram user ids and chat ids are JavaScript numbers; the model keeps them as integers. */
  type UserId = int
  type ChatId = int
}
