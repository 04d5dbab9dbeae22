/** Shared vocabulary of the client and the server: optional values, the
    notification ("snackbar") a handler raises, and browser local storage. */
module Basics {

  /** A value that may be absent (JavaScript `null` / `undefined`). */
  datatype Option<+T> = None | Some(value: T)

  /** Colour of a notification. */
  datatype Severity = Success | Error

  /** A notification raised by a handler: its colour and its text. */
  datatype Snack = Snack(severity: Severity, message: string)

  /** Browser `localStorage`: string keys to string values. */
  type Storage = map<string, string>
}
