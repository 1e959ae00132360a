/** Value types shared by the two language servers: the pieces of the editor
    protocol they use, and the two wrappers for "maybe absent" and "may panic". */
module LspTypes {

  /** Rust's `Option<T>`. */
  datatype Option<+T> = None | Some(value: T)

  /** What a request handler produces: a value, or a panic (an `unwrap` of a
      missing value, a slice out of range). A panic ends the server's loop. */
  datatype Outcome<+T> = Done(value: T) | Panicked

  /** A document identifier, kept as its text. */
  type Uri = string

  /** Zero-based line and character of a document. The protocol's `u32` is
      taken as an unbounded natural number. */
  datatype Position = Position(line: nat, character: nat)

  datatype Range = Range(start: Position, end: Position)

  datatype Location = Location(uri: Uri, range: Range)

  /** The parameters of a definition or hover request. */
  datatype TextDocumentPositionParams = TextDocumentPositionParams(uri: Uri, position: Position)
}
