/** Errors raised while parsing the block-YAML subset. */
module Errors {

  /** Why the engine rejected a line; each corresponds to one message of
      `_parse_error` in the source. */
  datatype Reason =
    | IndentWithSpacesOnly   // a leading whitespace character is not a space
    | SequenceLineHasData    // nesting under a `- value` line whose value is not empty
    | MappingLineHasData     // nesting under a `key: value` line whose value is not empty
    | InvalidIndentation     // a dedent that matches no open level
    | InvalidEntryType       // `-` entries and `key:` entries mixed at one level
    | DuplicateKey           // a key repeated within one mapping

  /** A parse failure. Errors raised through `_parse_error` carry the 1-based
      line number; the failing two-way unpack of a mapping line and the final
      `stack[0]` on an empty stack are raw Python exceptions without one. */
  datatype Error =
    | LineError(line: nat, reason: Reason)
    | UnpackFailure
    | NoEntries
}
