/** The tokens the linter receives from Python's tokenizer, which is not part of
    this model. Only the token types the linter tests for have a constructor of
    their own; every other type (operators, numbers, strings, newlines, ...) is
    kept by its type number. */
module Tokens {

  datatype Kind = Name | Comment | Indent | Other(code: int)

  /** One token: its type, its text, the lines it starts and ends on, and the
      physical source line(s) it was read from (`TokenInfo.line`). */
  datatype Token = Token(kind: Kind, text: string, startLine: int, endLine: int, line: string)
}
