/** Tokens, as scanners make them and grammars use them. */
module TokenCodes {
  const TOKEN_ERROR := 1
  const TOKEN_EOF := 13

  datatype Token = Token(code: int, text: string)
}
