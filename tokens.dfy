/** Token kinds and tokens as the parser receives them from the lexer. */
module Tokens {

  /** The kinds of token the lexer produces (globalTypes.py, TokenType). */
  datatype TokenType =
    | ENDFILE | ERROR
    | IF | ELSE | WHILE | INT | VOID | RETURN
    | ID | NUM
    | EQ | EQEQ | LT | LE | GT | GE | NE
    | PLUS | MINUS | TIMES | OVER
    | LPAREN | RPAREN | LBRACE | RBRACE | LBRACKET | RBRACKET
    | SEMI | COMMA
    | COMMENT

  /** One token: its kind, its text, and the lexer's line counter once the token was read. */
  datatype Token = Token(kind: TokenType, lexeme: string, line: int)

  /** The relational operators accepted by simple-expression. */
  const RelOps: set<TokenType> := {LT, LE, GT, GE, EQEQ, NE}

  /** Tokens the parser never sees: comments, and error tokens whose text opens a comment. */
  predicate Skipped(t: Token)
  {
    t.kind == COMMENT || (t.kind == ERROR && |t.lexeme| >= 2 && t.lexeme[..2] == "/*")
  }

  /** What the lexer answers once its input is exhausted: ENDFILE with empty text, on the last line read. */
  function EndToken(toks: seq<Token>): (t: Token)
    ensures t.kind == ENDFILE && !Skipped(t)
  {
    Token(ENDFILE, "", if |toks| == 0 then 1 else toks[|toks| - 1].line)
  }

  /** The token at cursor `pos`; past the end it is the end-of-input token. */
  function TokenAt(toks: seq<Token>, pos: nat): Token
  {
    if pos < |toks| then toks[pos] else EndToken(toks)
  }
}
