/**
 * Tokens produced by the lexer (src/lexing/token.py).
 * A token is an immutable value: its kind and the 1-based line and column it was found at.
 */
module Tokens {

  /** The four token kinds of `CsvTokenType`. */
  datatype TokenType = Comma | Newline | Value | EndOfFile

  /** The kinds a plain `CsvToken` is built with; VALUE tokens are always `CsvValueToken`s. */
  type PlainType = t: TokenType | t != Value witness Comma

  /** `CsvToken` and its subclass `CsvValueToken`, which also carries the value's text. */
  datatype Token =
    | CsvToken(tokenType: PlainType, lineNum: int, charIndex: int)
    | CsvValueToken(value: string, lineNum: int, charIndex: int)
  {
    /** The `type` attribute: a value token always reports VALUE. */
    function Type(): (t: TokenType)
      ensures t == Value <==> CsvValueToken?
      ensures CsvToken? ==> t == tokenType
    {
      if CsvValueToken? then Value else tokenType
    }

    /** COMMA or NEWLINE: the kinds around which the parser looks for an empty value. */
    predicate IsSeparator() {
      Type() == Comma || Type() == Newline
    }
  }

  /** A token that is known to be a value token, as `CsvValue` expects. */
  type ValueToken = t: Token | t.CsvValueToken? witness CsvValueToken("", 0, 0)

  /** A token keeps its kind, line and column as given; a value token also keeps its text and is a VALUE. */
  lemma TokensKeepFields(kind: PlainType, text: string, lineNum: int, charIndex: int)
    ensures var t := CsvToken(kind, lineNum, charIndex);
            t.Type() == kind && t.lineNum == lineNum && t.charIndex == charIndex
    ensures var v := CsvValueToken(text, lineNum, charIndex);
            v.Type() == Value && v.value == text && v.lineNum == lineNum && v.charIndex == charIndex
  {
  }
}
