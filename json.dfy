/** The interface of the JSON tokenizer that jevents.c walks (jsmn).  The tokenizer
    itself is not part of this model: a parsed document is given as the source text,
    the flat token array and the token count that the tokenizer reported. */
module Json {

  /** Token kinds of jsmn. */
  datatype Kind = Undefined | Object | Array | String | Primitive

  /** One token: its kind, the half-open byte range [start, end) of its text in the
      source buffer, and for an object or array the number of child tokens. */
  datatype Token = Token(kind: Kind, start: nat, end: nat, size: nat)

  /** A parsed document: the buffer `src` (the mapped file, `map` in the source), the token array and the token count `len`. */
  datatype Doc = Doc(src: string, toks: seq<Token>, len: int)

  /** The token's byte range lies inside the buffer. */
  predicate Spans(src: string, t: Token)
  {
    t.start <= t.end <= |src|
  }

  /** What the tokenizer guarantees: every token's range lies inside the buffer. */
  predicate WellSpanned(src: string, toks: seq<Token>)
  {
    forall t :: t in toks ==> Spans(src, t)
  }

  /** The token's text (json_len bytes from src + start). */
  function Text(src: string, t: Token): string
    requires Spans(src, t)
  {
    src[t.start..t.end]
  }

  /** json_streq: exact, case-sensitive equality of the token text with a literal. */
  predicate StrEq(src: string, t: Token, lit: string)
    requires Spans(src, t)
  {
    Text(src, t) == lit
  }
}
