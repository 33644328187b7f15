/**
  `trim_html_content`: a size cap on the HTML handed to the language model.
  The text is tokenised with a fixed encoding; if it has at most `maxTokens`
  tokens it is returned as it is, otherwise the first `maxTokens` tokens are
  decoded back into text. Nothing repairs a tag the cut splits. Encoding
  refuses text that spells out a special token (`<|endoftext|>`, say) with a
  `ValueError`, and then the trim raises it too.
 */
module Trim {

  /** A token of the encoding. */
  type Token = nat

  /** The budget `trim_html_content` uses when its caller gives none. */
  const DefaultMaxTokens: nat := 5000

  /** A value, or the `ValueError` the call raised instead. */
  datatype Outcome<T> = Ok(value: T) | ValueError

  /**
    The tokenizer: the `encode` and `decode` functions of one fixed encoding.
    `encode` may raise; nothing else is assumed about them, in particular
    `decode` followed by `encode` need not give back the tokens it started from.
   */
  datatype Encoding = Encoding(encode: string -> Outcome<seq<Token>>, decode: seq<Token> -> string)

  function TrimHtmlContent(enc: Encoding, html: string, maxTokens: nat): Outcome<string> {
    match enc.encode(html)
    case ValueError => ValueError
    case Ok(tokens) => if |tokens| <= maxTokens then Ok(html) else Ok(enc.decode(tokens[..maxTokens]))
  }

  /** The encoding re-tokenises the decoding of `tokens` into `tokens` again. */
  predicate RoundTrips(enc: Encoding, tokens: seq<Token>) {
    enc.encode(enc.decode(tokens)) == Ok(tokens)
  }

  /**
    The trim raises exactly when encoding does. Within budget the HTML comes
    back untouched; over budget the result is the decoding of exactly the
    first `maxTokens` tokens.
   */
  lemma TrimCases(enc: Encoding, html: string, maxTokens: nat)
    ensures TrimHtmlContent(enc, html, maxTokens).ValueError? <==> enc.encode(html).ValueError?
    ensures enc.encode(html).Ok? && |enc.encode(html).value| <= maxTokens ==>
      TrimHtmlContent(enc, html, maxTokens) == Ok(html)
    ensures enc.encode(html).Ok? && |enc.encode(html).value| > maxTokens ==>
      exists cut :: |cut| == maxTokens && cut <= enc.encode(html).value &&
        TrimHtmlContent(enc, html, maxTokens) == Ok(enc.decode(cut))
  {
    match enc.encode(html)
    case ValueError =>
    case Ok(tokens) =>
      if |tokens| > maxTokens {
        assert tokens[..maxTokens] <= tokens;
      }
  }

  /**
    At the default budget: exactly 5000 tokens pass unchanged, 5001 tokens
    are cut back to the decoding of the first 5000.
   */
  lemma TrimBoundary(enc: Encoding, html: string)
    ensures enc.encode(html).Ok? && |enc.encode(html).value| == DefaultMaxTokens ==>
      TrimHtmlContent(enc, html, DefaultMaxTokens) == Ok(html)
    ensures enc.encode(html).Ok? && |enc.encode(html).value| == DefaultMaxTokens + 1 ==>
      TrimHtmlContent(enc, html, DefaultMaxTokens) ==
        Ok(enc.decode(enc.encode(html).value[..|enc.encode(html).value| - 1]))
  {
  }

  /**
    When the cut prefix round-trips through the encoding, a result always
    fits the budget, and the HTML comes back unchanged exactly when it could
    be encoded and already fitted.
   */
  lemma TrimWithinBudget(enc: Encoding, html: string, maxTokens: nat)
    requires enc.encode(html).Ok? && |enc.encode(html).value| > maxTokens ==>
      RoundTrips(enc, enc.encode(html).value[..maxTokens])
    ensures TrimHtmlContent(enc, html, maxTokens).Ok? ==>
      && enc.encode(TrimHtmlContent(enc, html, maxTokens).value).Ok?
      && |enc.encode(TrimHtmlContent(enc, html, maxTokens).value).value| <= maxTokens
    ensures TrimHtmlContent(enc, html, maxTokens) == Ok(html) <==>
      enc.encode(html).Ok? && |enc.encode(html).value| <= maxTokens
  {
  }

  /** Under the same condition a second trim of a result changes nothing. */
  lemma TrimIdempotent(enc: Encoding, html: string, maxTokens: nat)
    requires enc.encode(html).Ok? && |enc.encode(html).value| > maxTokens ==>
      RoundTrips(enc, enc.encode(html).value[..maxTokens])
    ensures TrimHtmlContent(enc, html, maxTokens).Ok? ==>
      TrimHtmlContent(enc, TrimHtmlContent(enc, html, maxTokens).value, maxTokens) == TrimHtmlContent(enc, html, maxTokens)
  {
    TrimWithinBudget(enc, html, maxTokens);
  }
}
