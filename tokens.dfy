/**
 * The style-sheet tokens that `parse_css` in css-loader-macros/src/lib.rs
 * inspects, as the `cssparser` crate's `Parser::next` hands them over:
 * whitespace and comments are already skipped, and the contents of a block
 * are reached only through the block's nested parser.
 */
module Tokens {

  datatype Token =
    | Ident(name: string)                          // `Token::Ident`, its unescaped value
    | Delim(c: char)                               // `Token::Delim`
    | CurlyBlock(body: seq<Token>, nestedOk: bool) // `Token::CurlyBracketBlock`: the tokens its nested
                                                   // parser yields, and whether that parse succeeded
    | Other(text: string)                          // any other token, by its source text

  /**
   * The tokens' canonical serializations (`to_css_string`) one after another.
   * `css` is the tokenizer's serializer, which this model takes as given.
   */
  function SerializeAll(css: Token -> string, ts: seq<Token>): string
  {
    if ts == [] then "" else SerializeAll(css, ts[..|ts| - 1]) + css(ts[|ts| - 1])
  }

  lemma {:induction false} SerializeAllAppend(css: Token -> string, a: seq<Token>, b: seq<Token>)
    ensures SerializeAll(css, a + b) == SerializeAll(css, a) + SerializeAll(css, b)
    decreases |b|
  {
    if b != [] {
      var b' := b[..|b| - 1];
      assert (a + b)[..|a + b| - 1] == a + b';
      SerializeAllAppend(css, a, b');
    } else {
      assert a + b == a;
    }
  }

  lemma SerializeAllAppendOne(css: Token -> string, ts: seq<Token>, t: Token)
    ensures SerializeAll(css, ts + [t]) == SerializeAll(css, ts) + css(t)
  {
    assert (ts + [t])[..|ts|] == ts;
  }

  /**
   * A serializer for tokens that need no escaping. A block token serializes
   * as its opening bracket only: its contents belong to its nested parser.
   */
  function PlainCss(t: Token): string
  {
    match t
    case Ident(name) => name
    case Delim(c) => [c]
    case CurlyBlock(_, _) => "{"
    case Other(text) => text
  }
}
