/**
 * Selector scoping: `parse_css` in css-loader-macros/src/lib.rs.
 *
 * The style sheet is read token by token. A '.' delimiter puts the scanner
 * in class position; an identifier in class position is rewritten into
 * `.<key>-<name>` and recorded as a binding; a curly-bracket block is copied
 * through its tokens' serializations and takes the scanner out of class
 * position again; everything else is copied as it is.
 */
module Scoper {
  import opened Results
  import opened Utf8
  import opened Paths
  import opened Tokens

  /** An original class name and the file-scoped name that replaces it. */
  datatype ClassBinding = ClassBinding(original: string, scoped: string)

  datatype CssError =
    | NotUtf8                     // the source bytes are not UTF-8
    | PathFailure(cause: PathError) // no scope key for the file name
    | BlockFailure                // "Can't parse CSS": the nested block parse failed

  /**
   * The scanner's state: the bindings so far (`idents`), the output so far
   * (`css_out`) and the flag `is_class`, which despite its name is true
   * when the scanner is NOT in class position.
   */
  datatype Scan = Scan(idents: seq<ClassBinding>, cssOut: string, isClass: bool)

  /** The `{...}` text a block contributes: its tokens serialized, nothing substituted. */
  function BlockText(css: Token -> string, body: seq<Token>): string
  {
    "{" + SerializeAll(css, body) + "}"
  }

  /** One iteration of the scanning loop. */
  function Step(filename: string, css: Token -> string, s: Scan, t: Token): Result<Scan, CssError>
  {
    match t
    case Ident(i) =>
      if s.isClass then Ok(s.(cssOut := s.cssOut + i))
      else (
        match BaseName(filename, true)
        case Err(e) => Err(PathFailure(e))
        case Ok(tag) => Ok(s.(idents := s.idents + [ClassBinding(i, tag + "-" + i)], cssOut := s.cssOut + "." + tag + "-" + i)))
    case CurlyBlock(body, nestedOk) =>
      if nestedOk then Ok(Scan(s.idents, s.cssOut + BlockText(css, body), true)) else Err(BlockFailure)
    case Delim(c) =>
      if c == '.' then Ok(s.(isClass := false)) else Ok(s.(cssOut := s.cssOut + css(t)))
    case Other(_) => Ok(s.(cssOut := s.cssOut + css(t)))
  }

  /** The scanner run over `toks` from the initial state; the first error stops it. */
  function Run(filename: string, css: Token -> string, toks: seq<Token>): Result<Scan, CssError>
  {
    if toks == [] then Ok(Scan([], "", true))
    else
      match Run(filename, css, toks[..|toks| - 1])
      case Err(e) => Err(e)
      case Ok(s) => Step(filename, css, s, toks[|toks| - 1])
  }

  /** What `parse_css` returns for a finished run: the bindings and the output text. */
  function Outcome(r: Result<Scan, CssError>): Result<(seq<ClassBinding>, string), CssError>
  {
    match r
    case Err(e) => Err(e)
    case Ok(s) => Ok((s.idents, s.cssOut))
  }

  lemma {:induction false} ErrorStops(filename: string, css: Token -> string, toks: seq<Token>, k: nat)
    requires k <= |toks| && Run(filename, css, toks[..k]).Err?
    ensures Run(filename, css, toks) == Run(filename, css, toks[..k])
    decreases |toks| - k
  {
    if k < |toks| {
      assert toks[..k + 1][..k] == toks[..k];
      ErrorStops(filename, css, toks, k + 1);
    } else {
      assert toks[..k] == toks;
    }
  }

  lemma RunExtends(filename: string, css: Token -> string, toks: seq<Token>, k: nat)
    requires k < |toks| && Run(filename, css, toks[..k]).Ok?
    ensures Run(filename, css, toks[..k + 1]) == Step(filename, css, Run(filename, css, toks[..k]).value, toks[k])
  {
    assert toks[..k + 1][..k] == toks[..k];
  }

  lemma RunAppend(filename: string, css: Token -> string, p: seq<Token>, t: Token)
    ensures Run(filename, css, p + [t]) ==
      if Run(filename, css, p).Err? then Run(filename, css, p) else Step(filename, css, Run(filename, css, p).value, t)
  {
    assert (p + [t])[..|p|] == p;
  }

  /**
   * The closure given to `parse_nested_block`: a block's tokens serialized
   * between braces.
   */
  method CopyBlock(css: Token -> string, body: seq<Token>) returns (text: string)
    ensures text == BlockText(css, body)
  {
    text := "{";
    var j := 0;
    while j < |body|
      invariant 0 <= j <= |body|
      invariant text == "{" + SerializeAll(css, body[..j])
    {
      assert body[..j + 1][..j] == body[..j];
      text := text + css(body[j]);
      j := j + 1;
    }
    text := text + "}";
    assert body[..j] == body;
  }

  /**
   * `parse_css`: decode the bytes, then scan the tokens that `tokenize`
   * (the `cssparser` tokenizer) yields for the text.
   */
  method ParseCss(filename: string, cssSource: seq<byte>, tokenize: string -> seq<Token>, css: Token -> string)
    returns (r: Result<(seq<ClassBinding>, string), CssError>)
    ensures Decode(cssSource).None? ==> r == Err(NotUtf8)
    ensures Decode(cssSource).Some? ==> r == Outcome(Run(filename, css, tokenize(Decode(cssSource).value)))
  {
    var source := Decode(cssSource);
    if source.None? {
      return Err(NotUtf8);
    }
    var toks := tokenize(source.value);

    var cssOut := "";
    var idents: seq<ClassBinding> := [];
    var isClass := true;
    var k := 0;
    while k < |toks|
      invariant 0 <= k <= |toks|
      invariant Run(filename, css, toks[..k]) == Ok(Scan(idents, cssOut, isClass))
    {
      ghost var s := Scan(idents, cssOut, isClass);
      RunExtends(filename, css, toks, k);
      match toks[k] {
        case Ident(i) =>
          if isClass {
            cssOut := cssOut + i;
          } else {
            var tag := BaseName(filename, true);
            if tag.Err? {
              ErrorStops(filename, css, toks, k + 1);
              return Err(PathFailure(tag.error));
            }
            var taggedIdent := tag.value + "-" + i;
            cssOut := cssOut + "." + taggedIdent;
            idents := idents + [ClassBinding(i, taggedIdent)];
            assert cssOut == s.cssOut + "." + tag.value + "-" + i;
          }
        case CurlyBlock(body, nestedOk) =>
          var block := CopyBlock(css, body);
          cssOut := cssOut + block;
          if !nestedOk {
            ErrorStops(filename, css, toks, k + 1);
            return Err(BlockFailure);
          }
          isClass := true;
        case Delim(c) =>
          if c == '.' {
            isClass := false;
          } else {
            cssOut := cssOut + css(toks[k]);
          }
        case Other(_) =>
          cssOut := cssOut + css(toks[k]);
      }
      assert Step(filename, css, s, toks[k]) == Ok(Scan(idents, cssOut, isClass));
      k := k + 1;
    }
    assert toks[..k] == toks;
    r := Ok((idents, cssOut));
  }
}
