/**
 * What the scanner of `parse_css` computes, stated without its flag:
 * class position is read off the tokens before a position, and the
 * bindings, the output text and the errors follow from it.
 */
module ScoperProperties {
  import opened Results
  import opened Paths
  import opened Tokens
  import opened Scoper

  /** The last '.' delimiter before the end of `p` has no block after it. */
  ghost predicate ClassPosition(p: seq<Token>)
  {
    exists j :: 0 <= j < |p| && p[j] == Delim('.') && forall m :: j < m < |p| ==> !p[m].CurlyBlock?
  }

  /** The identifiers of `p` that stand in class position, in order, repeats kept. */
  ghost function ClassNames(p: seq<Token>): seq<string>
  {
    if p == [] then []
    else
      var q, t := p[..|p| - 1], p[|p| - 1];
      ClassNames(q) + (if t.Ident? && ClassPosition(q) then [t.name] else [])
  }

  /** Some top-level block of `p` failed its nested parse. */
  ghost predicate HasFailedBlock(p: seq<Token>)
  {
    exists j :: 0 <= j < |p| && p[j].CurlyBlock? && !p[j].nestedOk
  }

  /** The binding of every name to `<tag>-<name>`, in order. */
  function BindAll(tag: string, names: seq<string>): (bs: seq<ClassBinding>)
    ensures |bs| == |names|
    ensures forall i :: 0 <= i < |names| ==> bs[i] == ClassBinding(names[i], tag + "-" + names[i])
  {
    if names == [] then [] else BindAll(tag, names[..|names| - 1]) + [ClassBinding(names[|names| - 1], tag + "-" + names[|names| - 1])]
  }

  /** The text one token contributes, given whether it stands in class position. */
  function Piece(css: Token -> string, tag: string, t: Token, inClass: bool): string
  {
    match t
    case Ident(i) => if inClass then "." + tag + "-" + i else i
    case CurlyBlock(body, _) => BlockText(css, body)
    case Delim(c) => if c == '.' then "" else css(t)
    case Other(_) => css(t)
  }

  /** The pieces of all tokens of `p`, one after another. */
  ghost function Expected(css: Token -> string, tag: string, p: seq<Token>): string
  {
    if p == [] then "" else Expected(css, tag, p[..|p| - 1]) + Piece(css, tag, p[|p| - 1], ClassPosition(p[..|p| - 1]))
  }

  /** A '.' enters class position, a block leaves it, every other token keeps it. */
  lemma ClassPositionAfter(q: seq<Token>, t: Token)
    ensures ClassPosition(q + [t]) <==> t == Delim('.') || (!t.CurlyBlock? && ClassPosition(q))
  {
    var p := q + [t];
    if t == Delim('.') {
      assert p[|q|] == Delim('.');
    } else if t.CurlyBlock? {
      assert p[|q|].CurlyBlock?;
    } else {
      if ClassPosition(q) {
        var j :| 0 <= j < |q| && q[j] == Delim('.') && forall m :: j < m < |q| ==> !q[m].CurlyBlock?;
        assert p[j] == Delim('.');
        assert forall m :: j < m < |p| ==> !p[m].CurlyBlock? by {
          forall m | j < m < |p| ensures !p[m].CurlyBlock? {
            if m < |q| { assert p[m] == q[m]; }
          }
        }
      }
      if ClassPosition(p) {
        var j :| 0 <= j < |p| && p[j] == Delim('.') && forall m :: j < m < |p| ==> !p[m].CurlyBlock?;
        assert j < |q| && q[j] == Delim('.');
        assert forall m :: j < m < |q| ==> !q[m].CurlyBlock? by {
          forall m | j < m < |q| ensures !q[m].CurlyBlock? {
            assert q[m] == p[m];
          }
        }
      }
    }
  }

  lemma HasFailedBlockAfter(q: seq<Token>, t: Token)
    ensures HasFailedBlock(q + [t]) <==> HasFailedBlock(q) || (t.CurlyBlock? && !t.nestedOk)
  {
    var p := q + [t];
    if HasFailedBlock(q) {
      var j :| 0 <= j < |q| && q[j].CurlyBlock? && !q[j].nestedOk;
      assert p[j] == q[j];
    }
    if t.CurlyBlock? && !t.nestedOk {
      assert p[|q|] == t;
    }
    if HasFailedBlock(p) {
      var j :| 0 <= j < |p| && p[j].CurlyBlock? && !p[j].nestedOk;
      if j < |q| { assert q[j] == p[j]; }
    }
  }

  /** After the tokens of `p`, the flag `is_class` is false exactly in class position. */
  lemma {:induction false} FlagIsNotClassPosition(f: string, css: Token -> string, p: seq<Token>)
    requires Run(f, css, p).Ok?
    ensures Run(f, css, p).value.isClass <==> !ClassPosition(p)
    decreases |p|
  {
    if p != [] {
      var q, t := p[..|p| - 1], p[|p| - 1];
      assert q + [t] == p;
      FlagIsNotClassPosition(f, css, q);
      ClassPositionAfter(q, t);
    }
  }

  lemma {:induction false} ClassNamesGrow(p: seq<Token>, k: nat)
    requires k <= |p|
    ensures ClassNames(p[..k]) <= ClassNames(p)
    decreases |p| - k
  {
    if k == |p| {
      assert p[..k] == p;
    } else {
      ClassNamesGrow(p, k + 1);
      assert p[..k + 1][..k] == p[..k];
    }
  }

  /**
   * The bindings are the class-position identifiers, in order and with
   * repeats, each bound to `<key>-<name>` with the file's full-path key.
   */
  lemma {:induction false} BindingsAreClassNames(f: string, css: Token -> string, p: seq<Token>)
    requires Run(f, css, p).Ok?
    ensures |Run(f, css, p).value.idents| == |ClassNames(p)|
    ensures ClassNames(p) != [] ==>
      BaseName(f, true).Ok? && Run(f, css, p).value.idents == BindAll(BaseName(f, true).value, ClassNames(p))
    decreases |p|
  {
    if p != [] {
      var q, t := p[..|p| - 1], p[|p| - 1];
      BindingsAreClassNames(f, css, q);
      FlagIsNotClassPosition(f, css, q);
      var s := Run(f, css, q).value;
      if t.Ident? && ClassPosition(q) {
        var tag := BaseName(f, true).value;
        var names := ClassNames(q) + [t.name];
        assert names[..|names| - 1] == ClassNames(q);
        if ClassNames(q) == [] {
          assert s.idents == [];
        }
      }
    }
  }

  /**
   * Bindings are only ever appended: the scan of any prefix of a stream that
   * scans without error also succeeds, and its bindings begin the stream's.
   */
  lemma BindingsOnlyGrow(f: string, css: Token -> string, p: seq<Token>, k: nat)
    requires Run(f, css, p).Ok? && k <= |p|
    ensures Run(f, css, p[..k]).Ok?
    ensures Run(f, css, p[..k]).value.idents <= Run(f, css, p).value.idents
  {
    if Run(f, css, p[..k]).Err? {
      ErrorStops(f, css, p, k);
    }
    BindingsAreClassNames(f, css, p[..k]);
    BindingsAreClassNames(f, css, p);
    ClassNamesGrow(p, k);
    var small, big := Run(f, css, p[..k]).value.idents, Run(f, css, p).value.idents;
    assert forall i :: 0 <= i < |small| ==> small[i] == big[i];
  }

  /**
   * The scan fails exactly when a top-level block fails to parse, or when a
   * class-position identifier needs the key and the file name has none.
   */
  lemma {:induction false} FailsExactly(f: string, css: Token -> string, p: seq<Token>)
    ensures Run(f, css, p).Err? <==> HasFailedBlock(p) || (ClassNames(p) != [] && BaseName(f, true).Err?)
    ensures Run(f, css, p).Err? ==> !Run(f, css, p).error.NotUtf8?
    ensures Run(f, css, p).Err? && Run(f, css, p).error.PathFailure? ==>
      BaseName(f, true) == Err(Run(f, css, p).error.cause)
    decreases |p|
  {
    if p != [] {
      var q, t := p[..|p| - 1], p[|p| - 1];
      assert q + [t] == p;
      FailsExactly(f, css, q);
      HasFailedBlockAfter(q, t);
      if Run(f, css, q).Ok? {
        FlagIsNotClassPosition(f, css, q);
      }
    }
  }

  /**
   * The output is the pieces of the tokens in order: a class-position
   * identifier gives `.<key>-<name>`, any other identifier itself, a '.'
   * nothing, a block its braces around its serialized tokens, anything else
   * its serialization.
   */
  lemma {:induction false} OutputIsPieces(f: string, css: Token -> string, tag: string, p: seq<Token>)
    requires Run(f, css, p).Ok?
    requires ClassNames(p) != [] ==> BaseName(f, true) == Ok(tag)
    ensures Run(f, css, p).value.cssOut == Expected(css, tag, p)
    decreases |p|
  {
    if p != [] {
      var q, t := p[..|p| - 1], p[|p| - 1];
      assert p[..|p| - 1] == q;
      OutputIsPieces(f, css, tag, q);
      FlagIsNotClassPosition(f, css, q);
      var s := Run(f, css, q).value;
      if t.Ident? && ClassPosition(q) {
        assert Run(f, css, p).value.cssOut == s.cssOut + "." + tag + "-" + t.name;
      }
    }
  }

  /** Without class-position identifiers the file name is never consulted. */
  lemma {:induction false} KeyOnlyForClasses(f1: string, f2: string, css: Token -> string, p: seq<Token>)
    requires ClassNames(p) == []
    ensures Run(f1, css, p) == Run(f2, css, p)
    decreases |p|
  {
    if p != [] {
      var q, t := p[..|p| - 1], p[|p| - 1];
      KeyOnlyForClasses(f1, f2, css, q);
      if Run(f1, css, q).Ok? {
        FlagIsNotClassPosition(f1, css, q);
      }
    }
  }
}
