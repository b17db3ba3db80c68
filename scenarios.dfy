/**
 * Worked examples of `parse_css` on token streams, with the serializer of
 * identifiers that need no escaping. `tag` is the file's full-path key.
 */
module ScopingScenarios {
  import opened Results
  import opened Paths
  import opened Tokens
  import opened Scoper

  /** A rule `.<name>{...}` appended to any stream that scanned without error. */
  lemma RuleAppend(f: string, css: Token -> string, tag: string, p: seq<Token>, name: string, body: seq<Token>)
    requires BaseName(f, true) == Ok(tag) && Run(f, css, p).Ok?
    ensures var s := Run(f, css, p).value;
      Run(f, css, p + [Delim('.'), Ident(name), CurlyBlock(body, true)])
      == Ok(Scan(s.idents + [ClassBinding(name, tag + "-" + name)], s.cssOut + "." + tag + "-" + name + BlockText(css, body), true))
  {
    RunAppend(f, css, p, Delim('.'));
    RunAppend(f, css, p + [Delim('.')], Ident(name));
    RunAppend(f, css, p + [Delim('.')] + [Ident(name)], CurlyBlock(body, true));
    assert p + [Delim('.')] + [Ident(name)] + [CurlyBlock(body, true)] == p + [Delim('.'), Ident(name), CurlyBlock(body, true)];
  }

  lemma SerializeThree(css: Token -> string, t1: Token, t2: Token, t3: Token)
    ensures SerializeAll(css, [t1, t2, t3]) == css(t1) + css(t2) + css(t3)
  {
    SerializeAllAppendOne(css, [], t1);
    SerializeAllAppendOne(css, [t1], t2);
    SerializeAllAppendOne(css, [t1, t2], t3);
    assert [] + [t1] == [t1] && [t1] + [t2] == [t1, t2] && [t1, t2] + [t3] == [t1, t2, t3];
  }

  /** String facts for `SingleRule`, kept apart so that its proof stays small. */
  lemma SingleRuleText(tag: string)
    ensures tag + "-" + "btn" == tag + "-btn"
    ensures "" + "." + tag + "-" + "btn" + BlockText(PlainCss, [Ident("color"), Other(":"), Ident("blue")])
         == "." + tag + "-btn{color:blue}"
  {
    SerializeThree(PlainCss, Ident("color"), Other(":"), Ident("blue"));
  }

  /** `.btn{color:blue}` */
  lemma SingleRule(f: string, tag: string)
    requires BaseName(f, true) == Ok(tag)
    ensures Outcome(Run(f, PlainCss, [Delim('.'), Ident("btn"), CurlyBlock([Ident("color"), Other(":"), Ident("blue")], true)]))
         == Ok(([ClassBinding("btn", tag + "-btn")], "." + tag + "-btn{color:blue}"))
  {
    var body := [Ident("color"), Other(":"), Ident("blue")];
    RuleAppend(f, PlainCss, tag, [], "btn", body);
    SingleRuleText(tag);
    assert [] + [Delim('.'), Ident("btn"), CurlyBlock(body, true)] == [Delim('.'), Ident("btn"), CurlyBlock(body, true)];
    assert [] + [ClassBinding("btn", tag + "-" + "btn")] == [ClassBinding("btn", tag + "-btn")];
  }

  /** String facts for `TwoRules`. */
  lemma TwoRulesText(tag: string)
    ensures tag + "-" + "a" == tag + "-a" && tag + "-" + "b" == tag + "-b"
    ensures "" + "." + tag + "-" + "a" + BlockText(PlainCss, [Ident("x"), Other(":"), Other("1")]) == "." + tag + "-a{x:1}"
    ensures "." + tag + "-a{x:1}" + "." + tag + "-" + "b" + BlockText(PlainCss, [Ident("y"), Other(":"), Other("2")])
         == "." + tag + "-a{x:1}." + tag + "-b{y:2}"
  {
    SerializeThree(PlainCss, Ident("x"), Other(":"), Other("1"));
    SerializeThree(PlainCss, Ident("y"), Other(":"), Other("2"));
  }

  /** `.a{x:1}.b{y:2}`: two rules, two bindings in order. */
  lemma TwoRules(f: string, tag: string)
    requires BaseName(f, true) == Ok(tag)
    ensures Outcome(Run(f, PlainCss, [Delim('.'), Ident("a"), CurlyBlock([Ident("x"), Other(":"), Other("1")], true),
                                      Delim('.'), Ident("b"), CurlyBlock([Ident("y"), Other(":"), Other("2")], true)]))
         == Ok(([ClassBinding("a", tag + "-a"), ClassBinding("b", tag + "-b")], "." + tag + "-a{x:1}." + tag + "-b{y:2}"))
  {
    var body1, body2 := [Ident("x"), Other(":"), Other("1")], [Ident("y"), Other(":"), Other("2")];
    var rule1, rule2 := [Delim('.'), Ident("a"), CurlyBlock(body1, true)], [Delim('.'), Ident("b"), CurlyBlock(body2, true)];
    var b1, b2 := ClassBinding("a", tag + "-a"), ClassBinding("b", tag + "-b");
    TwoRulesText(tag);
    RuleAppend(f, PlainCss, tag, [], "a", body1);
    assert [] + rule1 == rule1 && [] + [b1] == [b1];
    RuleAppend(f, PlainCss, tag, rule1, "b", body2);
    assert [b1] + [b2] == [b1, b2];
    assert rule1 + rule2 == [Delim('.'), Ident("a"), CurlyBlock(body1, true), Delim('.'), Ident("b"), CurlyBlock(body2, true)];
  }

  /** String facts for `ChainedIdentifiers`. */
  lemma ChainedText(tag: string)
    ensures tag + "-" + "a" == tag + "-a" && tag + "-" + "b" == tag + "-b"
    ensures "" + "." + tag + "-" + "a" == "." + tag + "-a"
    ensures "." + tag + "-a" + "." + tag + "-" + "b" + BlockText(PlainCss, []) == "." + tag + "-a." + tag + "-b{}"
  {
  }

  /**
   * `.a b{}`: the flag stays in class position after `a`, so `b` is scoped
   * as well, and the space between them, which the tokenizer skips, is gone.
   */
  lemma ChainedIdentifiers(f: string, tag: string)
    requires BaseName(f, true) == Ok(tag)
    ensures Outcome(Run(f, PlainCss, [Delim('.'), Ident("a"), Ident("b"), CurlyBlock([], true)]))
         == Ok(([ClassBinding("a", tag + "-a"), ClassBinding("b", tag + "-b")], "." + tag + "-a." + tag + "-b{}"))
  {
    var b1, b2 := ClassBinding("a", tag + "-a"), ClassBinding("b", tag + "-b");
    ChainedText(tag);
    RunAppend(f, PlainCss, [], Delim('.'));
    assert [] + [Delim('.')] == [Delim('.')];
    RunAppend(f, PlainCss, [Delim('.')], Ident("a"));
    assert [Delim('.')] + [Ident("a")] == [Delim('.'), Ident("a")] && [] + [b1] == [b1];
    RunAppend(f, PlainCss, [Delim('.'), Ident("a")], Ident("b"));
    assert [Delim('.'), Ident("a")] + [Ident("b")] == [Delim('.'), Ident("a"), Ident("b")] && [b1] + [b2] == [b1, b2];
    RunAppend(f, PlainCss, [Delim('.'), Ident("a"), Ident("b")], CurlyBlock([], true));
    assert [Delim('.'), Ident("a"), Ident("b")] + [CurlyBlock([], true)] == [Delim('.'), Ident("a"), Ident("b"), CurlyBlock([], true)];
  }

  /** `.btn{color:blue}` in `styles/home.css`, whose key is `styles_home`. */
  lemma HomeStylesheet()
    ensures Outcome(Run("styles/home.css", PlainCss, [Delim('.'), Ident("btn"), CurlyBlock([Ident("color"), Other(":"), Ident("blue")], true)]))
         == Ok(([ClassBinding("btn", "styles_home-btn")], ".styles_home-btn{color:blue}"))
  {
    FullKeyExample();
    SingleRule("styles/home.css", "styles_home");
    HomeText();
  }

  /** String facts for `HomeStylesheet`. */
  lemma HomeText()
    ensures [ClassBinding("btn", "styles_home" + "-btn")] == [ClassBinding("btn", "styles_home-btn")]
    ensures "." + "styles_home" + "-btn{color:blue}" == ".styles_home-btn{color:blue}"
  {
    assert "styles_home" + "-btn" == "styles_home-btn";
  }
}
