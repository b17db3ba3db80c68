/**
 * Scope-key derivation: `get_base_name` in css-loader-macros/src/lib.rs.
 *
 * A path is a string whose components are separated by '/'. The functions
 * below give the parts of Rust's `Path` API that `get_base_name` uses:
 * `file_name`, `file_stem`, `extension`, and `parent` followed by `join`.
 */
module Paths {
  import opened Results

  /** Why no scope key could be derived. */
  datatype PathError =
    | NoParent  // "Can't get parent name": the path has no parent
    | NoStem    // "Can't get file stem": the path does not end in a file name

  /** Index just past the last '/' among the first `k` characters of `s`, or 0 when there is none. */
  function NameStart(s: string, k: nat := |s|): (i: nat)
    requires k <= |s|
    ensures i <= k
    ensures i > 0 ==> s[i - 1] == '/'
    ensures forall j :: i <= j < k ==> s[j] != '/'
  {
    if k == 0 then 0
    else if s[k - 1] == '/' then k
    else NameStart(s, k - 1)
  }

  /** Length of the path once the trailing separators among its first `k` characters are dropped. */
  function TrimmedLength(p: string, k: nat := |p|): (n: nat)
    requires k <= |p|
    ensures n <= k
    ensures n == 0 || p[n - 1] != '/'
    ensures forall i :: n <= i < k ==> p[i] == '/'
  {
    if k > 0 && p[k - 1] == '/' then TrimmedLength(p, k - 1) else k
  }

  /** The path without its trailing separators, as Rust's component iterator sees it. */
  function TrimTrailingSlashes(p: string): (q: string)
    ensures q <= p
    ensures q == [] || q[|q| - 1] != '/'
    ensures forall i :: |q| <= i < |p| ==> p[i] == '/'
  {
    p[..TrimmedLength(p)]
  }

  /** The last component, unless the path is empty, a root, or ends in `.` or `..`. */
  function FileName(p: string): (r: Option<string>)
    ensures r.Some? ==> r.value != [] && '/' !in r.value && r.value != "." && r.value != ".."
    ensures TrimTrailingSlashes(p) == [] ==> r.None?
  {
    var q := TrimTrailingSlashes(p);
    var n := q[NameStart(q)..];
    if n == [] || n == "." || n == ".." then None else Some(n)
  }

  /**
   * The parent directory of the path, with the separator that `join` puts
   * back between it and a file name; None for the empty path and the root.
   */
  function ParentPrefix(p: string): (r: Option<string>)
    ensures r.None? <==> TrimTrailingSlashes(p) == []
    ensures r.Some? ==> r.value == [] || r.value[|r.value| - 1] == '/'
  {
    var q := TrimTrailingSlashes(p);
    if q == [] then None else Some(q[..NameStart(q)])
  }

  /** Index of the last '.' among the first `k` characters of `n`, or -1 when there is none. */
  function LastDot(n: string, k: nat := |n|): (i: int)
    requires k <= |n|
    ensures -1 <= i < k
    ensures i >= 0 ==> n[i] == '.'
    ensures forall j :: i < j < k ==> n[j] != '.'
  {
    if k == 0 then -1
    else if n[k - 1] == '.' then k - 1
    else LastDot(n, k - 1)
  }

  /** `file_stem`: the file name up to its last '.', unless that dot is its first character. */
  function FileStem(p: string): (r: Option<string>)
    ensures r.Some? <==> FileName(p).Some?
    ensures r.Some? ==> r.value != [] && '/' !in r.value && r.value <= FileName(p).value
  {
    match FileName(p)
    case None => None
    case Some(n) => var i := LastDot(n); if i <= 0 then Some(n) else Some(n[..i])
  }

  /** `extension`: what follows the last '.' of the file name, unless that dot is its first character. */
  function Extension(p: string): (r: Option<string>)
    ensures r.Some? ==> FileName(p).Some? && '.' !in r.value
  {
    match FileName(p)
    case None => None
    case Some(n) => var i := LastDot(n); if i <= 0 then None else Some(n[i + 1..])
  }

  /** `replace("/", "_")`. */
  function ReplaceSlashes(s: string): (r: string)
    ensures |r| == |s|
    ensures forall i :: 0 <= i < |s| ==> r[i] == (if s[i] == '/' then '_' else s[i])
  {
    if s == [] then [] else [if s[0] == '/' then '_' else s[0]] + ReplaceSlashes(s[1..])
  }

  /**
   * `get_base_name`: with `fullPath` the parent joined with the file stem,
   * every '/' turned into '_'; without it the bare file stem.
   */
  function BaseName(p: string, fullPath: bool): (r: Result<string, PathError>)
    ensures r.Err? <==> FileName(p).None?
    ensures r == Err(NoParent) <==> fullPath && TrimTrailingSlashes(p) == []
    ensures r.Ok? ==> r.value != [] && '/' !in r.value
  {
    if fullPath then
      match ParentPrefix(p)
      case None => Err(NoParent)
      case Some(dir) =>
        match FileStem(p)
        case None => Err(NoStem)
        case Some(stem) => Ok(ReplaceSlashes(dir + stem))
    else
      match FileStem(p)
      case None => Err(NoStem)
      case Some(stem) => Ok(stem)
  }

  lemma SlashFreeUnchanged(s: string)
    requires '/' !in s
    ensures ReplaceSlashes(s) == s
  {
  }

  lemma {:induction false} ReplaceSlashesAppend(a: string, b: string)
    ensures ReplaceSlashes(a + b) == ReplaceSlashes(a) + ReplaceSlashes(b)
  {
    var l, r := ReplaceSlashes(a + b), ReplaceSlashes(a) + ReplaceSlashes(b);
    assert |l| == |r|;
    forall i | 0 <= i < |l| ensures l[i] == r[i] {
      if i < |a| { assert (a + b)[i] == a[i]; } else { assert (a + b)[i] == b[i - |a|]; }
    }
  }

  /** The full key is the short key behind the parent directory with '/' turned into '_'. */
  lemma FullKeyEndsWithStem(p: string)
    requires BaseName(p, true).Ok?
    ensures BaseName(p, false).Ok?
    ensures BaseName(p, true).value == ReplaceSlashes(ParentPrefix(p).value) + BaseName(p, false).value
  {
    var dir, stem := ParentPrefix(p).value, FileStem(p).value;
    ReplaceSlashesAppend(dir, stem);
    SlashFreeUnchanged(stem);
  }

  /** A path without a directory yields the same key either way. */
  lemma BareFileKeysAgree(p: string)
    requires p != [] && '/' !in p
    ensures BaseName(p, true) == BaseName(p, false)
  {
    assert TrimTrailingSlashes(p) == p;
    assert ParentPrefix(p) == Some([]);
    if FileStem(p).Some? {
      assert [] + FileStem(p).value == FileStem(p).value;
      SlashFreeUnchanged(FileStem(p).value);
    }
  }

  /** The stem is the file name with the extension and its dot removed. */
  lemma StemDropsExtension(p: string)
    requires FileName(p).Some?
    ensures Extension(p).Some? ==> FileName(p).value == FileStem(p).value + "." + Extension(p).value
    ensures Extension(p).None? ==> FileName(p).value == FileStem(p).value
  {
    var n := FileName(p).value;
    var i := LastDot(n);
    if i > 0 {
      assert n == n[..i] + "." + n[i + 1..];
    }
  }

  /**
   * The file name is the last component of the path and the parent is what
   * precedes it: any split of the trimmed path into a directory part ending
   * in '/' and a '/'-free last part determines both.
   */
  lemma ComponentSplit(p: string, dir: string, name: string)
    requires dir + name == TrimTrailingSlashes(p)
    requires dir == [] || dir[|dir| - 1] == '/'
    requires '/' !in name
    ensures FileName(p) == (if name == [] || name == "." || name == ".." then None else Some(name))
    ensures TrimTrailingSlashes(p) != [] ==> ParentPrefix(p) == Some(dir)
  {
    var q := TrimTrailingSlashes(p);
    var i := NameStart(q);
    assert forall j :: |dir| <= j < |q| ==> q[j] == name[j - |dir|];
    assert dir != [] ==> q[|dir| - 1] == '/';
    assert i == |dir|;
    assert q[..i] == dir && q[i..] == name;
  }

  /** Such a split always exists: the parent followed by the file name is the trimmed path. */
  lemma FileNameIsLastComponent(p: string)
    requires FileName(p).Some?
    ensures ParentPrefix(p).Some? && ParentPrefix(p).value + FileName(p).value == TrimTrailingSlashes(p)
  {
    var q := TrimTrailingSlashes(p);
    assert q[..NameStart(q)] + q[NameStart(q)..] == q;
  }

  /** The last dot of a name lies past its first character exactly when some dot does. */
  lemma DotAfterFirst(n: string)
    ensures LastDot(n) > 0 <==> n != [] && '.' in n[1..]
  {
    if n != [] && '.' in n[1..] {
      var j :| 0 <= j < |n[1..]| && n[1..][j] == '.';
      assert n[j + 1] == '.';
    }
    if LastDot(n) > 0 {
      assert n[1..][LastDot(n) - 1] == '.';
    }
  }

  /** A file has an extension exactly when its name has a dot after the first character. */
  lemma ExtensionIffInnerDot(p: string)
    requires FileName(p).Some?
    ensures Extension(p).Some? <==> '.' in FileName(p).value[1..]
  {
    DotAfterFirst(FileName(p).value);
  }

  /** A name `stem.ext` with a dot-free `ext` has exactly that stem and that extension. */
  lemma StemAndExtension(p: string, stem: string, ext: string)
    requires FileName(p) == Some(stem + "." + ext)
    requires stem != [] && '.' !in ext
    ensures FileStem(p) == Some(stem) && Extension(p) == Some(ext)
  {
    var n := stem + "." + ext;
    var i := LastDot(n);
    assert n[|stem|] == '.';
    assert forall j :: |stem| < j < |n| ==> n[j] == ext[j - |stem| - 1];
    assert i == |stem|;
    assert n[..i] == stem && n[i + 1..] == ext;
  }

  /** A name with no dot after its first character is its own stem and has no extension. */
  lemma DotlessName(p: string)
    requires FileName(p).Some? && '.' !in FileName(p).value[1..]
    ensures FileStem(p) == FileName(p) && Extension(p).None?
  {
    DotAfterFirst(FileName(p).value);
  }

  /** A path whose file name has no extension: `styles/home` has the full key `styles_home`. */
  lemma ExtensionlessKeyExample()
    ensures BaseName("styles/home", true) == Ok("styles_home")
  {
    var p := "styles/home";
    assert TrimmedLength(p, 11) == 11;
    assert "styles/" + "home" == p;
    ComponentSplit(p, "styles/", "home");
    DotlessName(p);
    StylesHomeReplaced();
  }

  /** Reads both keys off a path that ends in a file name with an extension. */
  lemma KeysOfNamedFile(p: string, k: nat, i: nat)
    requires TrimmedLength(p) == |p| && k <= |p|
    requires NameStart(p) == k && 0 < i < |p| - k && LastDot(p[k..]) == i && p[k] != '.'
    ensures BaseName(p, true) == Ok(ReplaceSlashes(p[..k + i]))
    ensures BaseName(p, false) == Ok(p[k..k + i])
  {
    assert p[..|p|] == p;
    var n := p[k..];
    assert n != "." && n != ".." by {
      assert n[0] != '.';
    }
    assert p[..k] + n[..i] == p[..k + i];
  }

  lemma HomeCssLayout()
    ensures TrimmedLength("styles/home.css") == 15 && NameStart("styles/home.css") == 7
    ensures LastDot("styles/home.css"[7..]) == 4
  {
    var p := "styles/home.css";
    assert TrimmedLength(p, 15) == 15 && NameStart(p, 15) == 7;
    assert p[7..] == "home.css" && LastDot("home.css", 8) == 4;
  }

  lemma FullKeyExample()
    ensures BaseName("styles/home.css", true) == Ok("styles_home")
  {
    var p := "styles/home.css";
    HomeCssLayout();
    KeysOfNamedFile(p, 7, 4);
    assert p[..11] == "styles/home";
    StylesHomeReplaced();
  }

  lemma StylesHomeReplaced()
    ensures ReplaceSlashes("styles/home") == "styles_home"
  {
    OneSlashReplaced("styles", "home");
    assert "styles" + "/" + "home" == "styles/home";
    assert "styles" + "_" + "home" == "styles_home";
  }

  lemma OneSlashReplaced(a: string, b: string)
    requires '/' !in a && '/' !in b
    ensures ReplaceSlashes(a + "/" + b) == a + "_" + b
  {
    ReplaceSlashesAppend(a + "/", b);
    ReplaceSlashesAppend(a, "/");
    SlashFreeUnchanged(a);
    SlashFreeUnchanged(b);
  }

  lemma ShortKeyExample()
    ensures BaseName("styles/home.css", false) == Ok("home")
  {
    var p := "styles/home.css";
    HomeCssLayout();
    KeysOfNamedFile(p, 7, 4);
    assert p[7..11] == "home";
  }

  lemma ExtensionExample()
    ensures Extension("styles/home.css") == Some("css")
  {
    HomeCssLayout();
    assert TrimTrailingSlashes("styles/home.css") == "styles/home.css";
    assert "styles/home.css"[7..][5..] == "css";
  }

  /** Trailing separators do not change the key, as Rust's path components ignore them. */
  lemma TrailingSeparatorIgnored(p: string, fullPath: bool)
    ensures BaseName(p + "/", fullPath) == BaseName(p, fullPath)
  {
    var p' := p + "/";
    assert TrimmedLength(p', |p'|) == TrimmedLength(p', |p|);
    assert forall k :: 0 <= k <= |p| ==> TrimmedLength(p', k) == TrimmedLength(p, k) by {
      forall k | 0 <= k <= |p| ensures TrimmedLength(p', k) == TrimmedLength(p, k) {
        TrimmedLengthOfPrefix(p, p', k);
      }
    }
    assert p'[..|p|] == p;
    assert TrimTrailingSlashes(p') == TrimTrailingSlashes(p);
  }

  lemma {:induction false} TrimmedLengthOfPrefix(p: string, p': string, k: nat)
    requires p <= p' && k <= |p|
    ensures TrimmedLength(p', k) == TrimmedLength(p, k)
  {
    if k > 0 && p[k - 1] == '/' {
      TrimmedLengthOfPrefix(p, p', k - 1);
    }
  }

  lemma BaseNameErrorExamples()
    ensures BaseName("/", true) == Err(NoParent)
    ensures BaseName("/", false) == Err(NoStem)
    ensures BaseName("styles/..", true) == Err(NoStem)
  {
    var q := "styles/..";
    assert TrimmedLength(q, 9) == 9 && q[..9] == q;
    assert NameStart(q, 9) == 7 && q[7..] == "..";
  }

  /** Distinct paths can share a key: '_' in a name is indistinguishable from a separator. */
  lemma CollidingLayouts()
    ensures TrimmedLength("a_b/c.css") == 9 && NameStart("a_b/c.css") == 4 && LastDot("a_b/c.css"[4..]) == 1
    ensures TrimmedLength("a/b_c.css") == 9 && NameStart("a/b_c.css") == 2 && LastDot("a/b_c.css"[2..]) == 3
  {
    var p1, p2 := "a_b/c.css", "a/b_c.css";
    assert TrimmedLength(p1, 9) == 9 && NameStart(p1, 9) == 4;
    assert p1[4..] == "c.css" && LastDot("c.css", 5) == 1;
    assert TrimmedLength(p2, 9) == 9 && NameStart(p2, 9) == 2;
    assert p2[2..] == "b_c.css" && LastDot("b_c.css", 7) == 3;
  }

  lemma KeyCollision()
    ensures BaseName("a_b/c.css", true) == BaseName("a/b_c.css", true) == Ok("a_b_c")
  {
    var p1, p2 := "a_b/c.css", "a/b_c.css";
    CollidingLayouts();
    KeysOfNamedFile(p1, 4, 1);
    KeysOfNamedFile(p2, 2, 3);
    assert ReplaceSlashes(p1[..5]) == "a_b_c" by {
      assert p1[..5] == "a_b/c";
      var r := ReplaceSlashes("a_b/c");
      assert r[3] == '_';
    }
    assert ReplaceSlashes(p2[..5]) == "a_b_c" by {
      assert p2[..5] == "a/b_c";
      var r := ReplaceSlashes("a/b_c");
      assert r[1] == '_';
    }
  }
}
