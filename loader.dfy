/**
 * The dispatch in `load_css` (css-loader-macros/src/lib.rs): a file whose
 * extension is `scss` goes through the SCSS compiler, any other file's
 * bytes are passed on unchanged. Reading the file and the compiler itself
 * are outside the model: the bytes and the compiler are parameters.
 */
module Loader {
  import opened Results
  import opened Utf8
  import opened Paths

  datatype LoadError =
    | NoExtension             // "Can't get extensios": the file name has no extension
    | SassFailure(message: string) // "Can't parse SASS <compiler message>"

  /** `compile_sass`: the compiler's error message gets the source's prefix. */
  function CompileSass(source: seq<byte>, compileScss: seq<byte> -> Result<seq<byte>, string>): (r: Result<seq<byte>, LoadError>)
    ensures r.Ok? <==> compileScss(source).Ok?
    ensures r.Ok? ==> r.value == compileScss(source).value
    ensures r.Err? ==> r.error == SassFailure("Can't parse SASS " + compileScss(source).error)
  {
    match compileScss(source)
    case Ok(out) => Ok(out)
    case Err(e) => Err(SassFailure("Can't parse SASS " + e))
  }

  /**
   * `load_css` after the file has been read: refused without an extension,
   * compiled for `scss`, passed through byte for byte otherwise.
   */
  function LoadCss(filename: string, source: seq<byte>, compileScss: seq<byte> -> Result<seq<byte>, string>): (r: Result<seq<byte>, LoadError>)
    ensures Extension(filename).None? ==> r == Err(NoExtension)
    ensures Extension(filename).Some? && Extension(filename).value != "scss" ==> r == Ok(source)
    ensures Extension(filename) == Some("scss") ==> r == CompileSass(source, compileScss)
  {
    match Extension(filename)
    case None => Err(NoExtension)
    case Some(ext) => if ext == "scss" then CompileSass(source, compileScss) else Ok(source)
  }

  /** A `.css` file is not compiled. */
  lemma StylesheetExample(source: seq<byte>, compileScss: seq<byte> -> Result<seq<byte>, string>)
    ensures LoadCss("styles/home.css", source, compileScss) == Ok(source)
  {
    ExtensionExample();
  }
}
