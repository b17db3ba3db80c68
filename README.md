# css-loader-macros: scoped class names, modelled in Dafny

`css-loader-macros` is a Rust procedural macro. It reads a stylesheet at compile time and prefixes every class selector with a key derived from the stylesheet's path, so that class names from different files are kept apart. The key is not unique, though: see `Paths.KeyCollision` below. It hands back the rewritten stylesheet text together with a table that maps original class names to scoped ones. This project models the two functions that make up that rewrite:

- `get_base_name` is modelled as `Paths.BaseName` (module `Paths`). It derives the scope key from a path: the parent directory joined with the file stem, with every `/` replaced by `_`. A shorter variant returns only the stem. Rust's `Path::parent`, `Path::file_name`, `Path::file_stem` and `Path::extension` are modelled on `/`-separated strings.
- `parse_css` is modelled as the method `Scoper.ParseCss`, which keeps the source's loop and its `is_class` flag. It is proved against the pure reference function `Scoper.Run`, which folds one step per token. It works as follows:
  - It first checks that the input bytes are UTF-8. `Utf8.Decode` is an explicit decoder, proved to be the inverse of the encoder `Utf8.Encode`.
  - It then walks the top-level token stream:
    - an identifier in class position becomes `.<key>-<name>` and adds the binding `(name, key-name)`;
    - any other identifier is copied;
    - a `.` delimiter puts the scanner in class position and emits nothing;
    - a `{...}` block is re-serialized token by token between braces, with no renaming, and leaves class position (whatever the tokenizer skipped inside it, such as whitespace, is lost);
    - every other token is serialized unchanged.
- `load_css` and `compile_sass` are modelled as `Loader.LoadCss` and `Loader.CompileSass`. Only the extension-based dispatch is modelled: the file contents and the SCSS compiler are parameters.

The tokenizer (`cssparser`'s `Parser::next`) and the serializer (`to_css_string`) belong to a foreign library. They are therefore parameters of the model:
- `tokenize: string -> seq<Token>` yields the top-level tokens `Parser::next` returns: whitespace and comments are already skipped, and a block token carries the tokens its nested parser would yield;
- `css: Token -> string` is the serializer.

`Tokens.PlainCss` is one concrete serializer, used for worked examples.

The properties proved about the reference function are stated with two independent definitions:
- `ScoperProperties.ClassPosition` holds when some `.` occurs with no block after it;
- `ScoperProperties.ClassNames` lists the identifiers met in class position.

The rewrite's bindings, output text and failure cases are then characterised in those terms.

Two consequences of the code are worth stating:
- Scope keys are not unique. Because `/` is replaced by `_`, two different paths can produce the same key (`Paths.KeyCollision`: `a_b/c.css` and `a/b_c.css` both give `a_b_c`).
- `parse_css` never sees an unterminated block. The tokenizer closes open blocks at the end of input, so a missing `}` is not an error of the scan.

## Model

| member | source | states |
|---|---|---|
| Paths.BaseName | css-loader-macros/src/lib.rs:12-32 | It fails exactly when the path has no file name (empty, a root, `.` or `..`). The "no parent" error happens exactly when the full key is asked for and the path is empty or only separators. A successful key is non-empty and contains no `/`. |
| Paths.FullKeyEndsWithStem | css-loader-macros/src/lib.rs:13-21 | Whenever the full key exists, the short key exists too, and the full key is the parent prefix with `/` turned into `_`, followed by the short key (the file stem). |
| Paths.BareFileKeysAgree | css-loader-macros/src/lib.rs:13-29 | For a path with no separator, the full key and the short key are equal. |
| Paths.StemDropsExtension | css-loader-macros/src/lib.rs:17 | The file name is the stem, then `.`, then the extension when there is one, and the stem alone otherwise. So the key never carries the extension. |
| Paths.ComponentSplit | css-loader-macros/src/lib.rs:15-17 | Split the path, without its trailing separators, into a directory part that is empty or ends in `/` and a last part without `/`. Then the file name is that last part, unless it is empty, `.` or `..`, in which case there is none. The parent is the directory part, unless the path is empty or only separators. |
| Paths.FileNameIsLastComponent | css-loader-macros/src/lib.rs:15-17 | When a file name exists, the parent followed by the file name is the path without its trailing separators. |
| Paths.ExtensionIffInnerDot | css-loader-macros/src/lib.rs:97 | A file has an extension exactly when its name has a `.` after the first character. |
| Paths.StemAndExtension | css-loader-macros/src/lib.rs:17 | A file named `stem.ext`, with a non-empty `stem` and a dot-free `ext`, has exactly that stem and that extension. |
| Paths.DotlessName | css-loader-macros/src/lib.rs:17 | A file name with no `.` after its first character is its own stem, and there is no extension. |
| Paths.ExtensionlessKeyExample | css-loader-macros/src/lib.rs:13-21 | `styles/home` has the full key `styles_home`. |
| Paths.ReplaceSlashes | css-loader-macros/src/lib.rs:21 | The result has the same length, with `/` replaced by `_` at each position and every other character kept. |
| Paths.ReplaceSlashesAppend | css-loader-macros/src/lib.rs:21 | The replacement distributes over concatenation. |
| Paths.TrailingSeparatorIgnored | css-loader-macros/src/lib.rs:12-32 | Appending a `/` to the path changes neither key nor error. |
| Paths.FullKeyExample | css-loader-macros/src/lib.rs:13-21 | `styles/home.css` has the full key `styles_home`. |
| Paths.ShortKeyExample | css-loader-macros/src/lib.rs:22-29 | `styles/home.css` has the short key `home`. |
| Paths.BaseNameErrorExamples | css-loader-macros/src/lib.rs:16-17 | `/` has no parent for the full key and no stem for the short key. `styles/..` has no stem. |
| Paths.KeyCollision | css-loader-macros/src/lib.rs:21 | Two different paths, `a_b/c.css` and `a/b_c.css`, get the same full key `a_b_c`. |
| Utf8.DecodeEncode | css-loader-macros/src/lib.rs:38 | Decoding the UTF-8 encoding of any string gives that string back. |
| Utf8.EncodeDecode | css-loader-macros/src/lib.rs:38 | Any byte sequence the decoder accepts is exactly the encoding of what it decodes to. |
| Utf8.RejectedIffNoEncoding | css-loader-macros/src/lib.rs:38 | The decoder rejects a byte sequence exactly when no string encodes to it. |
| Tokens.SerializeAllAppend | css-loader-macros/src/lib.rs:63-65 | Serializing a concatenation of token runs is the concatenation of their serializations. |
| Scoper.CopyBlock | css-loader-macros/src/lib.rs:59-71 | The block loop produces `{`, then each inner token's serialization in order, then `}`. |
| Scoper.ParseCss | css-loader-macros/src/lib.rs:34-83 | Input that is not UTF-8 gives the UTF-8 error. Otherwise the loop's result equals the reference fold `Run` over the decoded text's tokens: the same bindings and output on success, the same error on failure. |
| Scoper.ErrorStops | css-loader-macros/src/lib.rs:46-82 | Once the scan of a prefix of the stream fails, the scan of the whole stream fails with that same error: the first error returned with `?` ends the loop. |
| ScoperProperties.ClassPositionAfter | css-loader-macros/src/lib.rs:70-74 | After a token, the scanner is in class position exactly when the token is `.`, or when it is not a block and the scanner was in class position before. |
| ScoperProperties.FlagIsNotClassPosition | css-loader-macros/src/lib.rs:45-74 | During a successful scan, the `is_class` flag is true exactly when the tokens so far leave the scanner outside class position. It starts true and is reset by every block. |
| ScoperProperties.BindingsAreClassNames | css-loader-macros/src/lib.rs:52-56 | There is one binding per class-position identifier. When there is any, the key exists and the bindings are exactly `(name, key + "-" + name)` for those identifiers, in order and without de-duplication. |
| ScoperProperties.FailsExactly | css-loader-macros/src/lib.rs:52-69 | The scan fails exactly when a block fails to parse, or when some class-position identifier exists and the full key cannot be derived. A path failure carries the key's own error. The scan never reports a UTF-8 error. |
| ScoperProperties.OutputIsPieces | css-loader-macros/src/lib.rs:49-78 | A successful output is the concatenation, token by token, of:<br>- `.` + key + `-` + name for a class-position identifier;<br>- the name for any other identifier;<br>- nothing for `.`;<br>- `{`, the serialized inner tokens and `}` for a block;<br>- the serialization for anything else. |
| ScoperProperties.KeyOnlyForClasses | css-loader-macros/src/lib.rs:52 | A stream with no class-position identifier gives the same result whatever the file name, because the key is derived only when a class name is met. |
| ScoperProperties.BindingsOnlyGrow | css-loader-macros/src/lib.rs:43-56 | If a stream scans without error, so does every prefix of it, and the prefix's bindings are a prefix of the whole stream's bindings: bindings are only ever appended. |
| ScoperProperties.BindAll | css-loader-macros/src/lib.rs:53-56 | There is one binding per name: `(name, key + "-" + name)`, in the same order. |
| ScopingScenarios.SingleRule | css-loader-macros/src/lib.rs:48-78 | `.btn{color:blue}` gives the single binding `(btn, key-btn)` and the text `.key-btn{color:blue}`. |
| ScopingScenarios.TwoRules | css-loader-macros/src/lib.rs:48-78 | `.a{x:1}.b{y:2}` binds `a` and then `b`, and scopes both selectors. |
| ScopingScenarios.ChainedIdentifiers | css-loader-macros/src/lib.rs:49-57 | In `.a b{}`, both identifiers after the `.` are scoped, because the flag is only reset by a block. |
| ScopingScenarios.HomeStylesheet | css-loader-macros/src/lib.rs:12-83 | `.btn{color:blue}` in `styles/home.css` gives the binding `(btn, styles_home-btn)` and the text `.styles_home-btn{color:blue}`. |
| Loader.CompileSass | css-loader-macros/src/lib.rs:85-94 | It succeeds exactly when the compiler does, passing its output through. A failure becomes "Can't parse SASS " followed by the compiler's message. |
| Loader.LoadCss | css-loader-macros/src/lib.rs:96-112 | A path without an extension is an error. The extension `scss` sends the contents through the compiler. Any other extension returns the contents unchanged. |

## Left out

- `import_style` (lib.rs:117-185) is not modelled. It generates Rust code with `quote!`, and the generated code mutates global state and injects the stylesheet into the page through `web_sys`.
- Some of `load_css` is not modelled:
  - reading `CARGO_MANIFEST_DIR`, joining it onto the path, and reading the file (lib.rs:103-106) — the file contents are a parameter of `Loader.LoadCss`;
  - the SCSS compiler behind `compile_sass`, which is the parameter `compileScss`.
- The `cssparser` library is not modelled: its tokenizer, its block nesting and its `to_css_string` serialization are the parameters `tokenize` and `css`. In particular, any whitespace or comments the tokenizer drops are not part of the model.
- The debug `println!` at lib.rs:76 is left out: it only writes to standard output.
- The `unwrap()` on `parser.next()` (lib.rs:47, 64) can panic in the source. The model assumes tokenization succeeds: `tokenize` is total.
- Paths.BaseName: the `to_str` failure (lib.rs:18-19, 26-27) is not modelled, because paths are modelled as Unicode strings and so are always valid.
- Paths.BaseName: `.` components and repeated separators inside a path are not normalised, unlike in Rust's `Path::components`. Only trailing separators are dropped.
- Scoper.ParseCss: the block-parse failure (lib.rs:69) cannot happen with the closure as written, since the closure always returns `Ok`. It is kept as an abstract error through the `nestedOk` flag on block tokens.
- Error values are modelled as variants (`NotUtf8`, `PathFailure`, `BlockFailure`, `NoParent`, `NoStem`, `NoExtension`, `SassFailure`) rather than as boxed error messages.
