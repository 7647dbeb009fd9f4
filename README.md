# exspork core in Dafny

This project models the two pieces of logic in the exspork crate.

The first is the nom parser for one TypeScript-style declaration,
`export function NAME(): RET;`. It returns a `Function { name, args,
return_type }` record together with the unconsumed rest of the input. The
second is the markdown page that `generate_markdown` builds from the
crate's `[package]` record.

- `options.dfy`: module `Options`, the `Option` type that Rust's
  `Option<T>` becomes.
- `text.dfy`: module `Text`, character search over strings.
  - `IndexOf` gives the position of the first occurrence, and `Lacks` says
    there is none.
  - `Lines` is a line reader that splits text at its line breaks.
- `parser.dfy`: module `Parser`, a model of `src/parser.rs` written as pure
  functions and lemmas.
  - Each nom macro is modelled by its behaviour on character sequences:
    `SkipSpace` for the separator that `ws!` puts around its sub-parser,
    `Tag` for `tag!`, `TakeUntil` for `take_until!`, and nested matches that
    stop at the first failure for `do_parse!`.
  - `ParseArgs`, `ParseReturnType` and `FunctionDeclaration` are built from
    these, exactly as the macros compose them.
  - `IsFunction` is the keyword test.
  - `Declaration` and `WellFormed` describe the inputs the parser accepts.
    `DeclarationComplete` and `DeclarationSound` prove that the accepted
    inputs are exactly those.
- `parser_tests.dfy`: module `ParserTests`, concrete declarations and what
  the parser model yields for each, stated as lemmas.
  - The crate's own test declaration.
  - The quirks of the grammar as written.
  - A declaration with a typed argument, which is rejected.
- `markdown.dfy`: module `Markdown`, a model of the string building in
  `generate_markdown`.
  - `GenerateMarkdown` is a method that appends to a buffer the way the Rust
    code calls `push_str` and `push`. It is proved equal to the `Layout`
    specification function and to the concatenation of the pieces it
    appends.
  - Lemmas describe `Layout`: its lines, its header, where the description
    goes, the license section coming last, its length, and append-only
    growth.

Behaviour of the code that the model keeps as written:

- The argument list accepts only the literal `()` and always yields `None`.
- The return type token is read up to the first `;` and then discarded.
  Both `void` and every other token give `None`.
- The name is everything from the first non-whitespace character after
  `function` up to the first `(`. It keeps any blanks in front of `(`, and
  it may be empty.
- `ws!` allows whitespace but does not require it, so
  `exportfunctiongreet():void;` parses.
- `:` must follow `)` at once. Whitespace may come after the `:`, before the
  return type.
- The terminating `;` is not consumed. It is the first character of the
  rest.

`src/parser.rs` has no typed-argument grammar, no type-keyword resolver and
no whole-file parser. `args` and `return_type` are always `None`, and an
empty name is accepted.

## Model

| member | source | states |
|---|---|---|
| Parser.IsFunction | src/parser.rs:13-18 | true exactly when the string is "function", false for every other string |
| Parser.SpaceRun | src/parser.rs:44-46 | the whitespace `ws!` skips is the longest prefix made only of space, tab, CR and LF: what follows is the end or a non-separator |
| Parser.SkipSpace | src/parser.rs:44-46 | the separator `ws!` skips around each step: it drops only whitespace, keeps a suffix of the input, and what it keeps is empty or starts with a non-separator |
| Parser.SkipSpaceAfter | src/parser.rs:34 | the trailing skip of `ws!(take_until!(";"))`: it fails exactly when the inner parser failed, keeps its value, and drops only the whitespace at the head of its rest |
| Parser.AllSpaceIffMembers | src/parser.rs:44-46 | a run of separators, as the skip measures it, is exactly a string whose every character is space, tab, CR or LF |
| Parser.Tag | src/parser.rs:26-27 | `tag!` succeeds exactly when the literal is a prefix of the input, yields it and leaves the input with that prefix removed |
| Parser.TakeUntil | src/parser.rs:34 | `take_until!` succeeds exactly when the input holds the delimiter; it yields the text before the first delimiter and leaves the rest starting at that delimiter |
| Parser.TakeUntilSplit | src/parser.rs:46 | on success the taken text and the rest make up the input, the taken text holds no delimiter, and the rest starts with it |
| Parser.ParseArgs | src/parser.rs:24-30 | succeeds exactly when the input starts with "(" followed at once by ")"; it consumes exactly those two characters and yields None |
| Parser.ParseReturnType | src/parser.rs:32-40 | succeeds exactly when the input holds a ";"; the rest starts at the first ";" of the input, which is not consumed, and the value is None whatever the token is |
| Parser.ReturnTypeScan | src/parser.rs:34 | `ws!(take_until!(";"))` finds the first ";" of the original input, and the whitespace skip after it has nothing to skip |
| Parser.FunctionDeclaration | src/parser.rs:42-52 | on success both args and return type are None and the rest starts with the terminating ";" |
| Parser.DeclarationComplete | src/parser.rs:42-52 | every well-formed declaration is accepted: it yields the declaration's own name, args and return type None, and its rest |
| Parser.DeclarationSound | src/parser.rs:42-52 | every accepted input is a well-formed declaration: optional whitespace, "export", optional whitespace, "function", optional whitespace, a name free of "(", "():", optional whitespace, a token free of ";", and the reported rest starting with ";" |
| Parser.CallShapeRequired | src/parser.rs:46-48 | the parse fails without a "("; on success the first "(" is followed at once by ")" and then ":", so whitespace or an argument between the parentheses, or anything between ")" and ":", makes it fail |
| Parser.DeclarationCallShape | src/parser.rs:46-48 | in a well-formed declaration the first "(" is the one of "():" |
| ParserTests.GreetExample | src/parser.rs:54-66 | the crate's test input parses to name "greet" with args and return type None, leaving ";" and the trailing blank lines |
| ParserTests.KeywordsNeedNoSeparator | src/parser.rs:44-46 | "exportfunctiongreet():void;" parses to "greet": `ws!` does not require whitespace |
| ParserTests.NameKeepsTrailingSpace | src/parser.rs:46 | in "export function greet (): void;" the name is "greet " with its trailing blank |
| ParserTests.TypedArgumentRejected | src/parser.rs:24-30 | "export function greet(person: string): void;" is rejected |
| Markdown.GenerateMarkdown | src/lib.rs:41-53 | the page built by appending is the layout: title line, version line, then the description and a line break if present, then the license section if present; it is also the concatenation of the pieces appended, in order |
| Markdown.LayoutIsConcat | src/lib.rs:41-53 | appending the pieces in order to an empty buffer gives the layout |
| Markdown.LayoutLines | src/lib.rs:43-53 | when no field holds a line break, the page reads back line by line as "# NAME", "### Version: VERSION", the description if present, then "## License" and the license if present |
| Markdown.LayoutStartsWithHeader | src/lib.rs:43-44 | the page starts with "# " + name + "\n" followed at once by "### Version: " + version + "\n" |
| Markdown.DescriptionPlacement | src/lib.rs:46-49 | a description and its line break come right after the version line; without a description the license part follows the version line at once |
| Markdown.LicenseLast | src/lib.rs:51-53 | a license section "## License\n" + license + "\n" ends the page; without a license the page ends with the description part |
| Markdown.LayoutBare | src/lib.rs:41-53 | with neither description nor license the page is exactly the two header lines |
| Markdown.LayoutLength | src/lib.rs:43-53 | the page length is 17 + the name and version lengths, + the description length + 1 if present, + 12 + the license length if present |
| Markdown.ConcatPrefix | src/lib.rs:41-53 | the builder only appends: the buffer after fewer pieces is a prefix of the buffer after more |
| Markdown.ConcatLength | src/lib.rs:43-53 | the buffer's length is the sum of the lengths of the pieces appended |

## Left out

- `read_typescript_files` (src/parser.rs:20-22) reads a fixed path from disk. It is file I/O and is not part of this model.
- `read_cargo_toml` (src/lib.rs:33-36) reads a file and deserialises TOML through serde. The `Package` record is an input to the model instead.
- The `read_cargo_toml("Cargo.toml")` call and the `fs::write` of `generated_readme.md` in `generate_markdown` (src/lib.rs:39, 55) are I/O. So is the `Result` they return. Only the string building is modelled.
- tests/wasm_tests.rs is not part of this model. Its one test reads the real `Cargo.toml` from disk.
- nom's distinction between `Error` and `Incomplete` is collapsed into one `Fail`.
  - The model's `SkipSpace` always succeeds. nom 4's whitespace separator reports `Incomplete` on input that is all whitespace.
  - The two agree on every result of `FunctionDeclaration` and `ParseReturnType`. After such a skip the next step always fails on the empty input.
- `take_until!` is modelled for the one-character delimiters the parser uses ("(" and ";"). It is not modelled for longer ones.
- Strings are sequences of characters. UTF-8 byte offsets, which nom uses to slice `&str`, are not modelled.
- The `Debug` derive on `Function` and the `Deserialize` derives are not modelled. They are derived code.
