# mb_ext_script core, modelled in Dafny

mb_ext_script is a Python extension written in Rust. It reads a small
scripting language whose statements each end with `;` (a statement may span
several lines): an operation name followed by parameters such as `:local`, `$global`, `g.autoprefixed`,
`reg.12`, `str.3`, `pos.0`, `p.main_party` or `42`. It builds a script AST
and projects that AST into Python objects. Names in the script are resolved
against a symbol table, merged from the namespaces of a list of imported
Python modules.

This project models the core of that pipeline as pure Dafny functions and
proves properties about it.

- **Building** (`Builder`, over the parse tree of `Tree`). Each `statement`
  pair becomes a `Statement` with typed parameters.
  - Numbers are parsed as `i64`, and register codes as `u8` after a four-character
    prefix (`Decimal`).
  - The first number or register that fails its parse ends the whole parse.
    The error carries that token's line and column and a fixed description.
  - The error values and their messages are modelled, and so is the way an
    unreadable file, a grammar failure and a source error are told apart.
- **The AST** (`Ast`): the script, the statement, the nine parameter forms
  and the 22 typed-identifier kinds.
  - `Script::new` and `push_statement` are `NewScript` and `PushStatement`.
  - `Statement::new` is the `Statement` constructor. The symbol-table
    reference it stores is passed to the renderers instead.
- **Rendering** (`Render`). Host objects are an abstract `HostValue`: a
  string, an integer, a tuple, a list, or the placeholder the host uses for
  a name it cannot resolve.
  - Operations, bare identifiers and registers (key `reg<code>`) are looked
    up in the table, and a missing name renders as the placeholder.
  - Variables render as `:name`, `$name` and `$g_name`. A typed identifier
    renders as its kind's prefix, `_`, and its name.
  - A statement with no parameters renders as the operation's value alone.
    Otherwise it renders as a tuple of the operation's value and the
    parameters' values.
  - A script renders as the pair (name, list of statements).
- **The symbol table** (`Globals`). The modules' namespaces are merged in
  import order, and a later module overrides an earlier one.

The properties proved are of three kinds:
- renderings can be decoded back: a typed identifier's string gives back its
  kind and name, a variable's string gives back the variable, and a register's
  key gives back its code;
- a script's rendering depends only on the table entries the script names;
- the fail-fast loops of the builder give the same answer as converting each
  item in order (`ParamResults`, `StatementResults`). They succeed exactly when
  every item converts (`AllOk` in `Results`), and otherwise return the first
  failure (`FirstError`).

## Model

| member | source | states |
|---|---|---|
| Decimal.ParseUint8 | src/parser/mod.rs:105-113 | a `u8` parse succeeds exactly when the text is a non-empty digit string whose value is at most 255, and yields that value |
| Decimal.ParseInt64 | src/parser/mod.rs:83-91 | an `i64` parse accepts exactly the non-empty digit strings, optionally after `-`, whose value lies in the 64-bit range (leading zeros and `-0` included), and yields that value, negated after `-` |
| Decimal.LeadingZeroAccepted | src/parser/mod.rs:84-85 | a leading zero, after an optional `-`, changes neither whether a number is accepted nor its value |
| Decimal.NatToDecimal | src/parser/mod.rs:21-24 | the decimal rendering of a line or column is a non-empty digit string with no leading zero |
| Decimal.ParseUint8RoundTrip | src/parser/mod.rs:93-127 | reading back the numeral of `n` as a `u8` gives `n` when `n <= 255` and fails otherwise |
| Decimal.ParseInt64RoundTrip | src/parser/mod.rs:83-91 | reading back the numeral of any integer as an `i64` gives that integer exactly when it is in the 64-bit range |
| Builder.SourceErrorMessage | src/parser/mod.rs:18-26 | a source error's message is `Error '`, the description, `' at Line: `, the line, `, Col: ` and the column, the numbers in canonical decimal |
| Builder.ErrorMessage | src/parser/mod.rs:42-54 | a parse error's message is `Parse error: ` followed by the grammar's message; a failed load's is `Failed to load source.`; a source error's is its own message, starting `Error '` |
| Builder.SourceErrorMessageInjective | src/parser/mod.rs:18-26 | the message `Error '<description>' at Line: <l>, Col: <c>` determines the description, line and column (for quote-free descriptions, which all of the builder's are) |
| Builder.ErrorMessageInjective | src/parser/mod.rs:42-54 | a parse error, a failed load and a source error never share a message, and within each kind the message determines the error |
| Builder.FailureDescription | src/parser/mod.rs:83-127 | the four failure descriptions, one per failing rule, none containing a quote |
| Builder.IdFromRule | src/parser/mod.rs:160-366 | a typed identifier carries the inner pair's text as its name |
| Builder.IdDispatchRoundTrip | src/parser/mod.rs:166-365 | every variant is produced by its own rule from its own name |
| Builder.IdDispatchBijective | src/parser/mod.rs:166-365 | a rule and a text build a given typed identifier exactly when the rule is that variant's rule and the text is its name |
| Builder.ConvertParam | src/parser/mod.rs:76-378 | only a number or a register can fail, and the error is at that token's own position with the description for its rule |
| Builder.NamedParameters | src/parser/mod.rs:128-376 | variables, typed identifiers and bare identifiers always convert, keeping the inner text unchanged |
| Builder.NumericParameters | src/parser/mod.rs:83-127 | a number converts at all exactly when its text parses as an `i64`, and converts to `v` exactly when it parses as `v`; a register converts at all exactly when the text after four characters parses as a `u8`, and to code `c` exactly when it parses as `c`, the rule choosing the variant |
| Builder.NumberParameter | src/parser/mod.rs:83-91 | the numeral of `v` converts to `Number(v)` when `v` fits in 64 bits, and otherwise fails with the invalid-number description at the token's position |
| Builder.RegisterParameter | src/parser/mod.rs:93-127 | a register whose code is at most 255 converts to the variant its rule names, and a larger code fails at the token's position with `Invalid register.`, `Invalid string register.` or `Invalid position register.` according to the rule |
| Builder.ConvertParams | src/parser/mod.rs:73-382 | the parameters convert exactly when each one does, and then in order; otherwise the error is the first failing parameter's |
| Builder.ConvertStatement | src/parser/mod.rs:67-385 | the operation is the text of the statement's first inner pair |
| Builder.StatementParametersInOrder | src/parser/mod.rs:67-385 | a statement converts exactly when every parameter pair does; parameter `i-1` is the conversion of inner pair `i`; otherwise the first failure is the error |
| Builder.StatementNodesExact | src/parser/mod.rs:65-67 | the statements built from are exactly the top-level pairs whose rule is `statement`; the end-of-input pair contributes nothing |
| Builder.BuildFrom | src/parser/mod.rs:65-390 | building keeps the script's name and every statement already pushed |
| Builder.BuildFromInOrder | src/parser/mod.rs:65-390 | building succeeds exactly when every statement converts, and then appends them in source order, one per statement pair; otherwise the error is the first failing statement's (fail-fast) |
| Builder.Parse | src/parser/mod.rs:56-393 | an unreadable source is a failed load; a grammar failure is a parse error carrying the grammar's message; otherwise the script has the given name and one statement per statement pair in order, or the error is the first source error |
| Ast.NewScript | src/parser/ast.rs:9-14 | a new script has the given name and no statements |
| Ast.PushStatement | src/parser/ast.rs:16-18 | pushing appends the statement last and keeps the name and every earlier statement |
| Render.Lookup | src/parser/ast.rs:109-111 | a name the table holds gives its value; a missing name gives the placeholder, never an error |
| Render.RegisterKey | src/parser/ast.rs:97-100 | a register's key is `reg` followed by the code's canonical numeral: the code reads back from it and it has no leading zero (register 7 is `reg7`) |
| Render.RegisterKeyInjective | src/parser/ast.rs:97-100 | distinct registers use distinct table keys |
| Render.GetRegister | src/parser/ast.rs:97-100 | a register renders as the table's value for its key, or the placeholder |
| Render.IdPrefix | src/parser/ast.rs:164-196 | every kind's prefix is a non-empty lower-case word, so it holds no `_` |
| Render.RenderId | src/parser/ast.rs:164-196 | a typed identifier renders as its kind's prefix, then `_`, then its name, with no `_` before the separator |
| Render.RenderIdRoundTrip | src/parser/ast.rs:164-196 | splitting a rendered typed identifier at its first `_` recovers its kind, through the prefix table, and its name |
| Render.RenderIdInjective | src/parser/ast.rs:164-196 | two typed identifiers render alike only when they are equal |
| Render.RenderParam | src/parser/ast.rs:102-137 | identifiers and registers resolve through the table; string and position registers and numbers render as integers within their source ranges; variables and typed identifiers render as strings |
| Render.RenderedNameRoundTrip | src/parser/ast.rs:119-133 | `:` and `$` renderings read back as the local or global variable; typed identifiers read back unchanged; an auto-prefixed global reads back as the global named `g_<name>` |
| Render.AutoPrefixedAliasesGlobal | src/parser/ast.rs:123-130 | `g.name` renders exactly like the global variable `$g_name` |
| Render.RenderStatement | src/parser/ast.rs:61-83 | no parameters: the operation's value alone; otherwise a tuple of length one more than the parameter count, the operation's value first and the parameters' values after it in order |
| Render.RenderScript | src/parser/ast.rs:21-39 | a script renders as a pair of its name and a list holding its statements' values in order |
| Render.RenderScriptFrame | src/parser/ast.rs:64-112 | two tables that agree on every operation, identifier and register key the script mentions render it alike |
| Globals.MergedNames | src/lib.rs:57-68 | the merged table holds exactly the names that some module defines |
| Globals.MergedValues | src/lib.rs:57-68 | each merged name has the value given by the last module that defines it |
| Globals.SetAll | src/lib.rs:61-65 | setting every entry of a namespace, one at a time, yields the old table overridden by that namespace |
| Globals.BuildGlobals | src/lib.rs:57-68 | the loop over the modules yields the in-order merge of their namespaces |
| Globals.MergeNone | src/lib.rs:57-58 | with no modules the table is empty |
| Globals.MergeSingle | src/lib.rs:57-68 | merging one module yields exactly its namespace |
| Globals.MergeConcat | src/lib.rs:60-65 | merging two runs of modules one after the other is the union of their merges, the later run winning |
| Globals.DisjointModulesCommute | src/lib.rs:60-65 | two adjacent modules that share no name may be imported in either order |

## Left out

- The grammar (`parser_inner` and its pest grammar file) is not part of this model. `Parse` takes the grammar engine as a function parameter, and the parse tree is the abstract `Tree.Node`. Every `expect("…")` and `unreachable!()` in the tree walk becomes a well-formedness requirement on that tree (`Tree.WellFormedPairs`). The requirement covers every pair, including pairs after the first failing statement, which the source would never reach.
- The slice `text["reg.".len()..]` and its siblings panic on a token shorter than four characters. This appears as the requirement `|text| >= 4` on register pairs. The four prefix characters themselves are not checked, just as in the source. Slicing counts characters rather than bytes, which agrees for the ASCII prefixes.
- `load_source` (file reading) is not modelled. Its outcome is the `source: Option<string>` parameter of `Parse`, where `None` means the file could not be read.
- The `println!` echo of a parse error inside `Error::to_string` is console output and is left out.
- `Error::to_py_object` (the constant string `"Error"`) is Python interop and is left out. So are the `py_module_initializer!` wrapper, module importing and the `__dict__` cast, all of which can raise Python errors that the model does not represent.
- Python objects are the abstract `Render.HostValue`. The `as c_long` cast is taken as the identity, which assumes a 64-bit C `long` (as on 64-bit Linux and macOS). On targets where `long` is 32 bits, such as 64-bit Windows, the source truncates a `Number` outside the 32-bit range; that wrap-around is not modelled.
- Render.RenderParam: renders a `Number` as its full `i64` value; the 32-bit truncation of `as c_long` where C `long` is 32 bits is not modelled.
- Decimal.ParseInt64: models only the optionally negated digit strings the grammar produces for numbers. Rust's `str::parse` also accepts a leading `+`, which is not modelled.
- Decimal.ParseUint8: Rust's `u8` parse also accepts a leading `+` after the register prefix; that is not modelled.
- The statement keeps no reference to the symbol table. The table is passed to `Render.RenderStatement` and `Render.RenderParam` instead, since one parse uses a single table throughout.
- Nothing of the typed-identifier set is dropped: the model has all 22 kinds that `StatementParameterId` defines.
