# svelte-fable story generation, modelled in Dafny

svelte-fable turns a Svelte component into a "story": a JavaScript module
that exports `mount(target, sync)`. The module mounts the component and keeps
its props in step with a control panel in both directions. Two pieces of
logic make up the core, and both are modelled here:

- **The prop extractor** (`extractFromAst`). It scans the top-level statements
  of the component's instance script for `export let a = 1, b;`. It records
  every declared name as a prop, in source order. For every name without a
  default value it adds a warning, which names the file when one is given.
- **The story generator** (`generateStorybook`). It compiles the component
  with `css: "injected"` and extracts its props. It then renames the first
  `export default ` in the compiled code to `const StoryComponent = `. It puts
  an import of Svelte's `bind` in front. Last, it appends a `mount` function
  that binds every prop, in order, and subscribes to `sync`.

Modules:

- `Wrappers` (`wrappers.dfy`): `Option` and `Result`.
- `SvelteAst` (`svelte_ast.dfy`): the part of the compiler's AST that the
  extractor reads.
- `PropExtractor` (`prop_extractor.dfy`): the extractor. `ExtractFromAst` is
  the nested loop of the source, split into `ScanStatements` (statements) and
  `CollectDeclarators` (declarators). Each is proved against the recursive
  specification `Extract`/`ExtractBody`. Lemmas about that specification
  state what the extractor promises.
- `JsText` (`js_text.dfy`): the two JavaScript built-ins the generator relies
  on:
  - `String.prototype.replace` with a flagless literal pattern (`ReplaceFirst`);
  - `JSON.stringify` on a string (`JsonStringify`), with a reader for JSON
    string literals, so that its round trip can be stated.
- `StoryGenerator` (`story_generator.dfy`): the generator.
  - `GenerateStorybook` builds the text step by step, as the source does, and
    is proved equal to the specification `Generate`/`StoryModule`.
  - A reader for the emitted `svelteBind` statements (`ReadBindBlocks`) is
    the partner of the bind loop. The bindings read back as exactly the
    extracted props, in order.

How the model relates to the code:

- The Svelte compiler is a parameter `compile` of `GenerateStorybook`: a
  function from source and options to `Ok(CompiledOutput(ast, code))`, or to
  `Err(message)` when it throws. A throw propagates as `CompileFailed`.
- An `export { x };` statement is a named export without a declaration. The
  extractor reads `node.declaration.kind` without a guard
  (src/lib/extractFromAst.ts:14), so it throws a TypeError on that statement.
  The model follows the code: `Extract` returns `Err(MissingDeclaration)`, and
  generation fails with `ExtractFailed(MissingDeclaration)`. The extractor is
  meant never to raise; the code does raise here, and the model follows the
  code.
- Only the top-level statements of the instance script are scanned. A
  statement's inner statements are not represented at all, so an
  `export let` nested in a block can never be found.
- The extractor builds fresh lists on every call. In the model they are
  values, and `Extract` is a function of the AST and the filename alone.
- Exported functions and classes have no `kind`, so `kind === "let"` is false
  for them and they are skipped (`OtherDeclaration`).
- `options?.filename` counts when it is truthy. Warnings then name it as a
  template literal would print it (`FilenameOf`, `AsText`). Option values are
  texts or flags.
- `JSON.stringify` is modelled in full for strings: the escapes for the
  quote, the backslash and control characters. Dafny characters are Unicode
  scalar values, so lone surrogates cannot occur. The generator therefore
  needs no restriction on prop names. `PlainPropBinding` shows that an
  identifier is quoted as `"name"`.
- The emitted text is reproduced character for character. That includes the
  unbalanced `};` that closes the `subscribe` callback
  (src/lib/generateStorybook.ts:33). Nothing here claims the output is valid
  JavaScript.
- The extractor's warnings are computed but not used by the generator, just
  as in the source.

## Model

| member | source | states |
|---|---|---|
| `PropExtractor.Location` | src/lib/extractFromAst.ts:6 | the location text is empty exactly when there is no filename or it is empty |
| `PropExtractor.Warning` | src/lib/extractFromAst.ts:21-23 | the warning template; its properties are carried by `WarningsAt`, `WarningInjective` and `WarningMentionsPropAndFile` |
| `PropExtractor.Warnings` | src/lib/extractFromAst.ts:20-24 | one warning per prop without a default value |
| `PropExtractor.WarningsAt` | src/lib/extractFromAst.ts:21-23 | the k-th warning is `Property "<prop>"<location> doesn't have a default value` for the k-th such prop |
| `PropExtractor.IsLetExport` | src/lib/extractFromAst.ts:13-14 | the test for a named export declaring `let` variables; its properties are carried by `PropsAreExportedLets`, `SingleStatement` and `IgnoredStatement` |
| `PropExtractor.ExtractFromAst` | src/lib/extractFromAst.ts:5-31 | the extractor returns exactly the specification `Extract`: props and warnings of the instance script, or the throw on `export { x };` |
| `PropExtractor.ScanStatements` | src/lib/extractFromAst.ts:11-28 | the scan of the top-level statements gives `ExtractBody`: the first export without a declaration throws; otherwise the props and warnings of every `let` export, in order |
| `PropExtractor.CollectDeclarators` | src/lib/extractFromAst.ts:16-26 | the inner loop appends the names of the variable declarators, and a warning for each one without an initializer, to the lists gathered so far |
| `PropExtractor.MissingStep` | src/lib/extractFromAst.ts:12-14 | one more statement throws exactly when it is an export without a declaration |
| `PropExtractor.NoScriptNoProps` | src/lib/extractFromAst.ts:9-10 | without an instance script, or without its program, there are no props and no warnings |
| `PropExtractor.ExtractionInStatementOrder` | src/lib/extractFromAst.ts:11-19 | props and warnings of two runs of statements are those of the first followed by those of the second, and the scan throws if either would |
| `PropExtractor.SingleStatement` | src/lib/extractFromAst.ts:12-24 | one statement contributes the names and warnings of its own `let` declarators, and throws exactly when it lacks a declaration |
| `PropExtractor.IgnoredStatement` | src/lib/extractFromAst.ts:12-15 | a statement that is not a `let` export (nor an export without a declaration) changes neither props, warnings nor the outcome, wherever it stands |
| `PropExtractor.NamesMembership` | src/lib/extractFromAst.ts:17-19 | a name is recorded exactly when a variable declarator of that name is present, with or without an initializer |
| `PropExtractor.UninitializedMembership` | src/lib/extractFromAst.ts:20-24 | a name gets a warning exactly when a declarator of that name has no initializer |
| `PropExtractor.DefaultsAt` | src/lib/extractFromAst.ts:17-20 | the k-th recorded name and whether it has a default value come from one variable declarator of the scan |
| `PropExtractor.BodyDeclaratorsMembership` | src/lib/extractFromAst.ts:11-16 | the declarators scanned are exactly those of the top-level `let` exports |
| `PropExtractor.PropsAreExportedLets` | src/lib/extractFromAst.ts:11-19 | a name is a prop exactly when some top-level `let` export declares it |
| `PropExtractor.WarningInjective` | src/lib/extractFromAst.ts:21-23 | different props get different warnings |
| `PropExtractor.WarningsMembership` | src/lib/extractFromAst.ts:20-24 | a prop's warning is in the list exactly when the prop is among those warned about |
| `PropExtractor.WarningsOnlyForUninitialized` | src/lib/extractFromAst.ts:20-24 | a prop's warning is produced exactly when some top-level `let` export declares it without an initializer |
| `PropExtractor.UninitializedEmbedsInNames` | src/lib/extractFromAst.ts:16-24 | the names warned about appear among the props at strictly increasing positions, and those positions are exactly the ones of names without a default value |
| `PropExtractor.WarningsFollowProps` | src/lib/extractFromAst.ts:19-24 | each warning belongs to a prop, in the same relative order as the props; the props warned about are exactly those without a default value, so there are no more warnings than props |
| `PropExtractor.WarningMentionsPropAndFile` | src/lib/extractFromAst.ts:21-23 | a warning contains the prop's name and, when given, the filename |
| `PropExtractor.SingleLetExport` | src/lib/extractFromAst.ts:12-24 | `export let x = …;` gives the prop `x` and no warning; `export let x;` gives the prop `x` and its warning |
| `PropExtractor.ExampleTwoProps` | src/lib/extractFromAst.ts:11-24 | `export let a = 1; export let b;` gives props `a`, `b` in that order and one warning, for `b` |
| `JsText.IndexOfFrom` | src/lib/generateStorybook.ts:12 | finds the leftmost occurrence of the pattern at or after a position, or reports that there is none |
| `JsText.ReplaceFirst` | src/lib/generateStorybook.ts:12 | `replace` with a plain pattern; its properties are carried by `ReplaceAbsent`, `ReplaceLeftmost` and `ReplaceKeepsLaterOccurrences` |
| `JsText.ReplaceAbsent` | src/lib/generateStorybook.ts:12 | without an occurrence of the pattern the text is unchanged |
| `JsText.ReplaceLeftmost` | src/lib/generateStorybook.ts:12 | the leftmost occurrence, and only it, is replaced |
| `JsText.ReplaceKeepsLaterOccurrences` | src/lib/generateStorybook.ts:12 | later non-overlapping occurrences survive the replacement, shifted by the change in length |
| `JsText.EscapeChar` | src/lib/generateStorybook.ts:22 | a character is written as itself or as a longer escape sequence |
| `JsText.JsonStringify` | src/lib/generateStorybook.ts:22 | the written literal is enclosed in double quotes |
| `JsText.PlainStringQuoted` | src/lib/generateStorybook.ts:22 | a name with no quote, backslash or control character is written as `"name"` |
| `JsText.JsonStringRoundTrip` | src/lib/generateStorybook.ts:22 | reading back what `JSON.stringify` wrote gives the original string and the text after it |
| `JsText.JsonStringifyInjective` | src/lib/generateStorybook.ts:22 | different prop names are written differently |
| `StoryGenerator.CompileOptionsFor` | src/lib/generateStorybook.ts:9 | the compiler gets the caller's options with `css` overridden to `"injected"` and every other option kept |
| `StoryGenerator.FilenameOf` | src/lib/extractFromAst.ts:6 | the extractor reads `options?.filename` through JavaScript truthiness (`Truthy`, `AsText`); a filename it keeps never reads as empty text, and `FilenameLocation` states when warnings name it |
| `StoryGenerator.FilenameLocation` | src/lib/generateStorybook.ts:10 | the caller's own options go to the extractor: warnings name the file exactly when `filename` is truthy |
| `StoryGenerator.GenerateStorybook` | src/lib/generateStorybook.ts:5-42 | the generator returns the specification `Generate`: a compiler throw, an extractor throw, or the story module of the compiled code and the extracted props |
| `StoryGenerator.AppendBindings` | src/lib/generateStorybook.ts:21-27 | the loop appends one `svelteBind` statement per prop, in order |
| `StoryGenerator.BindBlockRead` | src/lib/generateStorybook.ts:22-26 | a `svelteBind` statement reads back as the prop it binds |
| `StoryGenerator.FooterIsNoBinding` | src/lib/generateStorybook.ts:29-39 | the subscribe/teardown suffix is not mistaken for a binding |
| `StoryGenerator.BindBlock` | src/lib/generateStorybook.ts:22-26 | the per-prop `svelteBind` statement; its properties are carried by `BindBlockRead` and `PlainPropBinding` |
| `StoryGenerator.BindBlocksPush` | src/lib/generateStorybook.ts:21-27 | one more prop appends exactly its binding |
| `StoryGenerator.BindBlocksAppend` | src/lib/generateStorybook.ts:21-27 | the bindings of two runs of props are those of the first followed by those of the second |
| `StoryGenerator.BindBlocksRead` | src/lib/generateStorybook.ts:21-27 | the bindings read back as exactly the props, in order |
| `StoryGenerator.StoryModuleLayout` | src/lib/generateStorybook.ts:12-39 | the module starts with the `bind` import, then the rewritten code and the `mount` header, and ends with the fixed suffix |
| `StoryGenerator.StoryModuleBindings` | src/lib/generateStorybook.ts:15-39 | after the header come exactly the bindings of the props, in order, and then the suffix |
| `StoryGenerator.StoryModuleDeterminesProps` | src/lib/generateStorybook.ts:21-27 | the same code with different props gives different modules |
| `StoryGenerator.NoDefaultExportKept` | src/lib/generateStorybook.ts:12 | compiled code without `export default ` is kept unchanged |
| `StoryGenerator.DefaultExportRenamed` | src/lib/generateStorybook.ts:12 | the first `export default ` becomes `const StoryComponent = ` and later ones are kept |
| `StoryGenerator.PlainPropBinding` | src/lib/generateStorybook.ts:22-26 | an identifier is bound under its name in double quotes, in both places |
| `StoryGenerator.NoPropsModule` | src/lib/generateStorybook.ts:15-39 | with no props the module is the import, rewritten code and header followed directly by the suffix |
| `StoryGenerator.AddedPropBinding` | src/lib/generateStorybook.ts:21-39 | adding a prop adds exactly its binding, just before the suffix, and changes nothing else |
| `StoryGenerator.GenerateBindsExtractedProps` | src/lib/generateStorybook.ts:9-41 | generation succeeds exactly when compiling and extracting do, and the module then binds exactly the extracted props, in order |
| `StoryGenerator.ScriptlessStory` | src/lib/generateStorybook.ts:10-41 | a component without an instance script gets a `mount` that binds nothing |
| `StoryGenerator.MissingDeclarationFails` | src/lib/generateStorybook.ts:10 | `export { x };` in the instance script makes generation throw |

## Left out

- The Svelte compiler (`compile` from `svelte/compiler`) is foreign code. It
  is a parameter returning the AST and the JavaScript text, or the message it
  throws with. What it produces is not modelled.
- src/lib/extractFromSource.ts is not part of this model. It only calls the
  compiler and then the extractor.
- src/routes/+page.server.ts is not part of this model. It reads files and
  calls the compiler's preprocessor.
- enable-testing.js is not part of this model. It is a setup script made of
  file writes and console output.
- What the generated `mount` module does when it runs is not modelled:
  `svelteBind`, `$set`, `$destroy` and the `sync` subscription. The module is
  text only.
- The AST keeps only what the extractor reads. A declarator's id is an
  identifier name. Destructuring patterns, whose `id.name` would be
  `undefined`, are not modelled.
- Compile options hold text or flag values only. Other value types (numbers,
  functions, objects) are not modelled. They cannot change `filename`, the
  only option read, and `css` is always overwritten.
- `ReplaceFirst` models `replace` for a pattern with no special regular
  expression characters and a replacement with no `$` patterns. That is the
  only way the source uses it.
- The extractor's two nested loops are two methods (`ScanStatements` and
  `CollectDeclarators`) and the generator's loop is a method of its own
  (`AppendBindings`). The source writes each as one function.
