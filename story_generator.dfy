/**
  The story generator: compiles a component, renames its default export to
  `StoryComponent`, and wraps it in a `mount(target, sync)` function that
  binds every prop the extractor found, so that the story can both read the
  component's props and push new ones into it.
 */
module StoryGenerator {
  import opened Wrappers
  import opened SvelteAst
  import opened PropExtractor
  import opened JsText

  // ---------------------------------------------------------------------------
  // Compile options
  // ---------------------------------------------------------------------------

  /** The value of a compile option, as far as the generator looks at it. */
  datatype OptionValue = Text(text: string) | Flag(flag: bool)

  /** Compile options by name. */
  type Options = map<string, OptionValue>

  /**
    The options handed to the compiler: the caller's options, if any, with
    `css` forced to `"injected"` (the object spread `{ ...options, css: "injected" }`).
   */
  function CompileOptionsFor(options: Option<Options>): (o: Options)
    ensures "css" in o && o["css"] == Text("injected")
    ensures options.None? ==> o.Keys == {"css"}
    ensures options.Some? ==> o.Keys == options.value.Keys + {"css"}
    ensures options.Some? ==>
      forall k :: k in options.value && k != "css" ==> k in o && o[k] == options.value[k]
  {
    var base := if options.Some? then options.value else map[];
    base["css" := Text("injected")]
  }

  /** JavaScript truthiness of an option value. */
  predicate Truthy(v: OptionValue)
  {
    match v
    case Text(s) => s != ""
    case Flag(b) => b
  }

  /** How an option value reads inside a template literal. */
  function AsText(v: OptionValue): string
  {
    match v
    case Text(s) => s
    case Flag(b) => if b then "true" else "false"
  }

  /**
    The filename the extractor names in its warnings: `options?.filename`
    when it is truthy, nothing otherwise. A truthy filename never reads as
    empty text.
   */
  function FilenameOf(options: Option<Options>): (r: Option<string>)
    ensures r.Some? ==> r.value != ""
  {
    if options.Some? && "filename" in options.value && Truthy(options.value["filename"])
    then Some(AsText(options.value["filename"]))
    else None
  }

  /**
    Warnings name the file exactly when the caller's options carry a truthy
    `filename`, and then they name it as it reads in a template literal.
   */
  lemma FilenameLocation(options: Option<Options>)
    ensures Location(FilenameOf(options)) != "" <==>
      options.Some? && "filename" in options.value && Truthy(options.value["filename"])
    ensures Location(FilenameOf(options)) != "" ==>
      Location(FilenameOf(options)) == " in \"" + AsText(options.value["filename"]) + "\""
  {
  }

  // ---------------------------------------------------------------------------
  // The generated module
  // ---------------------------------------------------------------------------

  const DefaultExport: string := "export default "
  const StoryBinding: string := "const StoryComponent = "
  const BindImport: string := "import { bind as svelteBind } from \"svelte/internal\";\n"
  const MountHeader: string :=
    "\n" +
    "\n" +
    "export function mount(target, sync) {\n" +
    "\tconst props = {};\n" +
    "\tconst component = new StoryComponent({ target, props });\n"
  const BindOpen: string := "\n\tsvelteBind(component, "
  const BindMid: string := ", (value) => {\n\t\tprops["
  const BindClose: string := "] = value;\n\t})"
  const MountFooter: string :=
    "\n" +
    "\n" +
    "\tconst unsubscribe = sync(props).subscribe((newProps) => {\n" +
    "\t\tcomponent.$set(newProps);\n" +
    "\t};\n" +
    "\n" +
    "\treturn () => {\n" +
    "\t\tcomponent.$destroy();\n" +
    "\t\tunsubscribe();\n" +
    "\t}\n" +
    "}"

  /** The statement that binds prop `p` of the component to `props[p]`. */
  function BindBlock(p: string): string
  {
    var name := JsonStringify(p);
    BindOpen + name + BindMid + name + BindClose
  }

  /** The bindings of all props, in order. */
  function BindBlocks(props: seq<string>): string
  {
    if props == [] then [] else BindBlocks(props[..|props| - 1]) + BindBlock(props[|props| - 1])
  }

  /** Everything before the bindings: the import, the renamed component and the header of `mount`. */
  function Preamble(code: string): string
  {
    BindImport + ReplaceFirst(code, DefaultExport, StoryBinding) + MountHeader
  }

  /** The module generated for compiled `code` whose component has `props`. */
  function StoryModule(code: string, props: seq<string>): string
  {
    Preamble(code) + BindBlocks(props) + MountFooter
  }

  // ---------------------------------------------------------------------------
  // Generation
  // ---------------------------------------------------------------------------

  /** What the compiler returns: the component's AST and its JavaScript. */
  datatype CompiledOutput = CompiledOutput(ast: Ast, code: string)

  /** Why generation throws: the compiler threw, or the extractor did. */
  datatype StoryError = CompileFailed(message: string) | ExtractFailed(cause: ExtractError)

  /** The type of the Svelte compiler; a throw is an `Err` with its message. */
  type Compiler = (string, Options) -> Result<CompiledOutput, string>

  /** The generator's result for `source`, given the compiler. */
  function Generate(source: string, options: Option<Options>, compile: Compiler): Result<string, StoryError>
  {
    match compile(source, CompileOptionsFor(options))
    case Err(message) => Err(CompileFailed(message))
    case Ok(output) =>
      match Extract(output.ast, FilenameOf(options))
      case Err(cause) => Err(ExtractFailed(cause))
      case Ok(meta) => Ok(StoryModule(output.code, meta.props))
  }

  /** Generates the story module for a component's `source`. */
  method GenerateStorybook(source: string, options: Option<Options>, compile: Compiler)
    returns (r: Result<string, StoryError>)
    ensures r == Generate(source, options, compile)
  {
    var compiled := compile(source, CompileOptionsFor(options));
    if compiled.Err? {
      return Err(CompileFailed(compiled.error));
    }
    var output := compiled.value;
    var meta := ExtractFromAst(output.ast, FilenameOf(options));
    if meta.Err? {
      return Err(ExtractFailed(meta.error));
    }
    var code := output.code;
    code := ReplaceFirst(code, DefaultExport, StoryBinding);
    code := BindImport + code;
    code := code + MountHeader;
    code := AppendBindings(code, meta.value.props);
    code := code + MountFooter;
    return Ok(code);
  }

  /** The loop that appends one binding per prop. */
  method AppendBindings(code0: string, props: seq<string>) returns (code: string)
    ensures code == code0 + BindBlocks(props)
  {
    code := code0;
    for i := 0 to |props|
      invariant code == code0 + BindBlocks(props[..i])
    {
      var name := JsonStringify(props[i]);
      code := code + (BindOpen + name + BindMid + name + BindClose);
      AppendAssoc(code0, BindBlocks(props[..i]), BindBlock(props[i]));
      BindBlocksStep(props, i);
    }
    assert props[..|props|] == props;
  }

  // ---------------------------------------------------------------------------
  // Reading the bindings back
  // ---------------------------------------------------------------------------

  /** What follows `p` at the start of `t`, if `t` starts with `p`. */
  function StripPrefix(t: string, p: string): (r: Option<string>)
    ensures r.Some? <==> |p| <= |t| && t[..|p|] == p
    ensures r.Some? ==> t == p + r.value
  {
    if |p| <= |t| && t[..|p|] == p then Some(t[|p|..]) else None
  }

  lemma StripPrefixOfAppend(p: string, rest: string)
    ensures StripPrefix(p + rest, p) == Some(rest)
  {
    assert (p + rest)[..|p|] == p;
    assert (p + rest)[|p|..] == rest;
  }

  /**
    Reads one binding statement at the start of `t`: the prop it binds and
    what follows it. Both quoted names must be the same prop.
   */
  function ReadBindBlock(t: string): (r: Option<(string, string)>)
    ensures r.Some? ==> |r.value.1| < |t|
  {
    match StripPrefix(t, BindOpen)
    case None => None
    case Some(a) =>
      match ReadString(a)
      case None => None
      case Some((name, b)) =>
        match StripPrefix(b, BindMid)
        case None => None
        case Some(c) =>
          match ReadString(c)
          case None => None
          case Some((name2, d)) =>
            match StripPrefix(d, BindClose)
            case None => None
            case Some(e) => if name2 == name then Some((name, e)) else None
  }

  /** Reads binding statements from the start of `t` for as long as there are any. */
  function ReadBindBlocks(t: string): (seq<string>, string)
    decreases |t|
  {
    match ReadBindBlock(t)
    case None => ([], t)
    case Some((p, rest)) =>
      var (ps, tail) := ReadBindBlocks(rest);
      ([p] + ps, tail)
  }

  /** A binding statement reads back as the prop it binds. */
  lemma BindBlockRead(p: string, rest: string)
    ensures ReadBindBlock(BindBlock(p) + rest) == Some((p, rest))
  {
    var q := JsonStringify(p);
    var d := BindClose + rest;
    var c := q + d;
    var b := BindMid + c;
    var a := q + b;
    assert BindBlock(p) + rest == BindOpen + a;
    StripPrefixOfAppend(BindOpen, a);
    JsonStringRoundTrip(p, b);
    StripPrefixOfAppend(BindMid, c);
    JsonStringRoundTrip(p, d);
    StripPrefixOfAppend(BindClose, rest);
  }

  /** The footer of `mount` is not a binding statement. */
  lemma FooterIsNoBinding()
    ensures ReadBindBlock(MountFooter).None?
  {
    assert MountFooter[..|BindOpen|][1] != BindOpen[1];
    assert StripPrefix(MountFooter, BindOpen).None?;
  }

  lemma BindBlocksPush(props: seq<string>, p: string)
    ensures BindBlocks(props + [p]) == BindBlocks(props) + BindBlock(p)
  {
    assert (props + [p])[..|props|] == props;
  }

  lemma BindBlocksStep(props: seq<string>, i: nat)
    requires i < |props|
    ensures BindBlocks(props[..i + 1]) == BindBlocks(props[..i]) + BindBlock(props[i])
  {
    assert props[..i + 1][..i] == props[..i];
  }

  lemma {:induction false} BindBlocksAppend(a: seq<string>, b: seq<string>)
    ensures BindBlocks(a + b) == BindBlocks(a) + BindBlocks(b)
    decreases |b|
  {
    if b == [] {
      assert a + b == a;
    } else {
      var b' := b[..|b| - 1];
      assert (a + b)[..|a + b| - 1] == a + b';
      assert (a + b)[|a + b| - 1] == b[|b| - 1];
      BindBlocksAppend(a, b');
      AppendAssoc(BindBlocks(a), BindBlocks(b'), BindBlock(b[|b| - 1]));
    }
  }

  /** Bindings read back as exactly the props they were generated for, in order. */
  lemma {:induction false} BindBlocksRead(props: seq<string>, rest: string)
    requires ReadBindBlock(rest).None?
    ensures ReadBindBlocks(BindBlocks(props) + rest) == (props, rest)
    decreases |props|
  {
    if props == [] {
      assert BindBlocks(props) + rest == rest;
    } else {
      BindBlocksAppend([props[0]], props[1..]);
      assert [props[0]] + props[1..] == props;
      assert BindBlocks([props[0]]) == BindBlock(props[0]) by {
        assert [props[0]][..0] == [];
      }
      var tail := BindBlocks(props[1..]) + rest;
      AppendAssoc(BindBlock(props[0]), BindBlocks(props[1..]), rest);
      BindBlockRead(props[0], tail);
      BindBlocksRead(props[1..], rest);
    }
  }

  // ---------------------------------------------------------------------------
  // Properties of the generated module
  // ---------------------------------------------------------------------------

  /**
    The module starts with the import of `bind`, followed directly by the
    rewritten component and the header of `mount`; it ends with the footer
    of `mount`.
   */
  lemma StoryModuleLayout(code: string, props: seq<string>)
    ensures var m := StoryModule(code, props);
      |Preamble(code)| + |MountFooter| <= |m| &&
      m[..|BindImport|] == BindImport &&
      m[|BindImport|..|Preamble(code)|] == ReplaceFirst(code, DefaultExport, StoryBinding) + MountHeader &&
      m[|m| - |MountFooter|..] == MountFooter
  {
    var rw := ReplaceFirst(code, DefaultExport, StoryBinding);
    AppendAssoc(BindImport, rw, MountHeader);
    Layout(BindImport, rw + MountHeader, BindBlocks(props), MountFooter);
  }

  /**
    Between the preamble and the footer the module holds one binding per
    prop: reading them back gives the props, in order, and then the footer.
   */
  lemma StoryModuleBindings(code: string, props: seq<string>)
    ensures var m := StoryModule(code, props);
      |Preamble(code)| <= |m| && ReadBindBlocks(m[|Preamble(code)|..]) == (props, MountFooter)
  {
    Parts(Preamble(code), BindBlocks(props), MountFooter);
    FooterIsNoBinding();
    BindBlocksRead(props, MountFooter);
  }

  /** Where the parts of `a + b + c + d` lie. */
  lemma Layout(a: string, b: string, c: string, d: string)
    ensures var m := a + b + c + d;
      m[..|a|] == a && m[|a|..|a + b|] == b && m[|m| - |d|..] == d
  {
    var m := a + b + c + d;
    assert m == a + (b + (c + d));
    assert m == (a + b + c) + d;
  }

  /** Where the parts of `a + b + c` lie. */
  lemma Parts(a: string, b: string, c: string)
    ensures (a + b + c)[|a|..] == b + c
  {
    assert a + b + c == a + (b + c);
  }

  /** Regrouping the middle of a five-part concatenation. */
  lemma Regroup(a: string, b: string, c: string, d: string, e: string)
    ensures a + b + c + d + e == a + (b + c + d) + e
  {
  }

  /** Modules generated from the same code for different props differ. */
  lemma StoryModuleDeterminesProps(code: string, props1: seq<string>, props2: seq<string>)
    requires StoryModule(code, props1) == StoryModule(code, props2)
    ensures props1 == props2
  {
    StoryModuleBindings(code, props1);
    StoryModuleBindings(code, props2);
  }

  /** A component without `export default ` is kept as it is. */
  lemma NoDefaultExportKept(code: string)
    requires forall j: nat :: !OccursAt(code, DefaultExport, j)
    ensures Preamble(code) == BindImport + code + MountHeader
  {
    ReplaceAbsent(code, DefaultExport, StoryBinding);
  }

  /**
    The first `export default ` becomes `const StoryComponent = `, and every
    later one that does not overlap it is left in place.
   */
  lemma DefaultExportRenamed(code: string, i: nat, j: nat)
    requires IsFirstOccurrence(code, DefaultExport, i)
    ensures Preamble(code) ==
      BindImport + code[..i] + StoryBinding + code[i + |DefaultExport|..] + MountHeader
    ensures OccursAt(code, DefaultExport, j) && i + |DefaultExport| <= j ==>
      OccursAt(ReplaceFirst(code, DefaultExport, StoryBinding), DefaultExport,
               j - |DefaultExport| + |StoryBinding|)
  {
    ReplaceLeftmost(code, DefaultExport, StoryBinding, i);
    Regroup(BindImport, code[..i], StoryBinding, code[i + |DefaultExport|..], MountHeader);
    if OccursAt(code, DefaultExport, j) && i + |DefaultExport| <= j {
      ReplaceKeepsLaterOccurrences(code, DefaultExport, StoryBinding, i, j);
    }
  }

  /** A prop whose name needs no escaping is quoted as it is in both places of its binding. */
  lemma PlainPropBinding(p: string)
    requires forall k :: 0 <= k < |p| ==> IsPlainChar(p[k])
    ensures BindBlock(p) == BindOpen + "\"" + p + "\"" + BindMid + "\"" + p + "\"" + BindClose
  {
    PlainStringQuoted(p);
  }

  /** Without props, the module is the preamble followed directly by the footer. */
  lemma NoPropsModule(code: string)
    ensures StoryModule(code, []) == Preamble(code) + MountFooter
  {
    assert Preamble(code) + BindBlocks([]) == Preamble(code);
  }

  /** Adding a prop adds exactly its binding, just before the footer. */
  lemma AddedPropBinding(code: string, props: seq<string>, p: string)
    ensures StoryModule(code, props + [p]) ==
      Preamble(code) + BindBlocks(props) + BindBlock(p) + MountFooter
  {
    BindBlocksPush(props, p);
    AppendAssoc(Preamble(code), BindBlocks(props), BindBlock(p));
  }

  // ---------------------------------------------------------------------------
  // Properties of generation
  // ---------------------------------------------------------------------------

  /**
    Generation succeeds exactly when the compiler and the extractor do; the
    module then binds exactly the extracted props, in order.
   */
  lemma GenerateBindsExtractedProps(source: string, options: Option<Options>, compile: Compiler)
    ensures var compiled := compile(source, CompileOptionsFor(options));
      Generate(source, options, compile).Ok? <==>
        compiled.Ok? && Extract(compiled.value.ast, FilenameOf(options)).Ok?
    ensures var compiled := compile(source, CompileOptionsFor(options));
      var r := Generate(source, options, compile);
      r.Ok? ==>
        var code, meta := compiled.value.code, Extract(compiled.value.ast, FilenameOf(options)).value;
        ReadBindBlocks(r.value[|Preamble(code)|..]) == (meta.props, MountFooter)
  {
    var compiled := compile(source, CompileOptionsFor(options));
    if compiled.Ok? && Extract(compiled.value.ast, FilenameOf(options)).Ok? {
      StoryModuleBindings(compiled.value.code, Extract(compiled.value.ast, FilenameOf(options)).value.props);
    }
  }

  /** A component without an instance script gets a `mount` that binds nothing. */
  lemma ScriptlessStory(source: string, options: Option<Options>, compile: Compiler)
    requires compile(source, CompileOptionsFor(options)).Ok?
    requires compile(source, CompileOptionsFor(options)).value.ast.instance.None?
    ensures Generate(source, options, compile) ==
      Ok(Preamble(compile(source, CompileOptionsFor(options)).value.code) + MountFooter)
  {
    var output := compile(source, CompileOptionsFor(options)).value;
    NoScriptNoProps(output.ast, FilenameOf(options));
    NoPropsModule(output.code);
  }

  /** `export { x };` makes generation fail, whatever else the script holds. */
  lemma MissingDeclarationFails(source: string, options: Option<Options>, compile: Compiler)
    requires compile(source, CompileOptionsFor(options)).Ok?
    requires HasMissingDeclaration(TopLevel(compile(source, CompileOptionsFor(options)).value.ast))
    ensures Generate(source, options, compile) == Err(ExtractFailed(MissingDeclaration))
  {
  }
}
