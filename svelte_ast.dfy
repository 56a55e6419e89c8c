/**
  The part of the Svelte compiler's AST that the prop extractor reads: the
  instance script of a component and the top-level statements of its program.
  Every statement kind other than a named export is one opaque case.
 */
module SvelteAst {
  import opened Wrappers

  /** One binding of a variable declaration: `a = 1` (with an initializer) or `b`. */
  datatype Declarator =
    | VariableDeclarator(name: string, hasInit: bool)
    | OtherDeclarator

  /** What a named export declares. Function and class declarations carry no `kind`. */
  datatype Declaration =
    | VariableDeclaration(kind: string, declarations: seq<Declarator>)
    | OtherDeclaration

  /**
    A top-level statement. `export { x };` is a named export whose
    declaration is absent (`null` in the compiler's AST).
   */
  datatype Statement =
    | ExportNamed(declaration: Option<Declaration>)
    | OtherStatement

  datatype Program = Program(body: seq<Statement>)

  /** The instance `<script>` block; its program may be absent. */
  datatype Script = Script(content: Option<Program>)

  /** A component's AST; `instance` is absent when the component has no script. */
  datatype Ast = Ast(instance: Option<Script>)
}
