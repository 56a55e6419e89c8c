/**
  The prop extractor: scans the top-level statements of a component's
  instance script for `export let a = 1, b;` and records each binding's name,
  with a warning for every binding that has no default value.
 */
module PropExtractor {
  import opened Wrappers
  import opened SvelteAst

  /** The extractor's result: prop names and warnings, both in source order. */
  datatype Extraction = Extraction(props: seq<string>, warnings: seq<string>)

  /** Reading `kind` off the missing declaration of `export { x };` throws a TypeError. */
  datatype ExtractError = MissingDeclaration

  // ---------------------------------------------------------------------------
  // Specification
  // ---------------------------------------------------------------------------

  /** The text that names the file in a warning; empty without a (non-empty) filename. */
  function Location(filename: Option<string>): (loc: string)
    ensures loc == "" <==> filename.None? || filename.value == ""
  {
    if filename.Some? && filename.value != "" then " in \"" + filename.value + "\"" else ""
  }

  /** The warning for a prop declared without a default value. */
  function Warning(prop: string, location: string): string
  {
    "Property \"" + prop + "\"" + location + " doesn't have a default value"
  }

  /** One warning per name, in order. */
  function Warnings(names: seq<string>, location: string): (ws: seq<string>)
    ensures |ws| == |names|
  {
    if names == [] then []
    else Warnings(names[..|names| - 1], location) + [Warning(names[|names| - 1], location)]
  }

  /** The k-th warning is the warning for the k-th name. */
  lemma {:induction false} WarningsAt(names: seq<string>, location: string, k: nat)
    requires k < |names|
    ensures Warnings(names, location)[k] == Warning(names[k], location)
    decreases |names|
  {
    if k < |names| - 1 {
      WarningsAt(names[..|names| - 1], location, k);
    }
  }

  /** A named export of a `let` declaration: the one pattern the extractor records. */
  predicate IsLetExport(s: Statement)
  {
    s.ExportNamed? && s.declaration.Some? &&
    s.declaration.value.VariableDeclaration? && s.declaration.value.kind == "let"
  }

  /** `export { x };`: a named export without a declaration. */
  predicate IsMissingDeclaration(s: Statement)
  {
    s.ExportNamed? && s.declaration.None?
  }

  /** The declarators a statement contributes: those of a `let` export, else none. */
  function LetDeclarators(s: Statement): seq<Declarator>
  {
    if IsLetExport(s) then s.declaration.value.declarations else []
  }

  /** The declarators of all `let` exports of a body, statement by statement. */
  function BodyDeclarators(body: seq<Statement>): seq<Declarator>
  {
    if body == [] then []
    else BodyDeclarators(body[..|body| - 1]) + LetDeclarators(body[|body| - 1])
  }

  /** The names of the variable declarators, in order. */
  function Names(ds: seq<Declarator>): seq<string>
  {
    if ds == [] then []
    else
      var d := ds[|ds| - 1];
      Names(ds[..|ds| - 1]) + (if d.VariableDeclarator? then [d.name] else [])
  }

  /** The names of the variable declarators without an initializer, in order. */
  function Uninitialized(ds: seq<Declarator>): seq<string>
  {
    if ds == [] then []
    else
      var d := ds[|ds| - 1];
      Uninitialized(ds[..|ds| - 1]) + (if d.VariableDeclarator? && !d.hasInit then [d.name] else [])
  }

  /** Whether each name of `Names(ds)`, position by position, has a default value. */
  function Defaults(ds: seq<Declarator>): (fs: seq<bool>)
    ensures |fs| == |Names(ds)|
  {
    if ds == [] then []
    else
      var d := ds[|ds| - 1];
      Defaults(ds[..|ds| - 1]) + (if d.VariableDeclarator? then [d.hasInit] else [])
  }

  function BodyProps(body: seq<Statement>): seq<string>
  {
    Names(BodyDeclarators(body))
  }

  function BodyWarnings(body: seq<Statement>, location: string): seq<string>
  {
    Warnings(Uninitialized(BodyDeclarators(body)), location)
  }

  predicate HasMissingDeclaration(body: seq<Statement>)
  {
    exists k :: 0 <= k < |body| && IsMissingDeclaration(body[k])
  }

  /** The statements scanned: the instance script's program body, if there is one. */
  function TopLevel(ast: Ast): seq<Statement>
  {
    if ast.instance.Some? && ast.instance.value.content.Some? then ast.instance.value.content.value.body
    else []
  }

  /** The result of scanning a program body, or the error the scan throws. */
  function ExtractBody(body: seq<Statement>, location: string): Result<Extraction, ExtractError>
  {
    if HasMissingDeclaration(body) then Err(MissingDeclaration)
    else Ok(Extraction(BodyProps(body), BodyWarnings(body, location)))
  }

  /** What `extractFromAst` returns, or the error it throws. */
  function Extract(ast: Ast, filename: Option<string>): Result<Extraction, ExtractError>
  {
    ExtractBody(TopLevel(ast), Location(filename))
  }

  // ---------------------------------------------------------------------------
  // The extractor
  // ---------------------------------------------------------------------------

  /** `extractFromAst`: scans the instance script's program, if there is one. */
  method ExtractFromAst(ast: Ast, filename: Option<string>) returns (r: Result<Extraction, ExtractError>)
    ensures r == Extract(ast, filename)
  {
    var location := Location(filename);
    if ast.instance.Some? && ast.instance.value.content.Some? {
      r := ScanStatements(ast.instance.value.content.value.body, location);
    } else {
      r := Ok(Extraction([], []));
    }
  }

  /**
    The outer loop of `extractFromAst`: one pass over the top-level
    statements. The first export without a declaration throws.
   */
  method ScanStatements(body: seq<Statement>, location: string) returns (r: Result<Extraction, ExtractError>)
    ensures r == ExtractBody(body, location)
  {
    var props: seq<string> := [];
    var warnings: seq<string> := [];
    var i := 0;
    while i < |body|
      invariant 0 <= i <= |body|
      invariant !HasMissingDeclaration(body[..i])
      invariant props == BodyProps(body[..i])
      invariant warnings == BodyWarnings(body[..i], location)
    {
      var node := body[i];
      ScanStep(body, i, location);
      MissingStep(body, i);
      if node.ExportNamed? {
        if node.declaration.None? {
          // `node.declaration.kind` throws
          assert body[..i + 1][i] == node;
          return Err(MissingDeclaration);
        }
        var decl := node.declaration.value;
        if decl.VariableDeclaration? && decl.kind == "let" {
          assert LetDeclarators(node) == decl.declarations;
          props, warnings := CollectDeclarators(decl.declarations, location, props, warnings);
        } else {
          assert !IsLetExport(node);
        }
      } else {
        assert !IsLetExport(node);
      }
      i := i + 1;
    }
    assert body[..i] == body;
    return Ok(Extraction(props, warnings));
  }

  /**
    The inner loop of `extractFromAst`: pushes the name of every variable
    declarator of one `let` export, and a warning for each one without an
    initializer, onto the lists gathered so far.
   */
  method CollectDeclarators(ds: seq<Declarator>, location: string, props0: seq<string>, warnings0: seq<string>)
    returns (props: seq<string>, warnings: seq<string>)
    ensures props == props0 + Names(ds)
    ensures warnings == warnings0 + Warnings(Uninitialized(ds), location)
  {
    props, warnings := props0, warnings0;
    var j := 0;
    while j < |ds|
      invariant 0 <= j <= |ds|
      invariant props == props0 + Names(ds[..j])
      invariant warnings == warnings0 + Warnings(Uninitialized(ds[..j]), location)
    {
      var declaration := ds[j];
      DeclaratorStep(ds, j);
      ghost var names, uninitialized := Names(ds[..j]), Uninitialized(ds[..j]);
      if declaration.VariableDeclarator? {
        var prop := declaration.name;
        AppendAssoc(props0, names, [prop]);
        props := props + [prop];
        if !declaration.hasInit {
          WarningsPush(uninitialized, prop, location);
          AppendAssoc(warnings0, Warnings(uninitialized, location), [Warning(prop, location)]);
          warnings := warnings + [Warning(prop, location)];
        } else {
          assert Uninitialized(ds[..j + 1]) == uninitialized;
        }
      } else {
        assert Names(ds[..j + 1]) == names;
        assert Uninitialized(ds[..j + 1]) == uninitialized;
      }
      j := j + 1;
    }
    assert ds[..j] == ds;
  }

  /** What one more statement adds to the props and warnings. */
  lemma ScanStep(body: seq<Statement>, i: nat, location: string)
    requires i < |body|
    ensures BodyProps(body[..i + 1]) == BodyProps(body[..i]) + Names(LetDeclarators(body[i]))
    ensures BodyWarnings(body[..i + 1], location) ==
      BodyWarnings(body[..i], location) + Warnings(Uninitialized(LetDeclarators(body[i])), location)
    ensures !IsLetExport(body[i]) ==> BodyProps(body[..i + 1]) == BodyProps(body[..i])
    ensures !IsLetExport(body[i]) ==> BodyWarnings(body[..i + 1], location) == BodyWarnings(body[..i], location)
  {
    var before := BodyDeclarators(body[..i]);
    var added := LetDeclarators(body[i]);
    BodyDeclaratorsStep(body, i);
    NamesAppend(before, added);
    UninitializedAppend(before, added);
    WarningsAppend(Uninitialized(before), Uninitialized(added), location);
    if !IsLetExport(body[i]) {
      assert added == [];
      assert BodyProps(body[..i]) + [] == BodyProps(body[..i]);
      assert BodyWarnings(body[..i], location) + [] == BodyWarnings(body[..i], location);
    }
  }

  /** Whether the statements scanned so far hold an export without a declaration. */
  lemma MissingStep(body: seq<Statement>, i: nat)
    requires i < |body|
    ensures HasMissingDeclaration(body[..i + 1]) <==>
      HasMissingDeclaration(body[..i]) || IsMissingDeclaration(body[i])
  {
    if HasMissingDeclaration(body[..i + 1]) {
      var k :| 0 <= k < i + 1 && IsMissingDeclaration(body[..i + 1][k]);
      if k < i {
        assert body[..i][k] == body[..i + 1][k];
      }
    }
    if HasMissingDeclaration(body[..i]) {
      var k :| 0 <= k < i && IsMissingDeclaration(body[..i][k]);
      assert body[..i + 1][k] == body[..i][k];
    }
    if IsMissingDeclaration(body[i]) {
      assert body[..i + 1][i] == body[i];
    }
  }

  lemma BodyDeclaratorsStep(body: seq<Statement>, i: nat)
    requires i < |body|
    ensures BodyDeclarators(body[..i + 1]) == BodyDeclarators(body[..i]) + LetDeclarators(body[i])
    ensures !IsLetExport(body[i]) ==> BodyDeclarators(body[..i + 1]) == BodyDeclarators(body[..i])
  {
    assert body[..i + 1][..i] == body[..i];
    assert !IsLetExport(body[i]) ==> BodyDeclarators(body[..i]) + LetDeclarators(body[i]) == BodyDeclarators(body[..i]);
  }

  lemma DeclaratorStep(ds: seq<Declarator>, j: nat)
    requires j < |ds|
    ensures Names(ds[..j + 1]) == Names(ds[..j]) + (if ds[j].VariableDeclarator? then [ds[j].name] else [])
    ensures Uninitialized(ds[..j + 1]) ==
      Uninitialized(ds[..j]) + (if ds[j].VariableDeclarator? && !ds[j].hasInit then [ds[j].name] else [])
  {
    assert ds[..j + 1][..j] == ds[..j];
  }

  // ---------------------------------------------------------------------------
  // Properties
  // ---------------------------------------------------------------------------

  lemma {:induction false} NamesAppend(a: seq<Declarator>, b: seq<Declarator>)
    ensures Names(a + b) == Names(a) + Names(b)
    decreases |b|
  {
    if b == [] {
      assert a + b == a;
    } else {
      var b' := b[..|b| - 1];
      assert (a + b)[..|a + b| - 1] == a + b';
      NamesAppend(a, b');
    }
  }

  lemma {:induction false} UninitializedAppend(a: seq<Declarator>, b: seq<Declarator>)
    ensures Uninitialized(a + b) == Uninitialized(a) + Uninitialized(b)
    decreases |b|
  {
    if b == [] {
      assert a + b == a;
    } else {
      var b' := b[..|b| - 1];
      assert (a + b)[..|a + b| - 1] == a + b';
      UninitializedAppend(a, b');
    }
  }

  lemma {:induction false} BodyDeclaratorsAppend(a: seq<Statement>, b: seq<Statement>)
    ensures BodyDeclarators(a + b) == BodyDeclarators(a) + BodyDeclarators(b)
    decreases |b|
  {
    if b == [] {
      assert a + b == a;
    } else {
      var b' := b[..|b| - 1];
      assert (a + b)[..|a + b| - 1] == a + b';
      assert (a + b)[|a + b| - 1] == b[|b| - 1];
      BodyDeclaratorsAppend(a, b');
      AppendAssoc(BodyDeclarators(a), BodyDeclarators(b'), LetDeclarators(b[|b| - 1]));
    }
  }

  lemma AppendAssoc<T>(a: seq<T>, b: seq<T>, c: seq<T>)
    ensures a + b + c == a + (b + c)
  {
  }

  lemma WarningsPush(names: seq<string>, p: string, location: string)
    ensures Warnings(names + [p], location) == Warnings(names, location) + [Warning(p, location)]
  {
    assert (names + [p])[..|names|] == names;
  }

  lemma {:induction false} WarningsAppend(a: seq<string>, b: seq<string>, location: string)
    ensures Warnings(a + b, location) == Warnings(a, location) + Warnings(b, location)
    decreases |b|
  {
    if b == [] {
      assert a + b == a;
    } else {
      var b' := b[..|b| - 1];
      assert (a + b)[..|a + b| - 1] == a + b';
      WarningsAppend(a, b', location);
    }
  }

  /** A component without an instance script, or whose script has no program, has no props and no warnings. */
  lemma NoScriptNoProps(ast: Ast, filename: Option<string>)
    requires ast.instance.None? || ast.instance.value.content.None?
    ensures Extract(ast, filename) == Ok(Extraction([], []))
  {
  }

  /**
    Props and warnings follow statement order: the result for a body split in
    two is the result for the first part followed by that for the second.
   */
  lemma {:induction false} ExtractionInStatementOrder(a: seq<Statement>, b: seq<Statement>, location: string)
    ensures BodyProps(a + b) == BodyProps(a) + BodyProps(b)
    ensures BodyWarnings(a + b, location) == BodyWarnings(a, location) + BodyWarnings(b, location)
    ensures HasMissingDeclaration(a + b) <==> HasMissingDeclaration(a) || HasMissingDeclaration(b)
  {
    BodyDeclaratorsAppend(a, b);
    NamesAppend(BodyDeclarators(a), BodyDeclarators(b));
    UninitializedAppend(BodyDeclarators(a), BodyDeclarators(b));
    WarningsAppend(Uninitialized(BodyDeclarators(a)), Uninitialized(BodyDeclarators(b)), location);
    if HasMissingDeclaration(a) {
      var k :| 0 <= k < |a| && IsMissingDeclaration(a[k]);
      assert (a + b)[k] == a[k];
    }
    if HasMissingDeclaration(b) {
      var k :| 0 <= k < |b| && IsMissingDeclaration(b[k]);
      assert (a + b)[|a| + k] == b[k];
    }
    if HasMissingDeclaration(a + b) {
      var k :| 0 <= k < |a + b| && IsMissingDeclaration((a + b)[k]);
      if k < |a| {
        assert a[k] == (a + b)[k];
      } else {
        assert b[k - |a|] == (a + b)[k];
      }
    }
  }

  /** Within one `let` export, props follow declarator order. */
  lemma SingleStatement(s: Statement, location: string)
    ensures BodyProps([s]) == Names(LetDeclarators(s))
    ensures BodyWarnings([s], location) == Warnings(Uninitialized(LetDeclarators(s)), location)
    ensures HasMissingDeclaration([s]) <==> IsMissingDeclaration(s)
  {
    assert [s][..0] == [];
    assert BodyDeclarators([s]) == LetDeclarators(s);
  }

  /**
    A statement that is neither a `let` export nor an export without a
    declaration (another statement, a `const` or `var` export, an exported
    function) changes neither the props, nor the warnings, nor whether the
    extractor throws.
   */
  lemma IgnoredStatement(a: seq<Statement>, s: Statement, b: seq<Statement>, location: string)
    requires !IsLetExport(s) && !IsMissingDeclaration(s)
    ensures BodyProps(a + [s] + b) == BodyProps(a + b)
    ensures BodyWarnings(a + [s] + b, location) == BodyWarnings(a + b, location)
    ensures HasMissingDeclaration(a + [s] + b) <==> HasMissingDeclaration(a + b)
  {
    SingleStatement(s, location);
    assert LetDeclarators(s) == [];
    assert BodyProps([s]) == [] && BodyWarnings([s], location) == [];
    ExtractionInStatementOrder(a, [s], location);
    assert BodyProps(a + [s]) == BodyProps(a) + [] == BodyProps(a);
    assert BodyWarnings(a + [s], location) == BodyWarnings(a, location) + [] == BodyWarnings(a, location);
    ExtractionInStatementOrder(a + [s], b, location);
    ExtractionInStatementOrder(a, b, location);
  }

  lemma {:induction false} NamesMembership(ds: seq<Declarator>, p: string)
    ensures p in Names(ds) <==> VariableDeclarator(p, true) in ds || VariableDeclarator(p, false) in ds
    decreases |ds|
  {
    if ds != [] {
      var ds' := ds[..|ds| - 1];
      assert ds == ds' + [ds[|ds| - 1]];
      NamesMembership(ds', p);
    }
  }

  lemma {:induction false} UninitializedMembership(ds: seq<Declarator>, p: string)
    ensures p in Uninitialized(ds) <==> VariableDeclarator(p, false) in ds
    decreases |ds|
  {
    if ds != [] {
      var ds' := ds[..|ds| - 1];
      assert ds == ds' + [ds[|ds| - 1]];
      UninitializedMembership(ds', p);
    }
  }

  /** The `k`-th recorded name and its default flag come from one declarator. */
  lemma {:induction false} DefaultsAt(ds: seq<Declarator>, k: nat)
    requires k < |Names(ds)|
    ensures VariableDeclarator(Names(ds)[k], Defaults(ds)[k]) in ds
    decreases |ds|
  {
    var ds' := ds[..|ds| - 1];
    var d := ds[|ds| - 1];
    assert ds == ds' + [d];
    if k < |Names(ds')| {
      assert Names(ds)[k] == Names(ds')[k];
      assert Defaults(ds)[k] == Defaults(ds')[k];
      DefaultsAt(ds', k);
    } else {
      assert d == VariableDeclarator(Names(ds)[k], Defaults(ds)[k]);
    }
  }

  lemma {:induction false} BodyDeclaratorsMembership(body: seq<Statement>, d: Declarator)
    ensures d in BodyDeclarators(body) <==> exists s :: s in body && d in LetDeclarators(s)
    decreases |body|
  {
    if body != [] {
      var body' := body[..|body| - 1];
      var last := body[|body| - 1];
      assert BodyDeclarators(body) == BodyDeclarators(body') + LetDeclarators(last);
      BodyDeclaratorsMembership(body', d);
      if d in BodyDeclarators(body) {
        if d in BodyDeclarators(body') {
          var s :| s in body' && d in LetDeclarators(s);
          assert s in body;
        } else {
          assert d in LetDeclarators(last);
        }
      }
      if exists s :: s in body && d in LetDeclarators(s) {
        var s :| s in body && d in LetDeclarators(s);
        if s != last {
          var k :| 0 <= k < |body| && body[k] == s;
          assert body'[k] == s;
        }
      }
    }
  }

  /**
    A name is a prop exactly when some top-level `let` export declares it,
    with or without an initializer.
   */
  lemma PropsAreExportedLets(body: seq<Statement>, p: string)
    ensures p in BodyProps(body) <==>
      exists s :: s in body && (VariableDeclarator(p, true) in LetDeclarators(s) || VariableDeclarator(p, false) in LetDeclarators(s))
  {
    NamesMembership(BodyDeclarators(body), p);
    BodyDeclaratorsMembership(body, VariableDeclarator(p, true));
    BodyDeclaratorsMembership(body, VariableDeclarator(p, false));
  }

  /** The prop's name is recoverable from its warning. */
  lemma WarningInjective(p: string, q: string, location: string)
    requires Warning(p, location) == Warning(q, location)
    ensures p == q
  {
    var head := "Property \"";
    var w := Warning(p, location);
    assert |p| == |q|;
    assert w == head + p + ("\"" + location + " doesn't have a default value");
    assert w[|head|..|head| + |p|] == p;
    assert Warning(q, location) == head + q + ("\"" + location + " doesn't have a default value");
    assert Warning(q, location)[|head|..|head| + |q|] == q;
  }

  lemma WarningsMembership(names: seq<string>, p: string, location: string)
    ensures Warning(p, location) in Warnings(names, location) <==> p in names
  {
    var ws := Warnings(names, location);
    if Warning(p, location) in ws {
      var k :| 0 <= k < |ws| && ws[k] == Warning(p, location);
      WarningsAt(names, location, k);
      WarningInjective(names[k], p, location);
    }
    if p in names {
      var k :| 0 <= k < |names| && names[k] == p;
      WarningsAt(names, location, k);
    }
  }

  /**
    A prop gets a warning exactly when some top-level `let` export declares it
    without an initializer.
   */
  lemma WarningsOnlyForUninitialized(body: seq<Statement>, p: string, location: string)
    ensures Warning(p, location) in BodyWarnings(body, location) <==>
      exists s :: s in body && VariableDeclarator(p, false) in LetDeclarators(s)
  {
    WarningsMembership(Uninitialized(BodyDeclarators(body)), p, location);
    UninitializedMembership(BodyDeclarators(body), p);
    BodyDeclaratorsMembership(body, VariableDeclarator(p, false));
  }

  /** `idx` embeds `Uninitialized(ds)` into `Names(ds)` in increasing order. */
  predicate IsEmbedding(idx: seq<nat>, sub: seq<string>, full: seq<string>)
  {
    && |idx| == |sub|
    && (forall m :: 0 <= m < |idx| ==> idx[m] < |full| && sub[m] == full[idx[m]])
    && (forall m, n :: 0 <= m < n < |idx| ==> idx[m] < idx[n])
  }

  /**
    `idx` embeds `Uninitialized(ds)` into `Names(ds)`, and its positions are
    exactly those of the names without a default value.
   */
  lemma {:induction false} UninitializedEmbedsInNames(ds: seq<Declarator>) returns (idx: seq<nat>)
    ensures IsEmbedding(idx, Uninitialized(ds), Names(ds))
    ensures forall k :: 0 <= k < |Names(ds)| ==> (!Defaults(ds)[k] <==> k in idx)
    decreases |ds|
  {
    if ds == [] {
      idx := [];
    } else {
      var ds' := ds[..|ds| - 1];
      var d := ds[|ds| - 1];
      var idx' := UninitializedEmbedsInNames(ds');
      var n := |Names(ds')|;
      if d.VariableDeclarator? && !d.hasInit {
        idx := idx' + [n];
      } else {
        idx := idx';
      }
      forall k | 0 <= k < |Names(ds)|
        ensures !Defaults(ds)[k] <==> k in idx
      {
        if k < n {
          assert Defaults(ds)[k] == Defaults(ds')[k];
          assert k in idx <==> k in idx';
        } else {
          assert d.VariableDeclarator? && Defaults(ds)[k] == d.hasInit;
          assert n !in idx';
        }
      }
    }
  }

  /**
    There is exactly one warning per prop declared without a default value:
    the warnings are the props at increasing positions `idx`, which are
    exactly the positions of the props without a default value, so there are
    never more warnings than props.
   */
  lemma WarningsFollowProps(ast: Ast, filename: Option<string>) returns (idx: seq<nat>)
    requires Extract(ast, filename).Ok?
    ensures var e := Extract(ast, filename).value;
      && |e.warnings| == |idx| <= |e.props|
      && (forall m :: 0 <= m < |idx| ==> idx[m] < |e.props| && e.warnings[m] == Warning(e.props[idx[m]], Location(filename)))
      && (forall m, n :: 0 <= m < n < |idx| ==> idx[m] < idx[n])
    ensures var e := Extract(ast, filename).value;
      var defaults := Defaults(BodyDeclarators(TopLevel(ast)));
      && |defaults| == |e.props|
      && (forall k :: 0 <= k < |e.props| ==> (!defaults[k] <==> k in idx))
  {
    var ds := BodyDeclarators(TopLevel(ast));
    idx := UninitializedEmbedsInNames(ds);
    EmbeddingBound(idx, |Names(ds)|);
    forall m | 0 <= m < |idx| {
      WarningsAt(Uninitialized(ds), Location(filename), m);
    }
  }

  lemma {:induction false} EmbeddingBound(idx: seq<nat>, n: nat)
    requires forall m :: 0 <= m < |idx| ==> idx[m] < n
    requires forall m, k :: 0 <= m < k < |idx| ==> idx[m] < idx[k]
    ensures |idx| <= n
    decreases |idx|
  {
    if idx != [] {
      var last := idx[|idx| - 1];
      EmbeddingBound(idx[..|idx| - 1], last);
    }
  }

  /** A warning mentions the prop and, when there is one, the file. */
  lemma WarningMentionsPropAndFile(p: string, filename: string)
    requires filename != ""
    ensures Contains(Warning(p, Location(Some(filename))), p)
    ensures Contains(Warning(p, Location(Some(filename))), filename)
  {
    var tail := " doesn't have a default value";
    var location := Location(Some(filename));
    ContainsSuffix("Property \"", p);
    ContainsWithin("Property \"" + p, "\"", p);
    ContainsWithin("Property \"" + p + "\"", location, p);
    ContainsWithin("Property \"" + p + "\"" + location, tail, p);
    ContainsSuffix(" in \"", filename);
    ContainsWithin(" in \"" + filename, "\"", filename);
    ContainsBehind("Property \"" + p + "\"", location, filename);
    ContainsWithin("Property \"" + p + "\"" + location, tail, filename);
  }

  predicate Contains(s: string, t: string)
  {
    exists i :: 0 <= i <= |s| - |t| && IsAt(s, t, i)
  }

  predicate IsAt(s: string, t: string, i: int)
  {
    0 <= i <= |s| - |t| && s[i..i + |t|] == t
  }

  lemma ContainsSuffix(s: string, t: string)
    ensures Contains(s + t, t)
  {
    assert IsAt(s + t, t, |s|);
  }

  lemma ContainsWithin(s: string, u: string, t: string)
    requires Contains(s, t)
    ensures Contains(s + u, t)
  {
    var i :| 0 <= i <= |s| - |t| && IsAt(s, t, i);
    assert (s + u)[i..i + |t|] == s[i..i + |t|];
    assert IsAt(s + u, t, i);
  }

  lemma ContainsBehind(u: string, s: string, t: string)
    requires Contains(s, t)
    ensures Contains(u + s, t)
  {
    var i :| 0 <= i <= |s| - |t| && IsAt(s, t, i);
    assert (u + s)[|u| + i..|u| + i + |t|] == s[i..i + |t|];
    assert IsAt(u + s, t, |u| + i);
  }

  /** `export let x = …;` or `export let x;` alone: one prop, and a warning when it has no initializer. */
  lemma SingleLetExport(name: string, hasInit: bool, location: string)
    ensures var s := ExportNamed(Some(VariableDeclaration("let", [VariableDeclarator(name, hasInit)])));
      BodyProps([s]) == [name] &&
      BodyWarnings([s], location) == (if hasInit then [] else [Warning(name, location)]) &&
      !HasMissingDeclaration([s])
  {
    var d := VariableDeclarator(name, hasInit);
    var s := ExportNamed(Some(VariableDeclaration("let", [d])));
    SingleStatement(s, location);
    assert LetDeclarators(s) == [d];
    assert [d][..0] == [];
    assert Names([d]) == [name];
    if !hasInit {
      assert Uninitialized([d]) == [name];
      assert Warnings([name], location) == [Warning(name, location)];
    }
  }

  /** `export let a = 1; export let b;`: props in order, one warning for `b`. */
  lemma ExampleTwoProps(a: string, b: string)
    ensures var body := [
        ExportNamed(Some(VariableDeclaration("let", [VariableDeclarator(a, true)]))),
        ExportNamed(Some(VariableDeclaration("let", [VariableDeclarator(b, false)])))];
      Extract(Ast(Some(Script(Some(Program(body))))), None) ==
        Ok(Extraction([a, b], [Warning(b, "")]))
  {
    var first := ExportNamed(Some(VariableDeclaration("let", [VariableDeclarator(a, true)])));
    var second := ExportNamed(Some(VariableDeclaration("let", [VariableDeclarator(b, false)])));
    TwoStatements(first, second, "");
    SingleLetExport(a, true, "");
    SingleLetExport(b, false, "");
    assert [a] + [b] == [a, b];
    assert [] + [Warning(b, "")] == [Warning(b, "")];
  }

  /** A body of two statements, scanned in order. */
  lemma TwoStatements(s: Statement, t: Statement, location: string)
    ensures BodyProps([s, t]) == BodyProps([s]) + BodyProps([t])
    ensures BodyWarnings([s, t], location) == BodyWarnings([s], location) + BodyWarnings([t], location)
    ensures HasMissingDeclaration([s, t]) <==> HasMissingDeclaration([s]) || HasMissingDeclaration([t])
  {
    assert [s] + [t] == [s, t];
    ExtractionInStatementOrder([s], [t], location);
  }
}
