/** The entry point `compile`: collect the names bound by `define`
    statements, declare one local for each after the scratch local, then
    concatenate the code of every statement in source order. */
module Compiler {
  import opened Results
  import opened Text
  import opened Nesting
  import opened Ast
  import opened Lowering

  /** Declaration of the scratch local that `expr` statements store into. */
  const ScratchDecl := "(local $$last i32)"

  /** Declaration of the local for a defined name. */
  function LocalDecl(name: string): string {
    "(local $" + name + " i32)"
  }

  /** What `compile` returns: the instruction lines joined by line breaks. */
  datatype CompileResult = CompileResult(wasmSource: string)

  /** Statement `i` of `ast` is a `define` of `name`. */
  predicate Defines(ast: seq<Stmt>, i: int, name: string) {
    0 <= i < |ast| && ast[i].Define? && ast[i].name == name
  }

  predicate Distinct(names: seq<string>) {
    forall i, j :: 0 <= i < j < |names| ==> names[i] != names[j]
  }

  /** Every statement's operators are `+`, `-` or `*`. */
  predicate AllSupported(ast: seq<Stmt>) {
    forall i :: 0 <= i < |ast| ==> Supported(Operand(ast[i]))
  }

  predicate AllNamesSafe(ast: seq<Stmt>) {
    forall i :: 0 <= i < |ast| ==> StmtNamesSafe(ast[i])
  }

  /** The Set `definedVars` after the scan of `ast`, in its iteration
      order: each defined name once, in order of first definition. */
  function DefinedNames(ast: seq<Stmt>): (names: seq<string>)
    ensures Distinct(names)
  {
    if |ast| == 0 then []
    else
      var earlier := DefinedNames(ast[..|ast| - 1]);
      match ast[|ast| - 1]
      case Define(name, _) => if name in earlier then earlier else earlier + [name]
      case ExprStmt(_) => earlier
  }

  /** `localDefines`: the scratch declaration, then one declaration per name. */
  function LocalDecls(names: seq<string>): (r: seq<string>)
    ensures |r| == |names| + 1 && r[0] == ScratchDecl
    ensures forall k :: 0 <= k < |names| ==> r[k + 1] == LocalDecl(names[k])
  {
    if |names| == 0 then [ScratchDecl]
    else LocalDecls(names[..|names| - 1]) + [LocalDecl(names[|names| - 1])]
  }

  /** The code of all statements, concatenated in order; it fails when any
      statement fails. */
  function Lower(ast: seq<Stmt>): (r: Result<seq<string>>)
    ensures r.Ok? <==> AllSupported(ast)
    ensures r.Err? ==> r.message == InvalidBinaryOperator
  {
    if |ast| == 0 then Ok([])
    else
      var front :- Lower(ast[..|ast| - 1]);
      var last :- CodeGen(ast[|ast| - 1]);
      Ok(front + last)
  }

  /** `commands`: the local declarations followed by the statements' code. */
  function Commands(ast: seq<Stmt>): (r: Result<seq<string>>)
    ensures r.Ok? <==> AllSupported(ast)
    ensures r.Err? ==> r.message == InvalidBinaryOperator
    ensures r.Ok? ==> |r.value| >= 1 + |DefinedNames(ast)|
    ensures r.Ok? ==> r.value[0] == ScratchDecl
  {
    var body :- Lower(ast);
    Ok(LocalDecls(DefinedNames(ast)) + body)
  }

  /** `compile` up to the final join: the lines it produces, or the error
      it throws. */
  method CompileCommands(ast: seq<Stmt>) returns (r: Result<seq<string>>)
    ensures r == Commands(ast)
    ensures r.Ok? <==> AllSupported(ast)
  {
    // `definedVars`: the Set's elements in insertion order, and as a set
    var definedVars: seq<string> := [];
    var members: set<string> := {};
    for i := 0 to |ast|
      invariant definedVars == DefinedNames(ast[..i])
      invariant members == set n | n in definedVars
    {
      DefinedNamesStep(ast, i);
      match ast[i]
      case Define(name, _) =>
        if name !in members {
          definedVars := definedVars + [name];
          members := members + {name};
        }
      case ExprStmt(_) =>
    }
    assert ast[..|ast|] == ast;
    var localDefines := [ScratchDecl];
    for k := 0 to |definedVars|
      invariant localDefines == LocalDecls(definedVars[..k])
    {
      LocalDeclsStep(definedVars, k);
      localDefines := localDefines + [LocalDecl(definedVars[k])];
    }
    assert definedVars[..|definedVars|] == definedVars;
    var body: seq<string> := [];
    for j := 0 to |ast|
      invariant Lower(ast[..j]) == Ok(body)
    {
      LowerStep(ast, j);
      var group := CodeGen(ast[j]);
      if group.Err? {
        r := Err(group.message);
        return;
      }
      body := body + group.value;
    }
    assert ast[..|ast|] == ast;
    r := Ok(localDefines + body);
  }

  lemma DefinedNamesStep(ast: seq<Stmt>, i: nat)
    requires i < |ast|
    ensures DefinedNames(ast[..i + 1]) ==
      if ast[i].Define? && ast[i].name !in DefinedNames(ast[..i])
      then DefinedNames(ast[..i]) + [ast[i].name]
      else DefinedNames(ast[..i])
  {
    assert ast[..i + 1][..i] == ast[..i];
  }

  lemma LocalDeclsStep(names: seq<string>, k: nat)
    requires k < |names|
    ensures LocalDecls(names[..k + 1]) == LocalDecls(names[..k]) + [LocalDecl(names[k])]
  {
    assert names[..k + 1][..k] == names[..k];
  }

  lemma LowerStep(ast: seq<Stmt>, j: nat)
    requires j < |ast| && Lower(ast[..j]).Ok?
    ensures Lower(ast[..j + 1]) ==
      if CodeGen(ast[j]).Err? then Err(InvalidBinaryOperator)
      else Ok(Lower(ast[..j]).value + CodeGen(ast[j]).value)
  {
    assert ast[..j + 1][..j] == ast[..j];
  }

  /** `compile`: the lines joined by line breaks, or the error. */
  method Compile(ast: seq<Stmt>) returns (r: Result<CompileResult>)
    ensures r.Ok? <==> AllSupported(ast)
    ensures r.Err? ==> r.message == InvalidBinaryOperator
    ensures r.Ok? ==> r.value.wasmSource == Join(Commands(ast).value, "\n")
  {
    var commands :- CompileCommands(ast);
    r := Ok(CompileResult(Join(commands, "\n")));
  }

  // ---------------------------------------------------------------------
  // The collected names
  // ---------------------------------------------------------------------

  /** A name is collected exactly when some statement defines it: `expr`
      statements contribute nothing. */
  lemma {:induction false} DefinedNamesMembers(ast: seq<Stmt>, name: string)
    ensures name in DefinedNames(ast) <==> exists i :: Defines(ast, i, name)
  {
    if |ast| > 0 {
      var front := ast[..|ast| - 1];
      var last := ast[|ast| - 1];
      DefinedNamesMembers(front, name);
      assert DefinedNames(ast) == DefinedNames(front) ||
        (last.Define? && DefinedNames(ast) == DefinedNames(front) + [last.name]);
      if name in DefinedNames(ast) {
        if name in DefinedNames(front) {
          var i :| Defines(front, i, name);
          assert Defines(ast, i, name);
        } else {
          assert Defines(ast, |ast| - 1, name);
        }
      }
      if exists i :: Defines(ast, i, name) {
        var i :| Defines(ast, i, name);
        if i < |ast| - 1 {
          assert Defines(front, i, name);
          assert name in DefinedNames(front);
        } else {
          assert last == Define(name, last.value);
        }
        assert name in DefinedNames(ast);
      }
    }
  }

  /** The index of the first `define` of `name`, or `|ast|` when there is
      none. */
  function FirstDefine(ast: seq<Stmt>, name: string): (r: nat)
    ensures r <= |ast|
    ensures r < |ast| ==> Defines(ast, r, name)
    ensures forall q :: 0 <= q < r && q < |ast| ==> !Defines(ast, q, name)
  {
    if |ast| == 0 then 0
    else
      var front := ast[..|ast| - 1];
      var f := FirstDefine(front, name);
      assert forall q :: 0 <= q < |front| ==> (Defines(front, q, name) <==> Defines(ast, q, name));
      if f < |front| then f
      else if Defines(ast, |front|, name) then |front|
      else |ast|
  }

  /** A name is collected exactly when it has a first definition. */
  lemma {:induction false} DefinedNamesFirstDefine(ast: seq<Stmt>, name: string)
    ensures name in DefinedNames(ast) <==> FirstDefine(ast, name) < |ast|
  {
    DefinedNamesMembers(ast, name);
    if name in DefinedNames(ast) {
      var i :| Defines(ast, i, name);
    }
  }

  /** The names come in the order of their first definitions. */
  lemma {:induction false} DefinedNamesFirstSeen(ast: seq<Stmt>)
    ensures forall i, j :: 0 <= i < j < |DefinedNames(ast)| ==>
      FirstDefine(ast, DefinedNames(ast)[i]) < FirstDefine(ast, DefinedNames(ast)[j])
  {
    if |ast| > 0 {
      var names := DefinedNames(ast);
      var front := ast[..|ast| - 1];
      var earlier := DefinedNames(front);
      DefinedNamesFirstSeen(front);
      assert names == earlier || (ast[|ast| - 1].Define? && ast[|ast| - 1].name !in earlier &&
                                  names == earlier + [ast[|ast| - 1].name]);
      forall i, j | 0 <= i < j < |names|
        ensures FirstDefine(ast, names[i]) < FirstDefine(ast, names[j])
      {
        assert names[i] == earlier[i];
        DefinedNamesFirstDefine(front, earlier[i]);
        if j < |earlier| {
          assert names[j] == earlier[j];
          DefinedNamesFirstDefine(front, earlier[j]);
        } else {
          DefinedNamesFirstDefine(front, names[j]);
        }
      }
    } else {
      assert DefinedNames(ast) == [];
    }
  }

  /** The names bound by the program's `define` statements. */
  function DefinedSet(ast: seq<Stmt>): set<string> {
    set i | 0 <= i < |ast| && ast[i].Define? :: ast[i].name
  }

  lemma {:induction false} DistinctCardinality(names: seq<string>)
    requires Distinct(names)
    ensures |set n | n in names| == |names|
  {
    if |names| > 0 {
      var front := names[..|names| - 1];
      DistinctCardinality(front);
      assert (set n | n in names) == (set n | n in front) + {names[|names| - 1]};
    }
  }

  /** One local per distinct defined name, however often it is defined. */
  lemma DefinedNamesCount(ast: seq<Stmt>)
    ensures |DefinedNames(ast)| == |DefinedSet(ast)|
  {
    var names := DefinedNames(ast);
    forall n ensures n in DefinedSet(ast) <==> n in names {
      DefinedNamesMembers(ast, n);
      if n in DefinedSet(ast) {
        var i :| 0 <= i < |ast| && ast[i].Define? && ast[i].name == n;
        assert Defines(ast, i, n);
      }
    }
    assert DefinedSet(ast) == set n | n in names;
    DistinctCardinality(names);
  }

  // ---------------------------------------------------------------------
  // The statements' code
  // ---------------------------------------------------------------------

  /** The code of two programs run one after the other is the code of the
      first followed by that of the second: nothing is dropped or reordered. */
  lemma {:induction false} LowerAppend(a: seq<Stmt>, b: seq<Stmt>)
    requires AllSupported(a) && AllSupported(b)
    ensures Lower(a + b) == Ok(Lower(a).value + Lower(b).value)
  {
    if |b| == 0 {
      assert a + b == a;
      assert Lower(b) == Ok([]);
      assert Lower(a).value + [] == Lower(a).value;
    } else {
      var front, last := b[..|b| - 1], b[|b| - 1];
      assert (a + b)[..|a + b| - 1] == a + front;
      assert (a + b)[|a + b| - 1] == last;
      LowerAppend(a, front);
      LowerSnoc(a + b);
      LowerSnoc(b);
      var la, lf, lc := Lower(a).value, Lower(front).value, CodeGen(last).value;
      calc {
        Lower(a + b);
        Ok(Lower(a + front).value + lc);
        Ok(la + lf + lc);
        { assert la + lf + lc == la + (lf + lc); }
        Ok(la + Lower(b).value);
      }
    }
  }

  /** One step of the statement loop. */
  lemma LowerSnoc(ast: seq<Stmt>)
    requires |ast| > 0 && AllSupported(ast)
    ensures Lower(ast) == Ok(Lower(ast[..|ast| - 1]).value + CodeGen(ast[|ast| - 1]).value)
  {
  }

  /** A single statement's code is what `codeGen` gives for it. */
  lemma LowerSingle(s: Stmt)
    ensures Lower([s]) == CodeGen(s)
  {
    assert [s][..0] == [];
    assert [s][0] == s;
    if CodeGen(s).Ok? {
      assert [] + CodeGen(s).value == CodeGen(s).value;
    }
  }

  /** The number of stores among `lines`. */
  function CountStores(lines: seq<string>): nat {
    if |lines| == 0 then 0
    else CountStores(lines[..|lines| - 1]) + (if IsStore(lines[|lines| - 1]) then 1 else 0)
  }

  lemma {:induction false} CountStoresConcat(a: seq<string>, b: seq<string>)
    ensures CountStores(a + b) == CountStores(a) + CountStores(b)
  {
    if |b| == 0 {
      assert a + b == a;
    } else {
      assert (a + b)[..|a + b| - 1] == a + b[..|b| - 1];
      CountStoresConcat(a, b[..|b| - 1]);
    }
  }

  lemma {:induction false} NoStores(lines: seq<string>)
    requires forall k :: 0 <= k < |lines| ==> !IsStore(lines[k])
    ensures CountStores(lines) == 0
  {
    if |lines| > 0 {
      NoStores(lines[..|lines| - 1]);
    }
  }

  /** Every statement ends in exactly one store, so the code of a program
      holds exactly one store per statement. */
  lemma {:induction false} BodyStoreCount(ast: seq<Stmt>)
    requires AllSupported(ast)
    ensures CountStores(Lower(ast).value) == |ast|
  {
    if |ast| > 0 {
      var front := ast[..|ast| - 1];
      var s := ast[|ast| - 1];
      BodyStoreCount(front);
      StmtShape(s);
      var lines := CodeGen(s).value;
      NoStores(lines[..|lines| - 1]);
      CountStoresConcat(lines[..|lines| - 1], [lines[|lines| - 1]]);
      assert lines[..|lines| - 1] + [lines[|lines| - 1]] == lines;
      CountStoresConcat(Lower(front).value, lines);
    }
  }

  lemma StoreIsNotDecl(s: Stmt)
    ensures !IsDecl(StoreLine(s))
  {
    DiffersAt(StoreLine(s), "(local ", 6);
  }

  /** No line of the statements' code declares a local. */
  lemma {:induction false} BodyHasNoDecls(ast: seq<Stmt>)
    requires AllSupported(ast)
    ensures forall k :: 0 <= k < |Lower(ast).value| ==> !IsDecl(Lower(ast).value[k])
  {
    if |ast| > 0 {
      var s := ast[|ast| - 1];
      BodyHasNoDecls(ast[..|ast| - 1]);
      StmtShape(s);
      ExprLinesAreValues(Operand(s));
      StoreIsNotDecl(s);
    }
  }

  lemma DeclsAreDecls(names: seq<string>)
    ensures forall k :: 0 <= k < |LocalDecls(names)| ==> IsDecl(LocalDecls(names)[k])
  {
    forall k | 0 <= k < |LocalDecls(names)| ensures IsDecl(LocalDecls(names)[k]) {
      if k > 0 {
        assert LocalDecl(names[k - 1])[..7] == "(local ";
      }
    }
  }

  // ---------------------------------------------------------------------
  // The whole output
  // ---------------------------------------------------------------------

  /** The output opens with the scratch declaration, then declares each
      collected name in order; every declaration precedes the first line of
      statement code, which is the statements' code unchanged. */
  lemma CommandsLayout(ast: seq<Stmt>)
    requires AllSupported(ast)
    ensures var lines := Commands(ast).value;
            var names := DefinedNames(ast);
            |lines| == |names| + 1 + |Lower(ast).value| &&
            lines[0] == ScratchDecl &&
            (forall k :: 0 <= k < |names| ==> lines[k + 1] == LocalDecl(names[k])) &&
            lines[|names| + 1..] == Lower(ast).value &&
            (forall k :: 0 <= k <= |names| ==> IsDecl(lines[k])) &&
            (forall k :: |names| < k < |lines| ==> !IsDecl(lines[k]))
  {
    var lines := Commands(ast).value;
    var decls := LocalDecls(DefinedNames(ast));
    assert lines == decls + Lower(ast).value;
    DeclsAreDecls(DefinedNames(ast));
    BodyHasNoDecls(ast);
    forall k | |decls| <= k < |lines| ensures !IsDecl(lines[k]) {
      assert lines[k] == Lower(ast).value[k - |decls|];
    }
  }

  /** The scratch declaration is the declaration of a defined name only for
      the name `$last`, which is no identifier; the same holds for the
      stores. */
  lemma ScratchCollision(name: string, v: Expr)
    ensures LocalDecl(name) == ScratchDecl <==> name == "$last"
    ensures StoreLine(Define(name, v)) == ScratchStore <==> name == "$last"
  {
    var decl := LocalDecl(name);
    if decl == ScratchDecl {
      assert |name| == 5;
      forall i | 0 <= i < 5 ensures name[i] == "$last"[i] {
        assert name[i] == decl[8 + i];
      }
    }
    var store := StoreLine(Define(name, v));
    if store == ScratchStore {
      assert |name| == 5;
      forall i | 0 <= i < 5 ensures name[i] == "$last"[i] {
        assert name[i] == store[12 + i];
      }
    }
    if name == "$last" {
      assert decl == "(local $" + "$last" + " i32)";
      assert store == "(local.set $" + "$last" + ")";
    }
  }

  /** One statement with an unsupported operator, wherever it stands in the
      program, rejects the whole program with no partial output. */
  lemma RejectedAnywhere(a: seq<Stmt>, s: Stmt, b: seq<Stmt>)
    requires !Supported(Operand(s))
    ensures Commands(a + [s] + b) == Err(InvalidBinaryOperator)
  {
    var program := a + [s] + b;
    assert program[|a|] == s;
  }

  /** The program fails to compile exactly when some statement holds an
      unsupported operator, and then produces no lines at all. */
  lemma CommandsFailure(ast: seq<Stmt>)
    ensures Commands(ast).Ok? <==> AllSupported(ast)
    ensures !AllSupported(ast) ==> Commands(ast) == Err(InvalidBinaryOperator)
  {
  }

  lemma LocalDeclWellFormed(name: string)
    requires SafeName(name)
    ensures WellFormedLine(LocalDecl(name))
  {
    OpeningConcat("(local $", name);
    OpeningConcat("(local $" + name, " i32");
    ClosePlain("(local $" + name + " i32");
    assert LocalDecl(name) == "(local $" + name + " i32" + ")";
  }

  lemma {:induction false} BodyWellFormed(ast: seq<Stmt>)
    requires AllSupported(ast) && AllNamesSafe(ast)
    ensures forall k :: 0 <= k < |Lower(ast).value| ==> WellFormedLine(Lower(ast).value[k])
  {
    if |ast| > 0 {
      BodyWellFormed(ast[..|ast| - 1]);
      StmtLinesWellFormed(ast[|ast| - 1]);
    }
  }

  /** With identifier-like names every output line is one parenthesised
      instruction on a line of its own. */
  lemma DeclsWellFormed(names: seq<string>)
    requires forall k :: 0 <= k < |names| ==> SafeName(names[k])
    ensures forall k :: 0 <= k < |LocalDecls(names)| ==> WellFormedLine(LocalDecls(names)[k])
  {
    PlainLine("(local $", "$last i32");
    assert ScratchDecl == "(local $" + "$last i32" + ")";
    forall k | 0 <= k < |LocalDecls(names)| ensures WellFormedLine(LocalDecls(names)[k]) {
      if k > 0 {
        LocalDeclWellFormed(names[k - 1]);
      }
    }
  }

  /** Every collected name is one a statement defines. */
  lemma DefinedNamesSafe(ast: seq<Stmt>)
    requires AllNamesSafe(ast)
    ensures forall k :: 0 <= k < |DefinedNames(ast)| ==> SafeName(DefinedNames(ast)[k])
  {
    var names := DefinedNames(ast);
    forall k | 0 <= k < |names| ensures SafeName(names[k]) {
      DefinedNamesMembers(ast, names[k]);
      var i :| Defines(ast, i, names[k]);
      assert StmtNamesSafe(ast[i]);
    }
  }

  lemma AllWellFormedConcat(a: seq<string>, b: seq<string>)
    requires forall k :: 0 <= k < |a| ==> WellFormedLine(a[k])
    requires forall k :: 0 <= k < |b| ==> WellFormedLine(b[k])
    ensures forall k :: 0 <= k < |a + b| ==> WellFormedLine((a + b)[k])
  {
    forall k | 0 <= k < |a + b| ensures WellFormedLine((a + b)[k]) {
      if k >= |a| {
        assert (a + b)[k] == b[k - |a|];
      }
    }
  }

  /** With identifier-like names every output line is one parenthesised
      instruction on a line of its own. */
  lemma CommandsWellFormed(ast: seq<Stmt>)
    requires AllSupported(ast) && AllNamesSafe(ast)
    ensures forall k :: 0 <= k < |Commands(ast).value| ==> WellFormedLine(Commands(ast).value[k])
  {
    DefinedNamesSafe(ast);
    DeclsWellFormed(DefinedNames(ast));
    BodyWellFormed(ast);
    AllWellFormedConcat(LocalDecls(DefinedNames(ast)), Lower(ast).value);
  }

  /** Cutting `wasmSource` at its line breaks gives back the output lines. */
  lemma WasmSourceLines(ast: seq<Stmt>)
    requires AllSupported(ast) && AllNamesSafe(ast)
    ensures Split(Join(Commands(ast).value, "\n"), '\n') == Commands(ast).value
  {
    CommandsWellFormed(ast);
    SplitJoin(Commands(ast).value, '\n');
  }

  // ---------------------------------------------------------------------
  // Particular programs
  // ---------------------------------------------------------------------

  /** The declarations and code of a two-statement program. */
  lemma TwoStatements(s1: Stmt, s2: Stmt)
    requires Supported(Operand(s1)) && Supported(Operand(s2))
    ensures Commands([s1, s2]) ==
      Ok(LocalDecls(DefinedNames([s1, s2])) + CodeGen(s1).value + CodeGen(s2).value)
  {
    var ast := [s1, s2];
    assert ast == [s1] + [s2];
    LowerAppend([s1], [s2]);
    LowerSingle(s1);
    LowerSingle(s2);
    assert Lower(ast) == Ok(CodeGen(s1).value + CodeGen(s2).value);
    var decls := LocalDecls(DefinedNames(ast));
    assert decls + (CodeGen(s1).value + CodeGen(s2).value) == decls + CodeGen(s1).value + CodeGen(s2).value;
  }

  lemma RedefinedNames(name: string, v1: Expr, v2: Expr)
    ensures DefinedNames([Define(name, v1), Define(name, v2)]) == [name]
  {
    var s1, s2 := Define(name, v1), Define(name, v2);
    assert [s1, s2][..1] == [s1];
    assert [s1][..0] == [];
    assert DefinedNames([s1]) == [name];
  }

  lemma OneDecl(name: string)
    ensures LocalDecls([name]) == [ScratchDecl, LocalDecl(name)]
  {
    assert [name][..0] == [];
  }

  /** Re-association of a two-statement body, kept apart so that the solver
      meets it on abstract sequences: proving it inside `Redefinition` is
      unstable across solver seeds. */
  lemma Regroup(decls: seq<string>, e1: seq<string>, store1: string, e2: seq<string>, store2: string)
    ensures decls + (e1 + [store1]) + (e2 + [store2]) == decls + e1 + [store1] + e2 + [store2]
  {
  }

  /** Defining a name twice declares one local and stores into it twice, the
      two definitions' code in source order. */
  lemma Redefinition(name: string, v1: Expr, v2: Expr)
    requires Supported(v1) && Supported(v2)
    ensures Commands([Define(name, v1), Define(name, v2)]) ==
      Ok([ScratchDecl, LocalDecl(name)] + CodeGenExpr(v1).value + ["(local.set $" + name + ")"]
         + CodeGenExpr(v2).value + ["(local.set $" + name + ")"])
  {
    RedefinedNames(name, v1, v2);
    OneDecl(name);
    TwoStatements(Define(name, v1), Define(name, v2));
    StmtShape(Define(name, v1));
    StmtShape(Define(name, v2));
    Regroup([ScratchDecl, LocalDecl(name)], CodeGenExpr(v1).value, "(local.set $" + name + ")",
            CodeGenExpr(v2).value, "(local.set $" + name + ")");
  }
}
