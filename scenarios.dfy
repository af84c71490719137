/** The generator's output on particular programs. */
module Scenarios {
  import opened Results
  import opened Text
  import opened Ast
  import opened Lowering
  import opened Compiler

  lemma ConstFive()
    ensures CodeGen(Define("x", Num(5))) == Ok(["(i32.const 5)", "(local.set $x)"])
  {
    assert IntToString(5) == "5";
    assert "(i32.const " + "5" + ")" == "(i32.const 5)";
    assert CodeGenExpr(Num(5)) == Ok(["(i32.const 5)"]);
    assert "(local.set $" + "x" + ")" == "(local.set $x)";
    assert CodeGen(Define("x", Num(5))) == Ok(CodeGenExpr(Num(5)).value + ["(local.set $" + "x" + ")"]);
    assert ["(i32.const 5)"] + ["(local.set $x)"] == ["(i32.const 5)", "(local.set $x)"];
  }

  lemma AddThree()
    ensures CodeGenExpr(Op("+", Id("x"), Num(3))) == Ok(["(i32.add (local.get $x) (i32.const 3))"])
  {
    assert IntToString(3) == "3";
    assert "(i32.const " + "3" + ")" == "(i32.const 3)";
    assert CodeGenExpr(Num(3)) == Ok(["(i32.const 3)"]);
    assert "(local.get $" + "x" + ")" == "(local.get $x)";
    assert CodeGenExpr(Id("x")) == Ok(["(local.get $x)"]);
    assert "(i32.add " + "(local.get $x)" + " " + "(i32.const 3)" + ")" ==
      "(i32.add (local.get $x) (i32.const 3))";
  }

  lemma AddThreeStatement()
    ensures CodeGen(ExprStmt(Op("+", Id("x"), Num(3)))) ==
      Ok(["(i32.add (local.get $x) (i32.const 3))", "(local.set $$last)"])
  {
    var e := Op("+", Id("x"), Num(3));
    AddThree();
    assert CodeGen(ExprStmt(e)) == Ok(CodeGenExpr(e).value + [ScratchStore]);
    assert ["(i32.add (local.get $x) (i32.const 3))"] + ["(local.set $$last)"] ==
      ["(i32.add (local.get $x) (i32.const 3))", "(local.set $$last)"];
  }

  lemma DefineThenExprNames(name: string, v: Expr, e: Expr)
    ensures DefinedNames([Define(name, v), ExprStmt(e)]) == [name]
  {
    var s1, s2 := Define(name, v), ExprStmt(e);
    assert [s1, s2][..1] == [s1];
    assert [s1][..0] == [];
    assert DefinedNames([s1]) == [name];
  }

  lemma DeclareX()
    ensures LocalDecls(DefinedNames([Define("x", Num(5)), ExprStmt(Op("+", Id("x"), Num(3)))])) ==
      ["(local $$last i32)", "(local $x i32)"]
  {
    DefineThenExprNames("x", Num(5), Op("+", Id("x"), Num(3)));
    OneDecl("x");
    assert "(local $" + "x" + " i32)" == "(local $x i32)";
  }

  /** `x = 5`, then the expression `x + 3`. */
  lemma DefineThenAdd()
    ensures Commands([Define("x", Num(5)), ExprStmt(Op("+", Id("x"), Num(3)))]) ==
      Ok(["(local $$last i32)", "(local $x i32)",
          "(i32.const 5)", "(local.set $x)",
          "(i32.add (local.get $x) (i32.const 3))", "(local.set $$last)"])
  {
    var s1, s2 := Define("x", Num(5)), ExprStmt(Op("+", Id("x"), Num(3)));
    ConstFive();
    AddThreeStatement();
    DeclareX();
    TwoStatements(s1, s2);
    assert ["(local $$last i32)", "(local $x i32)"] + ["(i32.const 5)", "(local.set $x)"]
      + ["(i32.add (local.get $x) (i32.const 3))", "(local.set $$last)"] ==
      ["(local $$last i32)", "(local $x i32)",
       "(i32.const 5)", "(local.set $x)",
       "(i32.add (local.get $x) (i32.const 3))", "(local.set $$last)"];
  }

  lemma ConstMinusFour()
    ensures CodeGenExpr(Num(-4)) == Ok(["(i32.const -4)"])
  {
    assert NatToString(4) == "4";
    assert IntToString(-4) == "-4";
    assert "(i32.const " + "-4" + ")" == "(i32.const -4)";
  }

  /** `abs(-4)`: the literal, then the call on a line of its own. */
  lemma AbsOfNegative()
    ensures CodeGenExpr(Builtin1("abs", Num(-4))) == Ok(["(i32.const -4)", "(call $abs)"])
  {
    ConstMinusFour();
    assert "(call $" + "abs" + ")" == "(call $abs)";
    assert CodeGenExpr(Builtin1("abs", Num(-4))) ==
      Ok(CodeGenExpr(Num(-4)).value + ["(call $" + "abs" + ")"]);
    assert ["(i32.const -4)"] + ["(call $abs)"] == ["(i32.const -4)", "(call $abs)"];
  }

  lemma JoinAbs()
    ensures Join(["(i32.const -4)", "(call $abs)"], ",") == "(i32.const -4),(call $abs)"
  {
    assert ["(i32.const -4)", "(call $abs)"][1..] == ["(call $abs)"];
    assert "(i32.const -4)" + "," + "(call $abs)" == "(i32.const -4),(call $abs)";
  }

  lemma ConstOne()
    ensures CodeGenExpr(Num(1)) == Ok(["(i32.const 1)"])
  {
    assert IntToString(1) == "1";
    assert "(i32.const " + "1" + ")" == "(i32.const 1)";
  }

  /** An addition whose operands have the given code. */
  lemma AddOf(arg1: Expr, arg2: Expr, lines1: seq<string>, lines2: seq<string>)
    requires CodeGenExpr(arg1) == Ok(lines1) && CodeGenExpr(arg2) == Ok(lines2)
    ensures CodeGenExpr(Op("+", arg1, arg2)) ==
      Ok(["(i32.add " + Join(lines1, ",") + " " + Join(lines2, ",") + ")"])
  {
  }

  lemma MultiLineText()
    ensures "(i32.add " + Join(["(i32.const -4)", "(call $abs)"], ",") + " " + Join(["(i32.const 1)"], ",") + ")"
      == "(i32.add (i32.const -4),(call $abs) (i32.const 1))"
  {
    JoinAbs();
    assert Join(["(i32.const 1)"], ",") == "(i32.const 1)";
    assert "(i32.add " + "(i32.const -4),(call $abs)" + " " + "(i32.const 1)" + ")" ==
      "(i32.add (i32.const -4),(call $abs) (i32.const 1))";
  }

  /** `abs(-4) + 1`: an operand spanning two lines is embedded with a comma
      between them. */
  lemma MultiLineOperand()
    ensures CodeGenExpr(Op("+", Builtin1("abs", Num(-4)), Num(1))) ==
      Ok(["(i32.add (i32.const -4),(call $abs) (i32.const 1))"])
  {
    AbsOfNegative();
    ConstOne();
    AddOf(Builtin1("abs", Num(-4)), Num(1), ["(i32.const -4)", "(call $abs)"], ["(i32.const 1)"]);
    MultiLineText();
  }

  /** `max(a, b)`: `a` is read before `b`, and no space follows the name. */
  lemma MaxOfTwo()
    ensures CodeGenExpr(Builtin2("max", Id("a"), Id("b"))) ==
      Ok(["(call $max(local.get $a) (local.get $b))"])
  {
    assert "(local.get $" + "a" + ")" == "(local.get $a)";
    assert "(local.get $" + "b" + ")" == "(local.get $b)";
    assert "(call $" + "max" + "(local.get $a)" + " " + "(local.get $b)" + ")" ==
      "(call $max(local.get $a) (local.get $b))";
  }

  /** A division nested inside a `define`'s value, with any statements
      before and after it, rejects the whole program, declarations included. */
  lemma DivisionRejected(before: seq<Stmt>, name: string, f: string, l: Expr, r: Expr, after: seq<Stmt>)
    ensures Commands(before + [Define(name, Builtin1(f, Op("/", l, r)))] + after) == Err(InvalidBinaryOperator)
  {
    RejectedAnywhere(before, Define(name, Builtin1(f, Op("/", l, r))), after);
  }
}
