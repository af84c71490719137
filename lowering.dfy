/** Lowering of statements and expressions to WebAssembly text-format
    instruction lines (`codeGen` and `codeGenExpr`). */
module Lowering {
  import opened Results
  import opened Text
  import opened Nesting
  import opened Ast

  /** The message of the only error the generator raises. */
  const InvalidBinaryOperator := "Invalid BinaryOperator"

  /** `join()` without an argument separates the elements by a comma. */
  const JoinSeparator := ","

  /** Store into the scratch local that receives the value of an `expr`
      statement. */
  const ScratchStore := "(local.set $$last)"

  /** The operators that have an `i32` instruction. */
  predicate IsArithmetic(op: string) {
    op == "+" || op == "-" || op == "*"
  }

  /** No operator anywhere in the tree lies outside `+`, `-` and `*`. */
  predicate Supported(e: Expr) {
    match e
    case Num(_) => true
    case Id(_) => true
    case Op(op, arg1, arg2) => IsArithmetic(op) && Supported(arg1) && Supported(arg2)
    case Builtin1(_, arg) => Supported(arg)
    case Builtin2(_, arg1, arg2) => Supported(arg1) && Supported(arg2)
  }

  /** The expression a statement evaluates. */
  function Operand(s: Stmt): Expr {
    match s
    case Define(_, value) => value
    case ExprStmt(expr) => expr
  }

  /** The instruction that stores a statement's value: into the defined
      local, or into the scratch local. */
  function StoreLine(s: Stmt): string {
    match s
    case Define(name, _) => "(local.set $" + name + ")"
    case ExprStmt(_) => ScratchStore
  }

  /** `codeGenExpr`: the instruction lines that evaluate `e`. Operands are
      embedded in their parent's single line, each joined by commas. */
  function CodeGenExpr(e: Expr): (r: Result<seq<string>>)
    ensures r.Ok? <==> Supported(e)
    ensures r.Err? ==> r.message == InvalidBinaryOperator
    ensures r.Ok? ==> |r.value| >= 1
  {
    match e
    case Op(op, arg1, arg2) =>
      var lines1 :- CodeGenExpr(arg1);
      var lines2 :- CodeGenExpr(arg2);
      var argExpr1 := Join(lines1, JoinSeparator);
      var argExpr2 := Join(lines2, JoinSeparator);
      if op == "+" then Ok(["(i32.add " + argExpr1 + " " + argExpr2 + ")"])
      else if op == "-" then Ok(["(i32.sub " + argExpr1 + " " + argExpr2 + ")"])
      else if op == "*" then Ok(["(i32.mul " + argExpr1 + " " + argExpr2 + ")"])
      else Err(InvalidBinaryOperator)
    case Builtin1(name, arg) =>
      var argStmts :- CodeGenExpr(arg);
      Ok(argStmts + ["(call $" + name + ")"])
    case Builtin2(name, arg1, arg2) =>
      var lines1 :- CodeGenExpr(arg1);
      var lines2 :- CodeGenExpr(arg2);
      Ok(["(call $" + name + Join(lines1, JoinSeparator) + " " + Join(lines2, JoinSeparator) + ")"])
    case Num(value) =>
      Ok(["(i32.const " + IntToString(value) + ")"])
    case Id(name) =>
      Ok(["(local.get $" + name + ")"])
  }

  /** `codeGen`: the value's lines followed by the store of the value. */
  function CodeGen(s: Stmt): (r: Result<seq<string>>)
    ensures r.Ok? <==> Supported(Operand(s))
    ensures r.Err? ==> r.message == InvalidBinaryOperator
    ensures r.Ok? ==> |r.value| >= 2 && r.value[|r.value| - 1] == StoreLine(s)
  {
    match s
    case Define(name, value) =>
      var valStmts :- CodeGenExpr(value);
      Ok(valStmts + ["(local.set $" + name + ")"])
    case ExprStmt(expr) =>
      var exprStmts :- CodeGenExpr(expr);
      Ok(exprStmts + [ScratchStore])
  }

  // ---------------------------------------------------------------------
  // Kinds of lines
  // ---------------------------------------------------------------------

  predicate StartsWith(s: string, p: string) {
    |p| <= |s| && s[..|p|] == p
  }

  /** A store into a local. */
  predicate IsStore(line: string) {
    StartsWith(line, "(local.set ")
  }

  /** A local declaration. */
  predicate IsDecl(line: string) {
    StartsWith(line, "(local ")
  }

  lemma DiffersAt(s: string, p: string, i: nat)
    requires i < |s| && i < |p| && s[i] != p[i]
    ensures !StartsWith(s, p)
  {
    if |p| <= |s| {
      assert s[..|p|][i] == s[i];
    }
  }

  /** A line `(` followed by anything but `l` neither stores nor declares. */
  lemma NotLocalLine(line: string)
    requires |line| >= 2 && line[1] != 'l'
    ensures !IsStore(line) && !IsDecl(line)
  {
    DiffersAt(line, "(local.set ", 1);
    DiffersAt(line, "(local ", 1);
  }

  lemma ReadIsValue(name: string)
    ensures !IsStore("(local.get $" + name + ")") && !IsDecl("(local.get $" + name + ")")
  {
    var line := "(local.get $" + name + ")";
    DiffersAt(line, "(local.set ", 7);
    DiffersAt(line, "(local ", 6);
  }

  lemma BinaryIsValue(e: Expr)
    requires e.Op? || e.Builtin2?
    requires Supported(e)
    ensures forall k :: 0 <= k < |CodeGenExpr(e).value| ==>
      !IsStore(CodeGenExpr(e).value[k]) && !IsDecl(CodeGenExpr(e).value[k])
  {
    BinaryLayout(e);
    var line := "(" + Head(e) + Join(CodeGenExpr(e.arg1).value, ",") + " "
                + Join(CodeGenExpr(e.arg2).value, ",") + ")";
    assert line[1] == Head(e)[0];
    NotLocalLine(line);
  }

  /** Expression code neither stores nor declares: every line of it is an
      `i32` instruction, a call or a read of a local. */
  lemma {:induction false} ExprLinesAreValues(e: Expr)
    requires Supported(e)
    ensures forall k :: 0 <= k < |CodeGenExpr(e).value| ==>
      !IsStore(CodeGenExpr(e).value[k]) && !IsDecl(CodeGenExpr(e).value[k])
  {
    match e
    case Num(value) =>
      NotLocalLine("(i32.const " + IntToString(value) + ")");
    case Id(name) =>
      ReadIsValue(name);
    case Builtin1(name, arg) =>
      ExprLinesAreValues(arg);
      NotLocalLine("(call $" + name + ")");
    case Op(_, _, _) =>
      BinaryIsValue(e);
    case Builtin2(_, _, _) =>
      BinaryIsValue(e);
  }

  /** A statement lowers to its value's lines unchanged, then exactly one
      store: the store line is last and no other line is a store. */
  lemma StmtShape(s: Stmt)
    requires Supported(Operand(s))
    ensures CodeGen(s).value == CodeGenExpr(Operand(s)).value + [StoreLine(s)]
    ensures IsStore(StoreLine(s))
    ensures forall k :: 0 <= k < |CodeGen(s).value| - 1 ==> !IsStore(CodeGen(s).value[k])
  {
    ExprLinesAreValues(Operand(s));
  }

  /** The number of `builtin1` calls wrapped around the root of `e`. */
  function CallChain(e: Expr): nat {
    match e
    case Builtin1(_, arg) => 1 + CallChain(arg)
    case _ => 0
  }

  /** The innermost expression under the `builtin1` calls at the root. */
  function Core(e: Expr): Expr {
    match e
    case Builtin1(_, arg) => Core(arg)
    case _ => e
  }

  /** The name of the `k`-th `builtin1` call around the root, counted from
      the innermost one. */
  function CallName(e: Expr, k: nat): string
    requires k < CallChain(e)
  {
    match e
    case Builtin1(name, arg) => if k == CallChain(arg) then name else CallName(arg, k)
  }

  /** Only `builtin1` spreads over several lines: an expression gives one line
      for its innermost non-`builtin1` node, then one call line for each
      enclosing `builtin1`, innermost first. */
  lemma {:induction false} ExprLineCount(e: Expr)
    requires Supported(e)
    ensures Supported(Core(e)) && !Core(e).Builtin1?
    ensures |CodeGenExpr(e).value| == 1 + CallChain(e)
    ensures CodeGenExpr(e).value[0] == CodeGenExpr(Core(e)).value[0]
    ensures |CodeGenExpr(Core(e)).value| == 1
    ensures forall k :: 0 <= k < CallChain(e) ==>
      CodeGenExpr(e).value[k + 1] == "(call $" + CallName(e, k) + ")"
  {
    match e
    case Builtin1(name, arg) =>
      ExprLineCount(arg);
    case _ =>
  }

  /** The `i32` instruction of a supported operator. */
  function Mnemonic(op: string): string
    requires IsArithmetic(op)
  {
    if op == "+" then "i32.add" else if op == "-" then "i32.sub" else "i32.mul"
  }

  /** What an `op` or `builtin2` line opens with after its parenthesis: the
      instruction and a space, or `call $` and the callee's name with no
      space before the first operand. */
  function Head(e: Expr): string
    requires e.Op? || e.Builtin2?
    requires e.Op? ==> IsArithmetic(e.name)
  {
    if e.Op? then Mnemonic(e.name) + " " else "call $" + e.name
  }

  /** `op` and `builtin2` give one line, wrapping the left operand's joined
      text and then, after one space, the right operand's. */
  lemma BinaryLayout(e: Expr)
    requires e.Op? || e.Builtin2?
    requires Supported(e)
    ensures CodeGenExpr(e) == Ok(["(" + Head(e) + Join(CodeGenExpr(e.arg1).value, ",") + " "
                                   + Join(CodeGenExpr(e.arg2).value, ",") + ")"])
  {
    if e.Op? {
      assert "(" + Head(e) ==
        if e.name == "+" then "(i32.add " else if e.name == "-" then "(i32.sub " else "(i32.mul ";
    } else {
      assert "(" + Head(e) == "(call $" + e.name;
    }
  }

  /** An operator other than `+`, `-`, `*` fails the expression whatever its
      operands, and fails a statement whose value is that expression, whether
      an `expr` statement or a `define`. */
  lemma UnsupportedOperator(name: string, arg1: Expr, arg2: Expr, x: string)
    requires !IsArithmetic(name)
    ensures CodeGenExpr(Op(name, arg1, arg2)) == Err(InvalidBinaryOperator)
    ensures CodeGen(ExprStmt(Op(name, arg1, arg2))) == Err(InvalidBinaryOperator)
    ensures CodeGen(Define(x, Op(name, arg1, arg2))) == Err(InvalidBinaryOperator)
  {
  }

  /** A literal's line carries text that reads back as the literal's value. */
  lemma LiteralText(v: int)
    ensures |CodeGenExpr(Num(v)).value| == 1
    ensures var line := CodeGenExpr(Num(v)).value[0];
            StartsWith(line, "(i32.const ") && line[|line| - 1] == ')' &&
            ParseInt(line[11..|line| - 1]) == Some(v)
  {
    var line := CodeGenExpr(Num(v)).value[0];
    assert line[11..|line| - 1] == IntToString(v);
    IntToStringRoundTrip(v);
  }

  // ---------------------------------------------------------------------
  // Every line is one parenthesised instruction
  // ---------------------------------------------------------------------

  /** Names that contain neither parentheses nor line breaks. The generator
      does not check names; the parser supplies identifiers. */
  predicate SafeName(n: string) {
    NoParens(n) && '\n' !in n
  }

  predicate ExprNamesSafe(e: Expr) {
    match e
    case Num(_) => true
    case Id(name) => SafeName(name)
    case Op(_, arg1, arg2) => ExprNamesSafe(arg1) && ExprNamesSafe(arg2)
    case Builtin1(name, arg) => SafeName(name) && ExprNamesSafe(arg)
    case Builtin2(name, arg1, arg2) => SafeName(name) && ExprNamesSafe(arg1) && ExprNamesSafe(arg2)
  }

  predicate StmtNamesSafe(s: Stmt) {
    match s
    case Define(name, value) => SafeName(name) && ExprNamesSafe(value)
    case ExprStmt(expr) => ExprNamesSafe(expr)
  }

  /** One self-contained parenthesised instruction on one line. */
  predicate WellFormedLine(line: string) {
    Group(line) && '\n' !in line
  }

  /** `open`, the left operand, one space, the right operand, `)`. */
  lemma FoldedLine(open: string, left: string, right: string)
    requires Opening(open) && '\n' !in open
    requires Balanced(left) && '\n' !in left
    requires Balanced(right) && '\n' !in right
    ensures WellFormedLine(open + left + " " + right + ")")
  {
    OpeningOpen(open);
    OpenExtend(open, left);
    NoParensBalanced(" ");
    OpenExtend(open + left, " ");
    OpenExtend(open + left + " ", right);
    CloseGroup(open + left + " " + right);
  }

  /** `open`, a name without parentheses, `)`. */
  lemma PlainLine(open: string, name: string)
    requires Opening(open) && '\n' !in open
    requires NoParens(name) && '\n' !in name
    ensures WellFormedLine(open + name + ")")
  {
    OpeningConcat(open, name);
    ClosePlain(open + name);
  }

  /** Joined operand text is balanced and stays on one line. */
  lemma OperandText(lines: seq<string>)
    requires forall k :: 0 <= k < |lines| ==> WellFormedLine(lines[k])
    ensures Balanced(Join(lines, JoinSeparator)) && '\n' !in Join(lines, JoinSeparator)
  {
    forall k | 0 <= k < |lines| ensures Balanced(lines[k]) {
      GroupBalanced(lines[k]);
    }
    JoinBalanced(lines, JoinSeparator);
    JoinAvoids(lines, JoinSeparator, '\n');
  }

  lemma HeadOpening(e: Expr)
    requires e.Op? || e.Builtin2?
    requires Supported(e) && ExprNamesSafe(e)
    ensures Opening("(" + Head(e)) && '\n' !in "(" + Head(e)
  {
  }

  /** A line folding two operands' code is well formed when their lines are. */
  lemma BinaryText(open: string, lines1: seq<string>, lines2: seq<string>)
    requires Opening(open) && '\n' !in open
    requires forall k :: 0 <= k < |lines1| ==> WellFormedLine(lines1[k])
    requires forall k :: 0 <= k < |lines2| ==> WellFormedLine(lines2[k])
    ensures WellFormedLine(open + Join(lines1, ",") + " " + Join(lines2, ",") + ")")
  {
    OperandText(lines1);
    OperandText(lines2);
    FoldedLine(open, Join(lines1, ","), Join(lines2, ","));
  }

  lemma BinaryLinesWellFormed(e: Expr)
    requires e.Op? || e.Builtin2?
    requires Supported(e) && ExprNamesSafe(e)
    requires forall k :: 0 <= k < |CodeGenExpr(e.arg1).value| ==> WellFormedLine(CodeGenExpr(e.arg1).value[k])
    requires forall k :: 0 <= k < |CodeGenExpr(e.arg2).value| ==> WellFormedLine(CodeGenExpr(e.arg2).value[k])
    ensures forall k :: 0 <= k < |CodeGenExpr(e).value| ==> WellFormedLine(CodeGenExpr(e).value[k])
  {
    HeadOpening(e);
    BinaryText("(" + Head(e), CodeGenExpr(e.arg1).value, CodeGenExpr(e.arg2).value);
    BinaryLayout(e);
  }

  lemma NumLine(value: int)
    ensures WellFormedLine("(i32.const " + IntToString(value) + ")")
  {
    PlainLine("(i32.const ", IntToString(value));
  }

  /** With identifier-like names, every line of an expression's code is one
      parenthesised instruction, operands nested inside it. */
  lemma {:induction false} ExprLinesWellFormed(e: Expr)
    requires Supported(e) && ExprNamesSafe(e)
    ensures forall k :: 0 <= k < |CodeGenExpr(e).value| ==> WellFormedLine(CodeGenExpr(e).value[k])
  {
    match e
    case Num(value) =>
      NumLine(value);
    case Id(name) =>
      PlainLine("(local.get $", name);
    case Op(_, arg1, arg2) =>
      ExprLinesWellFormed(arg1);
      ExprLinesWellFormed(arg2);
      BinaryLinesWellFormed(e);
    case Builtin1(name, arg) =>
      ExprLinesWellFormed(arg);
      PlainLine("(call $", name);
    case Builtin2(_, arg1, arg2) =>
      ExprLinesWellFormed(arg1);
      ExprLinesWellFormed(arg2);
      BinaryLinesWellFormed(e);
  }

  lemma StoreLineWellFormed(s: Stmt)
    requires StmtNamesSafe(s)
    ensures WellFormedLine(StoreLine(s))
  {
    match s
    case Define(name, _) =>
      PlainLine("(local.set $", name);
    case ExprStmt(_) =>
      PlainLine("(local.set $", "$last");
      assert ScratchStore == "(local.set $" + "$last" + ")";
  }

  /** The same holds for a statement's code, its store included. */
  lemma StmtLinesWellFormed(s: Stmt)
    requires Supported(Operand(s)) && StmtNamesSafe(s)
    ensures forall k :: 0 <= k < |CodeGen(s).value| ==> WellFormedLine(CodeGen(s).value[k])
  {
    ExprLinesWellFormed(Operand(s));
    StoreLineWellFormed(s);
  }
}
