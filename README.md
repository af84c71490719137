# A verified model of the WebAssembly text generator in `compiler.ts`

The generator takes a parsed program: a list of `define name = expr` and
bare-`expr` statements over integer literals, identifiers, binary operators
(`op`) and one- and two-argument built-in calls (`builtin1`, `builtin2`). It
produces WebAssembly text-format instruction lines:

* `(local $$last i32)`, the scratch local that bare expressions store into;
* `(local $name i32)` for each distinct defined name, in order of first
  definition (the JavaScript `Set` iterates in insertion order);
* then each statement's code in source order: the value's instructions,
  then `(local.set $name)` or `(local.set $$last)`.

Operands are folded into their parent's line. Each operand's lines are joined
with `Array.prototype.join()`, whose default separator is a comma. A
`builtin1` operand, which spans several lines, therefore appears as
`(i32.const -4),(call $abs)`. `builtin2` puts no space between the callee's
name and its first operand. Any operator other than `+`, `-` and `*` throws
`Invalid BinaryOperator`. The thrown error is modelled as `Err`, and no output
is then produced.

Modules:

* `Results`: `Result` (`Ok`/`Err` with a message, usable with `:-`) and
  `Option`.
* `Text`: `Join` (JavaScript `join`), `Split`, and the decimal rendering of
  integers (`IntToString`) with a parser to read it back.
* `Nesting`: parenthesis depth. It defines when a string is balanced and when
  it is exactly one parenthesised group.
* `Ast`: the `Stmt` and `Expr` datatypes.
* `Lowering`: `codeGenExpr` and `codeGen` as functions, with their lemmas.
* `Compiler`: `compile` as an imperative method, with the specification
  functions it is proved against and the lemmas about the whole output.
* `Scenarios`: the output on particular programs.

`compile` is split into two methods:

* `CompileCommands` runs the three loops of `compile`:
  * the `forEach` that fills `definedVars`. The Set is a sequence in
    insertion order plus a `set` for membership.
  * the loop that pushes into `localDefines`.
  * the statement loop.
* `Compile` adds the final `join("\n")`.

`CompileCommands` is proved equal to the function `Commands`, and the
properties are lemmas about `Commands`.

Two details of the code shape the output:

* A `builtin1` expression lowers to its argument's lines followed by a
  separate call line, so an expression can span several lines
  (`ExprLineCount`).
* Operands are joined with `join()`'s default comma and no space
  (`BinaryLayout`, `MultiLineOperand`).

## Model

| member | source | states |
|---|---|---|
| Lowering.CodeGenExpr | compiler.ts:47-73 | lowering succeeds exactly when every operator in the tree is `+`, `-` or `*`; the only error is `Invalid BinaryOperator`; success gives at least one line |
| Lowering.CodeGen | compiler.ts:36-45 | a statement lowers exactly when its expression does, and otherwise fails with the same message; success gives at least two lines, the last being the store into the defined name or into `$$last` |
| Lowering.StmtShape | compiler.ts:39-43 | a statement's code is its value's code unchanged plus one store line (into the defined name, or into `$$last`); the store is last and no other line of it is a store |
| Lowering.ExprLinesAreValues | compiler.ts:47-73 | no line of expression code stores into or declares a local |
| Lowering.ExprLineCount | compiler.ts:62-64 | an expression gives exactly one line per enclosing `builtin1` plus one: the line of its innermost non-`builtin1` node, then the call lines, innermost first |
| Lowering.BinaryLayout | compiler.ts:50-58 | `op` and `builtin2` give exactly one line: `(` + the instruction (`i32.add `, `i32.sub `, `i32.mul `) or `call $name` with no space, then the comma-joined left operand, one space, the comma-joined right operand, `)` |
| Lowering.UnsupportedOperator | compiler.ts:59-60 | any other operator name fails the expression with `Invalid BinaryOperator`, whatever the operands are, and so does an `expr` or `define` statement whose value is that expression |
| Lowering.LiteralText | compiler.ts:69-70 | a literal gives one line `(i32.const …)` whose text reads back as the literal's value, negative values included |
| Lowering.ExprLinesWellFormed | compiler.ts:47-73 | when names contain no parentheses or line breaks, every line of expression code is one parenthesised group, with the operands nested inside it, on one line |
| Lowering.StmtLinesWellFormed | compiler.ts:36-45 | the same holds for a statement's code, its store included |
| Compiler.DefinedNames | compiler.ts:14-21 | the Set's contents in iteration order hold no duplicates |
| Compiler.LocalDecls | compiler.ts:22-26 | the scratch declaration comes first, then one `(local $name i32)` per name, in the names' order |
| Compiler.Lower | compiler.ts:28-29 | the statements' code succeeds exactly when every statement's operators are supported, and the error is `Invalid BinaryOperator` |
| Compiler.Commands | compiler.ts:22-29 | the output lines succeed exactly when all operators are supported, the error is `Invalid BinaryOperator`, and on success the first line is the scratch declaration, followed by at least one line per collected name |
| Compiler.CompileCommands | compiler.ts:14-29 | the three loops compute `Commands`, the declarations followed by the statements' code, or the error; success exactly when all operators are supported |
| Compiler.Compile | compiler.ts:12-33 | the result is the output lines joined by line breaks, or `Invalid BinaryOperator` when some operator is unsupported |
| Compiler.DefinedNamesMembers | compiler.ts:14-21 | a name is collected exactly when some `define` binds it; `expr` statements add nothing |
| Compiler.FirstDefine | compiler.ts:14-21 | the index of the first `define` of a name: it is one, and no earlier statement defines the name |
| Compiler.DefinedNamesFirstDefine | compiler.ts:14-21 | a name is collected exactly when it has a first definition |
| Compiler.DefinedNamesFirstSeen | compiler.ts:14-26 | the names, and hence the declarations, come in the order of their first definitions |
| Compiler.DefinedNamesCount | compiler.ts:14-26 | there are exactly as many collected names as distinct defined names: repeated definitions collapse |
| Compiler.LowerAppend | compiler.ts:28-29 | the code of two programs in sequence is the first's code followed by the second's: nothing dropped or reordered |
| Compiler.LowerSingle | compiler.ts:28-29 | a one-statement program's code is that statement's `codeGen` |
| Compiler.BodyStoreCount | compiler.ts:28-29 | the statements' code holds exactly one store per statement |
| Compiler.BodyHasNoDecls | compiler.ts:28-29 | no line of the statements' code is a declaration |
| Compiler.CommandsLayout | compiler.ts:22-29 | the output is the scratch declaration, then each collected name's declaration in order, then the statements' code unchanged; lines in the first part are declarations and no later line is one |
| Compiler.CommandsFailure | compiler.ts:28-29 | the program compiles exactly when all operators are supported; otherwise there is no partial output, only the error |
| Compiler.ScratchCollision | compiler.ts:22-25 | a defined name's declaration, or its store, equals the scratch local's exactly when the name is `$last` |
| Compiler.CommandsWellFormed | compiler.ts:14-29 | when names contain no parentheses or line breaks, every output line is one parenthesised instruction |
| Compiler.WasmSourceLines | compiler.ts:32 | for such names, cutting `wasmSource` at its line breaks gives back exactly the output lines |
| Compiler.TwoStatements | compiler.ts:28-29 | a two-statement program gives the declarations, then the first statement's code, then the second's |
| Compiler.Redefinition | compiler.ts:14-29 | defining a name twice declares it once and stores into it twice, the two values' code in source order |
| Text.IntToString | compiler.ts:70 | a literal's text starts with `-` exactly for negative values, and then has at least one digit; its first character is `-` or a digit and every later character is a decimal digit, so a `-` can only lead |
| Text.Join | compiler.ts:50-51 | `join`, as used for operands here and at lines 66-67 and for the output at line 32: the empty list gives the empty string; otherwise the length is the parts' lengths plus one separator between each neighbouring pair, and the text starts with the first part |
| Text.IntToStringRoundTrip | compiler.ts:70 | the decimal text of an integer reads back as that integer, with a leading `-` exactly for negatives |
| Text.SplitJoin | compiler.ts:32 | joining lines without the separator character and splitting at that character gives the lines back |
| Scenarios.DefineThenAdd | compiler.ts:14-29 | `x = 5` then `x + 3` gives the six lines: both declarations, the literal, the store into `$x`, the folded addition, the store into `$$last` |
| Scenarios.AbsOfNegative | compiler.ts:62-64 | `abs(-4)` gives the literal `(i32.const -4)` and then `(call $abs)` on a line of its own |
| Scenarios.MultiLineOperand | compiler.ts:50-54 | `abs(-4) + 1` embeds the two-line operand joined by a comma: `(i32.add (i32.const -4),(call $abs) (i32.const 1))` |
| Scenarios.MaxOfTwo | compiler.ts:66-68 | `max(a, b)` gives `(call $max(local.get $a) (local.get $b))`, with no space after the name |
| Compiler.RejectedAnywhere | compiler.ts:28-29 | one statement with an unsupported operator, at any position in the program, makes the whole result `Invalid BinaryOperator` with no lines |
| Scenarios.DivisionRejected | compiler.ts:59-60 | a division nested in a `define`'s value, with any statements before and after it, rejects the whole program, declarations included |

## Left out

- `parse` and the `./ast` and `./parser` modules (compiler.ts:1-2, 13) are not part of this model. `Compile` takes the statement list itself, and `Stmt`/`Expr` are modelled from the tags and fields that `codeGen` and `codeGenExpr` read.
- `console.log` (compiler.ts:30) is output only and is left out.
- The unused `LocalEnv` type (compiler.ts:6) is left out.
- Literal values are mathematical integers. JavaScript's rendering of fractional numbers, `NaN`, infinities, magnitudes from 1e21 up (exponent notation) and integer magnitudes above 2^53 is left out. Above 2^53 JavaScript prints the shortest digits that read back as the same double, padded with zeros (`String(2**60)` is `"1152921504606847000"`). `Text.IntToString` prints the exact digits.
- Lowering.CodeGenExpr, Lowering.CodeGen, Compiler.Lower, Compiler.CompileCommands, Compiler.Compile, Compiler.Commands: the JavaScript engine's own limits are left out. The model returns `Ok` in both of these cases:
  - `[].concat.apply([], commandGroups)` (compiler.ts:29) throws a `RangeError` once the number of statements exceeds the engine's argument limit.
  - The recursion of `codeGenExpr` (compiler.ts:47-73) overflows the call stack on very deep trees.

  "Succeeds exactly when all operators are supported" holds only below both limits.
- Whether the text is valid, executable WebAssembly is the assembler's concern and is left out. So is what the scratch store means at run time.
- Lowering.ExprLinesWellFormed, Lowering.StmtLinesWellFormed, Compiler.CommandsWellFormed, Compiler.WasmSourceLines: these assume that names contain no parentheses or line breaks. The generator does not check its names, and for arbitrary names these shapes do not hold.
- Compiler.CompileCommands: it fuses the `ast.map` over the statements with the flattening `[].concat.apply`. It stops at the first failing statement, as the thrown exception does. The per-statement groups are not kept as a separate array.
