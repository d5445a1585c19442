/**
 * The code generator as it runs: an emitter object that collects output lines and
 * numbers labels, and the generator's module-level counters as fields of one object
 * whose methods walk the syntax tree, each proved to do what module CgenSpec says.
 */
module Cgen {
  import opened Wrappers
  import opened Text
  import opened Ast
  import CgenSpec

  /** `CodeEmitter`: the output file, as its list of lines, and the label counter. */
  class CodeEmitter {
    var lines: seq<string>
    var labelCount: nat

    constructor ()
      ensures lines == [] && labelCount == 0
    {
      lines := [];
      labelCount := 0;
    }

    /** `emit`: writes one line. */
    method Emit(code: string)
      modifies this
      ensures lines == old(lines) + [code] && labelCount == old(labelCount)
    {
      lines := lines + [code];
    }

    /** `emit_comment`: writes the comment after "# ". */
    method EmitComment(comment: string)
      modifies this
      ensures lines == old(lines) + [CgenSpec.CommentLine(comment)] && labelCount == old(labelCount)
    {
      Emit("# " + comment);
    }

    /** `new_label`: the prefix followed by the counter, which then moves on by one. */
    method NewLabel(prefix: string := "L") returns (lbl: string)
      modifies this
      ensures lbl == prefix + NatToString(old(labelCount))
      ensures labelCount == old(labelCount) + 1 && lines == old(lines)
    {
      lbl := prefix + NatToString(labelCount);
      labelCount := labelCount + 1;
    }
  }

  /** The generator's globals `symbol_table`, `offset_counter` and `register_counter`. */
  class Generator {
    var symbolTable: map<Option<string>, int>
    var offsetCounter: int
    var registerCounter: nat

    /** The values the globals have when the module is loaded. */
    constructor ()
      ensures symbolTable == map[] && offsetCounter == 0 && registerCounter == 0
    {
      symbolTable := map[];
      offsetCounter := 0;
      registerCounter := 0;
    }

    /** The generator's state together with the emitter's output. */
    function State(e: CodeEmitter): CgenSpec.GenState
      reads this, e
    {
      CgenSpec.GenState(e.lines, symbolTable, offsetCounter, registerCounter)
    }

    /**
     * `codeGen`: a new emitter, the header, then the code of the tree.  `ok` is false
     * when generation stopped at an exception; the lines written until then remain.
     */
    method CodeGenerate(tree: Node) returns (e: CodeEmitter, ok: bool)
      requires CgenSpec.Generable(tree)
      modifies this
      ensures fresh(e) && e.labelCount == 0
      ensures CgenSpec.CodeGen(tree, CgenSpec.GenState([], old(symbolTable), old(offsetCounter), old(registerCounter)))
        == CgenSpec.Gen(State(e), ok)
    {
      e := new CodeEmitter();
      e.Emit(".data");
      e.Emit("newline: .asciiz \"\\n\"");
      e.Emit(".text");
      e.Emit(".globl main");
      assert e.lines == CgenSpec.Header;
      ok := GenerateCode(tree, e);
    }

    /** `generate_code`: dispatch on the node's kind. */
    method GenerateCode(node: Node, e: CodeEmitter) returns (ok: bool)
      requires CgenSpec.Generable(node)
      modifies this, e
      ensures CgenSpec.Code(node, old(State(e))) == CgenSpec.Gen(State(e), ok)
      ensures e.labelCount == old(e.labelCount)
      decreases node, 2
    {
      ok := true;
      if node.kind == Program {
        ok := GenerateAll(node.children, e);
      } else if node.kind == FunDecl {
        ok := GenFunction(node, e);
      } else if node.kind == CompoundStmt {
        ok := GenCompoundStmt(node, e);
      } else if node.kind == VarDecl {
        ok := GenVarDecl(node, e);
      } else if node.kind == ExpressionStmt {
        GenExpressionStmt(node, e);
      }
    }

    /** The `for child in ...: generate_code(child)` loops, which an exception leaves. */
    method GenerateAll(ns: seq<Node>, e: CodeEmitter) returns (ok: bool)
      requires CgenSpec.AllGenerable(ns)
      modifies this, e
      ensures CgenSpec.CodeList(ns, old(State(e))) == CgenSpec.Gen(State(e), ok)
      ensures e.labelCount == old(e.labelCount)
      decreases ns, 0
    {
      ghost var goal := CgenSpec.CodeList(ns, State(e));
      for i := 0 to |ns|
        invariant CgenSpec.CodeList(ns[i..], State(e)) == goal
        invariant e.labelCount == old(e.labelCount)
      {
        assert ns[i..][1..] == ns[i + 1..];
        ok := GenerateCode(ns[i], e);
        if !ok {
          return;
        }
      }
      ok := true;
    }

    /** `gen_function`: fresh table and offset, label, prologue, all children, epilogue. */
    method GenFunction(node: Node, e: CodeEmitter) returns (ok: bool)
      requires node.kind == FunDecl && CgenSpec.Generable(node)
      modifies this, e
      ensures CgenSpec.FunctionCode(node, old(State(e))) == CgenSpec.Gen(State(e), ok)
      ensures e.labelCount == old(e.labelCount)
      decreases node, 1
    {
      symbolTable := map[];
      offsetCounter := 0;
      var name := node.children[1].lexeme;
      e.Emit(CgenSpec.LabelLine(name));
      EmitProlog(e);
      ok := GenerateAll(node.children, e);
      if !ok {
        return;
      }
      EmitEpilog(e);
    }

    /** The fixed lines of `gen_function` before the body: save $ra and $fp, set $fp, reserve 8 bytes. */
    method EmitProlog(e: CodeEmitter)
      modifies e
      ensures e.lines == old(e.lines) + CgenSpec.Prolog && e.labelCount == old(e.labelCount)
    {
      e.EmitComment("Prolog");
      e.Emit("sw $ra, 0($sp)");
      e.Emit("sw $fp, -4($sp)");
      e.Emit("move $fp, $sp");
      e.Emit("addi $sp, $sp, -8");
    }

    /** The fixed lines of `gen_function` after the body: restore $sp, $fp and $ra, and return. */
    method EmitEpilog(e: CodeEmitter)
      modifies e
      ensures e.lines == old(e.lines) + CgenSpec.Epilog && e.labelCount == old(e.labelCount)
    {
      e.EmitComment("Epilog");
      e.Emit("move $sp, $fp");
      e.Emit("lw $fp, -4($sp)");
      e.Emit("lw $ra, 0($sp)");
      e.Emit("jr $ra");
    }

    /** `gen_compound_stmt`: opening comment, local declarations, statements, closing comment. */
    method GenCompoundStmt(node: Node, e: CodeEmitter) returns (ok: bool)
      requires node.kind == CompoundStmt && CgenSpec.Generable(node)
      modifies this, e
      ensures CgenSpec.CompoundCode(node, old(State(e))) == CgenSpec.Gen(State(e), ok)
      ensures e.labelCount == old(e.labelCount)
      decreases node, 1
    {
      e.EmitComment("Inicio de compound_stmt");
      var localDecls := node.children[0];
      var stmtList := node.children[1];
      ok := GenerateAll(localDecls.children, e);
      if !ok {
        return;
      }
      ok := GenerateAll(stmtList.children, e);
      if !ok {
        return;
      }
      e.EmitComment("Fin de compound_stmt");
    }

    /** `gen_var_decl`: reserve 4 * size bytes below the current offset for the name. */
    method GenVarDecl(node: Node, e: CodeEmitter) returns (ok: bool)
      requires node.kind == VarDecl && |node.children| >= 2
      modifies this, e
      ensures CgenSpec.VarDeclCode(node, old(State(e))) == CgenSpec.Gen(State(e), ok)
      ensures e.labelCount == old(e.labelCount)
    {
      var name := node.children[1].lexeme;
      var size := 1;
      if |node.children| == 3 && node.children[2].kind == Num {
        var v := IntOf(node.children[2].lexeme);
        if v.None? {
          return false;
        }
        size := v.value;
      }
      assert CgenSpec.DeclSize(node) == Some(size);
      Reserve(name, size, e);
      ok := true;
    }

    /** The rest of `gen_var_decl`: the comment, the new offset and its table entry, and the `addi` line. */
    method Reserve(name: Option<string>, size: nat, e: CodeEmitter)
      modifies this, e
      ensures State(e) == CgenSpec.Reserve(old(State(e)), name, size)
      ensures e.labelCount == old(e.labelCount)
    {
      e.EmitComment(CgenSpec.DeclComment(name, size));
      var totalSize := size * 4;
      offsetCounter := offsetCounter - totalSize;
      symbolTable := symbolTable[name := offsetCounter];
      e.Emit(CgenSpec.ReserveLine(totalSize, name));
    }

    /** `gen_expression_stmt`: two comments around the expression, when there is one. */
    method GenExpressionStmt(node: Node, e: CodeEmitter)
      requires node.kind == ExpressionStmt && CgenSpec.Generable(node)
      modifies this, e
      ensures CgenSpec.ExpressionStmtCode(node, old(State(e))) == State(e)
      ensures e.labelCount == old(e.labelCount)
    {
      e.EmitComment("Inicio de expression_stmt");
      if |node.children| > 0 {
        var _ := GenExpression(node.children[0], e);
      }
      e.EmitComment("Fin de expression_stmt");
    }

    /** `gen_expression`: emits the code of an expression and returns its register. */
    method GenExpression(node: Node, e: CodeEmitter) returns (reg: Option<string>)
      requires CgenSpec.GenerableExpr(node)
      modifies this, e
      ensures CgenSpec.Expression(node, old(State(e))) == CgenSpec.GenExpr(State(e), reg)
      ensures e.labelCount == old(e.labelCount)
      decreases node
    {
      e.EmitComment("Inicio de expression");
      if node.kind == Num {
        var r := CgenSpec.Reg(registerCounter);
        registerCounter := registerCounter + 1;
        e.Emit(CgenSpec.LiLine(r, node.lexeme));
        reg := Some(r);
      } else if node.kind == Var {
        var name := node.lexeme;
        var offset := if name in symbolTable then Some(symbolTable[name]) else None;
        var r := CgenSpec.Reg(registerCounter);
        registerCounter := registerCounter + 1;
        if offset.Some? {
          e.Emit(CgenSpec.LwLine(r, offset.value));
        } else {
          e.EmitComment(CgenSpec.MissingVar(name));
        }
        reg := Some(r);
      } else if node.kind == Addop || node.kind == Mulop {
        var left := GenExpression(node.children[0], e);
        var right := GenExpression(node.children[1], e);
        var r := CgenSpec.Reg(registerCounter);
        registerCounter := registerCounter + 1;
        var op := CgenSpec.OpName(node.kind, node.lexeme);
        e.Emit(CgenSpec.OpLine(op, r, left, right));
        reg := Some(r);
      } else if node.kind == Assign {
        var name := node.lexeme;
        var offset := if name in symbolTable then Some(symbolTable[name]) else None;
        var result := GenExpression(node.children[0], e);
        if offset.Some? {
          e.Emit(CgenSpec.SwLine(result, offset.value));
        } else {
          e.EmitComment(CgenSpec.MissingTarget(name));
        }
        reg := result;
      } else {
        reg := None;
      }
    }
  }
}
