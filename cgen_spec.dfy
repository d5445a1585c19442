/**
 * The meaning of the MIPS code generator, as pure functions over the generator's state:
 * the lines written so far, and the three module-level counters `symbol_table`,
 * `offset_counter` and `register_counter`.
 */
module CgenSpec {
  import opened Wrappers
  import opened Text
  import opened Ast

  /** The lines of the output file, the table of frame offsets, the next free offset and the register counter. */
  datatype GenState = GenState(out: seq<string>, table: map<Option<string>, int>, offset: int, reg: nat)

  /** The state after emitting code for a node, and whether it finished (false: an exception stopped the generator). */
  datatype Gen = Gen(st: GenState, ok: bool)

  /** The state after lowering an expression, and the register it returns (`None` for a kind it does not handle). */
  datatype GenExpr = GenExpr(st: GenState, reg: Option<string>)

  // ---------------------------------------------------------------------------
  // Text.

  /** A value as an f-string shows it: the string itself, or `None`. */
  function Show(o: Option<string>): string
  {
    if o.Some? then o.value else "None"
  }

  /** The scratch register named by counter value `k`: `$t0` to `$t9`, wrapping around. */
  function Reg(k: nat): (r: string)
    ensures |r| == 3 && r[..2] == "$t" && IsDigit(r[2])
  {
    "$t" + NatToString(k % 10)
  }

  /** A comment line. */
  function CommentLine(c: string): string
  {
    "# " + c
  }

  /** `li reg, lexeme`: load a literal. */
  function LiLine(reg: string, lexeme: Option<string>): string
  {
    "li " + reg + ", " + Show(lexeme)
  }

  /** `lw reg, offset($fp)`: load a variable from its frame slot. */
  function LwLine(reg: string, offset: int): string
  {
    "lw " + reg + ", " + IntToString(offset) + "($fp)"
  }

  /** `sw reg, offset($fp)`: store a register into a frame slot. */
  function SwLine(reg: Option<string>, offset: int): string
  {
    "sw " + Show(reg) + ", " + IntToString(offset) + "($fp)"
  }

  /** `op reg, left, right`: an arithmetic instruction. */
  function OpLine(op: string, reg: string, left: Option<string>, right: Option<string>): string
  {
    op + " " + reg + ", " + Show(left) + ", " + Show(right)
  }

  /** A function's label. */
  function LabelLine(name: Option<string>): string
  {
    Show(name) + ":"
  }

  /** The comment `gen_var_decl` writes. */
  function DeclComment(name: Option<string>, size: nat): string
  {
    "Declaración de variable: " + Show(name) + " (size = " + IntToString(size) + ")"
  }

  /** The `addi` line `gen_var_decl` writes to move the stack pointer. */
  function ReserveLine(total: nat, name: Option<string>): string
  {
    "addi $sp, $sp, -" + IntToString(total) + "  # Reservar espacio para " + Show(name)
  }

  /** The comment for a variable with no frame slot. */
  function MissingVar(name: Option<string>): string
  {
    "[Error] Variable no encontrada: " + Show(name)
  }

  /** The comment for an assignment to a name with no frame slot. */
  function MissingTarget(name: Option<string>): string
  {
    "[Error] Variable no encontrada para asignación: " + Show(name)
  }

  /** The four lines `codeGen` writes before any code. */
  const Header: seq<string> := [".data", "newline: .asciiz \"\\n\"", ".text", ".globl main"]

  /** The lines `gen_function` writes after the label, before the body. */
  const Prolog: seq<string> := [CommentLine("Prolog"), "sw $ra, 0($sp)", "sw $fp, -4($sp)", "move $fp, $sp", "addi $sp, $sp, -8"]

  /** The lines `gen_function` writes after the body. */
  const Epilog: seq<string> := [CommentLine("Epilog"), "move $sp, $fp", "lw $fp, -4($sp)", "lw $ra, 0($sp)", "jr $ra"]

  /** The arithmetic instruction for an operator node: '+' gives add and any other addop sub; '*' gives mul and any other mulop div. */
  function OpName(k: Kind, lexeme: Option<string>): string
  {
    if k == Addop then (if lexeme == Some("+") then "add" else "sub")
    else (if lexeme == Some("*") then "mul" else "div")
  }

  // ---------------------------------------------------------------------------
  // The trees the generator can walk without an index error.

  /** Every child the expression lowering reaches has the children it indexes. */
  predicate GenerableExpr(n: Node)
    decreases n
  {
    match n.kind
    case Addop => |n.children| >= 2 && GenerableExpr(n.children[0]) && GenerableExpr(n.children[1])
    case Mulop => |n.children| >= 2 && GenerableExpr(n.children[0]) && GenerableExpr(n.children[1])
    case Assign => |n.children| >= 1 && GenerableExpr(n.children[0])
    case _ => true
  }

  /** Every node `generate_code` reaches has the children it indexes. */
  predicate Generable(n: Node)
    decreases n, 1
  {
    match n.kind
    case Program => AllGenerable(n.children)
    case FunDecl => |n.children| >= 2 && AllGenerable(n.children)
    case CompoundStmt => |n.children| >= 2 && AllGenerable(n.children[0].children) && AllGenerable(n.children[1].children)
    case VarDecl => |n.children| >= 2
    case ExpressionStmt => |n.children| > 0 ==> GenerableExpr(n.children[0])
    case _ => true
  }

  predicate AllGenerable(ns: seq<Node>)
    decreases ns, 0
  {
    forall i :: 0 <= i < |ns| ==> Generable(ns[i])
  }

  // ---------------------------------------------------------------------------
  // Emission.

  /** `emit`: one more line of output. */
  function Emit(s: GenState, line: string): (r: GenState)
    ensures r.out == s.out + [line] && r.table == s.table && r.offset == s.offset && r.reg == s.reg
  {
    s.(out := s.out + [line])
  }

  /** `emit_comment`: a line starting with "# ". */
  function Comment(s: GenState, c: string): (r: GenState)
    ensures r.out == s.out + [CommentLine(c)] && r.table == s.table && r.offset == s.offset && r.reg == s.reg
  {
    Emit(s, CommentLine(c))
  }

  /** The frame offset of a name, when the current function declared it. */
  function Lookup(s: GenState, name: Option<string>): Option<int>
  {
    if name in s.table then Some(s.table[name]) else None
  }

  /**
   * `gen_expression`: a comment line, then the code of the node.  A number or a variable
   * takes the next register; an operator lowers its left operand, then its right one, then
   * takes the next register for the result; an assignment lowers its right-hand side and
   * stores that register; any other kind emits nothing more and returns no register.
   * Only output and the register counter change.
   */
  function Expression(n: Node, s: GenState): (r: GenExpr)
    requires GenerableExpr(n)
    ensures s.out <= r.st.out && |s.out| < |r.st.out|
    ensures r.st.table == s.table && r.st.offset == s.offset && s.reg <= r.st.reg
    decreases n, 1
  {
    var s1 := Comment(s, "Inicio de expression");
    match n.kind
    case Num => Number(n, s1)
    case Var => Variable(n, s1)
    case Addop => Operator(n, s1)
    case Mulop => Operator(n, s1)
    case Assign => Assignment(n, s1)
    case _ => GenExpr(s1, None)
  }

  /** The `NUM` branch of `gen_expression`, after its comment line: load the literal into the next register. */
  function Number(n: Node, s: GenState): (r: GenExpr)
    ensures s.out <= r.st.out && r.st.table == s.table && r.st.offset == s.offset
    ensures r.st.reg == s.reg + 1 && r.reg == Some(Reg(s.reg))
  {
    var reg := Reg(s.reg);
    GenExpr(Emit(s.(reg := s.reg + 1), LiLine(reg, n.lexeme)), Some(reg))
  }

  /** The `var` branch of `gen_expression`, after its comment line: the next register, loaded from the frame if the name has a slot. */
  function Variable(n: Node, s: GenState): (r: GenExpr)
    ensures s.out <= r.st.out && r.st.table == s.table && r.st.offset == s.offset
    ensures r.st.reg == s.reg + 1 && r.reg == Some(Reg(s.reg))
  {
    var reg := Reg(s.reg);
    var s2 := s.(reg := s.reg + 1);
    var off := Lookup(s, n.lexeme);
    if off.Some? then
      GenExpr(Emit(s2, LwLine(reg, off.value)), Some(reg))
    else
      GenExpr(Comment(s2, MissingVar(n.lexeme)), Some(reg))
  }

  /** The `assign` branch of `gen_expression`, after its comment line: the right-hand side, then a store into the name's slot. */
  function Assignment(n: Node, s: GenState): (r: GenExpr)
    requires n.kind == Assign && GenerableExpr(n)
    ensures s.out <= r.st.out && |s.out| < |r.st.out|
    ensures r.st.table == s.table && r.st.offset == s.offset && s.reg <= r.st.reg
    decreases n, 0
  {
    var off := Lookup(s, n.lexeme);
    var res := Expression(n.children[0], s);
    if off.Some? then
      GenExpr(Emit(res.st, SwLine(res.reg, off.value)), res.reg)
    else
      GenExpr(Comment(res.st, MissingTarget(n.lexeme)), res.reg)
  }

  /** The `addop` / `mulop` branch of `gen_expression`, after its comment line. */
  function Operator(n: Node, s: GenState): (r: GenExpr)
    requires n.kind == Addop || n.kind == Mulop
    requires GenerableExpr(n)
    ensures s.out <= r.st.out && |s.out| < |r.st.out|
    ensures r.st.table == s.table && r.st.offset == s.offset && s.reg < r.st.reg
    ensures r.reg == Some(Reg(r.st.reg - 1))
    decreases n, 0
  {
    var left := Expression(n.children[0], s);
    var right := Expression(n.children[1], left.st);
    var reg := Reg(right.st.reg);
    GenExpr(Emit(right.st.(reg := right.st.reg + 1), OpLine(OpName(n.kind, n.lexeme), reg, left.reg, right.reg)), Some(reg))
  }

  /** `gen_expression_stmt`: two comment lines around the code of the expression, when there is one. */
  function ExpressionStmtCode(n: Node, s: GenState): (r: GenState)
    requires n.kind == ExpressionStmt && Generable(n)
    ensures s.out <= r.out
    ensures r.table == s.table && r.offset == s.offset && s.reg <= r.reg
  {
    var s1 := Comment(s, "Inicio de expression_stmt");
    var s2 := if |n.children| > 0 then Expression(n.children[0], s1).st else s1;
    Comment(s2, "Fin de expression_stmt")
  }

  /** The size `gen_var_decl` reserves: the value of a NUM third child, else 1; `None` when `int` raises. */
  function DeclSize(n: Node): Option<nat>
  {
    if |n.children| == 3 && n.children[2].kind == Num then IntOf(n.children[2].lexeme) else Some(1)
  }

  /**
   * `gen_var_decl`: a comment, then 4 * size bytes more of the frame; the declared name
   * maps to the new, lower offset.  An array size that is not a number stops generation
   * before anything is written.
   */
  function VarDeclCode(n: Node, s: GenState): (r: Gen)
    requires n.kind == VarDecl && |n.children| >= 2
  {
    var size := DeclSize(n);
    if size.None? then Gen(s, false) else Gen(Reserve(s, n.children[1].lexeme, size.value), true)
  }

  /** The effect of `gen_var_decl` once the size is known. */
  function Reserve(s: GenState, name: Option<string>, size: nat): (r: GenState)
  {
    var total := size * 4;
    var s1 := Comment(s, DeclComment(name, size));
    var s2 := s1.(offset := s1.offset - total, table := s1.table[name := s1.offset - total]);
    Emit(s2, ReserveLine(total, name))
  }

  /**
   * `generate_code`: a program is its children in order, the four lowered kinds are
   * lowered, and every other kind emits nothing.
   */
  function Code(n: Node, s: GenState): (r: Gen)
    requires Generable(n)
    ensures s.out <= r.st.out && s.reg <= r.st.reg
    decreases n, 2
  {
    match n.kind
    case Program => CodeList(n.children, s)
    case FunDecl => FunctionCode(n, s)
    case CompoundStmt => CompoundCode(n, s)
    case VarDecl => VarDeclCode(n, s)
    case ExpressionStmt => Gen(ExpressionStmtCode(n, s), true)
    case _ => Gen(s, true)
  }

  /** The nodes of a list lowered one after the other, stopping at the first that raises. */
  function CodeList(ns: seq<Node>, s: GenState): (r: Gen)
    requires AllGenerable(ns)
    ensures s.out <= r.st.out && s.reg <= r.st.reg
    decreases ns
  {
    if |ns| == 0 then Gen(s, true)
    else
      var h := Code(ns[0], s);
      if !h.ok then h else CodeList(ns[1..], h.st)
  }

  /**
   * `gen_function`: the table and the offset start afresh, the register counter does not;
   * then the label, the prologue, every child of the declaration, and the epilogue.
   */
  function FunctionCode(n: Node, s: GenState): (r: Gen)
    requires n.kind == FunDecl && Generable(n)
    ensures s.out <= r.st.out && s.reg <= r.st.reg
    decreases n, 1
  {
    var s1 := Emit(s.(table := map[], offset := 0), LabelLine(n.children[1].lexeme));
    var s2 := s1.(out := s1.out + Prolog);
    var body := CodeList(n.children, s2);
    if !body.ok then body else Gen(body.st.(out := body.st.out + Epilog), true)
  }

  /** `gen_compound_stmt`: a comment, the local declarations, the statements, and a closing comment. */
  function CompoundCode(n: Node, s: GenState): (r: Gen)
    requires n.kind == CompoundStmt && Generable(n)
    ensures s.out <= r.st.out && s.reg <= r.st.reg
    decreases n, 1
  {
    var s1 := Comment(s, "Inicio de compound_stmt");
    var d := CodeList(n.children[0].children, s1);
    if !d.ok then d
    else
      var b := CodeList(n.children[1].children, d.st);
      if !b.ok then b else Gen(Comment(b.st, "Fin de compound_stmt"), true)
  }

  /** `codeGen`: a fresh output holding the header, then the code of the tree. */
  function CodeGen(tree: Node, s: GenState): (r: Gen)
    requires Generable(tree)
    ensures Header <= r.st.out
  {
    Code(tree, s.(out := Header))
  }
}
