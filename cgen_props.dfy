/**
 * Properties of the code generator's meaning (module CgenSpec): label numbering, the
 * register counter, frame offsets, what each node kind emits, and that every tree the
 * parser builds can be walked.
 */
module CgenProps {
  import opened Wrappers
  import opened Text
  import opened Tokens
  import opened Ast
  import opened CgenSpec
  import ParserSpec

  // ---------------------------------------------------------------------------
  // Labels.

  /** With one prefix, `new_label` gives different labels for different counter values. */
  lemma LabelsDistinct(prefix: string, a: nat, b: nat)
    ensures prefix + NatToString(a) == prefix + NatToString(b) <==> a == b
  {
    if prefix + NatToString(a) == prefix + NatToString(b) {
      assert NatToString(a) == (prefix + NatToString(a))[|prefix|..];
      assert NatToString(b) == (prefix + NatToString(b))[|prefix|..];
      NatToStringInjective(a, b);
    }
  }

  /** A prefix with no decimal digit in it. */
  predicate DigitFree(p: string)
  {
    forall i :: 0 <= i < |p| ==> !IsDigit(p[i])
  }

  /** In a label whose prefix has no digit, the first digit comes right after the prefix. */
  lemma FirstDigit(p: string, a: nat)
    requires DigitFree(p)
    ensures var l := p + NatToString(a);
      IsDigit(l[|p|]) && forall i :: 0 <= i < |p| ==> !IsDigit(l[i])
  {
    assert (p + NatToString(a))[|p|] == NatToString(a)[0];
  }

  /** With prefixes free of digits, a label determines both its prefix and its number. */
  lemma DigitFreeLabelsDistinct(p: string, q: string, a: nat, b: nat)
    requires DigitFree(p) && DigitFree(q)
    ensures p + NatToString(a) == q + NatToString(b) <==> p == q && a == b
  {
    var l := p + NatToString(a);
    if l == q + NatToString(b) {
      FirstDigit(p, a);
      FirstDigit(q, b);
      assert |p| == |q|;
      assert p == l[..|p|] && q == l[..|q|];
      LabelsDistinct(p, a, b);
    }
  }

  /**
   * A prefix that ends in a digit can repeat a label of the same emitter: "L1" at counter
   * 0 and "L" at counter 10 both give "L10".
   */
  lemma LabelCollision()
    ensures "L1" + NatToString(0) == "L" + NatToString(10)
  {
    assert NatToString(1) == "1";
    assert NatToString(10) == NatToString(1) + "0";
  }

  // ---------------------------------------------------------------------------
  // Registers.

  /** How many registers lowering `n` takes: one per number, variable and operator node it reaches. */
  function Allocations(n: Node): nat
    requires GenerableExpr(n)
    decreases n
  {
    match n.kind
    case Num => 1
    case Var => 1
    case Addop => Allocations(n.children[0]) + Allocations(n.children[1]) + 1
    case Mulop => Allocations(n.children[0]) + Allocations(n.children[1]) + 1
    case Assign => Allocations(n.children[0])
    case _ => 0
  }

  /** Lowering an expression advances the register counter by exactly its number of allocations. */
  lemma {:induction false} RegisterCount(n: Node, s: GenState)
    requires GenerableExpr(n)
    ensures Expression(n, s).st.reg == s.reg + Allocations(n)
    decreases n
  {
    var s1 := Comment(s, "Inicio de expression");
    if n.kind == Addop || n.kind == Mulop {
      RegisterCount(n.children[0], s1);
      RegisterCount(n.children[1], Expression(n.children[0], s1).st);
    } else if n.kind == Assign {
      RegisterCount(n.children[0], s1);
    }
  }

  /** Ten registers are reused in turn: two counter values name the same register exactly when they agree modulo 10. */
  lemma RegisterWraps(a: nat, b: nat)
    ensures Reg(a) == Reg(b) <==> a % 10 == b % 10
  {
    if Reg(a) == Reg(b) {
      assert NatToString(a % 10) == Reg(a)[2..];
      assert NatToString(b % 10) == Reg(b)[2..];
      NatToStringInjective(a % 10, b % 10);
    }
  }

  /** An operator node's result register is the last one its lowering takes. */
  lemma OperatorResult(n: Node, s: GenState)
    requires (n.kind == Addop || n.kind == Mulop) && GenerableExpr(n)
    ensures Expression(n, s).reg == Some(Reg(s.reg + Allocations(n) - 1))
  {
    RegisterCount(n, s);
    assert Expression(n, s) == Operator(n, Comment(s, "Inicio de expression"));
  }

  /** Registers repeat with period ten. */
  lemma RegisterPeriod(k: nat)
    ensures Reg(k + 10) == Reg(k)
  {
    assert (k + 10) % 10 == k % 10;
  }

  /**
   * A number loaded into a register, followed by an operator expression that takes ten
   * registers, leaves that operator's result in the number's register.
   */
  lemma NumberThenTenRegisters(a: Node, b: Node, s: GenState)
    requires a.kind == Num && b.kind in {Addop, Mulop} && GenerableExpr(b) && Allocations(b) == 10
    ensures Expression(a, s).reg == Expression(b, Expression(a, s).st).reg
  {
    NumberLoad(a, s);
    OperatorResult(b, Expression(a, s).st);
    RegisterPeriod(s.reg);
  }

  /**
   * The wrap-around leaves no register to the left operand while the right one is lowered:
   * after a number on the left, a right operand that takes exactly ten registers returns
   * the very register the number was loaded into, so the instruction reads it twice.
   */
  lemma OperandsCollide(n: Node, s: GenState)
    requires (n.kind == Addop || n.kind == Mulop) && GenerableExpr(n)
    requires n.children[0].kind == Num && n.children[1].kind in {Addop, Mulop} && Allocations(n.children[1]) == 10
    ensures var left := Expression(n.children[0], Comment(s, "Inicio de expression"));
      var right := Expression(n.children[1], left.st);
      left.reg == right.reg
  {
    NumberThenTenRegisters(n.children[0], n.children[1], Comment(s, "Inicio de expression"));
  }

  // ---------------------------------------------------------------------------
  // Expressions.

  /**
   * An operator lowers its left operand first and its right operand after it, then
   * writes `op result, left, right` into a new register; '+' selects add and any other
   * additive lexeme sub, '*' selects mul and any other multiplicative lexeme div.
   */
  lemma OperatorLowering(n: Node, s: GenState)
    requires (n.kind == Addop || n.kind == Mulop) && GenerableExpr(n)
    ensures var s1 := Comment(s, "Inicio de expression");
      var left := Expression(n.children[0], s1);
      var right := Expression(n.children[1], left.st);
      var r := Expression(n, s);
      s1.out <= left.st.out <= right.st.out &&
      r.st.out == right.st.out + [OpLine(OpName(n.kind, n.lexeme), Reg(right.st.reg), left.reg, right.reg)] &&
      r.reg == Some(Reg(right.st.reg)) && r.st.reg == right.st.reg + 1
    ensures n.kind == Addop ==> (OpName(n.kind, n.lexeme) == "add" <==> n.lexeme == Some("+")) && OpName(n.kind, n.lexeme) in {"add", "sub"}
    ensures n.kind == Mulop ==> (OpName(n.kind, n.lexeme) == "mul" <==> n.lexeme == Some("*")) && OpName(n.kind, n.lexeme) in {"mul", "div"}
  {
  }

  /** A number takes the next register and loads its lexeme into it. */
  lemma NumberLoad(n: Node, s: GenState)
    requires n.kind == Num
    ensures var r := Expression(n, s);
      r.st.reg == s.reg + 1 && r.reg == Some(Reg(s.reg)) &&
      r.st.out == s.out + [CommentLine("Inicio de expression"), LiLine(Reg(s.reg), n.lexeme)]
  {
    assert Expression(n, s) == Number(n, Comment(s, "Inicio de expression"));
  }

  /**
   * A variable takes the next register and loads it from its frame slot when the current
   * function declared it; otherwise only an error comment is written, and the register
   * is taken all the same.
   */
  lemma VariableLoad(n: Node, s: GenState)
    requires n.kind == Var
    ensures var r := Expression(n, s);
      r.st.reg == s.reg + 1 && r.reg == Some(Reg(s.reg)) &&
      r.st.out == s.out + [CommentLine("Inicio de expression"),
        if n.lexeme in s.table then LwLine(Reg(s.reg), s.table[n.lexeme]) else CommentLine(MissingVar(n.lexeme))]
  {
    assert Expression(n, s) == Variable(n, Comment(s, "Inicio de expression"));
  }

  /** The index child of a variable is not lowered. */
  lemma VariableIgnoresIndex(n: Node, s: GenState)
    requires n.kind == Var
    ensures Expression(n, s) == Expression(n.(children := []), s)
  {
    assert Expression(n, s) == Variable(n, Comment(s, "Inicio de expression"));
    assert Expression(n.(children := []), s) == Variable(n.(children := []), Comment(s, "Inicio de expression"));
  }

  /** A kind `gen_expression` does not handle (a call, a comparison, ...) returns no register after its comment line. */
  lemma UnhandledExpression(n: Node, s: GenState)
    requires n.kind !in {Num, Var, Addop, Mulop, Assign}
    ensures Expression(n, s) == GenExpr(Comment(s, "Inicio de expression"), None)
  {
  }

  /**
   * An assignment takes no register of its own: after its right-hand side it stores that
   * side's register into the frame slot of its name, or writes an error comment when the
   * name has none.
   */
  lemma AssignmentStore(n: Node, s: GenState)
    requires n.kind == Assign && GenerableExpr(n)
    ensures var res := Expression(n.children[0], Comment(s, "Inicio de expression"));
      var r := Expression(n, s);
      r.reg == res.reg && r.st.reg == res.st.reg &&
      r.st.out == res.st.out + [
        if n.lexeme in s.table then SwLine(res.reg, s.table[n.lexeme]) else CommentLine(MissingTarget(n.lexeme))]
  {
    assert Expression(n, s) == Assignment(n, Comment(s, "Inicio de expression"));
  }

  /** The index child of an assignment is never lowered. */
  lemma AssignmentIgnoresIndex(n: Node, s: GenState)
    requires n.kind == Assign && GenerableExpr(n)
    ensures Expression(n, s) == Expression(n.(children := n.children[..1]), s)
  {
    var n1 := n.(children := n.children[..1]);
    assert n1.children[0] == n.children[0];
    assert Expression(n, s) == Assignment(n, Comment(s, "Inicio de expression"));
    assert Expression(n1, s) == Assignment(n1, Comment(s, "Inicio de expression"));
  }

  /**
   * An expression statement writes its opening comment, the code of its expression if it
   * has one, then its closing comment; it never stops generation.
   */
  lemma ExpressionStmtLayout(n: Node, s: GenState)
    requires n.kind == ExpressionStmt && Generable(n)
    ensures var r := Code(n, s);
      var s1 := Comment(s, "Inicio de expression_stmt");
      r.ok &&
      (|n.children| == 0 ==> r.st.out == s.out + [CommentLine("Inicio de expression_stmt"), CommentLine("Fin de expression_stmt")]) &&
      (|n.children| > 0 ==> r.st.out == Expression(n.children[0], s1).st.out + [CommentLine("Fin de expression_stmt")])
  {
    assert Code(n, s) == Gen(ExpressionStmtCode(n, s), true);
  }

  /** Only the first child of an expression statement is lowered. */
  lemma ExpressionStmtFirstChildOnly(n: Node, s: GenState)
    requires n.kind == ExpressionStmt && Generable(n) && |n.children| > 0
    ensures Code(n, s) == Code(n.(children := n.children[..1]), s)
  {
    var n1 := n.(children := n.children[..1]);
    assert n1.children[0] == n.children[0];
    assert ExpressionStmtCode(n, s) == ExpressionStmtCode(n1, s);
  }

  // ---------------------------------------------------------------------------
  // Declarations and the frame.

  /** A scalar takes one slot; an array whose NUM child reads as `k` takes `k` slots. */
  lemma DeclSizes(n: Node, k: nat)
    ensures !(|n.children| == 3 && n.children[2].kind == Num) ==> DeclSize(n) == Some(1)
    ensures |n.children| == 3 && n.children[2].kind == Num && n.children[2].lexeme == Some(NatToString(k)) ==>
      DeclSize(n) == Some(k)
  {
    IntOfNatToString(k);
  }

  /**
   * `gen_var_decl` succeeds exactly when the size reads as a number; then the offset
   * goes down by 4 * size, the name maps to the new offset (replacing any earlier entry
   * for it), two lines are written and the register counter is untouched.  When the size
   * does not read, nothing at all has changed.
   */
  lemma VarDeclEffect(n: Node, s: GenState)
    requires n.kind == VarDecl && |n.children| >= 2
    ensures var r := VarDeclCode(n, s);
      (r.ok <==> DeclSize(n).Some?) &&
      (!r.ok ==> r.st == s) &&
      (r.ok ==> r.st.offset == s.offset - 4 * DeclSize(n).value &&
                r.st.table == s.table[n.children[1].lexeme := r.st.offset] &&
                r.st.reg == s.reg && s.out <= r.st.out && |r.st.out| == |s.out| + 2)
  {
  }

  /**
   * The frame is well formed: the next free offset and every recorded offset are
   * non-positive multiples of 4, and every recorded offset is at or above the next free one.
   */
  predicate FrameInv(s: GenState)
  {
    s.offset <= 0 && s.offset % 4 == 0 &&
    forall k :: k in s.table ==> s.offset <= s.table[k] <= 0 && s.table[k] % 4 == 0
  }

  /**
   * Reserving keeps the frame well formed, and a slot of positive size lies strictly below
   * every slot recorded before it, so successive declarations get decreasing offsets.
   */
  lemma ReserveBelow(s: GenState, name: Option<string>, size: nat)
    requires FrameInv(s)
    ensures var r := Reserve(s, name, size);
      FrameInv(r) && r.table[name] == r.offset &&
      (size >= 1 ==> r.offset < s.offset && forall k :: k in s.table ==> r.offset < s.table[k])
  {
  }

  /** Every statement or declaration keeps the frame well formed. */
  lemma {:induction false} CodeKeepsFrame(n: Node, s: GenState)
    requires Generable(n) && FrameInv(s)
    ensures FrameInv(Code(n, s).st)
    decreases n, 2
  {
    match n.kind
    case Program => CodeListKeepsFrame(n.children, s);
    case FunDecl => FunctionKeepsFrame(n, s);
    case CompoundStmt => CompoundKeepsFrame(n, s);
    case VarDecl =>
      if DeclSize(n).Some? {
        ReserveBelow(s, n.children[1].lexeme, DeclSize(n).value);
      }
    case ExpressionStmt =>
    case _ =>
  }

  /** A list of nodes keeps the frame well formed. */
  lemma {:induction false} CodeListKeepsFrame(ns: seq<Node>, s: GenState)
    requires AllGenerable(ns) && FrameInv(s)
    ensures FrameInv(CodeList(ns, s).st)
    decreases ns
  {
    if |ns| > 0 {
      CodeKeepsFrame(ns[0], s);
      var h := Code(ns[0], s);
      if h.ok {
        CodeListKeepsFrame(ns[1..], h.st);
      }
    }
  }

  /** A function starts from an empty frame, so it keeps the frame well formed whatever came before. */
  lemma {:induction false} FunctionKeepsFrame(n: Node, s: GenState)
    requires n.kind == FunDecl && Generable(n)
    ensures FrameInv(FunctionCode(n, s).st)
    decreases n, 1
  {
    var s1 := Emit(s.(table := map[], offset := 0), LabelLine(n.children[1].lexeme));
    var s2 := s1.(out := s1.out + Prolog);
    CodeListKeepsFrame(n.children, s2);
  }

  /** A compound statement keeps the frame well formed. */
  lemma {:induction false} CompoundKeepsFrame(n: Node, s: GenState)
    requires n.kind == CompoundStmt && Generable(n) && FrameInv(s)
    ensures FrameInv(CompoundCode(n, s).st)
    decreases n, 1
  {
    var s1 := Comment(s, "Inicio de compound_stmt");
    CodeListKeepsFrame(n.children[0].children, s1);
    var d := CodeList(n.children[0].children, s1);
    if d.ok {
      CodeListKeepsFrame(n.children[1].children, d.st);
    }
  }

  // ---------------------------------------------------------------------------
  // Functions and the output as a whole.

  /**
   * No table entry or offset survives into a function: its code depends only on the
   * output so far and the register counter, which it carries on from.
   */
  lemma FunctionForgetsOuterFrame(n: Node, s: GenState, t: GenState)
    requires n.kind == FunDecl && Generable(n) && s.out == t.out && s.reg == t.reg
    ensures Code(n, s) == Code(n, t)
  {
    assert s.(table := map[], offset := 0) == t.(table := map[], offset := 0);
  }

  /**
   * A function writes its label, the fixed prologue, the code of its children from an
   * empty frame and the current register counter, and, unless that stopped, the fixed
   * epilogue, whose last line is `jr $ra`.
   */
  lemma FunctionLayout(n: Node, s: GenState)
    requires n.kind == FunDecl && Generable(n)
    ensures var r := Code(n, s);
      var start := GenState(s.out + [LabelLine(n.children[1].lexeme)] + Prolog, map[], 0, s.reg);
      var body := CodeList(n.children, start);
      r.ok == body.ok && start.out <= r.st.out &&
      (r.ok ==> r.st.out == body.st.out + Epilog && r.st.out[|r.st.out| - 1] == "jr $ra")
  {
    var s1 := Emit(s.(table := map[], offset := 0), LabelLine(n.children[1].lexeme));
    assert s1.(out := s1.out + Prolog) == GenState(s.out + [LabelLine(n.children[1].lexeme)] + Prolog, map[], 0, s.reg);
  }

  /** Node kinds other than the five `generate_code` dispatches on emit nothing and change nothing. */
  lemma IgnoredKinds(n: Node, s: GenState)
    requires Generable(n) && n.kind !in {Program, FunDecl, CompoundStmt, VarDecl, ExpressionStmt}
    ensures Code(n, s) == Gen(s, true)
  {
  }

  // ---------------------------------------------------------------------------
  // Every tree the parser builds can be walked.

  /** Expressions the parser builds have the operands lowering indexes. */
  lemma {:induction false} ExprGenerable(n: Node)
    requires ExprShape(n)
    ensures GenerableExpr(n)
    decreases n
  {
    if n.kind == Addop || n.kind == Mulop {
      ExprGenerable(n.children[0]);
      ExprGenerable(n.children[1]);
    } else if n.kind == Assign {
      ExprGenerable(n.children[0]);
    }
  }

  /** Declarations the parser builds can be walked. */
  lemma {:induction false} DeclGenerable(n: Node)
    requires DeclShape(n)
    ensures Generable(n)
    decreases n, 2
  {
    if n.kind == FunDecl {
      var cs := n.children;
      assert cs[0].kind == TypeSpecifier && cs[1].kind == Id && cs[2].kind == Params;
      LeafGenerable(cs[0]);
      LeafGenerable(cs[1]);
      LeafGenerable(cs[2]);
      CompoundGenerable(cs[3]);
      assert AllGenerable(cs);
    }
  }

  /** Kinds `generate_code` passes over can always be walked. */
  lemma LeafGenerable(n: Node)
    requires n.kind !in {Program, FunDecl, CompoundStmt, VarDecl, ExpressionStmt}
    ensures Generable(n)
  {
  }

  /** Statements the parser builds can be walked. */
  lemma {:induction false} StmtGenerable(n: Node)
    requires StmtShape(n)
    ensures Generable(n)
    decreases n, 2
  {
    if n.kind == CompoundStmt {
      CompoundGenerable(n);
    } else if n.kind == ExpressionStmt && |n.children| > 0 {
      ExprGenerable(n.children[0]);
    }
  }

  /** Compound statements the parser builds can be walked. */
  lemma {:induction false} CompoundGenerable(n: Node)
    requires CompoundShape(n)
    ensures Generable(n)
    decreases n, 1
  {
    var ds := n.children[0].children;
    var ss := n.children[1].children;
    forall i | 0 <= i < |ds|
      ensures Generable(ds[i])
    {
      DeclGenerable(ds[i]);
    }
    forall i | 0 <= i < |ss|
      ensures Generable(ss[i])
    {
      StmtGenerable(ss[i]);
    }
  }

  /** The tree `parser` returns for any token sequence can be handed to `codeGen`. */
  lemma ParsedTreeGenerable(ts: seq<Token>)
    ensures Generable(ParserSpec.Parse(ts).value)
  {
    var root := ParserSpec.Parse(ts).value;
    forall i | 0 <= i < |root.children|
      ensures Generable(root.children[i])
    {
      DeclGenerable(root.children[i]);
    }
  }
}
