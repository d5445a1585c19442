/**
 * Properties of the parser's meaning (module ParserSpec): the shape of the trees it
 * builds, how it reports errors, and what it does on a few small programs.
 */
module ParserProps {
  import opened Wrappers
  import opened Tokens
  import opened Ast
  import opened ParserSpec

  // ---------------------------------------------------------------------------
  // Expressions.

  /**
   * An assignment is built when '=' follows a simple expression: it is named after the
   * left-hand side, its first child is the right-hand side read by a fresh (so
   * right-associated) expression, and its second child, present only for an indexed
   * left-hand side, is that index.
   */
  lemma AssignmentShape(ts: seq<Token>, st: PState)
    requires Valid(ts, st)
    ensures var s := SimpleExpression(ts, st);
      var r := Expression(ts, st);
      if Cur(ts, s.st).kind == EQ then
        var s2 := if s.value.kind != Var then Error(ts, s.st, AssignTargetNotVar) else s.st;
        var rhs := Expression(ts, Match(ts, s2, EQ));
        r.value.kind == Assign && r.value.lexeme == s.value.lexeme &&
        r.value.children == [rhs.value] + (if |s.value.children| > 0 then [s.value.children[0]] else []) &&
        r.st == rhs.st
      else
        r == s
  {
    var s := SimpleExpression(ts, st);
    if Cur(ts, s.st).kind == EQ {
      var s2 := if s.value.kind != Var then Error(ts, s.st, AssignTargetNotVar) else s.st;
      var rhs := Expression(ts, Match(ts, s2, EQ));
      var assign := Add(Leaf(Assign, s.value.lexeme, Cur(ts, rhs.st).line), One(rhs.value));
      var assign' := if |s.value.children| > 0 then Add(assign, One(s.value.children[0])) else assign;
      assert Expression(ts, st) == Parsed(assign', rhs.st);
      assert assign'.children == [rhs.value] + (if |s.value.children| > 0 then [s.value.children[0]] else []);
    }
  }

  /**
   * A left-hand side of '=' that is not a variable is reported, and the assignment node
   * is built all the same.
   */
  lemma AssignToNonVariable(ts: seq<Token>, st: PState)
    requires Valid(ts, st)
    ensures var s := SimpleExpression(ts, st);
      var r := Expression(ts, st);
      Cur(ts, s.st).kind == EQ && s.value.kind != Var ==>
        r.value.kind == Assign && r.st.err && |r.st.diags| > |st.diags|
  {
    var s := SimpleExpression(ts, st);
    if Cur(ts, s.st).kind == EQ && s.value.kind != Var {
      var s2 := Error(ts, s.st, AssignTargetNotVar);
      var rhs := Expression(ts, Match(ts, s2, EQ));
      AssignmentShape(ts, st);
      assert |st.diags| < |rhs.st.diags|;
    }
  }

  /**
   * simple_expression holds at most one relational operator: its two operands are
   * additive expressions, and a second relational operator is left as the current token.
   */
  lemma SingleRelop(ts: seq<Token>, st: PState)
    requires Valid(ts, st)
    ensures var a := AdditiveExpression(ts, st);
      var r := SimpleExpression(ts, st);
      var t := Cur(ts, a.st);
      if t.kind in RelOps then
        var b := AdditiveExpression(ts, Match(ts, a.st, t.kind));
        r.value.kind == Relop && r.value.lexeme == Some(t.lexeme) &&
        r.value.children == [a.value, b.value] && r.st == b.st
      else
        r == a
  {
    var a := AdditiveExpression(ts, st);
    var t := Cur(ts, a.st);
    if t.kind in RelOps {
      var s2 := Match(ts, a.st, t.kind);
      var b := AdditiveExpression(ts, s2);
      assert Add(Add(Leaf(Relop, Some(t.lexeme), Cur(ts, s2).line), One(a.value)), One(b.value)).children
        == [a.value, b.value];
    }
  }

  /** One turn of an operator loop: the operator's lexeme, the line its node records, and the operand read after it. */
  datatype Step = Step(op: string, line: int, operand: Node)

  /**
   * The left fold of a chain of binary operators of kind `k`: each step puts the tree
   * built so far under a new operator node, as its left operand, with the step's operand
   * on the right.
   */
  function FoldLeft(k: Kind, left: Node, steps: seq<Step>): Node
    decreases |steps|
  {
    if |steps| == 0 then left
    else FoldLeft(k, Node(k, Some(steps[0].op), [left, steps[0].operand], steps[0].line), steps[1..])
  }

  /**
   * A left fold ends in the node of its last step, whose left operand is the fold of all
   * the other steps and whose right operand is the last operand: the last operator read
   * is the root and the first one is innermost.
   */
  lemma {:induction false} FoldLeftLast(k: Kind, left: Node, steps: seq<Step>)
    requires |steps| > 0
    ensures var last := steps[|steps| - 1];
      FoldLeft(k, left, steps) == Node(k, Some(last.op), [FoldLeft(k, left, steps[..|steps| - 1]), last.operand], last.line)
    decreases |steps|
  {
    if |steps| > 1 {
      var first := Node(k, Some(steps[0].op), [left, steps[0].operand], steps[0].line);
      FoldLeftLast(k, first, steps[1..]);
      assert steps[1..][..|steps| - 2] == steps[..|steps| - 1][1..];
    }
  }

  /** The '+' / '-' tokens, with the terms after them, that the loop of additive_expression reads from `st` on. */
  function AdditiveSteps(ts: seq<Token>, st: PState): seq<Step>
    requires Valid(ts, st)
    decreases |ts| - st.pos
  {
    var t := Cur(ts, st);
    if t.kind == PLUS || t.kind == MINUS then
      var s1 := Match(ts, st, t.kind);
      var right := Term(ts, s1);
      [Step(t.lexeme, Cur(ts, s1).line, right.value)] + AdditiveSteps(ts, right.st)
    else
      []
  }

  /** The '*' / '/' tokens, with the factors after them, that the loop of term reads from `st` on. */
  function TermSteps(ts: seq<Token>, st: PState): seq<Step>
    requires Valid(ts, st)
    decreases |ts| - st.pos
  {
    var t := Cur(ts, st);
    if t.kind == TIMES || t.kind == OVER then
      var s1 := Match(ts, st, t.kind);
      var right := Factor(ts, s1);
      [Step(t.lexeme, Cur(ts, s1).line, right.value)] + TermSteps(ts, right.st)
    else
      []
  }

  /**
   * The loop of additive_expression associates to the left: starting from the tree built
   * so far it yields exactly the left fold of the operators and terms it reads, and it
   * stops at the first token that is neither '+' nor '-'.
   */
  lemma {:induction false} AdditiveLeftAssoc(ts: seq<Token>, left: Node, st: PState)
    requires Valid(ts, st)
    ensures var r := AdditiveTail(ts, left, st);
      r.value == FoldLeft(Addop, left, AdditiveSteps(ts, st)) && Cur(ts, r.st).kind !in {PLUS, MINUS}
    decreases |ts| - st.pos
  {
    var t := Cur(ts, st);
    if t.kind == PLUS || t.kind == MINUS {
      var s1 := Match(ts, st, t.kind);
      var right := Term(ts, s1);
      var next := Add(Add(Leaf(Addop, Some(t.lexeme), Cur(ts, s1).line), One(left)), One(right.value));
      assert next == Node(Addop, Some(t.lexeme), [left, right.value], Cur(ts, s1).line);
      AdditiveLeftAssoc(ts, next, right.st);
      var steps := AdditiveSteps(ts, st);
      assert steps[0] == Step(t.lexeme, Cur(ts, s1).line, right.value) && steps[1..] == AdditiveSteps(ts, right.st);
    }
  }

  /** The loop of term associates to the left in the same way, under '*' / '/' nodes over factors. */
  lemma {:induction false} TermLeftAssoc(ts: seq<Token>, left: Node, st: PState)
    requires Valid(ts, st)
    ensures var r := TermTail(ts, left, st);
      r.value == FoldLeft(Mulop, left, TermSteps(ts, st)) && Cur(ts, r.st).kind !in {TIMES, OVER}
    decreases |ts| - st.pos
  {
    var t := Cur(ts, st);
    if t.kind == TIMES || t.kind == OVER {
      var s1 := Match(ts, st, t.kind);
      var right := Factor(ts, s1);
      var next := Add(Add(Leaf(Mulop, Some(t.lexeme), Cur(ts, s1).line), One(left)), One(right.value));
      assert next == Node(Mulop, Some(t.lexeme), [left, right.value], Cur(ts, s1).line);
      TermLeftAssoc(ts, next, right.st);
      var steps := TermSteps(ts, st);
      assert steps[0] == Step(t.lexeme, Cur(ts, s1).line, right.value) && steps[1..] == TermSteps(ts, right.st);
    }
  }

  /** With two operators `a op1 b op2 c` folds to `(a op1 b) op2 c`. */
  lemma FoldLeftTwo(k: Kind, a: Node, first: Step, second: Step)
    ensures FoldLeft(k, a, [first, second]) ==
      Node(k, Some(second.op), [Node(k, Some(first.op), [a, first.operand], first.line), second.operand], second.line)
  {
    var inner := Node(k, Some(first.op), [a, first.operand], first.line);
    assert [first, second][1..] == [second] && [second][1..] == [];
    assert FoldLeft(k, a, [first, second]) == FoldLeft(k, inner, [second]);
  }

  /** additive_expression is the left fold, over its first term, of the operators and terms that follow it. */
  lemma AdditiveExpressionFold(ts: seq<Token>, st: PState)
    requires Valid(ts, st)
    ensures var t := Term(ts, st);
      AdditiveExpression(ts, st).value == FoldLeft(Addop, t.value, AdditiveSteps(ts, t.st))
  {
    var t := Term(ts, st);
    AdditiveLeftAssoc(ts, t.value, t.st);
  }

  /** term is the left fold, over its first factor, of the operators and factors that follow it. */
  lemma TermFold(ts: seq<Token>, st: PState)
    requires Valid(ts, st)
    ensures var f := Factor(ts, st);
      Term(ts, st).value == FoldLeft(Mulop, f.value, TermSteps(ts, f.st))
  {
    var f := Factor(ts, st);
    TermLeftAssoc(ts, f.value, f.st);
  }

  /**
   * factor's error branch: no factor starts at the current token, so it is reported,
   * exactly that token is consumed (with the comments after it), and an error_factor
   * node stands in its place.  Before the end of input this is progress.
   */
  lemma FactorError(ts: seq<Token>, st: PState)
    requires Valid(ts, st)
    ensures var r := Factor(ts, st);
      Cur(ts, st).kind !in {LPAREN, NUM, ID} ==>
        r.value.kind == ErrorFactor && r.value.children == [] &&
        r.st == Advance(ts, Error(ts, st, BadFactor)) &&
        r.st.err && r.st.diags == st.diags + [Diag(Cur(ts, st).line, BadFactor)] &&
        (st.pos < |ts| ==> st.pos < r.st.pos)
  {
  }

  // ---------------------------------------------------------------------------
  // Declarations.

  /** The declared names of a list of var_decls, in order. */
  function DeclaredIds(ns: seq<Node>): seq<Option<string>>
    requires AllVarDecls(ns)
    decreases |ns|
  {
    if |ns| == 0 then [] else [ns[0].children[1].lexeme] + DeclaredIds(ns[1..])
  }

  /**
   * The identifiers the ', ID [ NUM ]' loop of a variable declaration reads from `st` on,
   * in order: one per ',' that an identifier follows, the loop ending at the first ','
   * without one.
   */
  function CommaIds(ts: seq<Token>, tipo: string, st: PState): seq<Option<string>>
    requires Valid(ts, st)
    decreases |ts| - st.pos
  {
    if Cur(ts, st).kind != COMMA then []
    else
      var s1 := Match(ts, st, COMMA);
      if Cur(ts, s1).kind != ID then []
      else
        var name := Cur(ts, s1).lexeme;
        [Some(name)] + CommaIds(ts, tipo, VarDeclarator(ts, tipo, name, Match(ts, s1, ID)).st)
  }

  /** The names of a var_decl followed by more var_decls. */
  lemma DeclaredIdsCons(v: Node, rest: seq<Node>)
    requires VarDeclShape(v) && AllVarDecls(rest)
    ensures AllVarDecls([v] + rest) && DeclaredIds([v] + rest) == [v.children[1].lexeme] + DeclaredIds(rest)
  {
    ConsShapes(v, rest);
    assert ([v] + rest)[1..] == rest;
  }

  /** The declarations the comma loop adds are named, in order, after the identifiers it reads. */
  lemma {:induction false} MoreDeclaratorsIds(ts: seq<Token>, tipo: string, st: PState)
    requires Valid(ts, st)
    ensures var r := MoreDeclarators(ts, tipo, st).value;
      AllVarDecls(r) && DeclaredIds(r) == CommaIds(ts, tipo, st)
    decreases |ts| - st.pos
  {
    if Cur(ts, st).kind == COMMA {
      var s1 := Match(ts, st, COMMA);
      assert MoreDeclarators(ts, tipo, st) == DeclaratorAfterComma(ts, tipo, s1);
      if Cur(ts, s1).kind == ID {
        var name := Cur(ts, s1).lexeme;
        var v := VarDeclarator(ts, tipo, name, Match(ts, s1, ID));
        var rest := MoreDeclarators(ts, tipo, v.st);
        assert DeclaratorAfterComma(ts, tipo, s1).value == [v.value] + rest.value;
        MoreDeclaratorsIds(ts, tipo, v.st);
        DeclaredIdsCons(v.value, rest.value);
        assert CommaIds(ts, tipo, st) == [Some(name)] + CommaIds(ts, tipo, v.st);
      }
    }
  }

  /**
   * A variable declaration yields one var_decl per declared name, all of the declared
   * type, named in order after the name already read and then the identifiers the comma
   * loop reads; it stands alone (not in a list) exactly when no further declarator follows.
   */
  lemma VarDeclarationFlattens(ts: seq<Token>, tipo: string, name: string, st: PState)
    requires Valid(ts, st)
    ensures var first := VarDeclarator(ts, tipo, name, st);
      var more := MoreDeclarators(ts, tipo, first.st).value;
      var d := VarDeclaration(ts, tipo, name, st).value;
      Nodes(d) == [first.value] + more && (d.One? <==> more == []) &&
      VarDeclsOfType(Nodes(d), tipo) && AllVarDecls(Nodes(d)) &&
      DeclaredIds(Nodes(d)) == [Some(name)] + CommaIds(ts, tipo, first.st)
  {
    var first := VarDeclarator(ts, tipo, name, st);
    var more := MoreDeclarators(ts, tipo, first.st);
    ConsVarDecl(first.value, more.value, tipo);
    var decls := [first.value] + more.value;
    var d := if |decls| == 1 then One(first.value) else Many(decls);
    assert VarDeclaration(ts, tipo, name, st) == Parsed(d, Match(ts, more.st, SEMI));
    assert Nodes(d) == decls;
    MoreDeclaratorsIds(ts, tipo, first.st);
    DeclaredIdsCons(first.value, more.value);
  }
}
