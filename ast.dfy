/** The syntax tree built by the parser and walked by the code generator. */
module Ast {
  import opened Wrappers

  /** Node tags, one per string kind the parser creates. */
  datatype Kind =
    | Program | VarDecl | FunDecl | Params | ParamList | Param
    | CompoundStmt | LocalDeclarations | StatementList
    | ExpressionStmt | SelectionStmt | IterationStmt | ReturnStmt
    | Assign | Relop | Addop | Mulop | Var | Call | Args | ArgList
    | Num | Id | TypeSpecifier | VoidParam
    | ErrorDecl | ErrorFactor

  /** An AST node: tag, optional lexeme, ordered children, and the lexer line at construction. */
  datatype Node = Node(kind: Kind, lexeme: Option<string>, children: seq<Node>, line: int)

  /** What may be handed to `add`: nothing, one node, or a list of nodes. */
  datatype Item = Nothing | One(node: Node) | Many(nodes: seq<Node>)

  /** The nodes an item stands for, in order. */
  function Nodes(item: Item): seq<Node>
  {
    match item
    case Nothing => []
    case One(n) => [n]
    case Many(ns) => ns
  }

  /** `ASTNode.add`: a list is appended element by element, a node is appended, nothing is dropped. */
  function Add(n: Node, item: Item): (r: Node)
    ensures r.kind == n.kind && r.lexeme == n.lexeme && r.line == n.line
    ensures r.children == n.children + Nodes(item)
  {
    match item
    case Nothing => n
    case One(c) => n.(children := n.children + [c])
    case Many(cs) => n.(children := n.children + cs)
  }

  /** Appending one node and then a list is appending the node followed by the list. */
  lemma AppendAssoc(a: seq<Node>, x: Node, b: seq<Node>)
    ensures a + ([x] + b) == (a + [x]) + b
  {
  }

  /** Adding an item and then a list is adding the item's nodes followed by the list. */
  lemma AddThenAdd(n: Node, a: Item, b: seq<Node>)
    ensures Add(Add(n, a), Many(b)) == Add(n, Many(Nodes(a) + b))
  {
    assert (n.children + Nodes(a)) + b == n.children + (Nodes(a) + b);
  }

  /** Adding an empty list leaves the node as it is. */
  lemma AddNone(n: Node)
    ensures Add(n, Many([])) == n
  {
    assert n.children + [] == n.children;
  }

  /** A fresh node with no children. */
  function Leaf(kind: Kind, lexeme: Option<string>, line: int): Node
  {
    Node(kind, lexeme, [], line)
  }

  // ---------------------------------------------------------------------------
  // The shapes the parser produces, one predicate per grammar category.

  /** A node returned by expression, simple-expression, additive-expression, term or factor. */
  predicate ExprShape(n: Node)
  {
    match n.kind
    case Num => n.lexeme.Some? && n.children == []
    case ErrorFactor => n.lexeme.None? && n.children == []
    case Var => n.lexeme.Some? && (|n.children| == 0 || (|n.children| == 1 && ExprShape(n.children[0])))
    case Call => n.lexeme.Some? && |n.children| == 1 && ArgsShape(n.children[0])
    case Addop => n.lexeme.Some? && |n.children| == 2 && ExprShape(n.children[0]) && ExprShape(n.children[1])
    case Mulop => n.lexeme.Some? && |n.children| == 2 && ExprShape(n.children[0]) && ExprShape(n.children[1])
    case Relop => n.lexeme.Some? && |n.children| == 2 && ExprShape(n.children[0]) && ExprShape(n.children[1])
    case Assign =>
      (|n.children| == 1 && ExprShape(n.children[0])) ||
      (|n.children| == 2 && ExprShape(n.children[0]) && (ExprShape(n.children[1]) || ArgsShape(n.children[1])))
    case _ => false
  }

  /** Every node of `ns` is an expression. */
  predicate AllExprs(ns: seq<Node>)
  {
    forall i | 0 <= i < |ns| :: ExprShape(ns[i])
  }

  /** An `arg_list` node: at least one expression. */
  predicate ArgListShape(n: Node)
  {
    n.kind == ArgList && n.lexeme.None? && |n.children| >= 1 && AllExprs(n.children)
  }

  /** The `args` node of a call: empty, or one `arg_list`. */
  predicate ArgsShape(n: Node)
  {
    n.kind == Args && n.lexeme.None? &&
    (|n.children| == 0 || (|n.children| == 1 && ArgListShape(n.children[0])))
  }

  /** A leaf that carries a lexeme. */
  predicate LeafShape(n: Node, k: Kind)
  {
    n.kind == k && n.lexeme.Some? && n.children == []
  }

  /** `param`: a type specifier, then the identifier when one was present. */
  predicate ParamShape(n: Node)
  {
    n.kind == Param && n.lexeme.None? && 1 <= |n.children| <= 2 &&
    LeafShape(n.children[0], TypeSpecifier) &&
    (|n.children| == 2 ==> LeafShape(n.children[1], Id))
  }

  /** Every node of `ns` is a param. */
  predicate AllParams(ns: seq<Node>)
  {
    forall i | 0 <= i < |ns| :: ParamShape(ns[i])
  }

  /** `params`: empty, a single `VOID`, or one `param_list` of at least one parameter. */
  predicate ParamsShape(n: Node)
  {
    n.kind == Params && n.lexeme.None? &&
    (|n.children| == 0 ||
     (|n.children| == 1 && LeafShape(n.children[0], VoidParam)) ||
     (|n.children| == 1 && n.children[0].kind == ParamList && n.children[0].lexeme.None? &&
      |n.children[0].children| >= 1 && AllParams(n.children[0].children)))
  }

  /** `var_decl`: [type_specifier, ID] or [type_specifier, ID, NUM]. */
  predicate VarDeclShape(n: Node)
  {
    n.kind == VarDecl && n.lexeme.None? && 2 <= |n.children| <= 3 &&
    LeafShape(n.children[0], TypeSpecifier) && LeafShape(n.children[1], Id) &&
    (|n.children| == 3 ==> LeafShape(n.children[2], Num))
  }

  /** Every node of `ns` is a var_decl. */
  predicate AllVarDecls(ns: seq<Node>)
  {
    forall i | 0 <= i < |ns| :: VarDeclShape(ns[i])
  }

  /** Every node of `ns` is a var_decl of type `tipo`. */
  predicate VarDeclsOfType(ns: seq<Node>, tipo: string)
  {
    forall i | 0 <= i < |ns| :: VarDeclShape(ns[i]) && ns[i].children[0].lexeme == Some(tipo)
  }

  /** A node returned by declaration (or one element of the list it returns). */
  predicate DeclShape(n: Node)
  {
    match n.kind
    case VarDecl => VarDeclShape(n)
    case ErrorDecl => n.lexeme.None? && n.children == []
    case FunDecl =>
      n.lexeme.None? && |n.children| == 4 &&
      LeafShape(n.children[0], TypeSpecifier) && LeafShape(n.children[1], Id) &&
      ParamsShape(n.children[2]) && CompoundShape(n.children[3])
    case _ => false
  }

  /** Every node of `ns` is a declaration. */
  predicate AllDecls(ns: seq<Node>)
  {
    forall i | 0 <= i < |ns| :: DeclShape(ns[i])
  }

  /** A node returned by statement. */
  predicate StmtShape(n: Node)
    decreases n, 1
  {
    match n.kind
    case CompoundStmt => CompoundShape(n)
    case SelectionStmt =>
      n.lexeme.None? && 2 <= |n.children| <= 3 && ExprShape(n.children[0]) &&
      StmtShape(n.children[1]) && (|n.children| == 3 ==> StmtShape(n.children[2]))
    case IterationStmt =>
      n.lexeme.None? && |n.children| == 2 && ExprShape(n.children[0]) && StmtShape(n.children[1])
    case ReturnStmt =>
      n.lexeme.None? && (|n.children| == 0 || (|n.children| == 1 && ExprShape(n.children[0])))
    case ExpressionStmt =>
      n.lexeme.None? && (|n.children| == 0 || (|n.children| == 1 && ExprShape(n.children[0])))
    case _ => false
  }

  /** compound_stmt: its local declarations, then its statement list. */
  predicate CompoundShape(n: Node)
    decreases n, 0
  {
    n.kind == CompoundStmt && n.lexeme.None? && |n.children| == 2 &&
    n.children[0].kind == LocalDeclarations && n.children[0].lexeme.None? && AllDecls(n.children[0].children) &&
    n.children[1].kind == StatementList && n.children[1].lexeme.None? && AllStmts(n.children[1].children)
  }

  /** Every node of `ns` is a statement. */
  predicate AllStmts(ns: seq<Node>)
  {
    forall i | 0 <= i < |ns| :: StmtShape(ns[i])
  }

  /** The root returned by program: every top-level child is a declaration. */
  predicate ProgramShape(n: Node)
  {
    n.kind == Program && n.lexeme.None? && AllDecls(n.children)
  }

  /** The item returned by declaration: one declaration node, or a list of at least two var_decls. */
  predicate DeclItem(item: Item)
  {
    match item
    case Nothing => false
    case One(d) => DeclShape(d)
    case Many(ds) => |ds| >= 2 && AllVarDecls(ds)
  }

  // ---------------------------------------------------------------------------
  // How the parser's `add` calls build each shape.

  /** A binary operator node with its two operands. */
  lemma BinaryShape(k: Kind, op: string, a: Node, b: Node, line: int)
    requires k in {Addop, Mulop, Relop} && ExprShape(a) && ExprShape(b)
    ensures ExprShape(Add(Add(Leaf(k, Some(op), line), One(a)), One(b)))
  {
  }

  /** An indexed variable and a call. */
  lemma FactorShapes(name: string, idx: Node, args: Node, line: int)
    ensures ExprShape(idx) ==> ExprShape(Add(Leaf(Var, Some(name), line), One(idx)))
    ensures ArgsShape(args) ==> ExprShape(Add(Leaf(Call, Some(name), line), One(args)))
  {
  }

  /** An assignment: the right-hand side, then the first child of the left-hand side if it has one. */
  lemma AssignShape(lhs: Node, rhs: Node, line: int)
    requires ExprShape(lhs) && ExprShape(rhs)
    ensures var a := Add(Leaf(Assign, lhs.lexeme, line), One(rhs));
      ExprShape(if |lhs.children| > 0 then Add(a, One(lhs.children[0])) else a)
  {
  }

  /** An `arg_list` grows by one expression at a time; `args` holds it. */
  lemma ArgListShapes(n: Node, e: Node, line: int)
    ensures n.kind == ArgList && n.lexeme.None? && AllExprs(n.children) && ExprShape(e) ==>
      ArgListShape(Add(n, One(e)))
    ensures ArgListShape(n) ==> ArgsShape(Add(Leaf(Args, None, line), One(n)))
  {
  }

  /** A statement with an optional expression: expression_stmt and return_stmt. */
  lemma OptionalExprShape(k: Kind, e: Node, line: int)
    requires k in {ExpressionStmt, ReturnStmt}
    ensures StmtShape(Leaf(k, None, line))
    ensures ExprShape(e) ==> StmtShape(Add(Leaf(k, None, line), One(e)))
  {
  }

  /** iteration_stmt: the condition, then the body. */
  lemma IterationShape(c: Node, body: Node, line: int)
    requires ExprShape(c) && StmtShape(body)
    ensures StmtShape(Add(Add(Leaf(IterationStmt, None, line), One(c)), One(body)))
  {
    assert Add(Add(Leaf(IterationStmt, None, line), One(c)), One(body)).children == [c, body];
  }

  /** selection_stmt: the condition, the then-branch, and the else-branch when there is one. */
  lemma SelectionShape(c: Node, th: Node, el: Node, line: int)
    requires ExprShape(c) && StmtShape(th)
    ensures var sel := Add(Add(Leaf(SelectionStmt, None, line), One(c)), One(th));
      StmtShape(sel) && (StmtShape(el) ==> StmtShape(Add(sel, One(el))))
  {
    var sel := Add(Add(Leaf(SelectionStmt, None, line), One(c)), One(th));
    assert sel.children == [c, th];
    assert Add(sel, One(el)).children == [c, th, el];
  }

  /** A fresh node followed by a list of children has exactly those children. */
  lemma ListNode(k: Kind, line: int, ns: seq<Node>)
    ensures Add(Leaf(k, None, line), Many(ns)) == Node(k, None, ns, line)
  {
  }

  /** compound_stmt: its local declarations, then its statement list. */
  lemma CompoundShapeOf(ds: seq<Node>, ss: seq<Node>, dline: int, sline: int, line: int)
    requires AllDecls(ds) && AllStmts(ss)
    ensures CompoundShape(Add(Add(Leaf(CompoundStmt, None, line), One(Node(LocalDeclarations, None, ds, dline))),
                              One(Node(StatementList, None, ss, sline))))
  {
  }

  /** The nodes of a declaration item are declarations, and so are their concatenations. */
  lemma DeclsAppend(item: Item, rest: seq<Node>)
    requires DeclItem(item) && AllDecls(rest)
    ensures AllDecls(Nodes(item) + rest)
  {
    var ns := Nodes(item) + rest;
    forall i | 0 <= i < |ns|
      ensures DeclShape(ns[i])
    {
      if i >= |Nodes(item)| {
        assert ns[i] == rest[i - |Nodes(item)|];
      } else if item.Many? {
        assert VarDeclShape(item.nodes[i]);
      }
    }
  }

  /** Lists built one element at a time. */
  lemma ConsShapes(n: Node, rest: seq<Node>)
    ensures StmtShape(n) && AllStmts(rest) ==> AllStmts([n] + rest)
    ensures ParamShape(n) && AllParams(rest) ==> AllParams([n] + rest)
    ensures VarDeclShape(n) && AllVarDecls(rest) ==> AllVarDecls([n] + rest)
  {
  }

  /** var_decls of one type, collected one at a time. */
  lemma ConsVarDecl(v: Node, rest: seq<Node>, tipo: string)
    ensures VarDeclShape(v) && v.children[0].lexeme == Some(tipo) && VarDeclsOfType(rest, tipo) ==>
      VarDeclsOfType([v] + rest, tipo)
    ensures VarDeclsOfType(rest, tipo) ==> AllVarDecls(rest)
  {
  }

  /** What variable declaration returns: one var_decl alone, or the list of all of them. */
  lemma VarDeclItem(first: Node, more: seq<Node>)
    requires VarDeclShape(first) && AllVarDecls(more)
    ensures var decls := [first] + more;
      DeclItem(if |decls| == 1 then One(first) else Many(decls))
  {
    ConsShapes(first, more);
  }

  /** A declaration item holding one fun_decl. */
  predicate FunItem(item: Item)
  {
    item.One? && item.node.kind == FunDecl && DeclShape(item.node)
  }

  /** fun_decl: type, name, params, body. */
  lemma FunShape(tipo: string, name: string, p: Node, c: Node, line: int)
    requires ParamsShape(p) && CompoundShape(c)
    ensures var fn := Node(FunDecl, None, [Leaf(TypeSpecifier, Some(tipo), line), Leaf(Id, Some(name), line)], line);
      FunItem(One(Add(Add(fn, One(p)), One(c))))
  {
    var ty, id := Leaf(TypeSpecifier, Some(tipo), line), Leaf(Id, Some(name), line);
    var f := Add(Add(Node(FunDecl, None, [ty, id], line), One(p)), One(c));
    assert f.children == [ty, id, p, c];
  }

  /** params as the parser assembles it: empty, `void`, or a param_list. */
  lemma ParamsShapes(l: Node, v: string, line: int, vline: int)
    ensures ParamsShape(Leaf(Params, None, line))
    ensures ParamsShape(Add(Leaf(Params, None, line), One(Leaf(VoidParam, Some(v), vline))))
    ensures l.kind == ParamList && l.lexeme.None? && |l.children| >= 1 && AllParams(l.children) ==>
      ParamsShape(Add(Leaf(Params, None, line), One(l)))
  {
  }

  /** param_list and param as the parser assembles them. */
  lemma ParamShapes(p: Node, more: seq<Node>, tipo: string, name: string, line: int, pline: int)
    ensures ParamShape(p) && AllParams(more) ==>
      var l := Add(Add(Leaf(ParamList, None, line), One(p)), Many(more));
      l.kind == ParamList && l.lexeme.None? && |l.children| >= 1 && AllParams(l.children)
    ensures var q := Node(Param, None, [Leaf(TypeSpecifier, Some(tipo), line)], line);
      ParamShape(q) && ParamShape(Add(q, One(Leaf(Id, Some(name), pline))))
  {
    if ParamShape(p) && AllParams(more) {
      ConsShapes(p, more);
      assert Add(Add(Leaf(ParamList, None, line), One(p)), Many(more)).children == [p] + more;
    }
  }
}
