/**
 * The recursive-descent parser of parser.py as an object.  The module globals `token`,
 * `lexeme` and `_error` become the fields of a Parser: the token stream, the cursor
 * into it, the error flag and the reports of `error`.  Every procedure of the source is
 * a method here, and each is proved to leave the parser in the state, and to return the
 * value, that the function of the same name in ParserSpec describes.
 */
module Parser {
  import opened Wrappers
  import opened Tokens
  import opened Ast
  import ParserSpec

  class Parser {
    /** The tokens the lexer produces, in order, without the final ENDFILE. */
    const toks: seq<Token>
    /** Index of the current token; |toks| stands for the ENDFILE the lexer keeps returning. */
    var pos: nat
    /** `_error`. */
    var err: bool
    /** The reports printed by `error`, oldest first. */
    var diags: seq<ParserSpec.Diag>

    /** The parser's state as a value. */
    function St(): ParserSpec.PState
      reads this
    {
      ParserSpec.PState(pos, err, diags)
    }

    /** `token`, `lexeme` and the lexer line. */
    function Current(): Token
      reads this
    {
      TokenAt(toks, pos)
    }

    /** The module as loaded: no token fetched yet, no error. */
    constructor (ts: seq<Token>)
      ensures toks == ts && pos == 0 && !err && diags == []
    {
      toks := ts;
      pos := 0;
      err := false;
      diags := [];
    }

    /** The loop of `advance`: keep fetching while the current token is a comment. */
    method SkipComments()
      requires pos <= |toks|
      modifies this
      ensures pos == ParserSpec.SkipFrom(toks, old(pos)) && err == old(err) && diags == old(diags)
    {
      while pos < |toks| && Skipped(toks[pos])
        invariant pos <= |toks|
        invariant ParserSpec.SkipFrom(toks, pos) == ParserSpec.SkipFrom(toks, old(pos))
        invariant err == old(err) && diags == old(diags)
        decreases |toks| - pos
      {
        pos := pos + 1;
      }
    }

    /** `advance`: fetch the next token (ENDFILE stays ENDFILE), then skip comments. */
    method Advance()
      requires pos <= |toks|
      modifies this
      ensures St() == ParserSpec.Advance(toks, old(St()))
    {
      if pos < |toks| {
        pos := pos + 1;
      }
      SkipComments();
    }

    /** `error`: raise the flag and report at the current line. */
    method Error(m: ParserSpec.DiagMsg)
      requires ParserSpec.Valid(toks, St())
      modifies this
      ensures St() == ParserSpec.Error(toks, old(St()), m)
    {
      err := true;
      diags := diags + [ParserSpec.Diag(Current().line, m)];
    }

    /** `panic_recovery(sync)`. */
    method PanicRecovery(sync: set<TokenType>)
      requires ParserSpec.Valid(toks, St())
      modifies this
      ensures St() == ParserSpec.Panic(toks, old(St()), sync)
    {
      ghost var goal := ParserSpec.Panic(toks, St(), sync);
      while Current().kind !in sync && Current().kind != ENDFILE
        invariant ParserSpec.Valid(toks, St())
        invariant ParserSpec.Panic(toks, St(), sync) == goal
        decreases |toks| - pos
      {
        Advance();
      }
    }

    /** `match(expected)`. */
    method Match(expected: TokenType)
      requires ParserSpec.Valid(toks, St())
      modifies this
      ensures St() == ParserSpec.Match(toks, old(St()), expected)
    {
      if Current().kind == expected {
        Advance();
      } else {
        Error(ParserSpec.Expected(expected, Current().kind));
        PanicRecovery(ParserSpec.MatchSync);
        if Current().kind == expected {
          Advance();
        }
      }
    }

    // -------------------------------------------------------------------------
    // Expressions.

    /** `expression`. */
    method Expression() returns (n: Node)
      requires ParserSpec.Valid(toks, St())
      modifies this
      ensures ParserSpec.Parsed(n, St()) == ParserSpec.Expression(toks, old(St()))
      decreases |toks| - pos, 5
    {
      n := SimpleExpression();
      if Current().kind == EQ {
        var lhs := n;
        if lhs.kind != Var {
          Error(ParserSpec.AssignTargetNotVar);
        }
        Match(EQ);
        var rhs := Expression();
        var assign := Leaf(Assign, lhs.lexeme, Current().line);
        assign := Add(assign, One(rhs));
        if |lhs.children| > 0 {
          assign := Add(assign, One(lhs.children[0]));
        }
        n := assign;
      }
    }

    /** `simple_expression`. */
    method SimpleExpression() returns (n: Node)
      requires ParserSpec.Valid(toks, St())
      modifies this
      ensures ParserSpec.Parsed(n, St()) == ParserSpec.SimpleExpression(toks, old(St()))
      decreases |toks| - pos, 4
    {
      n := AdditiveExpression();
      var t := Current();
      if t.kind in RelOps {
        Match(t.kind);
        var rel := Leaf(Relop, Some(t.lexeme), Current().line);
        rel := Add(rel, One(n));
        var right := AdditiveExpression();
        n := Add(rel, One(right));
      }
    }

    /** `additive_expression`: a term, then a loop folding '+' / '-' to the left. */
    method AdditiveExpression() returns (n: Node)
      requires ParserSpec.Valid(toks, St())
      modifies this
      ensures ParserSpec.Parsed(n, St()) == ParserSpec.AdditiveExpression(toks, old(St()))
      decreases |toks| - pos, 3
    {
      ghost var goal := ParserSpec.AdditiveExpression(toks, St());
      n := Term();
      while Current().kind == PLUS || Current().kind == MINUS
        invariant ParserSpec.Valid(toks, St()) && old(pos) <= pos
        invariant ParserSpec.AdditiveTail(toks, n, St()) == goal
        decreases |toks| - pos
      {
        var t := Current();
        Match(t.kind);
        var addn := Add(Leaf(Addop, Some(t.lexeme), Current().line), One(n));
        var right := Term();
        n := Add(addn, One(right));
      }
    }

    /** `term`: a factor, then a loop folding '*' / '/' to the left. */
    method Term() returns (n: Node)
      requires ParserSpec.Valid(toks, St())
      modifies this
      ensures ParserSpec.Parsed(n, St()) == ParserSpec.Term(toks, old(St()))
      decreases |toks| - pos, 2
    {
      ghost var goal := ParserSpec.Term(toks, St());
      n := Factor();
      while Current().kind == TIMES || Current().kind == OVER
        invariant ParserSpec.Valid(toks, St()) && old(pos) <= pos
        invariant ParserSpec.TermTail(toks, n, St()) == goal
        decreases |toks| - pos
      {
        var t := Current();
        Match(t.kind);
        var mul := Add(Leaf(Mulop, Some(t.lexeme), Current().line), One(n));
        var right := Factor();
        n := Add(mul, One(right));
      }
    }

    /** `factor`. */
    method Factor() returns (n: Node)
      requires ParserSpec.Valid(toks, St())
      modifies this
      ensures ParserSpec.Parsed(n, St()) == ParserSpec.Factor(toks, old(St()))
      decreases |toks| - pos, 1
    {
      var t := Current();
      if t.kind == LPAREN {
        Match(LPAREN);
        n := Expression();
        Match(RPAREN);
      } else if t.kind == NUM {
        Match(NUM);
        n := Leaf(Num, Some(t.lexeme), Current().line);
      } else if t.kind == ID {
        Match(ID);
        if Current().kind == LBRACKET {
          Match(LBRACKET);
          var idx := Expression();
          Match(RBRACKET);
          n := Add(Leaf(Var, Some(t.lexeme), Current().line), One(idx));
        } else if Current().kind == LPAREN {
          var call := Leaf(Call, Some(t.lexeme), Current().line);
          Match(LPAREN);
          var a := Args();
          Match(RPAREN);
          n := Add(call, One(a));
        } else {
          n := Leaf(Var, Some(t.lexeme), Current().line);
        }
      } else {
        Error(ParserSpec.BadFactor);
        Advance();
        n := Leaf(ErrorFactor, None, Current().line);
      }
    }

    /** `args`. */
    method Args() returns (n: Node)
      requires ParserSpec.Valid(toks, St())
      modifies this
      ensures ParserSpec.Parsed(n, St()) == ParserSpec.Args(toks, old(St()))
      decreases |toks| - pos, 7
    {
      n := Leaf(Ast.Args, None, Current().line);
      if Current().kind != RPAREN {
        var l := ArgList();
        n := Add(n, One(l));
      }
    }

    /** `arg_list`: an expression, then a loop over ',' expression. */
    method ArgList() returns (n: Node)
      requires ParserSpec.Valid(toks, St())
      modifies this
      ensures ParserSpec.Parsed(n, St()) == ParserSpec.ArgList(toks, old(St()))
      decreases |toks| - pos, 6
    {
      ghost var goal := ParserSpec.ArgList(toks, St());
      n := Leaf(Ast.ArgList, None, Current().line);
      var e := Expression();
      n := Add(n, One(e));
      while Current().kind == COMMA
        invariant ParserSpec.Valid(toks, St()) && old(pos) <= pos
        invariant ParserSpec.ArgListTail(toks, n, St()) == goal
        decreases |toks| - pos
      {
        Match(COMMA);
        e := Expression();
        n := Add(n, One(e));
      }
    }

    // -------------------------------------------------------------------------
    // Statements.

    /** `statement`. */
    method Statement() returns (n: Node)
      requires ParserSpec.Valid(toks, St())
      modifies this
      ensures ParserSpec.Parsed(n, St()) == ParserSpec.Statement(toks, old(St()))
      decreases |toks| - pos, 5
    {
      var k := Current().kind;
      if k == LBRACE {
        n := CompoundStmt();
      } else if k == IF {
        n := SelectionStmt();
      } else if k == WHILE {
        n := IterationStmt();
      } else if k == RETURN {
        n := ReturnStmt();
      } else {
        n := ExpressionStmt();
      }
    }

    /** `expression_stmt`. */
    method ExpressionStmt() returns (n: Node)
      requires ParserSpec.Valid(toks, St())
      modifies this
      ensures ParserSpec.Parsed(n, St()) == ParserSpec.ExpressionStmt(toks, old(St()))
    {
      n := Leaf(Ast.ExpressionStmt, None, Current().line);
      if Current().kind != SEMI {
        var e := Expression();
        n := Add(n, One(e));
      }
      Match(SEMI);
    }

    /** `selection_stmt`, called on 'if'. */
    method SelectionStmt() returns (n: Node)
      requires ParserSpec.Valid(toks, St()) && Current().kind == IF
      modifies this
      ensures ParserSpec.Parsed(n, St()) == ParserSpec.SelectionStmt(toks, old(St()))
      decreases |toks| - pos, 4
    {
      n := Leaf(Ast.SelectionStmt, None, Current().line);
      Match(IF);
      Match(LPAREN);
      var c := Expression();
      n := Add(n, One(c));
      Match(RPAREN);
      var th := Statement();
      n := Add(n, One(th));
      if Current().kind == ELSE {
        Match(ELSE);
        var el := Statement();
        n := Add(n, One(el));
      }
    }

    /** `iteration_stmt`, called on 'while'. */
    method IterationStmt() returns (n: Node)
      requires ParserSpec.Valid(toks, St()) && Current().kind == WHILE
      modifies this
      ensures ParserSpec.Parsed(n, St()) == ParserSpec.IterationStmt(toks, old(St()))
      decreases |toks| - pos, 4
    {
      n := Leaf(Ast.IterationStmt, None, Current().line);
      Match(WHILE);
      Match(LPAREN);
      var c := Expression();
      n := Add(n, One(c));
      Match(RPAREN);
      var body := Statement();
      n := Add(n, One(body));
    }

    /** `return_stmt`, called on 'return'. */
    method ReturnStmt() returns (n: Node)
      requires ParserSpec.Valid(toks, St()) && Current().kind == RETURN
      modifies this
      ensures ParserSpec.Parsed(n, St()) == ParserSpec.ReturnStmt(toks, old(St()))
    {
      n := Leaf(Ast.ReturnStmt, None, Current().line);
      Match(RETURN);
      if Current().kind != SEMI {
        var e := Expression();
        n := Add(n, One(e));
      }
      Match(SEMI);
    }

    /** `compound_stmt`. */
    method CompoundStmt() returns (n: Node)
      requires ParserSpec.Valid(toks, St())
      modifies this
      ensures ParserSpec.Parsed(n, St()) == ParserSpec.CompoundStmt(toks, old(St()))
      decreases |toks| - pos, if Current().kind == LBRACE then 4 else 9
    {
      n := Leaf(Ast.CompoundStmt, None, Current().line);
      Match(LBRACE);
      var ld := LocalDeclarations();
      n := Add(n, One(ld));
      var sl := StatementList();
      n := Add(n, One(sl));
      Match(RBRACE);
    }

    /** `local_declarations`: a loop over declarations starting with 'int' or 'void'. */
    method LocalDeclarations() returns (n: Node)
      requires ParserSpec.Valid(toks, St())
      modifies this
      ensures ParserSpec.Parsed(n, St()) == ParserSpec.LocalDeclarations(toks, old(St()))
      decreases |toks| - pos, 8
    {
      ghost var goal := ParserSpec.LocalDeclarations(toks, St());
      n := Leaf(Ast.LocalDeclarations, None, Current().line);
      while Current().kind in {INT, VOID}
        invariant ParserSpec.Valid(toks, St()) && old(pos) <= pos
        invariant Add(n, Many(ParserSpec.Declarations(toks, St()).value)) == goal.value
        invariant ParserSpec.Declarations(toks, St()).st == goal.st
        decreases |toks| - pos
      {
        var d := Declaration();
        AddThenAdd(n, d, ParserSpec.Declarations(toks, St()).value);
        n := Add(n, d);
      }
      AddNone(n);
    }

    /** `statement_list`: a loop over statements until '}' or ENDFILE. */
    method StatementList() returns (n: Node)
      requires ParserSpec.Valid(toks, St())
      modifies this
      ensures ParserSpec.Parsed(n, St()) == ParserSpec.StatementList(toks, old(St()))
      decreases |toks| - pos, 7
    {
      ghost var goal := ParserSpec.StatementList(toks, St());
      n := Leaf(Ast.StatementList, None, Current().line);
      while Current().kind !in {RBRACE, ENDFILE}
        invariant ParserSpec.Valid(toks, St()) && old(pos) <= pos
        invariant Add(n, Many(ParserSpec.Statements(toks, St()).value)) == goal.value
        invariant ParserSpec.Statements(toks, St()).st == goal.st
        decreases |toks| - pos
      {
        var s := Statement();
        AddThenAdd(n, One(s), ParserSpec.Statements(toks, St()).value);
        n := Add(n, One(s));
      }
      AddNone(n);
    }

    // -------------------------------------------------------------------------
    // Declarations.

    /** `declaration`, called on 'int' or 'void'. */
    method Declaration() returns (d: Item)
      requires ParserSpec.Valid(toks, St()) && Current().kind in {INT, VOID}
      modifies this
      ensures ParserSpec.Parsed(d, St()) == ParserSpec.Declaration(toks, old(St()))
      decreases |toks| - pos, 3
    {
      var tipo := Current().lexeme;
      Match(Current().kind);
      if Current().kind != ID {
        Error(ParserSpec.MissingDeclId);
        PanicRecovery({SEMI});
        d := One(Leaf(ErrorDecl, None, Current().line));
        return;
      }
      var name := Current().lexeme;
      Match(ID);
      if Current().kind == LPAREN {
        d := FunDeclaration(tipo, name);
      } else {
        d := VarDeclaration(tipo, name);
      }
    }

    /** The function branch of `declaration`, from the '(' after the name. */
    method FunDeclaration(tipo: string, name: string) returns (d: Item)
      requires ParserSpec.Valid(toks, St()) && Current().kind == LPAREN
      modifies this
      ensures ParserSpec.Parsed(d, St()) == ParserSpec.FunDeclaration(toks, tipo, name, old(St()))
      decreases |toks| - pos, 2
    {
      var ln := Current().line;
      var fn := Node(FunDecl, None, [Leaf(TypeSpecifier, Some(tipo), ln), Leaf(Id, Some(name), ln)], ln);
      Match(LPAREN);
      var p := Params();
      fn := Add(fn, One(p));
      Match(RPAREN);
      var c := CompoundStmt();
      fn := Add(fn, One(c));
      d := One(fn);
    }

    /** The optional '[ NUM ]' after a declared name, then `add_var`. */
    method VarDeclarator(tipo: string, name: string) returns (v: Node)
      requires ParserSpec.Valid(toks, St())
      modifies this
      ensures ParserSpec.Parsed(v, St()) == ParserSpec.VarDeclarator(toks, tipo, name, old(St()))
    {
      if Current().kind == LBRACKET {
        Match(LBRACKET);
        var sz := Current().lexeme;
        Match(NUM);
        Match(RBRACKET);
        v := ParserSpec.VarNode(tipo, name, Some(sz), Current().line);
      } else {
        v := ParserSpec.VarNode(tipo, name, None, Current().line);
      }
    }

    /** The variable branch of `declaration`: declarators separated by ',', then ';'. */
    method VarDeclaration(tipo: string, name: string) returns (d: Item)
      requires ParserSpec.Valid(toks, St())
      modifies this
      ensures ParserSpec.Parsed(d, St()) == ParserSpec.VarDeclaration(toks, tipo, name, old(St()))
    {
      var first := VarDeclarator(tipo, name);
      var more := MoreDeclarators(tipo);
      var decls := [first] + more;
      Match(SEMI);
      d := if |decls| == 1 then One(decls[0]) else Many(decls);
    }

    /** The loop of `declaration` over ', ID [ NUM ]', which a ',' without an identifier ends. */
    method MoreDeclarators(tipo: string) returns (decls: seq<Node>)
      requires ParserSpec.Valid(toks, St())
      modifies this
      ensures ParserSpec.Parsed(decls, St()) == ParserSpec.MoreDeclarators(toks, tipo, old(St()))
    {
      decls := [];
      ghost var goal := ParserSpec.MoreDeclarators(toks, tipo, St());
      while Current().kind == COMMA
        invariant ParserSpec.Valid(toks, St())
        invariant decls + ParserSpec.MoreDeclarators(toks, tipo, St()).value == goal.value
        invariant ParserSpec.MoreDeclarators(toks, tipo, St()).st == goal.st
        decreases |toks| - pos
      {
        Match(COMMA);
        var v := DeclaratorAfterComma(tipo);
        if v.None? {
          break;
        }
        AppendAssoc(decls, v.value, ParserSpec.MoreDeclarators(toks, tipo, St()).value);
        decls := decls + [v.value];
      }
      assert decls + [] == decls;
    }

    /**
     * One turn of the loop of variable declaration after its ',': the declarator, or
     * None when the identifier is missing (reported, and the loop ends).
     */
    method DeclaratorAfterComma(tipo: string) returns (v: Option<Node>)
      requires ParserSpec.Valid(toks, St())
      modifies this
      ensures ParserSpec.Valid(toks, St()) && old(pos) <= pos
      ensures var r := ParserSpec.DeclaratorAfterComma(toks, tipo, old(St()));
        if v.None? then r == ParserSpec.Parsed([], St())
        else r == ParserSpec.Parsed([v.value] + ParserSpec.MoreDeclarators(toks, tipo, St()).value,
                                    ParserSpec.MoreDeclarators(toks, tipo, St()).st)
    {
      if Current().kind != ID {
        Error(ParserSpec.MissingIdAfterComma);
        return None;
      }
      var nm := Current().lexeme;
      Match(ID);
      var d := VarDeclarator(tipo, nm);
      v := Some(d);
    }

    /** `params`. */
    method Params() returns (n: Node)
      requires ParserSpec.Valid(toks, St())
      modifies this
      ensures ParserSpec.Parsed(n, St()) == ParserSpec.Params(toks, old(St()))
    {
      n := Leaf(Ast.Params, None, Current().line);
      if Current().kind == VOID {
        n := Add(n, One(Leaf(VoidParam, Some(Current().lexeme), Current().line)));
        Match(VOID);
      } else if Current().kind != RPAREN {
        var l := ParamList();
        n := Add(n, One(l));
      }
    }

    /** `param_list`: a param, then a loop over ',' param. */
    method ParamList() returns (n: Node)
      requires ParserSpec.Valid(toks, St())
      modifies this
      ensures ParserSpec.Parsed(n, St()) == ParserSpec.ParamList(toks, old(St()))
    {
      ghost var goal := ParserSpec.ParamList(toks, St());
      n := Leaf(Ast.ParamList, None, Current().line);
      var p := Param();
      n := Add(n, One(p));
      while Current().kind == COMMA
        invariant ParserSpec.Valid(toks, St())
        invariant Add(n, Many(ParserSpec.MoreParams(toks, St()).value)) == goal.value
        invariant ParserSpec.MoreParams(toks, St()).st == goal.st
        decreases |toks| - pos
      {
        Match(COMMA);
        p := Param();
        AddThenAdd(n, One(p), ParserSpec.MoreParams(toks, St()).value);
        n := Add(n, One(p));
      }
      AddNone(n);
    }

    /** `param`. */
    method Param() returns (n: Node)
      requires ParserSpec.Valid(toks, St())
      modifies this
      ensures ParserSpec.Parsed(n, St()) == ParserSpec.Param(toks, old(St()))
    {
      var t := Current();
      n := Node(Ast.Param, None, [Leaf(TypeSpecifier, Some(t.lexeme), t.line)], t.line);
      Match(t.kind);
      if Current().kind == ID {
        n := Add(n, One(Leaf(Id, Some(Current().lexeme), Current().line)));
        Match(ID);
      }
      if Current().kind == LBRACKET {
        Match(LBRACKET);
        Match(RBRACKET);
      }
    }

    // -------------------------------------------------------------------------
    // The whole parse.

    /** `program`: a loop over declarations starting with 'int' or 'void'. */
    method Program() returns (n: Node)
      requires ParserSpec.Valid(toks, St())
      modifies this
      ensures ParserSpec.Parsed(n, St()) == ParserSpec.Program(toks, old(St()))
    {
      ghost var goal := ParserSpec.Program(toks, St());
      n := Leaf(Ast.Program, None, Current().line);
      while Current().kind in {INT, VOID}
        invariant ParserSpec.Valid(toks, St())
        invariant Add(n, Many(ParserSpec.Declarations(toks, St()).value)) == goal.value
        invariant ParserSpec.Declarations(toks, St()).st == goal.st
        decreases |toks| - pos
      {
        var d := Declaration();
        AddThenAdd(n, d, ParserSpec.Declarations(toks, St()).value);
        n := Add(n, d);
      }
      AddNone(n);
    }

    /** `parser`, on a parser that has fetched no token yet. */
    method Parse() returns (root: Node)
      requires pos == 0 && !err && diags == []
      modifies this
      ensures ParserSpec.Parsed(root, St()) == ParserSpec.Parse(toks)
    {
      SkipComments();
      root := Program();
      if |root.children| > 0 && !ParserSpec.IsMainFunction(root.children[|root.children| - 1]) {
        Error(ParserSpec.LastNotMain);
      }
      if Current().kind != ENDFILE {
        Error(ParserSpec.TrailingTokens);
      }
    }
  }
}
