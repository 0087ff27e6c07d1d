/** Writing a syntax tree back as text, with only the parentheses its binding powers require. */
module Printer {
  import opened Basics
  import opened Lexer
  import opened Parser

  function OpToken(op: BinOp): (t: Token)
    ensures ToBinOp(t) == Some(op) && t != LParen && Writable(t)
  {
    match op
    case Add => Plus
    case Sub => Minus
    case Mul => Star
    case Div => Slash
    case Mod => Percent
    case BitAnd => Amp
    case BitOr => Pipe
    case BitXor => Caret
    case Shl => ShiftLeft
    case Shr => ShiftRight
    case LogicAnd => And
    case LogicOr => Or
    case Equal => Eq
    case NotEqual => NotEq
    case Less => Lt
    case Greater => Gt
    case LessEqual => LtEq
    case GreaterEqual => GtEq
  }

  function UnaryToken(op: UnaryOp): (t: Token)
    ensures ToUnaryOp(t) == Some(op) && Writable(t)
  {
    match op
    case Neg => Minus
    case Not => Bang
    case BitNot => Tilde
  }

  /** Trees whose leaves have a spelling: lexable names other than the two truth words, and literals
      in range. */
  predicate Printable(e: Expr) {
    match e
    case Lit(IntLit(n)) => n <= I64_MAX
    case Lit(FloatLit(text)) => IsFloatText(text)
    case Lit(BoolLit(_)) => true
    case Var(name) => IsName(name) && !SameIgnoringCase(name, "true") && !SameIgnoringCase(name, "false")
    case Binary(_, l, r) => Printable(l) && Printable(r)
    case Unary(_, x) => Printable(x)
    case If(c, y, n) => Printable(c) && Printable(y) && Printable(n)
  }

  /** A binary expression standing where `k` is demanded is parenthesised when it binds less tightly. */
  predicate NeedsParens(e: Expr, k: nat) {
    e.Binary? && LeftBp(e.op) < k
  }

  /** The tokens of an expression in a context that demands binding power `k`. */
  function Print(e: Expr, k: nat): seq<Token>
    decreases e, NeedsParens(e, k)
  {
    if NeedsParens(e, k) then [LParen] + (Print(e, 0) + [RParen])
    else
      match e
      case Lit(IntLit(n)) => [Int(n)]
      case Lit(FloatLit(text)) => [Float(text)]
      case Lit(BoolLit(b)) => [Ident(if b then "true" else "false")]
      case Var(name) => [Ident(name)]
      case Unary(op, x) => [UnaryToken(op)] + Print(x, PREFIX_BP)
      case Binary(op, l, r) => Print(l, LeftBp(op)) + ([OpToken(op)] + Print(r, RightBp(op)))
      case If(c, y, n) =>
        [Ident("IF")] + ([LParen] + (Print(c, 0) + ([Comma] + (Print(y, 0) + ([Comma] + (Print(n, 0) + [RParen]))))))
  }

  /** A piece stands at a position of a token list. */
  predicate Occurs(ts: seq<Token>, pos: nat, piece: seq<Token>) {
    pos + |piece| <= |ts| && ts[pos..pos + |piece|] == piece
  }

  lemma OccursParts(ts: seq<Token>, pos: nat, a: seq<Token>, b: seq<Token>)
    requires Occurs(ts, pos, a + b)
    ensures Occurs(ts, pos, a) && Occurs(ts, pos + |a|, b)
  {
    var w := ts[pos..pos + |a| + |b|];
    assert w[..|a|] == a && w[|a|..] == b;
    assert ts[pos..pos + |a|] == w[..|a|];
    assert ts[pos + |a|..pos + |a| + |b|] == w[|a|..];
  }

  lemma OccursToken(ts: seq<Token>, pos: nat, t: Token)
    requires Occurs(ts, pos, [t])
    ensures pos < |ts| && Peek(ts, pos) == t
  {
    assert ts[pos..pos + 1][0] == t;
  }

  lemma OccursHead(ts: seq<Token>, pos: nat, t: Token, rest: seq<Token>)
    requires Occurs(ts, pos, [t] + rest)
    ensures pos < |ts| && Peek(ts, pos) == t && Occurs(ts, pos + 1, rest)
  {
    OccursParts(ts, pos, [t], rest);
    OccursToken(ts, pos, t);
  }

  lemma OccursSeven(ts: seq<Token>, pos: nat, t0: Token, t1: Token, a: seq<Token>, t2: Token, rest: seq<Token>)
    requires Occurs(ts, pos, [t0] + ([t1] + (a + ([t2] + rest))))
    ensures Peek(ts, pos) == t0 && Peek(ts, pos + 1) == t1 && Occurs(ts, pos + 2, a)
    ensures Peek(ts, pos + 2 + |a|) == t2 && Occurs(ts, pos + 3 + |a|, rest)
  {
    hide *;
    OccursHead(ts, pos, t0, [t1] + (a + ([t2] + rest)));
    OccursHead(ts, pos + 1, t1, a + ([t2] + rest));
    OccursParts(ts, pos + 2, a, [t2] + rest);
    OccursHead(ts, pos + 2 + |a|, t2, rest);
  }

  lemma OccursBetween(ts: seq<Token>, pos: nat, a: seq<Token>, t: Token, b: seq<Token>)
    requires Occurs(ts, pos, a + ([t] + b))
    ensures Occurs(ts, pos, a) && Peek(ts, pos + |a|) == t && Occurs(ts, pos + |a| + 1, b)
  {
    hide *;
    OccursParts(ts, pos, a, [t] + b);
    OccursHead(ts, pos + |a|, t, b);
  }

  /** The number of tokens printed. */
  function Width(e: Expr, k: nat): nat
    decreases e, NeedsParens(e, k)
  {
    if NeedsParens(e, k) then Width(e, 0) + 2
    else
      match e
      case Lit(_) => 1
      case Var(_) => 1
      case Unary(_, x) => 1 + Width(x, PREFIX_BP)
      case Binary(op, l, r) => Width(l, LeftBp(op)) + 1 + Width(r, RightBp(op))
      case If(c, y, n) => Width(c, 0) + Width(y, 0) + Width(n, 0) + 5
  }

  function LeafToken(e: Expr): Token
    requires e.Lit? || e.Var?
  {
    match e
    case Lit(IntLit(n)) => Int(n)
    case Lit(FloatLit(text)) => Float(text)
    case Lit(BoolLit(b)) => Ident(if b then "true" else "false")
    case Var(name) => Ident(name)
  }

  /** An expression stands printed at a position: the tokens in place, part by part. */
  predicate Stands(ts: seq<Token>, pos: nat, e: Expr, k: nat)
    decreases e, NeedsParens(e, k)
  {
    && pos + Width(e, k) <= |ts|
    && if NeedsParens(e, k) then
         Peek(ts, pos) == LParen && Stands(ts, pos + 1, e, 0) && Peek(ts, pos + 1 + Width(e, 0)) == RParen
       else
         match e
         case Lit(_) => Peek(ts, pos) == LeafToken(e)
         case Var(_) => Peek(ts, pos) == LeafToken(e)
         case Unary(op, x) => Peek(ts, pos) == UnaryToken(op) && Stands(ts, pos + 1, x, PREFIX_BP)
         case Binary(op, l, r) =>
           var at := pos + Width(l, LeftBp(op));
           Stands(ts, pos, l, LeftBp(op)) && Peek(ts, at) == OpToken(op) && Stands(ts, at + 1, r, RightBp(op))
         case If(c, y, n) =>
           var at1 := pos + 2 + Width(c, 0);
           var at2 := at1 + 1 + Width(y, 0);
           && Peek(ts, pos) == Ident("IF") && Peek(ts, pos + 1) == LParen
           && Stands(ts, pos + 2, c, 0) && Peek(ts, at1) == Comma
           && Stands(ts, at1 + 1, y, 0) && Peek(ts, at2) == Comma
           && Stands(ts, at2 + 1, n, 0) && Peek(ts, at2 + 1 + Width(n, 0)) == RParen
  }

  lemma {:induction false} PrintWidth(e: Expr, k: nat)
    ensures |Print(e, k)| == Width(e, k)
    decreases e, NeedsParens(e, k)
  {
    if NeedsParens(e, k) {
      PrintWidth(e, 0);
    } else {
      match e
      case Lit(_) =>
      case Var(_) =>
      case Unary(_, x) => PrintWidth(x, PREFIX_BP);
      case Binary(op, l, r) =>
        PrintWidth(l, LeftBp(op));
        PrintWidth(r, RightBp(op));
      case If(c, y, n) =>
        PrintWidth(c, 0);
        PrintWidth(y, 0);
        PrintWidth(n, 0);
    }
  }

  /** Where the printed tokens occur, the expression stands. */
  lemma {:induction false} PrintStands(ts: seq<Token>, pos: nat, e: Expr, k: nat)
    requires Occurs(ts, pos, Print(e, k))
    ensures Stands(ts, pos, e, k)
    decreases e, NeedsParens(e, k), 1
  {
    if NeedsParens(e, k) {
      ParensStands(ts, pos, e, k);
    } else {
      match e
      case Lit(_) => OccursToken(ts, pos, LeafToken(e));
      case Var(_) => OccursToken(ts, pos, LeafToken(e));
      case Unary(_, _) => UnaryStands(ts, pos, e, k);
      case Binary(_, _, _) => BinaryStands(ts, pos, e, k);
      case If(_, _, _) => IfStands(ts, pos, e, k);
    }
  }

  lemma {:induction false} ParensStands(ts: seq<Token>, pos: nat, e: Expr, k: nat)
    requires NeedsParens(e, k) && Occurs(ts, pos, Print(e, k))
    ensures Stands(ts, pos, e, k)
    decreases e, true, 0
  {
    hide *;
    PrintWidth(e, k);
    PrintWidth(e, 0);
    ParensShape(e, k);
    OccursFits(ts, pos, Print(e, k));
    ParensPieces(ts, pos, Print(e, 0));
    PrintStands(ts, pos + 1, e, 0);
    StandsParens(ts, pos, e, k);
  }

  lemma ParensShape(e: Expr, k: nat)
    requires NeedsParens(e, k)
    ensures Print(e, k) == [LParen] + (Print(e, 0) + [RParen]) && Width(e, k) == Width(e, 0) + 2 && !NeedsParens(e, 0)
  {
  }

  lemma StandsParens(ts: seq<Token>, pos: nat, e: Expr, k: nat)
    requires NeedsParens(e, k) && pos + Width(e, k) <= |ts|
    ensures Stands(ts, pos, e, k) <==>
            Peek(ts, pos) == LParen && Stands(ts, pos + 1, e, 0) && Peek(ts, pos + 1 + Width(e, 0)) == RParen
  {
    hide Peek, Width, LeftBp;
  }

  lemma UnaryStands(ts: seq<Token>, pos: nat, e: Expr, k: nat)
    requires e.Unary? && Occurs(ts, pos, Print(e, k))
    ensures Stands(ts, pos, e, k)
    decreases e, false, 0
  {
    PrintWidth(e, k);
    OccursHead(ts, pos, UnaryToken(e.uop), Print(e.operand, PREFIX_BP));
    PrintStands(ts, pos + 1, e.operand, PREFIX_BP);
  }

  lemma BinaryStands(ts: seq<Token>, pos: nat, e: Expr, k: nat)
    requires e.Binary? && !NeedsParens(e, k) && Occurs(ts, pos, Print(e, k))
    ensures Stands(ts, pos, e, k)
    decreases e, false, 0
  {
    hide *;
    var l, r := LeftBp(e.op), RightBp(e.op);
    PrintWidth(e, k);
    PrintWidth(e.left, l);
    BinaryShape(e, k);
    OccursFits(ts, pos, Print(e, k));
    OccursBetween(ts, pos, Print(e.left, l), OpToken(e.op), Print(e.right, r));
    PrintStands(ts, pos, e.left, l);
    PrintStands(ts, pos + Width(e.left, l) + 1, e.right, r);
    StandsBinary(ts, pos, e, k);
  }

  lemma BinaryShape(e: Expr, k: nat)
    requires e.Binary? && !NeedsParens(e, k)
    ensures Print(e, k) == Print(e.left, LeftBp(e.op)) + ([OpToken(e.op)] + Print(e.right, RightBp(e.op)))
    ensures Width(e, k) == Width(e.left, LeftBp(e.op)) + 1 + Width(e.right, RightBp(e.op))
    ensures Printable(e) ==> Printable(e.left) && Printable(e.right)
    ensures k <= LeftBp(e.op)
  {
    hide LeftBp, OpToken;
  }

  /** Standing printed, part by part. */
  lemma StandsBinary(ts: seq<Token>, pos: nat, e: Expr, k: nat)
    requires e.Binary? && !NeedsParens(e, k) && pos + Width(e, k) <= |ts|
    ensures var at := pos + Width(e.left, LeftBp(e.op));
      Stands(ts, pos, e, k) <==>
        Stands(ts, pos, e.left, LeftBp(e.op)) && Peek(ts, at) == OpToken(e.op) && Stands(ts, at + 1, e.right, RightBp(e.op))
  {
    hide Peek, OpToken, LeftBp, Width;
  }

  lemma ParensPieces(ts: seq<Token>, pos: nat, inner: seq<Token>)
    requires Occurs(ts, pos, [LParen] + (inner + [RParen]))
    ensures Peek(ts, pos) == LParen && Occurs(ts, pos + 1, inner) && Peek(ts, pos + 1 + |inner|) == RParen
  {
    hide *;
    OccursHead(ts, pos, LParen, inner + [RParen]);
    OccursParts(ts, pos + 1, inner, [RParen]);
    OccursToken(ts, pos + 1 + |inner|, RParen);
  }

  lemma {:induction false} IfStands(ts: seq<Token>, pos: nat, e: Expr, k: nat)
    requires e.If? && Occurs(ts, pos, Print(e, k))
    ensures Stands(ts, pos, e, k)
    decreases e, false, 0
  {
    hide *;
    IfOccurs(ts, pos, e, k);
    var at1 := pos + 2 + Width(e.cond, 0);
    var at2 := at1 + 1 + Width(e.yes, 0);
    PrintStands(ts, pos + 2, e.cond, 0);
    PrintStands(ts, at1 + 1, e.yes, 0);
    PrintStands(ts, at2 + 1, e.no, 0);
    StandsIf(ts, pos, e, k);
  }

  lemma {:induction false} IfOccurs(ts: seq<Token>, pos: nat, e: Expr, k: nat)
    requires e.If? && Occurs(ts, pos, Print(e, k))
    ensures pos + Width(e, k) <= |ts| && Peek(ts, pos) == Ident("IF") && Peek(ts, pos + 1) == LParen
    ensures var at1 := pos + 2 + Width(e.cond, 0); var at2 := at1 + 1 + Width(e.yes, 0);
      && Occurs(ts, pos + 2, Print(e.cond, 0)) && Peek(ts, at1) == Comma
      && Occurs(ts, at1 + 1, Print(e.yes, 0)) && Peek(ts, at2) == Comma
      && Occurs(ts, at2 + 1, Print(e.no, 0)) && Peek(ts, at2 + 1 + Width(e.no, 0)) == RParen
  {
    hide *;
    PrintWidth(e, k);
    PrintWidth(e.cond, 0);
    PrintWidth(e.yes, 0);
    PrintWidth(e.no, 0);
    IfShape(e, k);
    OccursFits(ts, pos, Print(e, k));
    IfPieces(ts, pos, Print(e.cond, 0), Print(e.yes, 0), Print(e.no, 0));
  }

  lemma OccursFits(ts: seq<Token>, pos: nat, piece: seq<Token>)
    requires Occurs(ts, pos, piece)
    ensures pos + |piece| <= |ts|
  {
  }

  lemma IfShape(e: Expr, k: nat)
    requires e.If?
    ensures Print(e, k) ==
      [Ident("IF")] + ([LParen] + (Print(e.cond, 0) + ([Comma] + (Print(e.yes, 0) + ([Comma] + (Print(e.no, 0) + [RParen]))))))
  {
  }

  lemma IfPieces(ts: seq<Token>, pos: nat, c: seq<Token>, y: seq<Token>, n: seq<Token>)
    requires Occurs(ts, pos, [Ident("IF")] + ([LParen] + (c + ([Comma] + (y + ([Comma] + (n + [RParen])))))))
    ensures Peek(ts, pos) == Ident("IF") && Peek(ts, pos + 1) == LParen
    ensures Occurs(ts, pos + 2, c) && Peek(ts, pos + 2 + |c|) == Comma
    ensures Occurs(ts, pos + 3 + |c|, y) && Peek(ts, pos + 3 + |c| + |y|) == Comma
    ensures Occurs(ts, pos + 4 + |c| + |y|, n) && Peek(ts, pos + 4 + |c| + |y| + |n|) == RParen
  {
    hide *;
    OccursSeven(ts, pos, Ident("IF"), LParen, c, Comma, y + ([Comma] + (n + [RParen])));
    OccursBetween(ts, pos + 3 + |c|, y, Comma, n + [RParen]);
    OccursParts(ts, pos + 4 + |c| + |y|, n, [RParen]);
    OccursToken(ts, pos + 4 + |c| + |y| + |n|, RParen);
  }

  lemma StandsIf(ts: seq<Token>, pos: nat, e: Expr, k: nat)
    requires e.If? && pos + Width(e, k) <= |ts| && Peek(ts, pos) == Ident("IF") && Peek(ts, pos + 1) == LParen
    requires Stands(ts, pos + 2, e.cond, 0) && Peek(ts, pos + 2 + Width(e.cond, 0)) == Comma
    requires Stands(ts, pos + 3 + Width(e.cond, 0), e.yes, 0) && Peek(ts, pos + 3 + Width(e.cond, 0) + Width(e.yes, 0)) == Comma
    requires Stands(ts, pos + 4 + Width(e.cond, 0) + Width(e.yes, 0), e.no, 0)
    requires Peek(ts, pos + 4 + Width(e.cond, 0) + Width(e.yes, 0) + Width(e.no, 0)) == RParen
    ensures Stands(ts, pos, e, k)
  {
    hide Width, Peek;
  }

  // ---------------------------------------------------------- parsing what stands printed

  /** What may follow an expression printed for `k`: no call, and no operator that would capture it. */
  predicate Stops(t: Token, k: nat) {
    t != LParen && (ToBinOp(t).Some? ==> LeftBp(ToBinOp(t).value) <= k)
  }

  lemma InfixStops(ts: seq<Token>, pos: nat, k: nat, e: Expr)
    requires pos <= |ts| && (ToBinOp(Peek(ts, pos)).Some? ==> LeftBp(ToBinOp(Peek(ts, pos)).value) < k)
    ensures Infix(ts, pos, k, e) == Accept(e, pos)
  {
  }

  lemma StopTokens(k: nat)
    ensures Stops(RParen, k) && Stops(Comma, k) && Stops(Eof, k)
    ensures ToBinOp(RParen) == ToBinOp(Comma) == ToBinOp(Eof) == None
  {
  }

  /** Parsing what was printed, in the middle of any token list, yields the tree and goes on behind it. */
  lemma {:induction false} ParsePrinted(ts: seq<Token>, pos: nat, e: Expr, k: nat, m: nat)
    requires Printable(e) && m <= k && Stands(ts, pos, e, k)
    requires Stops(Peek(ts, pos + Width(e, k)), k)
    ensures pos + Width(e, k) <= |ts| && ExprBp(ts, pos, m) == Infix(ts, pos + Width(e, k), m, e)
    decreases e, NeedsParens(e, k), 1
  {
    hide *;
    StandsInside(ts, pos, e, k);
    if NeedsParens(e, k) {
      ParensShape(e, k);
      StandsParens(ts, pos, e, k);
      var end := ParseClosed(ts, pos + 1, e, RParen);
      StepParens(ts, pos, e, end, m);
    } else {
      match e
      case Lit(_) => ParseLeaf(ts, pos, e, k, m);
      case Var(_) => ParseLeaf(ts, pos, e, k, m);
      case Unary(_, _) => ParseUnary(ts, pos, e, k, m);
      case Binary(_, _, _) => ParseBinary(ts, pos, e, k, m);
      case If(_, _, _) => ParseIf(ts, pos, e, k, m);
    }
  }

  lemma StandsInside(ts: seq<Token>, pos: nat, e: Expr, k: nat)
    requires Stands(ts, pos, e, k)
    ensures pos + Width(e, k) <= |ts| && !NeedsParens(e, 0)
  {
  }

  lemma UnaryParts(ts: seq<Token>, pos: nat, e: Expr, k: nat)
    requires Stands(ts, pos, e, k) && Printable(e) && e.Unary?
    ensures Width(e, k) == 1 + Width(e.operand, PREFIX_BP) && pos + Width(e, k) <= |ts|
    ensures Peek(ts, pos) == UnaryToken(e.uop) && Stands(ts, pos + 1, e.operand, PREFIX_BP) && Printable(e.operand)
  {
    hide Peek, UnaryToken;
  }

  lemma IfWidth(e: Expr, k: nat)
    requires e.If?
    ensures Width(e, k) == Width(e.cond, 0) + Width(e.yes, 0) + Width(e.no, 0) + 5
    ensures Printable(e) ==> Printable(e.cond) && Printable(e.yes) && Printable(e.no)
  {
  }

  lemma IfParts(ts: seq<Token>, pos: nat, e: Expr, k: nat)
    requires Stands(ts, pos, e, k) && e.If?
    ensures pos + Width(e, k) <= |ts| && Peek(ts, pos) == Ident("IF") && Peek(ts, pos + 1) == LParen
    ensures var at1 := pos + 2 + Width(e.cond, 0); var at2 := at1 + 1 + Width(e.yes, 0);
      && Stands(ts, pos + 2, e.cond, 0) && Peek(ts, at1) == Comma
      && Stands(ts, at1 + 1, e.yes, 0) && Peek(ts, at2) == Comma
      && Stands(ts, at2 + 1, e.no, 0) && Peek(ts, at2 + 1 + Width(e.no, 0)) == RParen
  {
    hide Peek, Width;
  }

  lemma {:induction false} ParseUnary(ts: seq<Token>, pos: nat, e: Expr, k: nat, m: nat)
    requires Printable(e) && Stands(ts, pos, e, k) && e.Unary? && Stops(Peek(ts, pos + Width(e, k)), k)
    ensures pos + Width(e, k) <= |ts| && ExprBp(ts, pos, m) == Infix(ts, pos + Width(e, k), m, e)
    decreases e, false, 0
  {
    hide *;
    var end := pos + Width(e, k);
    UnaryParts(ts, pos, e, k);
    TightestStops(Peek(ts, end), k);
    ParsePrinted(ts, pos + 1, e.operand, PREFIX_BP, PREFIX_BP);
    InfixStops(ts, end, PREFIX_BP, e.operand);
    StepUnary(ts, pos, e.uop, e.operand, end, m);
  }

  lemma TightestStops(t: Token, k: nat)
    requires Stops(t, k)
    ensures Stops(t, PREFIX_BP) && (ToBinOp(t).Some? ==> LeftBp(ToBinOp(t).value) < PREFIX_BP)
  {
  }

  lemma {:induction false} ParseBinary(ts: seq<Token>, pos: nat, e: Expr, k: nat, m: nat)
    requires Printable(e) && m <= k && Stands(ts, pos, e, k) && e.Binary? && !NeedsParens(e, k)
    requires Stops(Peek(ts, pos + Width(e, k)), k)
    ensures pos + Width(e, k) <= |ts| && ExprBp(ts, pos, m) == Infix(ts, pos + Width(e, k), m, e)
    decreases e, false, 0
  {
    hide *;
    var op, end := e.op, pos + Width(e, k);
    var at := pos + Width(e.left, LeftBp(op));
    StandsInside(ts, pos, e, k);
    BinaryShape(e, k);
    StandsBinary(ts, pos, e, k);
    OpStops(op);
    StopsTighter(Peek(ts, end), k, op);
    ParsePrinted(ts, pos, e.left, LeftBp(op), m);
    ParsePrinted(ts, at + 1, e.right, RightBp(op), RightBp(op));
    InfixStops(ts, end, RightBp(op), e.right);
    StepBinary(ts, at, op, e.left, e.right, end, m);
  }

  lemma {:induction false} ParseIf(ts: seq<Token>, pos: nat, e: Expr, k: nat, m: nat)
    requires Printable(e) && Stands(ts, pos, e, k) && e.If?
    ensures pos + Width(e, k) <= |ts| && ExprBp(ts, pos, m) == Infix(ts, pos + Width(e, k), m, e)
    decreases e, false, 0
  {
    hide *;
    IfWidth(e, k);
    IfParts(ts, pos, e, k);
    var at1 := ParseClosed(ts, pos + 2, e.cond, Comma);
    var at2 := ParseClosed(ts, at1 + 1, e.yes, Comma);
    var at3 := ParseClosed(ts, at2 + 1, e.no, RParen);
    StepIf(ts, pos, e, at1, at2, at3, m);
  }

  /** An expression up to the delimiter that closes it. */
  lemma ParseClosed(ts: seq<Token>, pos: nat, e: Expr, close: Token) returns (end: nat)
    requires Printable(e) && Stands(ts, pos, e, 0)
    requires Peek(ts, pos + Width(e, 0)) == close && (close == Comma || close == RParen)
    ensures end == pos + Width(e, 0) && end < |ts| && ExprBp(ts, pos, 0) == Accept(e, end)
    decreases e, false, 2
  {
    hide *;
    end := pos + Width(e, 0);
    StandsInside(ts, pos, e, 0);
    StopTokens(0);
    ParsePrinted(ts, pos, e, 0, 0);
    InfixStops(ts, end, 0, e);
    PeekInside(ts, end);
  }

  lemma PeekInside(ts: seq<Token>, pos: nat)
    ensures Peek(ts, pos) != Eof ==> pos < |ts|
  {
  }

  lemma {:induction false} ParseLeaf(ts: seq<Token>, pos: nat, e: Expr, k: nat, m: nat)
    requires Printable(e) && (e.Lit? || e.Var?) && Stands(ts, pos, e, k) && Stops(Peek(ts, pos + Width(e, k)), k)
    ensures pos + Width(e, k) <= |ts| && ExprBp(ts, pos, m) == Infix(ts, pos + Width(e, k), m, e)
  {
    hide ExprBp, Infix, Printable, Peek, LeafToken;
    ReadLeaf(ts, pos, e, m);
  }

  lemma ReadLeaf(ts: seq<Token>, pos: nat, e: Expr, m: nat)
    requires Printable(e) && (e.Lit? || e.Var?) && pos < |ts| && Peek(ts, pos) == LeafToken(e) && Peek(ts, pos + 1) != LParen
    ensures ExprBp(ts, pos, m) == Infix(ts, pos + 1, m, e)
  {
    TruthWords();
    hide Infix, IsName, IsFloatText;
  }

  lemma TruthWords()
    ensures SameIgnoringCase("true", "true") && SameIgnoringCase("false", "false") && SameIgnoringCase("IF", "if")
    ensures !SameIgnoringCase("false", "true") && !SameIgnoringCase("IF", "true") && !SameIgnoringCase("IF", "false")
  {
    assert Lower('I') == 'i' && Lower('F') == 'f';
  }

  lemma StepParens(ts: seq<Token>, pos: nat, e: Expr, end: nat, m: nat)
    requires pos < |ts| && Peek(ts, pos) == LParen && ExprBp(ts, pos + 1, 0) == Accept(e, end)
    requires end < |ts| && Peek(ts, end) == RParen
    ensures ExprBp(ts, pos, m) == Infix(ts, end + 1, m, e)
  {
    hide Infix;
  }

  lemma StepUnary(ts: seq<Token>, pos: nat, op: UnaryOp, x: Expr, end: nat, m: nat)
    requires pos < |ts| && Peek(ts, pos) == UnaryToken(op) && ExprBp(ts, pos + 1, PREFIX_BP) == Accept(x, end)
    ensures end <= |ts| && ExprBp(ts, pos, m) == Infix(ts, end, m, Unary(op, x))
  {
    hide Infix;
  }

  lemma OpStops(op: BinOp)
    ensures Stops(OpToken(op), LeftBp(op))
  {
  }

  lemma StopsTighter(t: Token, k: nat, op: BinOp)
    requires Stops(t, k) && k <= LeftBp(op)
    ensures Stops(t, RightBp(op)) && (ToBinOp(t).Some? ==> LeftBp(ToBinOp(t).value) < RightBp(op))
  {
  }

  lemma StepBinary(ts: seq<Token>, at: nat, op: BinOp, l: Expr, r: Expr, end: nat, m: nat)
    requires at < |ts| && Peek(ts, at) == OpToken(op) && m <= LeftBp(op) && end <= |ts|
    requires ExprBp(ts, at + 1, RightBp(op)) == Accept(r, end)
    ensures Infix(ts, at, m, l) == Infix(ts, end, m, Binary(op, l, r))
  {
    hide ExprBp;
  }

  lemma StepIf(ts: seq<Token>, pos: nat, e: Expr, at1: nat, at2: nat, at3: nat, m: nat)
    requires e.If? && pos + 1 < |ts| && Peek(ts, pos) == Ident("IF") && Peek(ts, pos + 1) == LParen
    requires ExprBp(ts, pos + 2, 0) == Accept(e.cond, at1) && Peek(ts, at1) == Comma
    requires ExprBp(ts, at1 + 1, 0) == Accept(e.yes, at2) && Peek(ts, at2) == Comma
    requires ExprBp(ts, at2 + 1, 0) == Accept(e.no, at3) && at3 < |ts| && Peek(ts, at3) == RParen
    ensures ExprBp(ts, pos, m) == Infix(ts, at3 + 1, m, e)
  {
    TruthWords();
    hide Infix, SameIgnoringCase;
    assert IfCall(ts, pos + 1) == Accept(e, at3 + 1);
    assert Prefix(ts, pos) == IfCall(ts, pos + 1);
  }

  // --------------------------------------------------------------- no pair can be dropped

  /** Whatever is folded onto an operand at `k` has a top operator that binds at least as tightly. */
  lemma {:induction false} InfixTop(ts: seq<Token>, pos: nat, k: nat, lhs: Expr)
    requires pos <= |ts|
    ensures var r := Infix(ts, pos, k, lhs);
            r.Accept? ==> r.expr == lhs || (r.expr.Binary? && LeftBp(r.expr.op) >= k)
    decreases |ts| - pos
  {
    hide LeftBp, ToBinOp;
    var op := ToBinOp(Peek(ts, pos));
    if op.Some? && LeftBp(op.value) >= k {
      var rhs := ExprBp(ts, pos + 1, RightBp(op.value));
      if rhs.Accept? { InfixTop(ts, rhs.next, k, Binary(op.value, lhs, rhs.expr)); }
      hide ExprBp;
    }
  }

  /** The operand an expression printed for `k` starts with. */
  function Lead(e: Expr, k: nat): Expr {
    if e.Binary? && !NeedsParens(e, k) then Lead(e.left, LeftBp(e.op)) else e
  }

  function Nodes(e: Expr): nat {
    match e
    case Lit(_) => 1
    case Var(_) => 1
    case Unary(_, x) => 1 + Nodes(x)
    case Binary(_, l, r) => 1 + Nodes(l) + Nodes(r)
    case If(c, y, n) => 1 + Nodes(c) + Nodes(y) + Nodes(n)
  }

  lemma {:induction false} LeadSmall(e: Expr, k: nat)
    ensures Nodes(Lead(e, k)) <= Nodes(e)
    decreases e
  {
    hide LeftBp;
    if e.Binary? && !NeedsParens(e, k) { LeadSmall(e.left, LeftBp(e.op)); }
  }

  lemma PrefixParens(ts: seq<Token>, pos: nat, e: Expr, end: nat)
    requires pos < |ts| && Peek(ts, pos) == LParen && ExprBp(ts, pos + 1, 0) == Accept(e, end)
    requires end < |ts| && Peek(ts, end) == RParen
    ensures Prefix(ts, pos) == Accept(e, end + 1)
  {
    hide ExprBp;
  }

  lemma PrefixLeaf(ts: seq<Token>, pos: nat, e: Expr)
    requires Printable(e) && (e.Lit? || e.Var?) && pos < |ts| && Peek(ts, pos) == LeafToken(e) && Peek(ts, pos + 1) != LParen
    ensures Prefix(ts, pos) == Accept(e, pos + 1)
  {
    TruthWords();
    hide ExprBp, IsName, IsFloatText;
  }

  lemma PrefixUnary(ts: seq<Token>, pos: nat, op: UnaryOp, x: Expr, end: nat)
    requires pos < |ts| && Peek(ts, pos) == UnaryToken(op) && ExprBp(ts, pos + 1, PREFIX_BP) == Accept(x, end)
    ensures Prefix(ts, pos) == Accept(Unary(op, x), end)
  {
    hide ExprBp;
  }

  lemma PrefixIf(ts: seq<Token>, pos: nat, e: Expr, at1: nat, at2: nat, at3: nat)
    requires e.If? && pos + 1 < |ts| && Peek(ts, pos) == Ident("IF") && Peek(ts, pos + 1) == LParen
    requires ExprBp(ts, pos + 2, 0) == Accept(e.cond, at1) && Peek(ts, at1) == Comma
    requires ExprBp(ts, at1 + 1, 0) == Accept(e.yes, at2) && Peek(ts, at2) == Comma
    requires ExprBp(ts, at2 + 1, 0) == Accept(e.no, at3) && at3 < |ts| && Peek(ts, at3) == RParen
    ensures Prefix(ts, pos) == Accept(e, at3 + 1)
  {
    TruthWords();
    hide ExprBp, SameIgnoringCase;
    assert IfCall(ts, pos + 1) == Accept(e, at3 + 1);
  }

  lemma AnyStopsPrefix(t: Token)
    requires t != LParen
    ensures Stops(t, PREFIX_BP) && (ToBinOp(t).Some? ==> LeftBp(ToBinOp(t).value) < PREFIX_BP)
  {
  }

  lemma OpNotParen(op: BinOp)
    ensures OpToken(op) != LParen
  {
  }

  /** The first operand read is the one printed first. */
  lemma {:induction false} PrefixIsLead(ts: seq<Token>, pos: nat, e: Expr, k: nat)
    requires Printable(e) && Stands(ts, pos, e, k) && Peek(ts, pos + Width(e, k)) != LParen
    ensures pos < |ts| && Prefix(ts, pos).Accept? && Prefix(ts, pos).expr == Lead(e, k)
    decreases e
  {
    hide ExprBp, Infix, Prefix, Peek, Stands, Printable, Width, LeftBp, OpToken, UnaryToken, LeafToken;
    StandsInside(ts, pos, e, k);
    PeekInside(ts, pos);
    if NeedsParens(e, k) {
      ParensShape(e, k);
      StandsParens(ts, pos, e, k);
      var end := ParseClosed(ts, pos + 1, e, RParen);
      PrefixParens(ts, pos, e, end);
    } else {
      match e
      case Lit(_) => LeafStands(ts, pos, e, k); PrefixLeaf(ts, pos, e);
      case Var(_) => LeafStands(ts, pos, e, k); PrefixLeaf(ts, pos, e);
      case Unary(_, _) => UnaryLead(ts, pos, e, k);
      case Binary(op, l, _) =>
        BinaryShape(e, k);
        StandsBinary(ts, pos, e, k);
        OpNotParen(op);
        PrefixIsLead(ts, pos, l, LeftBp(op));
      case If(_, _, _) => IfLead(ts, pos, e, k);
    }
  }

  lemma UnaryLead(ts: seq<Token>, pos: nat, e: Expr, k: nat)
    requires Printable(e) && Stands(ts, pos, e, k) && e.Unary? && Peek(ts, pos + Width(e, k)) != LParen
    ensures pos < |ts| && Prefix(ts, pos).Accept? && Prefix(ts, pos).expr == e
  {
    hide *;
    UnaryParts(ts, pos, e, k);
    var end := pos + Width(e, k);
    AnyStopsPrefix(Peek(ts, end));
    ParsePrinted(ts, pos + 1, e.operand, PREFIX_BP, PREFIX_BP);
    InfixStops(ts, end, PREFIX_BP, e.operand);
    PrefixUnary(ts, pos, e.uop, e.operand, end);
  }

  lemma IfLead(ts: seq<Token>, pos: nat, e: Expr, k: nat)
    requires Printable(e) && Stands(ts, pos, e, k) && e.If?
    ensures pos < |ts| && Prefix(ts, pos).Accept? && Prefix(ts, pos).expr == e
  {
    hide *;
    IfWidth(e, k);
    IfParts(ts, pos, e, k);
    var at1 := ParseClosed(ts, pos + 2, e.cond, Comma);
    var at2 := ParseClosed(ts, at1 + 1, e.yes, Comma);
    var at3 := ParseClosed(ts, at2 + 1, e.no, RParen);
    PrefixIf(ts, pos, e, at1, at2, at3);
  }

  lemma LeafStands(ts: seq<Token>, pos: nat, e: Expr, k: nat)
    requires Stands(ts, pos, e, k) && (e.Lit? || e.Var?)
    ensures Width(e, k) == 1 && pos < |ts| && Peek(ts, pos) == LeafToken(e)
  {
  }

  /** THEOREM: no pair of parentheses can be dropped. Where a pair is printed, the same tokens without it
      parse, in the context that demanded it, to something other than the expression. */
  lemma {:induction false} ParensRequired(ts: seq<Token>, pos: nat, e: Expr, k: nat)
    requires Printable(e) && NeedsParens(e, k) && Occurs(ts, pos, Print(e, 0))
    ensures Print(e, k) == [LParen] + (Print(e, 0) + [RParen])
    ensures ExprBp(ts, pos, k).Accept? ==> ExprBp(ts, pos, k).expr != e
  {
    hide Infix, Prefix, Peek, Print, Printable, Occurs, Stands, Width, LeftBp, OpToken, Lead, Nodes;
    ParensShape(e, k);
    PrintStands(ts, pos, e, 0);
    StandsInside(ts, pos, e, 0);
    BinaryShape(e, 0);
    StandsBinary(ts, pos, e, 0);
    OpNotParen(e.op);
    PrefixIsLead(ts, pos, e.left, LeftBp(e.op));
    InfixTop(ts, Prefix(ts, pos).next, k, Prefix(ts, pos).expr);
    LeadSmall(e.left, LeftBp(e.op));
    NodesLeft(e);
  }

  lemma NodesLeft(e: Expr)
    requires e.Binary?
    ensures Nodes(e.left) < Nodes(e)
  {
  }

  lemma {:induction false} PrintWritable(e: Expr, k: nat)
    requires Printable(e)
    ensures forall i :: 0 <= i < |Print(e, k)| ==> Writable(Print(e, k)[i])
    decreases e, NeedsParens(e, k)
  {
    WordsAreNames();
    hide IsName, IsFloatText;
    if NeedsParens(e, k) {
      PrintWritable(e, 0);
    } else {
      match e
      case Lit(_) =>
      case Var(_) =>
      case Unary(_, x) => PrintWritable(x, PREFIX_BP);
      case Binary(op, l, r) =>
        PrintWritable(l, LeftBp(op));
        PrintWritable(r, RightBp(op));
      case If(c, y, n) =>
        PrintWritable(c, 0);
        PrintWritable(y, 0);
        PrintWritable(n, 0);
    }
  }

  lemma WordsAreNames()
    ensures IsName("true") && IsName("false") && IsName("IF")
  {
  }

  /** THEOREM: printing a tree with minimal parentheses and blanks between tokens, tokenizing the text
      and parsing the tokens returns the same tree. */
  lemma {:induction false} ParsePrint(e: Expr)
    requires Printable(e)
    ensures var tokens := LexFrom(Render(Print(e, 0)), 0);
            tokens.Some? && Parse(tokens.value) == Some(e)
  {
    PrintWritable(e, 0);
    TokenizeRender(Print(e, 0));
    ParseWhole(e, Print(e, 0));
  }

  lemma ParseWhole(e: Expr, p: seq<Token>)
    requires Printable(e) && p == Print(e, 0)
    ensures Parse(p + [Eof]) == Some(e)
  {
    var ts := p + [Eof];
    assert Occurs(ts, 0, p) && Peek(ts, |p|) == Eof;
    hide Print, Printable, Occurs, ExprBp, Infix, Peek, Stops;
    ReadWhole(ts, e);
  }

  lemma {:induction false} ReadWhole(ts: seq<Token>, e: Expr)
    requires Printable(e) && Occurs(ts, 0, Print(e, 0)) && Peek(ts, |Print(e, 0)|) == Eof
    ensures ExprBp(ts, 0, 0) == Accept(e, |Print(e, 0)|)
  {
    hide *;
    PrintStands(ts, 0, e, 0);
    PrintWidth(e, 0);
    StopTokens(0);
    ParsePrinted(ts, 0, e, 0, 0);
    InfixStops(ts, |Print(e, 0)|, 0, e);
  }
}
