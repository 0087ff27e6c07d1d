/** What formula texts mean: spellings, and the order of the operator classes written out. */
module Precedence {
  import opened Basics
  import opened Lexer
  import opened Parser
  import opened Printer

  function Spelling(op: BinOp): string {
    match op
    case Add => "+"
    case Sub => "-"
    case Mul => "*"
    case Div => "/"
    case Mod => "%"
    case BitAnd => "&"
    case BitOr => "|"
    case BitXor => "^"
    case Shl => "<<"
    case Shr => ">>"
    case LogicAnd => "&&"
    case LogicOr => "||"
    case Equal => "=="
    case NotEqual => "!="
    case Less => "<"
    case Greater => ">"
    case LessEqual => "<="
    case GreaterEqual => ">="
  }

  function PrefixSpelling(op: UnaryOp): string {
    match op
    case Neg => "-"
    case Not => "!"
    case BitNot => "~"
  }

  /** Operator classes, the loosest first. */
  const CLASSES: seq<set<BinOp>> := [
    {LogicOr}, {LogicAnd}, {BitOr}, {BitXor}, {BitAnd}, {Equal, NotEqual},
    {Less, Greater, LessEqual, GreaterEqual}, {Shl, Shr}, {Add, Sub}, {Mul, Div, Mod}
  ]

  ghost predicate Tighter(q: BinOp, p: BinOp) {
    exists i, j :: 0 <= i < j < |CLASSES| && p in CLASSES[i] && q in CLASSES[j]
  }

  /** The parse of a text. */
  function Formula(text: string): Option<Expr> {
    var tokens := LexFrom(text, 0);
    if tokens.None? then None else Parse(tokens.value)
  }

  lemma ClassIs(op: BinOp, i: nat)
    requires i < |CLASSES|
    ensures op in CLASSES[i] <==> LeftBp(op) == 2 * i + 2
  {
  }

  lemma TighterIs(q: BinOp, p: BinOp)
    ensures Tighter(q, p) <==> LeftBp(q) > LeftBp(p)
  {
    hide LeftBp;
    if Tighter(q, p) {
      var i, j :| 0 <= i < j < |CLASSES| && p in CLASSES[i] && q in CLASSES[j];
      ClassIs(p, i);
      ClassIs(q, j);
    }
    if LeftBp(q) > LeftBp(p) {
      EvenPower(p);
      EvenPower(q);
      var i, j := LeftBp(p) / 2 - 1, LeftBp(q) / 2 - 1;
      ClassIs(p, i);
      ClassIs(q, j);
      assert p in CLASSES[i] && q in CLASSES[j];
    }
  }

  lemma EvenPower(op: BinOp)
    ensures LeftBp(op) % 2 == 0
  {
  }

  lemma Spelled(op: BinOp, u: UnaryOp)
    ensures TokenText(OpToken(op)) == Spelling(op) && TokenText(UnaryToken(u)) == PrefixSpelling(u)
  {
  }

  lemma {:induction false} RenderAppend(a: seq<Token>, b: seq<Token>)
    ensures Render(a + b) == Render(a) + Render(b)
    decreases |a|
  {
    hide *;
    if a == [] {
      RenderNone();
      assert a + b == b;
    } else {
      RenderAppend(a[1..], b);
      RenderHead(a);
      RenderHead(a + b);
      assert (a + b)[1..] == a[1..] + b && (a + b)[0] == a[0];
      Joined(TokenText(a[0]) + " ", Render(a[1..]), Render(b));
    }
  }

  lemma RenderNone()
    ensures Render([]) == ""
  {
  }

  lemma RenderHead(ts: seq<Token>)
    requires ts != []
    ensures Render(ts) == TokenText(ts[0]) + " " + Render(ts[1..])
  {
  }

  lemma Joined(a: string, b: string, c: string)
    ensures a + (b + c) == a + b + c
  {
  }

  lemma RenderOne(t: Token)
    ensures Render([t]) == TokenText(t) + " "
  {
    assert [t][1..] == [];
  }

  /** The text of an expression on its own. */
  function Written(e: Expr): string { Render(Print(e, 0)) }

  lemma {:induction false} FormulaWritten(e: Expr)
    requires Printable(e)
    ensures Formula(Written(e)) == Some(e)
  {
    ParsePrint(e);
  }

  /** Anything but a bare binary operation: a literal, a name, a prefix operation, an IF. */
  predicate Operand(e: Expr) { Printable(e) && !e.Binary? }

  lemma OperandPrint(e: Expr, k: nat)
    requires !e.Binary?
    ensures Print(e, k) == Print(e, 0)
  {
  }

  lemma BinaryPrint(op: BinOp, l: Expr, r: Expr, k: nat)
    requires k <= LeftBp(op)
    ensures Print(Binary(op, l, r), k) == Print(l, LeftBp(op)) + ([OpToken(op)] + Print(r, RightBp(op)))
  {
  }

  lemma {:induction false} WrittenBinary(op: BinOp, a: seq<Token>, b: seq<Token>)
    ensures Render(a + ([OpToken(op)] + b)) == Render(a) + Spelling(op) + " " + Render(b)
  {
    hide Render, OpToken, TokenText;
    RenderAppend(a, [OpToken(op)] + b);
    RenderAppend([OpToken(op)], b);
    RenderOne(OpToken(op));
    Spelled(op, Neg);
    hide *;
    assert Render(a) + (Spelling(op) + " " + Render(b)) == Render(a) + Spelling(op) + " " + Render(b);
  }

  /** THEOREM (precedence and associativity): of two operators between three operands the one of the
      tighter class takes the middle operand, and of one class the left one does. */
  lemma {:induction false} PrecedenceByClass(p: BinOp, q: BinOp, a: Expr, b: Expr, c: Expr)
    requires Operand(a) && Operand(b) && Operand(c)
    ensures Formula(Written(a) + Spelling(p) + " " + Written(b) + Spelling(q) + " " + Written(c))
         == Some(if Tighter(q, p) then Binary(p, a, Binary(q, b, c)) else Binary(q, Binary(p, a, b), c))
  {
    TighterIs(q, p);
    var whole := if Tighter(q, p) then Binary(p, a, Binary(q, b, c)) else Binary(q, Binary(p, a, b), c);
    FormulaWritten(whole);
    ThreeOperands(p, q, a, b, c, whole);
  }

  lemma {:induction false} ThreeOperands(p: BinOp, q: BinOp, a: Expr, b: Expr, c: Expr, whole: Expr)
    requires !a.Binary? && !b.Binary? && !c.Binary?
    requires whole == if LeftBp(q) > LeftBp(p) then Binary(p, a, Binary(q, b, c)) else Binary(q, Binary(p, a, b), c)
    ensures Written(whole) == Written(a) + Spelling(p) + " " + Written(b) + Spelling(q) + " " + Written(c)
  {
    hide *;
    WrittenIs(whole);
    WrittenIs(a);
    WrittenIs(b);
    WrittenIs(c);
    if LeftBp(q) > LeftBp(p) {
      RightPrint(p, q, a, b, c);
      RightText(p, q, Print(a, 0), Print(b, 0), Print(c, 0));
    } else {
      LeftPrint(p, q, a, b, c);
      LeftText(p, q, Print(a, 0), Print(b, 0), Print(c, 0));
    }
  }

  lemma RightPrint(p: BinOp, q: BinOp, a: Expr, b: Expr, c: Expr)
    requires !a.Binary? && !b.Binary? && !c.Binary? && LeftBp(q) > LeftBp(p)
    ensures Print(Binary(p, a, Binary(q, b, c)), 0) == Print(a, 0) + ([OpToken(p)] + (Print(b, 0) + ([OpToken(q)] + Print(c, 0))))
  {
    hide Print, OpToken, LeftBp;
    OperandPrint(a, LeftBp(p));
    OperandPrint(b, LeftBp(q));
    OperandPrint(c, RightBp(q));
    BinaryPrint(q, b, c, RightBp(p));
    BinaryPrint(p, a, Binary(q, b, c), 0);
  }

  lemma LeftPrint(p: BinOp, q: BinOp, a: Expr, b: Expr, c: Expr)
    requires !a.Binary? && !b.Binary? && !c.Binary? && LeftBp(q) <= LeftBp(p)
    ensures Print(Binary(q, Binary(p, a, b), c), 0) == Print(a, 0) + ([OpToken(p)] + Print(b, 0)) + ([OpToken(q)] + Print(c, 0))
  {
    hide Print, OpToken, LeftBp;
    OperandPrint(a, LeftBp(p));
    OperandPrint(b, RightBp(p));
    OperandPrint(c, RightBp(q));
    BinaryPrint(p, a, b, LeftBp(q));
    BinaryPrint(q, Binary(p, a, b), c, 0);
  }

  lemma {:induction false} RightText(p: BinOp, q: BinOp, x: seq<Token>, y: seq<Token>, z: seq<Token>)
    ensures Render(x + ([OpToken(p)] + (y + ([OpToken(q)] + z))))
         == Render(x) + Spelling(p) + " " + Render(y) + Spelling(q) + " " + Render(z)
  {
    hide *;
    WrittenBinary(q, y, z);
    WrittenBinary(p, x, y + ([OpToken(q)] + z));
    Regrouped(Render(x) + Spelling(p) + " ", Render(y), Spelling(q), Render(z));
  }

  lemma Regrouped(a: string, b: string, c: string, d: string)
    ensures a + (b + c + " " + d) == a + b + c + " " + d
  {
  }

  lemma {:induction false} LeftText(p: BinOp, q: BinOp, x: seq<Token>, y: seq<Token>, z: seq<Token>)
    ensures Render(x + ([OpToken(p)] + y) + ([OpToken(q)] + z))
         == Render(x) + Spelling(p) + " " + Render(y) + Spelling(q) + " " + Render(z)
  {
    hide *;
    WrittenBinary(p, x, y);
    WrittenBinary(q, x + ([OpToken(p)] + y), z);
  }

  /** THEOREM: a prefix operator takes the operand next to it, whatever binary operator follows. */
  lemma {:induction false} PrefixTightest(u: UnaryOp, p: BinOp, a: Expr, b: Expr)
    requires Operand(a) && Operand(b)
    ensures Formula(PrefixSpelling(u) + " " + Written(a) + Spelling(p) + " " + Written(b)) == Some(Binary(p, Unary(u, a), b))
    ensures Formula(Written(b) + Spelling(p) + " " + PrefixSpelling(u) + " " + Written(a)) == Some(Binary(p, b, Unary(u, a)))
  {
    hide Formula, Written, Spelling, PrefixSpelling;
    FormulaWritten(Binary(p, Unary(u, a), b));
    FormulaWritten(Binary(p, b, Unary(u, a)));
    WrittenUnary(u, a);
    TwoOperands(p, Unary(u, a), b);
    TwoOperands(p, b, Unary(u, a));
    hide Printable, Operand;
    assert Written(b) + Spelling(p) + " " + (PrefixSpelling(u) + " " + Written(a))
        == Written(b) + Spelling(p) + " " + PrefixSpelling(u) + " " + Written(a);
  }

  lemma {:induction false} TwoOperands(p: BinOp, a: Expr, b: Expr)
    requires !a.Binary? && !b.Binary?
    ensures Written(Binary(p, a, b)) == Written(a) + Spelling(p) + " " + Written(b)
  {
    var x, y := Print(a, 0), Print(b, 0);
    hide Print, Render, OpToken, Spelling, LeftBp;
    OperandPrint(a, LeftBp(p));
    OperandPrint(b, RightBp(p));
    BinaryPrint(p, a, b, 0);
    WrittenBinary(p, x, y);
  }

  lemma {:induction false} WrittenUnary(u: UnaryOp, a: Expr)
    requires !a.Binary?
    ensures Written(Unary(u, a)) == PrefixSpelling(u) + " " + Written(a)
  {
    OperandPrint(a, PREFIX_BP);
    var x := Print(a, 0);
    assert Print(Unary(u, a), 0) == [UnaryToken(u)] + x;
    hide Print, Render, UnaryToken, PrefixSpelling;
    RenderAppend([UnaryToken(u)], x);
    RenderOne(UnaryToken(u));
    Spelled(Add, u);
  }

  /** THEOREM: IF takes its condition first, then the two branches. */
  lemma {:induction false} ConditionFirst(c: Expr, y: Expr, n: Expr)
    requires Printable(c) && Printable(y) && Printable(n)
    ensures Formula("IF ( " + Written(c) + ", " + Written(y) + ", " + Written(n) + ") ") == Some(If(c, y, n))
  {
    hide Formula, Written;
    FormulaWritten(If(c, y, n));
    WrittenIf(c, y, n);
  }

  lemma {:induction false} WrittenIf(c: Expr, y: Expr, n: Expr)
    ensures Written(If(c, y, n)) == "IF ( " + Written(c) + ", " + Written(y) + ", " + Written(n) + ") "
  {
    hide *;
    WrittenIs(c);
    WrittenIs(y);
    WrittenIs(n);
    WrittenIs(If(c, y, n));
    IfPrint(c, y, n);
    IfRendered(Print(c, 0), Print(y, 0), Print(n, 0));
  }

  lemma WrittenIs(e: Expr)
    ensures Written(e) == Render(Print(e, 0))
  {
  }

  lemma {:induction false} IfRendered(a: seq<Token>, b: seq<Token>, d: seq<Token>)
    ensures Render([Ident("IF")] + ([LParen] + (a + ([Comma] + (b + ([Comma] + (d + [RParen])))))))
         == "IF ( " + Render(a) + ", " + Render(b) + ", " + Render(d) + ") "
  {
    hide *;
    var s5 := d + [RParen];
    var s4 := [Comma] + s5;
    var s3 := b + s4;
    var s2 := [Comma] + s3;
    var s1 := a + s2;
    Marks();
    RenderOne(RParen);
    RenderAppend(d, [RParen]);
    RenderFront(Comma, s5);
    RenderAppend(b, s4);
    RenderFront(Comma, s3);
    RenderAppend(a, s2);
    RenderFront(LParen, s1);
    RenderFront(Ident("IF"), [LParen] + s1);
    IfText(Render(a), Render(b), Render(d));
  }

  lemma Marks()
    ensures TokenText(Comma) == "," && TokenText(LParen) == "(" && TokenText(RParen) == ")" && TokenText(Ident("IF")) == "IF"
  {
  }

  lemma IfText(x: string, v: string, w: string)
    ensures "IF" + " " + ("(" + " " + (x + ("," + " " + (v + ("," + " " + (w + (")" + " ")))))))
         == "IF ( " + x + ", " + v + ", " + w + ") "
  {
    assert ")" + " " == ") " && "," + " " == ", ";
    var tail := w + ") ";
    assert ", " + tail == ", " + w + ") ";
    var mid := v + (", " + tail);
    assert "IF" + " " + ("(" + " " + (x + (", " + mid))) == "IF ( " + x + ", " + mid;
  }

  lemma IfPrint(c: Expr, y: Expr, n: Expr)
    ensures Print(If(c, y, n), 0)
         == [Ident("IF")] + ([LParen] + (Print(c, 0) + ([Comma] + (Print(y, 0) + ([Comma] + (Print(n, 0) + [RParen]))))))
  {
  }

  lemma RenderFront(t: Token, ts: seq<Token>)
    ensures Render([t] + ts) == TokenText(t) + " " + Render(ts)
  {
    assert ([t] + ts)[1..] == ts;
  }

  /** THEOREM: parentheses group: a parenthesised operation is one operand. */
  lemma {:induction false} ParenthesesGroup(u: UnaryOp, e: Expr)
    requires Printable(e) && e.Binary?
    ensures Formula(PrefixSpelling(u) + " ( " + Written(e) + ") ") == Some(Unary(u, e))
  {
    hide Formula, Written, PrefixSpelling;
    FormulaWritten(Unary(u, e));
    WrittenGroup(u, e);
  }

  lemma {:induction false} WrittenGroup(u: UnaryOp, e: Expr)
    requires e.Binary?
    ensures Written(Unary(u, e)) == PrefixSpelling(u) + " ( " + Written(e) + ") "
  {
    hide *;
    var x := Print(e, 0);
    WrittenIs(e);
    WrittenIs(Unary(u, e));
    GroupPrint(u, e);
    Marks();
    RenderOne(RParen);
    RenderAppend(x, [RParen]);
    RenderFront(LParen, x + [RParen]);
    RenderFront(UnaryToken(u), [LParen] + (x + [RParen]));
    Spelled(Add, u);
    GroupText(PrefixSpelling(u), Render(x));
  }

  lemma GroupText(p: string, r: string)
    ensures p + " " + ("(" + " " + (r + (")" + " "))) == p + " ( " + r + ") "
  {
    assert ")" + " " == ") ";
    assert p + " " + ("(" + " ") == p + " ( ";
  }

  lemma GroupPrint(u: UnaryOp, e: Expr)
    requires e.Binary?
    ensures Print(Unary(u, e), 0) == [UnaryToken(u)] + ([LParen] + (Print(e, 0) + [RParen]))
  {
  }

  /** Leaves: decimal numerals, names, and the truth words in any case. */
  lemma {:induction false} Leaves(n: nat, name: string)
    ensures n <= I64_MAX ==> Formula(DecimalText(n) + " ") == Some(Lit(IntLit(n)))
    ensures IsName(name) && SameIgnoringCase(name, "true") ==> Formula(name + " ") == Some(Lit(BoolLit(true)))
    ensures IsName(name) && SameIgnoringCase(name, "false") ==> Formula(name + " ") == Some(Lit(BoolLit(false)))
    ensures IsName(name) && !SameIgnoringCase(name, "true") && !SameIgnoringCase(name, "false") ==>
              Formula(name + " ") == Some(Var(name))
  {
    hide LexFrom, IsName, SameIgnoringCase, DecimalText, Parse;
    if n <= I64_MAX {
      OneToken(Int(n));
      ParseInt(n);
    }
    if IsName(name) {
      OneToken(Ident(name));
      NotBothTruths(name);
      ParseWord(name);
    }
  }

  lemma ParseInt(n: nat)
    ensures Parse([Int(n), Eof]) == Some(Lit(IntLit(n)))
  {
    var ts := [Int(n), Eof];
    var e := Lit(IntLit(n));
    assert Peek(ts, 1) == Eof;
    assert Prefix(ts, 0) == Accept(e, 1) && Infix(ts, 1, 0, e) == Accept(e, 1);
    assert ExprBp(ts, 0, 0) == Accept(e, 1);
  }

  lemma ParseWord(name: string)
    ensures Parse([Ident(name), Eof])
         == Some(if SameIgnoringCase(name, "true") then Lit(BoolLit(true))
                 else if SameIgnoringCase(name, "false") then Lit(BoolLit(false)) else Var(name))
  {
    hide SameIgnoringCase;
    var ts := [Ident(name), Eof];
    assert Peek(ts, 1) == Eof;
    var e := if SameIgnoringCase(name, "true") then Lit(BoolLit(true))
             else if SameIgnoringCase(name, "false") then Lit(BoolLit(false)) else Var(name);
    assert Prefix(ts, 0) == Accept(e, 1) && Infix(ts, 1, 0, e) == Accept(e, 1);
    assert ExprBp(ts, 0, 0) == Accept(e, 1);
  }

  lemma NotBothTruths(name: string)
    ensures !(SameIgnoringCase(name, "true") && SameIgnoringCase(name, "false"))
  {
  }

  lemma {:induction false} OneToken(t: Token)
    requires Writable(t) && (t.Int? || t.Ident?)
    ensures LexFrom(TokenText(t) + " ", 0) == Some([t, Eof])
    ensures Peek([t, Eof], 1) == Eof
  {
    TokenizeRender([t]);
    RenderOne(t);
    assert [t] + [Eof] == [t, Eof];
  }
}
