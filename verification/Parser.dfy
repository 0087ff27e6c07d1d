/** Formula syntax trees and the Pratt parser. */
module Parser {
  import opened Basics
  import opened Lexer

  datatype BinOp =
    | Add | Sub | Mul | Div | Mod
    | BitAnd | BitOr | BitXor | Shl | Shr
    | LogicAnd | LogicOr
    | Equal | NotEqual | Less | Greater | LessEqual | GreaterEqual

  datatype UnaryOp = Neg | Not | BitNot

  datatype Literal = IntLit(n: nat) | FloatLit(text: string) | BoolLit(b: bool)

  datatype Expr =
    | Lit(lit: Literal)
    | Var(name: string)
    | Binary(op: BinOp, left: Expr, right: Expr)
    | Unary(uop: UnaryOp, operand: Expr)
    | If(cond: Expr, yes: Expr, no: Expr)

  /** A parsed expression and the position after it. */
  datatype Parsed = Reject | Accept(expr: Expr, next: nat)

  function LeftBp(op: BinOp): (bp: nat)
    ensures 2 <= bp <= 20
  {
    match op
    case LogicOr => 2
    case LogicAnd => 4
    case BitOr => 6
    case BitXor => 8
    case BitAnd => 10
    case Equal | NotEqual => 12
    case Less | Greater | LessEqual | GreaterEqual => 14
    case Shl | Shr => 16
    case Add | Sub => 18
    case Mul | Div | Mod => 20
  }

  /** All binary operators associate to the left. */
  function RightBp(op: BinOp): nat { LeftBp(op) + 1 }

  const PREFIX_BP: nat := 23

  function ToBinOp(t: Token): Option<BinOp> {
    match t
    case Plus => Some(Add)
    case Minus => Some(Sub)
    case Star => Some(Mul)
    case Slash => Some(Div)
    case Percent => Some(Mod)
    case Amp => Some(BitAnd)
    case Pipe => Some(BitOr)
    case Caret => Some(BitXor)
    case ShiftLeft => Some(Shl)
    case ShiftRight => Some(Shr)
    case And => Some(LogicAnd)
    case Or => Some(LogicOr)
    case Eq => Some(Equal)
    case NotEq => Some(NotEqual)
    case Lt => Some(Less)
    case Gt => Some(Greater)
    case LtEq => Some(LessEqual)
    case GtEq => Some(GreaterEqual)
    case _ => None
  }

  function ToUnaryOp(t: Token): Option<UnaryOp> {
    match t
    case Minus => Some(Neg)
    case Bang => Some(Not)
    case Tilde => Some(BitNot)
    case _ => None
  }

  function Lower(c: char): char {
    if 'A' <= c <= 'Z' then (c as int + 32) as char else c
  }

  predicate SameIgnoringCase(s: string, word: string) {
    |s| == |word| && forall i :: 0 <= i < |s| ==> Lower(s[i]) == Lower(word[i])
  }

  /** The token at a position; beyond the end there is only `Eof`. */
  function Peek(ts: seq<Token>, pos: nat): Token {
    if pos < |ts| then ts[pos] else Eof
  }

  /** Parse an expression whose operators bind at least as tightly as `minBp`. */
  function ExprBp(ts: seq<Token>, pos: nat, minBp: nat): (r: Parsed)
    ensures r.Accept? ==> pos < r.next <= |ts|
    decreases |ts| - pos, 1
  {
    if pos >= |ts| then Reject
    else
      var lhs := Prefix(ts, pos);
      if lhs.Reject? then Reject else Infix(ts, lhs.next, minBp, lhs.expr)
  }

  /** The operand that starts at a position. */
  function Prefix(ts: seq<Token>, pos: nat): (r: Parsed)
    requires pos < |ts|
    ensures r.Accept? ==> pos < r.next <= |ts|
    decreases |ts| - pos, 0
  {
    match ts[pos]
    case Int(n) => Accept(Lit(IntLit(n)), pos + 1)
    case Float(text) => Accept(Lit(FloatLit(text)), pos + 1)
    case Ident(name) =>
      if SameIgnoringCase(name, "true") then Accept(Lit(BoolLit(true)), pos + 1)
      else if SameIgnoringCase(name, "false") then Accept(Lit(BoolLit(false)), pos + 1)
      else if SameIgnoringCase(name, "if") && Peek(ts, pos + 1) == LParen then IfCall(ts, pos + 1)
      else Accept(Var(name), pos + 1)
    case LParen =>
      var inner := ExprBp(ts, pos + 1, 0);
      if inner.Reject? || Peek(ts, inner.next) != RParen then Reject else Accept(inner.expr, inner.next + 1)
    case Minus | Bang | Tilde =>
      var operand := ExprBp(ts, pos + 1, PREFIX_BP);
      if operand.Reject? then Reject else Accept(Unary(ToUnaryOp(ts[pos]).value, operand.expr), operand.next)
    case _ => Reject
  }

  /** The three arguments of `IF`, from its opening parenthesis. */
  function IfCall(ts: seq<Token>, pos: nat): (r: Parsed)
    requires pos < |ts|
    ensures r.Accept? ==> pos < r.next <= |ts|
    decreases |ts| - pos, 0
  {
    var cond := ExprBp(ts, pos + 1, 0);
    if cond.Reject? || Peek(ts, cond.next) != Comma then Reject
    else
      var yes := ExprBp(ts, cond.next + 1, 0);
      if yes.Reject? || Peek(ts, yes.next) != Comma then Reject
      else
        var no := ExprBp(ts, yes.next + 1, 0);
        if no.Reject? || Peek(ts, no.next) != RParen then Reject
        else Accept(If(cond.expr, yes.expr, no.expr), no.next + 1)
  }

  /** Fold further operators onto `lhs` as long as they bind at least as tightly as `minBp`. */
  function Infix(ts: seq<Token>, pos: nat, minBp: nat, lhs: Expr): (r: Parsed)
    requires pos <= |ts|
    ensures r.Accept? ==> pos <= r.next <= |ts|
    decreases |ts| - pos, 0
  {
    var op := ToBinOp(Peek(ts, pos));
    if op.None? || LeftBp(op.value) < minBp then Accept(lhs, pos)
    else
      var rhs := ExprBp(ts, pos + 1, RightBp(op.value));
      if rhs.Reject? then Reject else Infix(ts, rhs.next, minBp, Binary(op.value, lhs, rhs.expr))
  }

  function Parse(ts: seq<Token>): Option<Expr> {
    var r := ExprBp(ts, 0, 0);
    if r.Reject? || Peek(ts, r.next) != Eof then None else Some(r.expr)
  }

  // -------------------------------------------------------------- the stateful parser

  class TokenParser {
    const tokens: seq<Token>
    var pos: nat

    constructor (tokens: seq<Token>)
      ensures this.tokens == tokens && pos == 0
    {
      this.tokens, pos := tokens, 0;
    }

    method Advance() returns (t: Token)
      modifies this
      ensures t == Peek(tokens, old(pos)) && pos == old(pos) + 1
    {
      t := Peek(tokens, pos);
      pos := pos + 1;
    }

    /** The recursive descent computes `ExprBp` and leaves `pos` after what it consumed. */
    method Expression(minBp: nat) returns (r: Option<Expr>)
      modifies this
      ensures match ExprBp(tokens, old(pos), minBp)
              case Reject => r == None
              case Accept(e, next) => r == Some(e) && pos == next
      decreases |tokens| - pos, 1
    {
      if pos >= |tokens| { return None; }
      ghost var start := pos;
      r := Operand();
      if r.None? { return; }
      var lhs := r.value;
      ghost var whole := ExprBp(tokens, start, minBp);
      while true
        invariant start < pos <= |tokens| && whole == Infix(tokens, pos, minBp, lhs)
        decreases |tokens| - pos
      {
        var op := ToBinOp(Peek(tokens, pos));
        if op.None? || LeftBp(op.value) < minBp { break; }
        var _ := Advance();
        var rhs := Expression(RightBp(op.value));
        if rhs.None? { return None; }
        lhs := Binary(op.value, lhs, rhs.value);
      }
      r := Some(lhs);
    }

    method Operand() returns (r: Option<Expr>)
      requires pos < |tokens|
      modifies this
      ensures match Prefix(tokens, old(pos))
              case Reject => r == None
              case Accept(e, next) => r == Some(e) && pos == next
      decreases |tokens| - pos, 0
    {
      var t := Advance();
      match t
      case Int(n) => r := Some(Lit(IntLit(n)));
      case Float(text) => r := Some(Lit(FloatLit(text)));
      case Ident(name) =>
        if SameIgnoringCase(name, "true") {
          r := Some(Lit(BoolLit(true)));
        } else if SameIgnoringCase(name, "false") {
          r := Some(Lit(BoolLit(false)));
        } else if SameIgnoringCase(name, "if") && Peek(tokens, pos) == LParen {
          r := IfFunction();
        } else {
          r := Some(Var(name));
        }
      case LParen =>
        r := Expression(0);
        if r.Some? {
          var close := Advance();
          if close != RParen { r := None; }
        }
      case Minus | Bang | Tilde =>
        r := Expression(PREFIX_BP);
        if r.Some? { r := Some(Unary(ToUnaryOp(t).value, r.value)); }
      case _ => r := None;
    }

    method IfFunction() returns (r: Option<Expr>)
      requires pos < |tokens| && tokens[pos] == LParen
      modifies this
      ensures match IfCall(tokens, old(pos))
              case Reject => r == None
              case Accept(e, next) => r == Some(e) && pos == next
      decreases |tokens| - pos, 0
    {
      var t := Advance();
      var cond := Expression(0);
      if cond.None? { return None; }
      t := Advance();
      if t != Comma { return None; }
      var yes := Expression(0);
      if yes.None? { return None; }
      t := Advance();
      if t != Comma { return None; }
      var no := Expression(0);
      if no.None? { return None; }
      t := Advance();
      if t != RParen { return None; }
      r := Some(If(cond.value, yes.value, no.value));
    }
  }

  method ParseTokens(tokens: seq<Token>) returns (r: Option<Expr>)
    ensures r == Parse(tokens)
  {
    var parser := new TokenParser(tokens);
    r := parser.Expression(0);
    if r.Some? && Peek(tokens, parser.pos) != Eof { r := None; }
  }
}
