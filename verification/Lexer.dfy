/** Formula text to tokens. */
module Lexer {
  import opened Basics

  /** A float literal is kept as its text; its binary value matters to evaluation only. */
  datatype Token =
    | Int(n: nat) | Float(text: string) | Ident(name: string)
    | Plus | Minus | Star | Slash | Percent
    | Amp | Pipe | Caret | Tilde | ShiftLeft | ShiftRight
    | And | Or | Bang
    | Eq | NotEq | Lt | Gt | LtEq | GtEq
    | LParen | RParen | Comma
    | Eof

  const I64_MAX: nat := 0x7fff_ffff_ffff_ffff

  predicate IsBlank(c: char) { c == ' ' || c == '\t' || c == '\n' || c == '\r' || c == '\U{0C}' }
  predicate IsDigit(c: char) { '0' <= c <= '9' }
  predicate WordStart(c: char) { 'a' <= c <= 'z' || 'A' <= c <= 'Z' || c == '_' }
  predicate WordChar(c: char) { WordStart(c) || IsDigit(c) }

  /** The end of the run of word characters from `pos`. */
  function WordEnd(s: string, pos: nat): (e: nat)
    requires pos <= |s|
    ensures pos <= e <= |s|
    decreases |s| - pos
  {
    if pos < |s| && WordChar(s[pos]) then WordEnd(s, pos + 1) else pos
  }

  /** The end of a run of digits with at most one dot, and whether there was one. */
  function NumEnd(s: string, pos: nat, dot: bool): (r: (nat, bool))
    requires pos <= |s|
    ensures pos <= r.0 <= |s|
    decreases |s| - pos
  {
    if pos < |s| && IsDigit(s[pos]) then NumEnd(s, pos + 1, dot)
    else if pos < |s| && s[pos] == '.' && !dot then NumEnd(s, pos + 1, true)
    else (pos, dot)
  }

  predicate NumStart(s: string, pos: nat)
    requires pos < |s|
  {
    IsDigit(s[pos]) || (s[pos] == '.' && pos + 1 < |s| && IsDigit(s[pos + 1]))
  }

  function DigitValue(c: char): nat
    requires IsDigit(c)
  {
    c as int - '0' as int
  }

  predicate AllDigits(s: string) {
    forall i :: 0 <= i < |s| ==> IsDigit(s[i])
  }

  function Decimal(s: string): nat
    requires AllDigits(s)
  {
    if s == [] then 0 else Decimal(s[..|s| - 1]) * 10 + DigitValue(s[|s| - 1])
  }

  /** One step of the scanner. */
  datatype Step = Skip | Take(token: Token, next: nat) | Bad

  lemma {:induction false} NoDotAllDigits(s: string, pos: nat, dot: bool)
    requires pos <= |s|
    ensures NumEnd(s, pos, dot).1 == dot ==> AllDigits(s[pos..NumEnd(s, pos, dot).0])
    ensures dot ==> NumEnd(s, pos, dot).1
    decreases |s| - pos
  {
    if pos < |s| && IsDigit(s[pos]) {
      NoDotAllDigits(s, pos + 1, dot);
    } else if pos < |s| && s[pos] == '.' && !dot {
      NoDotAllDigits(s, pos + 1, true);
    }
  }

  function NumberAt(s: string, pos: nat): (r: Step)
    requires pos < |s| && NumStart(s, pos)
    ensures r.Take? ==> pos < r.next <= |s|
  {
    var (e, dot) := NumEnd(s, pos, false);
    if e < |s| && WordStart(s[e]) then Take(Ident(s[pos..WordEnd(s, e)]), WordEnd(s, e))
    else if dot then Take(Float(s[pos..e]), e)
    else
      NoDotAllDigits(s, pos, false);
      if Decimal(s[pos..e]) <= I64_MAX then Take(Int(Decimal(s[pos..e])), e) else Bad
  }

  predicate Follows(s: string, pos: nat, c: char) {
    pos + 1 < |s| && s[pos + 1] == c
  }

  function SymbolAt(s: string, pos: nat): (r: Step)
    requires pos < |s|
    ensures r.Take? ==> pos < r.next <= |s|
  {
    match s[pos]
    case '+' => Take(Plus, pos + 1)
    case '-' => Take(Minus, pos + 1)
    case '*' => Take(Star, pos + 1)
    case '/' => Take(Slash, pos + 1)
    case '%' => Take(Percent, pos + 1)
    case '^' => Take(Caret, pos + 1)
    case '~' => Take(Tilde, pos + 1)
    case '(' => Take(LParen, pos + 1)
    case ')' => Take(RParen, pos + 1)
    case ',' => Take(Comma, pos + 1)
    case '&' => if Follows(s, pos, '&') then Take(And, pos + 2) else Take(Amp, pos + 1)
    case '|' => if Follows(s, pos, '|') then Take(Or, pos + 2) else Take(Pipe, pos + 1)
    case '!' => if Follows(s, pos, '=') then Take(NotEq, pos + 2) else Take(Bang, pos + 1)
    case '=' => if Follows(s, pos, '=') then Take(Eq, pos + 2) else Bad
    case '<' =>
      if Follows(s, pos, '=') then Take(LtEq, pos + 2)
      else if Follows(s, pos, '<') then Take(ShiftLeft, pos + 2)
      else Take(Lt, pos + 1)
    case '>' =>
      if Follows(s, pos, '=') then Take(GtEq, pos + 2)
      else if Follows(s, pos, '>') then Take(ShiftRight, pos + 2)
      else Take(Gt, pos + 1)
    case _ => Bad
  }

  function LexAt(s: string, pos: nat): (r: Step)
    requires pos < |s|
    ensures r.Take? ==> pos < r.next <= |s|
  {
    if IsBlank(s[pos]) then Skip
    else if NumStart(s, pos) then NumberAt(s, pos)
    else if WordStart(s[pos]) then Take(Ident(s[pos..WordEnd(s, pos)]), WordEnd(s, pos))
    else SymbolAt(s, pos)
  }

  /** The tokens from `pos` to the end, closed by `Eof`. */
  function LexFrom(s: string, pos: nat): Option<seq<Token>>
    requires pos <= |s|
    decreases |s| - pos
  {
    if pos == |s| then Some([Eof])
    else
      match LexAt(s, pos)
      case Bad => None
      case Skip => LexFrom(s, pos + 1)
      case Take(t, next) =>
        var rest := LexFrom(s, next);
        if rest.None? then None else Some([t] + rest.value)
  }

  function Prepend(tokens: seq<Token>, rest: Option<seq<Token>>): Option<seq<Token>> {
    if rest.None? then None else Some(tokens + rest.value)
  }

  lemma LexStep(s: string, pos: nat, tokens: seq<Token>)
    requires pos < |s|
    ensures LexAt(s, pos).Skip? ==> LexFrom(s, pos) == LexFrom(s, pos + 1)
    ensures LexAt(s, pos).Bad? ==> LexFrom(s, pos) == None
    ensures LexAt(s, pos).Take? ==>
      Prepend(tokens, LexFrom(s, pos)) == Prepend(tokens + [LexAt(s, pos).token], LexFrom(s, LexAt(s, pos).next))
  {
    hide LexAt;
    match LexAt(s, pos)
    case Take(t, next) =>
      var rest := LexFrom(s, next);
      if rest.Some? { assert tokens + ([t] + rest.value) == tokens + [t] + rest.value; }
    case _ =>
  }

  method Tokenize(s: string) returns (r: Option<seq<Token>>)
    ensures r == LexFrom(s, 0)
  {
    var tokens: seq<Token> := [];
    var pos: nat := 0;
    ghost var whole := LexFrom(s, 0);
    assert whole.Some? ==> [] + whole.value == whole.value;
    while pos < |s|
      invariant pos <= |s| && whole == Prepend(tokens, LexFrom(s, pos))
    {
      LexStep(s, pos, tokens);
      hide LexFrom, NumberAt, NumStart, SymbolAt;
      var c := s[pos];
      if IsBlank(c) {
        pos := pos + 1;
        continue;
      }
      if NumStart(s, pos) {
        var number := ScanNumber(s, pos);
        if number.Bad? { return None; }
        tokens, pos := tokens + [number.token], number.next;
        continue;
      }
      if WordStart(c) {
        var start := pos;
        pos := ScanWord(s, pos);
        tokens := tokens + [Ident(s[start..pos])];
        continue;
      }
      match SymbolAt(s, pos)
      case Take(t, next) => tokens, pos := tokens + [t], next;
      case _ => return None;
    }
    r := Some(tokens + [Eof]);
  }

  /** A number, or a name that starts with one. */
  method ScanNumber(s: string, start: nat) returns (r: Step)
    requires start < |s| && NumStart(s, start)
    ensures r == NumberAt(s, start) && !r.Skip?
  {
    var pos := start;
    var dot := false;
    while pos < |s| && (IsDigit(s[pos]) || s[pos] == '.')
      invariant start <= pos <= |s| && NumEnd(s, start, false) == NumEnd(s, pos, dot)
    {
      if s[pos] == '.' {
        if dot { break; }
        dot := true;
      }
      pos := pos + 1;
    }
    assert NumEnd(s, start, false) == (pos, dot);
    if pos < |s| && WordStart(s[pos]) {
      pos := ScanWord(s, pos);
      return Take(Ident(s[start..pos]), pos);
    }
    if dot { return Take(Float(s[start..pos]), pos); }
    NoDotAllDigits(s, start, false);
    var n := Decimal(s[start..pos]);
    r := if n <= I64_MAX then Take(Int(n), pos) else Bad;
  }

  method ScanWord(s: string, start: nat) returns (pos: nat)
    requires start <= |s|
    ensures pos == WordEnd(s, start)
  {
    pos := start;
    while pos < |s| && WordChar(s[pos])
      invariant start <= pos <= |s| && WordEnd(s, start) == WordEnd(s, pos)
    {
      pos := pos + 1;
    }
  }

  // --------------------------------------------------------------------- rendering

  function DigitChar(n: nat): (c: char)
    requires n < 10
    ensures IsDigit(c) && DigitValue(c) == n
  {
    ('0' as int + n) as char
  }

  function DecimalText(n: nat): (s: string)
    ensures s != [] && AllDigits(s)
  {
    if n < 10 then [DigitChar(n)] else DecimalText(n / 10) + [DigitChar(n % 10)]
  }

  lemma {:induction false} DecimalRoundTrip(n: nat)
    ensures Decimal(DecimalText(n)) == n
  {
    if n >= 10 {
      DecimalRoundTrip(n / 10);
      var s := DecimalText(n);
      assert s[..|s| - 1] == DecimalText(n / 10);
    } else {
      assert DecimalText(n)[..0] == [];
    }
  }

  /** Names a formula can mention: a word, or a number run into a word as plant codes are. */
  predicate IsName(s: string) {
    && s != []
    && if NumStart(s, 0) then
         var e := NumEnd(s, 0, false).0;
         e < |s| && WordStart(s[e]) && forall i :: e <= i < |s| ==> WordChar(s[i])
       else WordStart(s[0]) && forall i :: 0 <= i < |s| ==> WordChar(s[i])
  }

  /** Digits with exactly one dot. */
  predicate IsFloatText(s: string) {
    s != [] && NumStart(s, 0) && NumEnd(s, 0, false) == (|s|, true)
  }

  /** Tokens that have a text of their own. */
  predicate Writable(t: Token) {
    match t
    case Int(n) => n <= I64_MAX
    case Float(text) => IsFloatText(text)
    case Ident(name) => IsName(name)
    case Eof => false
    case _ => true
  }

  function TokenText(t: Token): string {
    match t
    case Int(n) => DecimalText(n)
    case Float(text) => text
    case Ident(name) => name
    case Plus => "+"
    case Minus => "-"
    case Star => "*"
    case Slash => "/"
    case Percent => "%"
    case Amp => "&"
    case Pipe => "|"
    case Caret => "^"
    case Tilde => "~"
    case ShiftLeft => "<<"
    case ShiftRight => ">>"
    case And => "&&"
    case Or => "||"
    case Bang => "!"
    case Eq => "=="
    case NotEq => "!="
    case Lt => "<"
    case Gt => ">"
    case LtEq => "<="
    case GtEq => ">="
    case LParen => "("
    case RParen => ")"
    case Comma => ","
    case Eof => ""
  }

  /** Every token followed by one blank. */
  function Render(tokens: seq<Token>): string {
    if tokens == [] then "" else TokenText(tokens[0]) + " " + Render(tokens[1..])
  }

  /** A piece of text stands at a position, followed by a blank. */
  predicate Spelled(s: string, pos: nat, piece: string) {
    && pos + |piece| < |s| && s[pos + |piece|] == ' '
    && forall i :: 0 <= i < |piece| ==> s[pos + i] == piece[i]
  }

  lemma {:induction false} WordEndSpelled(s: string, pos: nat, piece: string, j: nat)
    requires Spelled(s, pos, piece) && j <= |piece| && forall i :: j <= i < |piece| ==> WordChar(piece[i])
    ensures WordEnd(s, pos + j) == pos + |piece|
    decreases |piece| - j
  {
    if j < |piece| {
      assert s[pos + j] == piece[j];
      WordEndSpelled(s, pos, piece, j + 1);
    }
  }

  lemma {:induction false} NumEndSpelled(s: string, pos: nat, piece: string, j: nat, dot: bool)
    requires Spelled(s, pos, piece) && j <= |piece|
    ensures NumEnd(s, pos + j, dot) == (pos + NumEnd(piece, j, dot).0, NumEnd(piece, j, dot).1)
    decreases |piece| - j
  {
    if j < |piece| {
      assert s[pos + j] == piece[j];
      if IsDigit(piece[j]) {
        NumEndSpelled(s, pos, piece, j + 1, dot);
      } else if piece[j] == '.' && !dot {
        NumEndSpelled(s, pos, piece, j + 1, true);
      }
    }
  }

  lemma {:induction false} NumEndDigits(s: string, j: nat)
    requires AllDigits(s) && j <= |s|
    ensures NumEnd(s, j, false) == (|s|, false)
    decreases |s| - j
  {
    if j < |s| { NumEndDigits(s, j + 1); }
  }

  lemma SpelledSlice(s: string, pos: nat, piece: string)
    requires Spelled(s, pos, piece)
    ensures s[pos..pos + |piece|] == piece
  {
  }

  lemma NumStartSpelled(s: string, pos: nat, piece: string)
    requires Spelled(s, pos, piece) && piece != []
    ensures NumStart(s, pos) <==> NumStart(piece, 0)
  {
    assert s[pos] == piece[0];
    if |piece| > 1 { assert s[pos + 1] == piece[1]; }
  }

  lemma LexNumber(s: string, pos: nat, n: nat)
    requires n <= I64_MAX && Spelled(s, pos, DecimalText(n))
    ensures LexAt(s, pos) == Take(Int(n), pos + |DecimalText(n)|)
  {
    var piece := DecimalText(n);
    NumStartSpelled(s, pos, piece);
    NumEndSpelled(s, pos, piece, 0, false);
    NumEndDigits(piece, 0);
    SpelledSlice(s, pos, piece);
    DecimalRoundTrip(n);
    assert piece[0] == s[pos];
    hide DecimalText, NumEnd, Decimal;
  }

  lemma LexFloat(s: string, pos: nat, piece: string)
    requires IsFloatText(piece) && Spelled(s, pos, piece)
    ensures LexAt(s, pos) == Take(Float(piece), pos + |piece|)
  {
    NumStartSpelled(s, pos, piece);
    NumEndSpelled(s, pos, piece, 0, false);
    SpelledSlice(s, pos, piece);
    assert piece[0] == s[pos];
    hide NumEnd;
  }

  lemma LexName(s: string, pos: nat, piece: string)
    requires IsName(piece) && Spelled(s, pos, piece)
    ensures LexAt(s, pos) == Take(Ident(piece), pos + |piece|)
  {
    NumStartSpelled(s, pos, piece);
    SpelledSlice(s, pos, piece);
    assert piece[0] == s[pos];
    if NumStart(piece, 0) {
      NumEndSpelled(s, pos, piece, 0, false);
      var e := NumEnd(piece, 0, false).0;
      WordEndSpelled(s, pos, piece, e);
      assert s[pos + e] == piece[e];
    } else {
      WordEndSpelled(s, pos, piece, 0);
    }
    hide NumEnd, WordEnd;
  }

  lemma LexSymbol(s: string, pos: nat, t: Token)
    requires !t.Int? && !t.Float? && !t.Ident? && !t.Eof? && Spelled(s, pos, TokenText(t))
    ensures LexAt(s, pos) == Take(t, pos + |TokenText(t)|)
  {
    var piece := TokenText(t);
    assert s[pos] == piece[0];
    if |piece| == 2 { assert s[pos + 1] == piece[1]; }
  }

  /** A writable token's text followed by a blank is read back as that token. */
  lemma LexToken(s: string, pos: nat, t: Token)
    requires Writable(t) && Spelled(s, pos, TokenText(t))
    ensures LexAt(s, pos) == Take(t, pos + |TokenText(t)|)
  {
    match t
    case Int(n) => LexNumber(s, pos, n);
    case Float(text) => LexFloat(s, pos, text);
    case Ident(name) => LexName(s, pos, name);
    case _ => LexSymbol(s, pos, t);
  }

  /** A rendered token list read from the position where it starts. */
  lemma {:induction false} LexRendered(s: string, pos: nat, tokens: seq<Token>)
    requires forall i :: 0 <= i < |tokens| ==> Writable(tokens[i])
    requires pos <= |s| && s[pos..] == Render(tokens)
    ensures LexFrom(s, pos) == Some(tokens + [Eof])
    decreases |tokens|
  {
    hide *;
    if tokens == [] {
      LexEnd(s, pos);
    } else {
      RenderedHead(s, pos, tokens);
      LexRendered(s, pos + |TokenText(tokens[0])| + 1, tokens[1..]);
      LexToken(s, pos, tokens[0]);
      LexOne(s, pos, tokens[0], pos + |TokenText(tokens[0])|, tokens[1..] + [Eof]);
    }
    Regroup(tokens);
  }

  lemma Regroup(tokens: seq<Token>)
    ensures if tokens == [] then tokens + [Eof] == [Eof] else [tokens[0]] + (tokens[1..] + [Eof]) == tokens + [Eof]
  {
  }

  lemma LexEnd(s: string, pos: nat)
    requires pos <= |s| && s[pos..] == Render([])
    ensures LexFrom(s, pos) == Some([Eof])
  {
  }

  /** A token and the blank after it. */
  lemma LexOne(s: string, pos: nat, t: Token, next: nat, rest: seq<Token>)
    requires pos < |s| && LexAt(s, pos) == Take(t, next) && next < |s| && s[next] == ' '
    requires LexFrom(s, next + 1) == Some(rest)
    ensures LexFrom(s, pos) == Some([t] + rest)
  {
    BlankSkips(s, next);
    hide LexAt;
  }

  lemma RenderedHead(s: string, pos: nat, tokens: seq<Token>)
    requires tokens != [] && pos <= |s| && s[pos..] == Render(tokens)
    ensures Spelled(s, pos, TokenText(tokens[0]))
    ensures pos + |TokenText(tokens[0])| < |s| && s[pos + |TokenText(tokens[0])|] == ' '
    ensures s[pos + |TokenText(tokens[0])| + 1..] == Render(tokens[1..])
  {
    hide TokenText;
    var piece := TokenText(tokens[0]);
    assert s[pos..] == piece + " " + Render(tokens[1..]);
    assert forall i :: 0 <= i <= |piece| ==> s[pos + i] == s[pos..][i];
    assert s[pos + |piece| + 1..] == s[pos..][|piece| + 1..];
  }

  lemma BlankSkips(s: string, pos: nat)
    requires pos < |s| && s[pos] == ' '
    ensures LexAt(s, pos).Skip?
  {
  }

  /** THEOREM: rendering a list of writable tokens and tokenizing it gives the list back. */
  lemma {:induction false} TokenizeRender(tokens: seq<Token>)
    requires forall i :: 0 <= i < |tokens| ==> Writable(tokens[i])
    ensures LexFrom(Render(tokens), 0) == Some(tokens + [Eof])
  {
    assert Render(tokens)[0..] == Render(tokens);
    LexRendered(Render(tokens), 0, tokens);
  }

  // ------------------------------------------------------------- what tokens stand for

  /** Digits but for one dot. */
  ghost predicate OneDot(word: string) {
    exists k :: 0 <= k < |word| && word[k] == '.' && forall i :: 0 <= i < |word| && i != k ==> IsDigit(word[i])
  }

  /** A word of the text is what a token stands for. */
  ghost predicate StandsFor(word: string, t: Token) {
    match t
    case Int(n) => AllDigits(word) && Decimal(word) == n <= I64_MAX
    case Float(text) => word == text && OneDot(word)
    case Ident(name) => word == name
    case Eof => false
    case _ => word == TokenText(t)
  }

  /** A name ends where no word character follows, an integer also where no digit or dot does. */
  ghost predicate EndsAt(s: string, e: nat, t: Token) {
    e < |s| ==> (t.Ident? ==> !WordChar(s[e])) && (t.Int? ==> !WordChar(s[e]) && s[e] != '.')
  }

  ghost predicate FirstWord(s: string, pos: nat, e: nat, t: Token) {
    pos < e <= |s| && StandsFor(s[pos..e], t) && EndsAt(s, e, t)
  }

  /** From `pos` on the text is blanks and, in order, words the tokens stand for. */
  ghost predicate Reads(s: string, pos: nat, tokens: seq<Token>)
    requires pos <= |s|
    decreases |s| - pos
  {
    if pos == |s| then tokens == [Eof]
    else if s[pos] in " \t\n\r\U{0C}" then Reads(s, pos + 1, tokens)
    else tokens != [] && exists e :: FirstWord(s, pos, e, tokens[0]) && Reads(s, e, tokens[1..])
  }

  lemma {:induction false} WordEndStops(s: string, pos: nat)
    requires pos <= |s|
    ensures var e := WordEnd(s, pos); e < |s| ==> !WordChar(s[e])
    decreases |s| - pos
  {
    if pos < |s| && WordChar(s[pos]) { WordEndStops(s, pos + 1); }
  }

  lemma {:induction false} NumEndStops(s: string, pos: nat, dot: bool)
    requires pos <= |s|
    ensures var (e, d) := NumEnd(s, pos, dot); e < |s| ==> !IsDigit(s[e]) && (!d ==> s[e] != '.')
    ensures dot ==> NumEnd(s, pos, dot).1 && AllDigits(s[pos..NumEnd(s, pos, dot).0])
    ensures !dot && NumEnd(s, pos, dot).1 ==> OneDot(s[pos..NumEnd(s, pos, dot).0])
    decreases |s| - pos
  {
    var (e, d) := NumEnd(s, pos, dot);
    if pos < |s| && IsDigit(s[pos]) {
      NumEndStops(s, pos + 1, dot);
      if !dot && d {
        var w := s[pos + 1..e];
        var k :| 0 <= k < |w| && w[k] == '.' && forall i :: 0 <= i < |w| && i != k ==> IsDigit(w[i]);
        DotMoves(s, pos, e, k);
      }
    } else if pos < |s| && s[pos] == '.' && !dot {
      NumEndStops(s, pos + 1, true);
      var w := s[pos..e];
      assert w[1..] == s[pos + 1..e];
      assert w[0] == '.' && forall i :: 0 <= i < |w| && i != 0 ==> w[i] == w[1..][i - 1];
    }
  }

  lemma DotMoves(s: string, pos: nat, e: nat, k: nat)
    requires pos < e <= |s| && IsDigit(s[pos])
    requires var w := s[pos + 1..e]; k < |w| && w[k] == '.' && forall i :: 0 <= i < |w| && i != k ==> IsDigit(w[i])
    ensures OneDot(s[pos..e])
  {
    var v, w := s[pos..e], s[pos + 1..e];
    assert v == [s[pos]] + w;
    assert v[k + 1] == '.' && forall i :: 0 <= i < |v| && i != k + 1 ==> IsDigit(v[i]);
  }

  /** What the scanner takes is a word that stands for its token. */
  lemma {:induction false} TakenWord(s: string, pos: nat)
    requires pos < |s|
    ensures var r := LexAt(s, pos); r.Take? ==> FirstWord(s, pos, r.next, r.token)
  {
    if !IsBlank(s[pos]) {
      if NumStart(s, pos) {
        NumberWord(s, pos);
      } else if WordStart(s[pos]) {
        WordEndStops(s, pos);
      } else {
        SymbolWord(s, pos);
      }
    }
    hide NumberAt, SymbolAt;
  }

  lemma NumberWord(s: string, pos: nat)
    requires pos < |s| && NumStart(s, pos)
    ensures var r := NumberAt(s, pos); r.Take? ==> FirstWord(s, pos, r.next, r.token)
  {
    var (e, dot) := NumEnd(s, pos, false);
    NumEndStops(s, pos, false);
    NoDotAllDigits(s, pos, false);
    WordEndStops(s, e);
    hide NumEnd, WordEnd, OneDot;
  }

  lemma SymbolWord(s: string, pos: nat)
    requires pos < |s|
    ensures var r := SymbolAt(s, pos); r.Take? ==> FirstWord(s, pos, r.next, r.token)
  {
    var r := SymbolAt(s, pos);
    if r.Take? {
      SymbolText(s, pos);
      if r.next == pos + 1 {
        assert s[pos..r.next] == [s[pos]];
      } else {
        assert s[pos..r.next] == [s[pos], s[pos + 1]];
      }
    }
    hide SymbolAt, TokenText;
  }

  lemma SymbolText(s: string, pos: nat)
    requires pos < |s|
    ensures var r := SymbolAt(s, pos);
      r.Take? ==>
        && !r.token.Int? && !r.token.Float? && !r.token.Ident? && !r.token.Eof?
        && (r.next == pos + 1 || r.next == pos + 2)
        && TokenText(r.token) == if r.next == pos + 1 then [s[pos]] else [s[pos], s[pos + 1]]
  {
  }

  /** THEOREM: the tokens of a text account for every character of it but the blanks. */
  lemma {:induction false} TokensRead(s: string, pos: nat)
    requires pos <= |s|
    ensures LexFrom(s, pos).Some? ==> Reads(s, pos, LexFrom(s, pos).value)
    decreases |s| - pos
  {
    hide LexAt, FirstWord;
    if pos < |s| {
      BlankIs(s, pos);
      match LexAt(s, pos)
      case Bad =>
      case Skip => TokensRead(s, pos + 1);
      case Take(t, next) =>
        TakenWord(s, pos);
        TokensRead(s, next);
        var rest := LexFrom(s, next);
        if rest.Some? { assert ([t] + rest.value)[1..] == rest.value; }
    }
  }

  lemma BlankIs(s: string, pos: nat)
    requires pos < |s|
    ensures LexAt(s, pos).Skip? <==> s[pos] in " \t\n\r\U{0C}"
  {
  }

  /** THEOREM: a text is refused only at a character that starts nothing, a single equals sign, or an
      integer beyond 64 bits. */
  lemma {:induction false} RefusedAt(s: string, pos: nat)
    requires pos < |s|
    ensures LexAt(s, pos).Bad? ==>
      || (s[pos] == '=' && (pos + 1 == |s| || s[pos + 1] != '='))
      || (NumStart(s, pos) && exists e :: pos < e <= |s| && AllDigits(s[pos..e]) && Decimal(s[pos..e]) > I64_MAX)
      || !(s[pos] in " \t\n\r\U{0C}+-*/%^~(),&|!=<>_" || 'a' <= s[pos] <= 'z' || 'A' <= s[pos] <= 'Z' || '0' <= s[pos] <= '9'
           || (s[pos] == '.' && pos + 1 < |s| && '0' <= s[pos + 1] <= '9'))
  {
    if LexAt(s, pos).Bad? {
      if NumStart(s, pos) {
        NoDotAllDigits(s, pos, false);
        var e := NumEnd(s, pos, false).0;
        assert AllDigits(s[pos..e]) && Decimal(s[pos..e]) > I64_MAX;
        NumEndMoves(s, pos);
      }
    }
  }

  lemma NumEndMoves(s: string, pos: nat)
    requires pos < |s| && NumStart(s, pos)
    ensures NumEnd(s, pos, false).0 > pos
  {
  }
}
