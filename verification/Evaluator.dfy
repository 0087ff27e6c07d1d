/** Evaluation of formula trees, with and without validity. */
module Evaluator {
  import opened Basics
  import opened Parser
  import Bits

  /** A double, as its bit pattern. */
  type Float = x: int | 0 <= x < 0x1_0000_0000_0000_0000

  /** IEEE 754 arithmetic and conversions enter only through these functions. */
  datatype FloatOps = FloatOps(
    parse: string -> Float, ofInt: int -> Float, ofBool: bool -> Float,
    neg: Float -> Float,
    add: (Float, Float) -> Float, sub: (Float, Float) -> Float, mul: (Float, Float) -> Float,
    div: (Float, Float) -> Float, rem: (Float, Float) -> Float,
    lt: (Float, Float) -> bool, le: (Float, Float) -> bool, near: (Float, Float) -> bool,
    isZero: Float -> bool, finite: Float -> bool, same: (Float, Float) -> bool, asI64: Float -> Option<int>,
    toU32: Float -> nat, toF32: Float -> Float, f32Max: Float)

  datatype EvalValue = IntV(i: int) | BoolV(b: bool) | FloatV(f: Float)

  datatype EvalError = Missing(name: string) | DivisionByZero | TypeError

  type Evaluated<T> = Result<T, EvalError>

  const I64_MIN: int := -0x8000_0000_0000_0000
  const I64_MAX: int := 0x7fff_ffff_ffff_ffff
  const TWO_TO_64: int := 0x1_0000_0000_0000_0000

  function AsBool(ops: FloatOps, v: EvalValue): bool {
    match v
    case BoolV(b) => b
    case IntV(n) => n != 0
    case FloatV(f) => !ops.isZero(f)
  }

  function AsFloat(ops: FloatOps, v: EvalValue): Float {
    match v
    case IntV(n) => ops.ofInt(n)
    case BoolV(b) => ops.ofBool(b)
    case FloatV(f) => f
  }

  /** A value as an operand of integer operations; a float must be a whole number in range. */
  function AsInt(ops: FloatOps, v: EvalValue): Evaluated<int> {
    match v
    case IntV(n) => Ok(n)
    case BoolV(b) => Ok(if b then 1 else 0)
    case FloatV(f) => if ops.asI64(f).Some? then Ok(ops.asI64(f).value) else Err(TypeError)
  }

  function Checked(n: int): Evaluated<EvalValue> {
    if I64_MIN <= n <= I64_MAX then Ok(IntV(n)) else Err(TypeError)
  }

  /** Two's complement, 64 bits. */
  function Unsigned(n: int): nat { n % TWO_TO_64 }

  function Signed(n: nat): int {
    if n % TWO_TO_64 <= I64_MAX then n % TWO_TO_64 else n % TWO_TO_64 - TWO_TO_64
  }

  function Abs(n: int): nat { if n < 0 then -n else n }

  /** The remainder takes the sign of the dividend. */
  function TruncRem(a: int, b: int): int
    requires b != 0
  {
    if a < 0 then -(Abs(a) % Abs(b)) else a % Abs(b)
  }

  /** The count is narrowed to 32 bits before it is limited to 63. */
  function CheckedShift(shift: int): Evaluated<nat> {
    if shift < 0 then Err(TypeError)
    else var narrow := shift % 0x1_0000_0000; Ok(if narrow < 63 then narrow else 63)
  }

  function EvalUnary(ops: FloatOps, op: UnaryOp, v: EvalValue): Evaluated<EvalValue> {
    match op
    case Neg =>
      if v.FloatV? then Ok(FloatV(ops.neg(v.f)))
      else if AsInt(ops, v).Err? then Err(AsInt(ops, v).error)
      else Checked(-AsInt(ops, v).value)
    case Not => Ok(BoolV(!AsBool(ops, v)))
    case BitNot => if AsInt(ops, v).Err? then Err(AsInt(ops, v).error) else Ok(IntV(-AsInt(ops, v).value - 1))
  }

  /** An integer operation on both operands, the left one converted first. */
  function OnInts(ops: FloatOps, l: EvalValue, r: EvalValue, f: (int, int) -> Evaluated<EvalValue>): Evaluated<EvalValue> {
    if AsInt(ops, l).Err? then Err(AsInt(ops, l).error)
    else if AsInt(ops, r).Err? then Err(AsInt(ops, r).error)
    else f(AsInt(ops, l).value, AsInt(ops, r).value)
  }

  function Arith(ops: FloatOps, l: EvalValue, r: EvalValue, f: (Float, Float) -> Float, g: (int, int) -> Evaluated<EvalValue>): Evaluated<EvalValue> {
    if l.FloatV? || r.FloatV? then Ok(FloatV(f(AsFloat(ops, l), AsFloat(ops, r)))) else OnInts(ops, l, r, g)
  }

  /** Arithmetic right shift: halving, rounded down, once for each place. */
  function ShiftRight(n: int, places: nat): int
    decreases places
  {
    if places == 0 then n else ShiftRight(n / 2, places - 1)
  }

  /** A shift converts its count first. */
  function EvalShift(ops: FloatOps, l: EvalValue, r: EvalValue, left: bool): Evaluated<EvalValue> {
    var count := AsInt(ops, r);
    if count.Err? then Err(count.error)
    else
      var shift := CheckedShift(count.value);
      if shift.Err? then Err(shift.error)
      else if AsInt(ops, l).Err? then Err(AsInt(ops, l).error)
      else
        var n := AsInt(ops, l).value;
        Ok(IntV(if left then Signed(Bits.Shl(Unsigned(n), shift.value)) else ShiftRight(n, shift.value)))
  }

  function EqValues(ops: FloatOps, l: EvalValue, r: EvalValue): bool {
    match (l, r)
    case (BoolV(a), BoolV(b)) => a == b
    case (IntV(a), IntV(b)) => a == b
    case _ => ops.near(AsFloat(ops, l), AsFloat(ops, r))
  }

  function EvalBinary(ops: FloatOps, op: BinOp, l: EvalValue, r: EvalValue): Evaluated<EvalValue>
    requires op != LogicAnd && op != LogicOr
  {
    match op
    case Add => Arith(ops, l, r, ops.add, (a, b) => Checked(a + b))
    case Sub => Arith(ops, l, r, ops.sub, (a, b) => Checked(a - b))
    case Mul => Arith(ops, l, r, ops.mul, (a, b) => Checked(a * b))
    case Div =>
      if ops.isZero(AsFloat(ops, r)) then Err(DivisionByZero)
      else Ok(FloatV(ops.div(AsFloat(ops, l), AsFloat(ops, r))))
    case Mod =>
      if ops.isZero(AsFloat(ops, r)) then Err(DivisionByZero)
      else Arith(ops, l, r, ops.rem,
             (a, b) => if b == 0 || (a == I64_MIN && b == -1) then Err(TypeError) else Ok(IntV(TruncRem(a, b))))
    case BitAnd => OnInts(ops, l, r, (a, b) => Ok(IntV(Signed(Bits.And(Unsigned(a), Unsigned(b))))))
    case BitOr => OnInts(ops, l, r, (a, b) => Ok(IntV(Signed(Bits.Or(Unsigned(a), Unsigned(b))))))
    case BitXor => OnInts(ops, l, r, (a, b) => Ok(IntV(Signed(Bits.Xor(Unsigned(a), Unsigned(b))))))
    case Shl => EvalShift(ops, l, r, true)
    case Shr => EvalShift(ops, l, r, false)
    case Equal => Ok(BoolV(EqValues(ops, l, r)))
    case NotEqual => Ok(BoolV(!EqValues(ops, l, r)))
    case Less => Ok(BoolV(ops.lt(AsFloat(ops, l), AsFloat(ops, r))))
    case Greater => Ok(BoolV(ops.lt(AsFloat(ops, r), AsFloat(ops, l))))
    case LessEqual => Ok(BoolV(ops.le(AsFloat(ops, l), AsFloat(ops, r))))
    case GreaterEqual => Ok(BoolV(ops.le(AsFloat(ops, r), AsFloat(ops, l))))
  }

  function EvalLiteral(ops: FloatOps, lit: Literal): EvalValue {
    match lit
    case IntLit(n) => IntV(n)
    case FloatLit(text) => FloatV(ops.parse(text))
    case BoolLit(b) => BoolV(b)
  }

  /** Plain evaluation; `&&`, `||` and `IF` evaluate only the operands they need. */
  function Evaluate(ops: FloatOps, e: Expr, vars: map<string, EvalValue>): Evaluated<EvalValue> {
    match e
    case Lit(lit) => Ok(EvalLiteral(ops, lit))
    case Var(name) => if name in vars then Ok(vars[name]) else Err(Missing(name))
    case Unary(op, x) =>
      var v := Evaluate(ops, x, vars);
      if v.Err? then v else EvalUnary(ops, op, v.value)
    case Binary(op, left, right) =>
      var l := Evaluate(ops, left, vars);
      if l.Err? then l
      else if op == LogicAnd && !AsBool(ops, l.value) then Ok(BoolV(false))
      else if op == LogicOr && AsBool(ops, l.value) then Ok(BoolV(true))
      else
        var r := Evaluate(ops, right, vars);
        if r.Err? then r
        else if op == LogicAnd || op == LogicOr then Ok(BoolV(AsBool(ops, r.value)))
        else EvalBinary(ops, op, l.value, r.value)
    case If(cond, yes, no) =>
      var c := Evaluate(ops, cond, vars);
      if c.Err? then c else if AsBool(ops, c.value) then Evaluate(ops, yes, vars) else Evaluate(ops, no, vars)
  }

  predicate Marked(validity: map<string, bool>, name: string) {
    name in validity && validity[name]
  }

  /** Evaluation that also reports whether everything it read was valid. */
  function EvaluateWithValidity(ops: FloatOps, e: Expr, vars: map<string, EvalValue>, validity: map<string, bool>): Evaluated<(EvalValue, bool)> {
    match e
    case Lit(lit) => Ok((EvalLiteral(ops, lit), true))
    case Var(name) => if name in vars then Ok((vars[name], Marked(validity, name))) else Err(Missing(name))
    case Unary(op, x) =>
      var v := EvaluateWithValidity(ops, x, vars, validity);
      if v.Err? then v
      else
        var u := EvalUnary(ops, op, v.value.0);
        if u.Err? then Err(u.error) else Ok((u.value, v.value.1))
    case Binary(op, left, right) =>
      var l := EvaluateWithValidity(ops, left, vars, validity);
      if l.Err? then l
      else if op == LogicAnd && !AsBool(ops, l.value.0) then Ok((BoolV(false), l.value.1))
      else if op == LogicOr && AsBool(ops, l.value.0) then Ok((BoolV(true), l.value.1))
      else
        var r := EvaluateWithValidity(ops, right, vars, validity);
        if r.Err? then r
        else if op == LogicAnd || op == LogicOr then Ok((BoolV(AsBool(ops, r.value.0)), l.value.1 && r.value.1))
        else
          var b := EvalBinary(ops, op, l.value.0, r.value.0);
          if b.Err? then Err(b.error) else Ok((b.value, l.value.1 && r.value.1))
    case If(cond, yes, no) =>
      var c := EvaluateWithValidity(ops, cond, vars, validity);
      if c.Err? then c
      else
        var v := if AsBool(ops, c.value.0) then EvaluateWithValidity(ops, yes, vars, validity)
                 else EvaluateWithValidity(ops, no, vars, validity);
        if v.Err? then v else Ok((v.value.0, c.value.1 && v.value.1))
  }

  function Erase(r: Evaluated<(EvalValue, bool)>): Evaluated<EvalValue> {
    if r.Err? then Err(r.error) else Ok(r.value.0)
  }

  /** Validity tracking never changes a value or an error. */
  lemma {:induction false} ErasureIsEvaluate(ops: FloatOps, e: Expr, vars: map<string, EvalValue>, validity: map<string, bool>)
    ensures Erase(EvaluateWithValidity(ops, e, vars, validity)) == Evaluate(ops, e, vars)
    decreases e
  {
    hide EvalUnary, EvalBinary, AsBool, EvalLiteral;
    match e
    case Lit(_) =>
    case Var(_) =>
    case Unary(_, x) => ErasureIsEvaluate(ops, x, vars, validity);
    case Binary(_, l, r) =>
      ErasureIsEvaluate(ops, l, vars, validity);
      ErasureIsEvaluate(ops, r, vars, validity);
    case If(c, y, n) =>
      ErasureIsEvaluate(ops, c, vars, validity);
      ErasureIsEvaluate(ops, y, vars, validity);
      ErasureIsEvaluate(ops, n, vars, validity);
  }

  function Mentions(e: Expr): set<string> {
    match e
    case Lit(_) => {}
    case Var(name) => {name}
    case Unary(_, x) => Mentions(x)
    case Binary(_, l, r) => Mentions(l) + Mentions(r)
    case If(c, y, n) => Mentions(c) + Mentions(y) + Mentions(n)
  }

  function Get(vars: map<string, EvalValue>, name: string): Option<EvalValue> {
    if name in vars then Some(vars[name]) else None
  }

  /** Two situations in which a name is equally valid, and if valid has the same value. */
  ghost predicate SameIfValid(v1: map<string, EvalValue>, q1: map<string, bool>, v2: map<string, EvalValue>, q2: map<string, bool>, name: string) {
    && (Marked(q1, name) <==> Marked(q2, name))
    && (Marked(q1, name) ==> Get(v1, name) == Get(v2, name))
  }

  /** A valid result does not depend on anything invalid: replace or delete every invalid variable and
      it comes out the same, and still valid. */
  lemma {:induction false} NonInterference(ops: FloatOps, e: Expr, v1: map<string, EvalValue>, q1: map<string, bool>, v2: map<string, EvalValue>, q2: map<string, bool>)
    requires forall n :: n in Mentions(e) ==> SameIfValid(v1, q1, v2, q2, n)
    ensures var r := EvaluateWithValidity(ops, e, v1, q1);
            r.Ok? && r.value.1 ==> EvaluateWithValidity(ops, e, v2, q2) == r
    decreases e
  {
    hide EvalUnary, EvalBinary, AsBool, EvalLiteral;
    match e
    case Lit(_) =>
    case Var(name) => assert SameIfValid(v1, q1, v2, q2, name);
    case Unary(_, x) => NonInterference(ops, x, v1, q1, v2, q2);
    case Binary(_, l, r) =>
      NonInterference(ops, l, v1, q1, v2, q2);
      NonInterference(ops, r, v1, q1, v2, q2);
    case If(c, y, n) =>
      NonInterference(ops, c, v1, q1, v2, q2);
      NonInterference(ops, y, v1, q1, v2, q2);
      NonInterference(ops, n, v1, q1, v2, q2);
  }

  /** Evaluation looks at nothing but the variables an expression mentions. */
  lemma {:induction false} Coincidence(ops: FloatOps, e: Expr, v1: map<string, EvalValue>, q1: map<string, bool>, v2: map<string, EvalValue>, q2: map<string, bool>)
    requires forall n :: n in Mentions(e) ==> Get(v1, n) == Get(v2, n) && (Marked(q1, n) <==> Marked(q2, n))
    ensures EvaluateWithValidity(ops, e, v1, q1) == EvaluateWithValidity(ops, e, v2, q2)
    decreases e
  {
    hide EvalUnary, EvalBinary, AsBool, EvalLiteral;
    match e
    case Lit(_) =>
    case Var(name) => assert Get(v1, name) == Get(v2, name);
    case Unary(_, x) => Coincidence(ops, x, v1, q1, v2, q2);
    case Binary(_, l, r) =>
      Coincidence(ops, l, v1, q1, v2, q2);
      Coincidence(ops, r, v1, q1, v2, q2);
    case If(c, y, n) =>
      Coincidence(ops, c, v1, q1, v2, q2);
      Coincidence(ops, y, v1, q1, v2, q2);
      Coincidence(ops, n, v1, q1, v2, q2);
  }

  /** Shift counts saturate at 63 except where narrowing to 32 bits brings them back below it. */
  lemma ShiftSaturatesExactly(shift: nat)
    ensures CheckedShift(shift).Ok?
    ensures CheckedShift(shift).value == (if shift < 63 then shift else 63)
            <==> shift < 0x1_0000_0000 || shift % 0x1_0000_0000 >= 63
  {
  }

  lemma ShiftDoesNotAlwaysSaturate()
    ensures CheckedShift(0x1_0000_0000) == Ok(0)
  {
  }

  // ------------------------------------------------------------ bit operations on integers

  predicate InRange(n: int) { I64_MIN <= n <= I64_MAX }

  /** Bit `j` of a 64-bit two's complement integer. */
  predicate IntBit(n: int, j: nat) { Bits.Bit(Unsigned(n), j) }

  lemma UnsignedSigned(x: nat)
    requires x < TWO_TO_64
    ensures Unsigned(Signed(x)) == x && InRange(Signed(x))
  {
  }

  lemma UnsignedComplement(a: int)
    requires InRange(a)
    ensures Unsigned(a) == (if a < 0 then a + TWO_TO_64 else a) && Unsigned(-a - 1) == TWO_TO_64 - 1 - Unsigned(a)
  {
  }

  /** The operators act bit by bit on the two's complement representation. */
  lemma BitwiseMeaning(ops: FloatOps, a: int, b: int, j: nat)
    requires InRange(a) && InRange(b) && j < 64
    ensures var r := EvalBinary(ops, BitAnd, IntV(a), IntV(b));
            r.Ok? && r.value.IntV? && InRange(r.value.i) && (IntBit(r.value.i, j) <==> IntBit(a, j) && IntBit(b, j))
    ensures var r := EvalBinary(ops, BitOr, IntV(a), IntV(b));
            r.Ok? && r.value.IntV? && InRange(r.value.i) && (IntBit(r.value.i, j) <==> IntBit(a, j) || IntBit(b, j))
    ensures var r := EvalBinary(ops, BitXor, IntV(a), IntV(b));
            r.Ok? && r.value.IntV? && InRange(r.value.i) && (IntBit(r.value.i, j) <==> IntBit(a, j) != IntBit(b, j))
  {
    hide Bits.And, Bits.Or, Bits.Xor, Bits.Bit, Bits.Pow2, Signed, Unsigned;
    var x, y := Unsigned(a), Unsigned(b);
    Bits.Pow2Values();
    UnsignedComplement(a);
    UnsignedComplement(b);
    Bits.AndBound(x, y);
    Bits.OrBound(x, y, 64);
    Bits.XorBound(x, y, 64);
    Bits.BitAnd(x, y, j);
    Bits.BitOr(x, y, j);
    Bits.BitXor(x, y, j);
    UnsignedSigned(Bits.And(x, y));
    UnsignedSigned(Bits.Or(x, y));
    UnsignedSigned(Bits.Xor(x, y));
  }

  lemma ComplementBit(a: int, j: nat)
    requires InRange(a) && j < 64
    ensures InRange(-a - 1) && (IntBit(-a - 1, j) <==> !IntBit(a, j))
  {
    hide Bits.Bit, Bits.Pow2, Unsigned;
    Bits.Pow2Values();
    UnsignedComplement(a);
    Bits.BitComplement(Unsigned(a), 64, j);
  }

  lemma ComplementMeaning(ops: FloatOps, a: int, j: nat)
    requires InRange(a) && j < 64
    ensures var r := EvalUnary(ops, BitNot, IntV(a));
            r.Ok? && r.value.IntV? && InRange(r.value.i) && (IntBit(r.value.i, j) <==> !IntBit(a, j))
  {
    ComplementBit(a, j);
  }

  lemma UnsignedOfSigned(x: nat)
    ensures Unsigned(Signed(x)) == x % TWO_TO_64 && InRange(Signed(x))
  {
  }

  lemma {:induction false} LowBits(x: nat, j: nat)
    requires j < 64
    ensures Bits.Bit(x % TWO_TO_64, j) == Bits.Bit(x, j)
    decreases x
  {
    hide Bits.Bit, Bits.Pow2;
    Bits.Pow2Values();
    if x >= TWO_TO_64 {
      Bits.BitLow(x, 64, j);
      LowBits(x - TWO_TO_64, j);
    }
  }

  /** A left shift moves every bit up, fills with zeros and drops what leaves 64 bits. */
  lemma ShiftLeftMeaning(ops: FloatOps, a: int, b: nat, j: nat)
    requires InRange(a) && InRange(b) && j < 64
    ensures var r, n := EvalBinary(ops, Shl, IntV(a), IntV(b)), CheckedShift(b).value;
            r.Ok? && r.value.IntV? && InRange(r.value.i) && (IntBit(r.value.i, j) <==> j >= n && IntBit(a, j - n))
  {
    hide Bits.Shl, Bits.Bit, Bits.Pow2, Signed, Unsigned;
    UnsignedComplement(a);
    var n, x := CheckedShift(b).value, Unsigned(a);
    UnsignedOfSigned(Bits.Shl(x, n));
    LowBits(Bits.Shl(x, n), j);
    Bits.BitShl(x, n, j);
  }

  /** A right shift moves every bit down and fills with the sign bit. */
  lemma ShiftRightMeaning(ops: FloatOps, a: int, b: nat, j: nat)
    requires InRange(a) && InRange(b) && j < 64
    ensures var r, n := EvalBinary(ops, Shr, IntV(a), IntV(b)), CheckedShift(b).value;
            r.Ok? && r.value.IntV? && InRange(r.value.i)
            && (IntBit(r.value.i, j) <==> IntBit(a, if j + n < 63 then j + n else 63))
  {
    hide Bits.Bit, Unsigned, InRange, ShiftRight;
    ShiftRightBits(a, CheckedShift(b).value, j);
  }

  /** A negative count is refused. */
  lemma NegativeShift(ops: FloatOps, l: EvalValue, b: int)
    requires b < 0
    ensures EvalBinary(ops, Shl, l, IntV(b)) == Err(TypeError) && EvalBinary(ops, Shr, l, IntV(b)) == Err(TypeError)
  {
  }

  lemma {:induction false} ShiftRightBits(a: int, n: nat, j: nat)
    requires InRange(a) && j < 64
    ensures InRange(ShiftRight(a, n))
    ensures IntBit(ShiftRight(a, n), j) <==> IntBit(a, if j + n < 63 then j + n else 63)
    decreases n
  {
    hide IntBit;
    if n > 0 {
      ShiftRightBits(a / 2, n - 1, j);
      HalfBit(a, if j + n - 1 < 63 then j + n - 1 else 63);
    }
  }

  /** Halving moves the bits down one place and keeps the sign: a negative number is the complement of a
      natural one. */
  lemma HalfBit(a: int, j: nat)
    requires InRange(a) && j < 64
    ensures IntBit(a / 2, j) <==> IntBit(a, if j < 63 then j + 1 else 63)
  {
    hide IntBit;
    if a >= 0 {
      NaturalHalfBit(a, j);
    } else {
      var m := -a - 1;
      assert a / 2 == -(m / 2) - 1;
      NaturalHalfBit(m, j);
      ComplementBit(m, if j < 63 then j + 1 else 63);
      ComplementBit(m / 2, j);
    }
  }

  lemma NaturalHalfBit(m: nat, j: nat)
    requires m <= I64_MAX && j < 64
    ensures IntBit(m / 2, j) <==> IntBit(m, if j < 63 then j + 1 else 63)
  {
    hide Bits.Bit, Bits.Pow2;
    if j == 63 {
      SignClear(m);
      SignClear(m / 2);
    } else {
      Bits.BitHalf(m, j);
    }
  }

  lemma SignClear(m: nat)
    requires m <= I64_MAX
    ensures !IntBit(m, 63)
  {
    hide Bits.Bit;
    Bits.Pow2Values();
    Bits.BitHigh(m, 63, 63);
  }

  // ------------------------------------------------------- what each operator computes

  /** An integer result, or an error when it leaves 64 bits. */
  ghost predicate Computes(r: Evaluated<EvalValue>, n: int) {
    if InRange(n) then r == Ok(IntV(n)) else r == Err(TypeError)
  }

  lemma IntegerArithmetic(ops: FloatOps, a: int, b: int)
    requires InRange(a) && InRange(b)
    ensures Computes(EvalBinary(ops, Add, IntV(a), IntV(b)), a + b)
    ensures Computes(EvalBinary(ops, Sub, IntV(a), IntV(b)), a - b)
    ensures Computes(EvalBinary(ops, Mul, IntV(a), IntV(b)), a * b)
    ensures Computes(EvalUnary(ops, Neg, IntV(a)), 0 - a)
  {
  }

  /** The remainder of truncated division: smaller than the divisor, with the sign of the dividend, and
      what is left divides evenly. */
  ghost predicate Remainder(a: int, b: int, m: int) {
    && (m < b || m < 0 - b) && (0 - m < b || 0 - m < 0 - b)
    && (a < 0 ==> m <= 0) && (a >= 0 ==> m >= 0)
    && exists q :: a == b * q + m
  }

  lemma RemainderMeaning(ops: FloatOps, a: int, b: int)
    requires InRange(a) && InRange(b) && (ops.isZero(ops.ofInt(b)) <==> b == 0)
    ensures var r := EvalBinary(ops, Mod, IntV(a), IntV(b));
      if b == 0 then r == Err(DivisionByZero)
      else if a == I64_MIN && b == -1 then r == Err(TypeError)
      else r.Ok? && r.value.IntV? && Remainder(a, b, r.value.i)
  {
    if b != 0 && !(a == I64_MIN && b == -1) {
      var d := Abs(b);
      var m := if a < 0 then -(Abs(a) % d) else a % d;
      var q := if a < 0 then -(Abs(a) / d) else a / d;
      Truncated(a, d);
      SignedQuotient(a, b, q, m);
    }
  }

  lemma Truncated(a: int, d: int)
    requires d > 0
    ensures var m := if a < 0 then -(Abs(a) % d) else a % d; var q := if a < 0 then -(Abs(a) / d) else a / d;
      a == d * q + m && -d < m < d && (a < 0 ==> m <= 0) && (a >= 0 ==> m >= 0)
  {
    var n := Abs(a);
    assert n == d * (n / d) + n % d;
    assert d * -(n / d) == -(d * (n / d));
  }

  lemma SignedQuotient(a: int, b: int, q: int, m: int)
    requires b != 0 && a == Abs(b) * q + m && (a < 0 ==> m <= 0) && (a >= 0 ==> m >= 0)
    ensures exists p :: a == b * p + m
  {
    if b < 0 {
      assert a == b * -q + m by { assert (0 - b) * q == b * -q; }
    }
  }

  /** A value as a float operand. */
  ghost predicate Real(ops: FloatOps, v: EvalValue, f: Float) {
    v == FloatV(f) || (v.IntV? && f == ops.ofInt(v.i)) || (v.BoolV? && f == ops.ofBool(v.b))
  }

  /** With a float operand the arithmetic is that of floats; division always is, and zero is refused. */
  lemma FloatArithmetic(ops: FloatOps, l: EvalValue, r: EvalValue, x: Float, y: Float)
    requires Real(ops, l, x) && Real(ops, r, y)
    ensures l.FloatV? || r.FloatV? ==>
      && EvalBinary(ops, Add, l, r) == Ok(FloatV(ops.add(x, y)))
      && EvalBinary(ops, Sub, l, r) == Ok(FloatV(ops.sub(x, y)))
      && EvalBinary(ops, Mul, l, r) == Ok(FloatV(ops.mul(x, y)))
      && EvalBinary(ops, Mod, l, r) == if ops.isZero(y) then Err(DivisionByZero) else Ok(FloatV(ops.rem(x, y)))
    ensures EvalBinary(ops, Div, l, r) == if ops.isZero(y) then Err(DivisionByZero) else Ok(FloatV(ops.div(x, y)))
    ensures l.FloatV? ==> EvalUnary(ops, Neg, l) == Ok(FloatV(ops.neg(x)))
  {
  }

  /** Comparisons are those of floats, but two integers or two truth values are equal only as such. */
  lemma ComparisonMeaning(ops: FloatOps, l: EvalValue, r: EvalValue, x: Float, y: Float)
    requires Real(ops, l, x) && Real(ops, r, y)
    ensures EvalBinary(ops, Less, l, r) == Ok(BoolV(ops.lt(x, y))) && EvalBinary(ops, LessEqual, l, r) == Ok(BoolV(ops.le(x, y)))
    ensures EvalBinary(ops, Greater, l, r) == EvalBinary(ops, Less, r, l)
    ensures EvalBinary(ops, GreaterEqual, l, r) == EvalBinary(ops, LessEqual, r, l)
    ensures var same := if (l.IntV? && r.IntV?) || (l.BoolV? && r.BoolV?) then l == r else ops.near(x, y);
      EvalBinary(ops, Equal, l, r) == Ok(BoolV(same)) && EvalBinary(ops, NotEqual, l, r) == Ok(BoolV(!same))
  {
  }

  /** A value is true. */
  ghost predicate Truth(ops: FloatOps, v: EvalValue) {
    v == BoolV(true) || (v.IntV? && v.i != 0) || (v.FloatV? && !ops.isZero(v.f))
  }

  /** Truth, negation and the two connectives; what decides an outcome on its own is not followed by an
      evaluation of the rest, so the rest's errors do not matter. */
  lemma LogicMeaning(ops: FloatOps, x: Expr, y: Expr, vars: map<string, EvalValue>)
    ensures var l, r := Evaluate(ops, x, vars), Evaluate(ops, y, vars);
      && (l.Ok? ==> Evaluate(ops, Unary(Not, x), vars) == Ok(BoolV(!Truth(ops, l.value))))
      && (l.Ok? && !Truth(ops, l.value) ==> Evaluate(ops, Binary(LogicAnd, x, y), vars) == Ok(BoolV(false)))
      && (l.Ok? && Truth(ops, l.value) ==> Evaluate(ops, Binary(LogicOr, x, y), vars) == Ok(BoolV(true)))
      && (l.Ok? && r.Ok? ==>
            && Evaluate(ops, Binary(LogicAnd, x, y), vars) == Ok(BoolV(Truth(ops, l.value) && Truth(ops, r.value)))
            && Evaluate(ops, Binary(LogicOr, x, y), vars) == Ok(BoolV(Truth(ops, l.value) || Truth(ops, r.value))))
  {
  }

  /** IF evaluates its condition and then only the branch it selects; errors come through. */
  lemma IfMeaning(ops: FloatOps, c: Expr, y: Expr, n: Expr, vars: map<string, EvalValue>)
    ensures var r := Evaluate(ops, If(c, y, n), vars); var cond := Evaluate(ops, c, vars);
      && (cond.Err? ==> r == cond)
      && (cond.Ok? && Truth(ops, cond.value) ==> r == Evaluate(ops, y, vars))
      && (cond.Ok? && !Truth(ops, cond.value) ==> r == Evaluate(ops, n, vars))
  {
  }

  /** Operations on integers take a truth value as 0 or 1, and a float only if it is a whole number. */
  lemma IntegerOperands(ops: FloatOps, op: BinOp, l: EvalValue, r: EvalValue, b: bool, f: Float)
    requires op == BitAnd || op == BitOr || op == BitXor || op == Shl || op == Shr
    ensures EvalBinary(ops, op, BoolV(b), r) == EvalBinary(ops, op, IntV(if b then 1 else 0), r)
    ensures EvalBinary(ops, op, l, BoolV(b)) == EvalBinary(ops, op, l, IntV(if b then 1 else 0))
    ensures ops.asI64(f).Some? ==>
      && EvalBinary(ops, op, FloatV(f), r) == EvalBinary(ops, op, IntV(ops.asI64(f).value), r)
      && EvalBinary(ops, op, l, FloatV(f)) == EvalBinary(ops, op, l, IntV(ops.asI64(f).value))
    ensures ops.asI64(f).None? ==> EvalBinary(ops, op, FloatV(f), r).Err? && EvalBinary(ops, op, l, FloatV(f)).Err?
  {
    hide Signed, Unsigned, ShiftRight, Bits.And, Bits.Or, Bits.Xor, Bits.Shl;
  }

  /** Operators other than the connectives take the values of both operands, left first; the first error
      is the result's. */
  lemma StrictMeaning(ops: FloatOps, op: BinOp, u: UnaryOp, x: Expr, y: Expr, vars: map<string, EvalValue>)
    requires op != LogicAnd && op != LogicOr
    ensures var l, r, e := Evaluate(ops, x, vars), Evaluate(ops, y, vars), Evaluate(ops, Binary(op, x, y), vars);
      && (l.Err? ==> e == l) && (l.Ok? && r.Err? ==> e == r) && (l.Ok? && r.Ok? ==> e == EvalBinary(ops, op, l.value, r.value))
    ensures var v, e := Evaluate(ops, x, vars), Evaluate(ops, Unary(u, x), vars);
      && (v.Err? ==> e == v) && (v.Ok? ==> e == EvalUnary(ops, u, v.value))
  {
    hide EvalBinary, EvalUnary;
  }

  lemma LiteralMeaning(ops: FloatOps, n: nat, text: string, b: bool, vars: map<string, EvalValue>)
    ensures Evaluate(ops, Lit(IntLit(n)), vars) == Ok(IntV(n)) && Evaluate(ops, Lit(BoolLit(b)), vars) == Ok(BoolV(b))
    ensures Evaluate(ops, Lit(FloatLit(text)), vars) == Ok(FloatV(ops.parse(text)))
  {
  }

  /** The variables an evaluation looks at: those of the operands it needs. */
  ghost function Touched(ops: FloatOps, e: Expr, vars: map<string, EvalValue>): set<string> {
    match e
    case Lit(_) => {}
    case Var(name) => {name}
    case Unary(_, x) => Touched(ops, x, vars)
    case Binary(op, l, r) =>
      var v := Evaluate(ops, l, vars);
      if v.Ok? && ((op == LogicAnd && !Truth(ops, v.value)) || (op == LogicOr && Truth(ops, v.value)))
      then Touched(ops, l, vars)
      else Touched(ops, l, vars) + Touched(ops, r, vars)
    case If(c, y, n) =>
      var v := Evaluate(ops, c, vars);
      Touched(ops, c, vars) + if v.Ok? && Truth(ops, v.value) then Touched(ops, y, vars) else Touched(ops, n, vars)
  }

  /** THEOREM: a result is valid exactly when every variable the evaluation looked at is. */
  lemma {:induction false} ValidityExact(ops: FloatOps, e: Expr, vars: map<string, EvalValue>, validity: map<string, bool>)
    ensures var r := EvaluateWithValidity(ops, e, vars, validity);
            r.Ok? ==> (r.value.1 <==> forall n :: n in Touched(ops, e, vars) ==> Marked(validity, n))
    decreases e
  {
    hide EvalUnary, EvalBinary, EvalLiteral;
    ErasureIsEvaluate(ops, e, vars, validity);
    match e
    case Lit(_) =>
    case Var(_) =>
    case Unary(_, x) => ValidityExact(ops, x, vars, validity);
    case Binary(_, l, r) =>
      ErasureIsEvaluate(ops, l, vars, validity);
      ValidityExact(ops, l, vars, validity);
      ValidityExact(ops, r, vars, validity);
    case If(c, y, n) =>
      ErasureIsEvaluate(ops, c, vars, validity);
      ValidityExact(ops, c, vars, validity);
      ValidityExact(ops, y, vars, validity);
      ValidityExact(ops, n, vars, validity);
  }

  /** Names are looked up, and an unknown one is an error that reaches the top of any strict operation. */
  lemma VariableMeaning(ops: FloatOps, name: string, vars: map<string, EvalValue>)
    ensures Evaluate(ops, Var(name), vars) == if name in vars then Ok(vars[name]) else Err(Missing(name))
    ensures name !in vars ==> forall op, y :: Evaluate(ops, Binary(op, Var(name), y), vars) == Err(Missing(name))
  {
  }
}
