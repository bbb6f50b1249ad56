/** Constant folding of integer expressions: done on 64 bits whatever the type, cut to the type's width
    only when a constant is emitted. */
module Folding {
  import opened Options
  import opened Types
  import opened Bits

  datatype Op = Add | Sub | Mul | BitAnd | BitOr | Xor | Shl

  /** Leaves are literals, and values only known at run time. */
  datatype Expr =
    | Lit(ty: IntType, value: nat)
    | Leaf(ty: IntType, id: nat)
    | Bin(op: Op, left: Expr, right: Expr)
    | Neg(of: Expr)
    | Cast(to: IntType, of: Expr)

  function Width(t: IntType): (w: nat)
    ensures w in {8, 16, 32, 64}
  {
    match t
    case I8 => 8
    case U8 => 8
    case I16 => 16
    case U16 => 16
    case I32 => 32
    case U32 => 32
    case I64 => 64
    case U64 => 64
  }

  function TypeOf(e: Expr): IntType {
    match e
    case Lit(t, _) => t
    case Leaf(t, _) => t
    case Bin(_, l, _) => TypeOf(l)
    case Neg(x) => TypeOf(x)
    case Cast(t, _) => t
  }

  function WidthOf(e: Expr): nat {
    Width(TypeOf(e))
  }

  /** The analyser lets an operator join values of one type only; literals are 64-bit numbers. */
  predicate WellTyped(e: Expr) {
    match e
    case Lit(_, v) => v < Pow2(64)
    case Leaf(_, _) => true
    case Bin(_, l, r) => WellTyped(l) && WellTyped(r) && TypeOf(l) == TypeOf(r)
    case Neg(x) => WellTyped(x)
    case Cast(_, x) => WellTyped(x)
  }

  // ---------- the analyser ----------

  /** `Undefined` is a shift that C leaves undefined. */
  datatype Folded = Known(bits: nat) | AtRunTime | Undefined

  function FoldOp(op: Op, a: nat, b: nat): Folded {
    match op
    case Add => Known(Cut(a + b, 64))
    case Sub => Known(Cut(a - b, 64))
    case Mul => Known(Cut(a * b, 64))
    case BitAnd => Known(Bitwise(AndBits, a, b))
    case BitOr => Known(Bitwise(OrBits, a, b))
    case Xor => Known(Bitwise(XorBits, a, b))
    case Shl => if b < 64 then Known(Cut(a * Pow2(b), 64)) else Undefined
  }

  function Fold(e: Expr): Folded {
    match e
    case Lit(_, v) => Known(v)
    case Leaf(_, _) => AtRunTime
    case Bin(op, l, r) =>
      (match (Fold(l), Fold(r))
       case (Known(a), Known(b)) => FoldOp(op, a, b)
       case (Undefined, _) => Undefined
       case (_, Undefined) => Undefined
       case _ => AtRunTime)
    case Neg(x) => (match Fold(x) case Known(a) => Known(Cut(0 - a, 64)) case f => f)
    case Cast(_, x) => Fold(x)
  }

  // ---------- run-time arithmetic on `w` bits ----------

  /** Shifting by the width or more is poison. */
  function OpAt(op: Op, a: nat, b: nat, w: nat): Option<nat> {
    match op
    case Add => Some(Cut(a + b, w))
    case Sub => Some(Cut(a - b, w))
    case Mul => Some(Cut(a * b, w))
    case BitAnd => Some(Bitwise(AndBits, a, b))
    case BitOr => Some(Bitwise(OrBits, a, b))
    case Xor => Some(Bitwise(XorBits, a, b))
    case Shl => if b < w then Some(Cut(a * Pow2(b), w)) else None
  }

  /** To a narrower type the high bits are dropped; to a wider one they are zero. */
  function CastTo(a: nat, from: nat, to: nat): nat {
    if to < from then Cut(a, to) else a
  }

  type Env = (nat, IntType) -> nat

  /** The value of an expression with every node computed at its own width. */
  function Eval(e: Expr, env: Env): Option<nat> {
    match e
    case Lit(t, v) => Some(Cut(v, Width(t)))
    case Leaf(t, id) => Some(Cut(env(id, t), Width(t)))
    case Bin(op, l, r) =>
      (match (Eval(l, env), Eval(r, env))
       case (Some(a), Some(b)) => OpAt(op, a, b, WidthOf(l))
       case _ => None)
    case Neg(x) => (match Eval(x, env) case Some(a) => Some(Cut(0 - a, WidthOf(x))) case None => None)
    case Cast(t, x) => (match Eval(x, env) case Some(a) => Some(CastTo(a, WidthOf(x), Width(t))) case None => None)
  }

  /** What the back end emits: a constant wherever the analyser left one, cut to the width of its type,
      and an instruction elsewhere. */
  function Emitted(e: Expr, env: Env): Option<nat> {
    match Fold(e)
    case Known(v) => Some(Cut(v, WidthOf(e)))
    case Undefined => None
    case AtRunTime =>
      match e
      case Lit(_, _) => None
      case Leaf(t, id) => Some(Cut(env(id, t), Width(t)))
      case Bin(op, l, r) =>
        (match (Emitted(l, env), Emitted(r, env))
         case (Some(a), Some(b)) => OpAt(op, a, b, WidthOf(l))
         case _ => None)
      case Neg(x) => (match Emitted(x, env) case Some(a) => Some(Cut(0 - a, WidthOf(x))) case None => None)
      case Cast(t, x) => (match Emitted(x, env) case Some(a) => Some(CastTo(a, WidthOf(x), Width(t))) case None => None)
  }

  // ---------- what the operators compute ----------

  /** At each place, `&` has a bit where both operands have one, `|` where one of them has, `^` where just
      one has; folded or run. */
  lemma BitOpsBitByBit(a: nat, b: nat, w: nat, i: nat)
    ensures var and := FoldOp(BitAnd, a, b);
      and.Known? && OpAt(BitAnd, a, b, w) == Some(and.bits) && (BitAt(and.bits, i) == 1 <==> BitAt(a, i) == 1 && BitAt(b, i) == 1)
    ensures var or := FoldOp(BitOr, a, b);
      or.Known? && OpAt(BitOr, a, b, w) == Some(or.bits) && (BitAt(or.bits, i) == 1 <==> BitAt(a, i) == 1 || BitAt(b, i) == 1)
    ensures var xor := FoldOp(Xor, a, b);
      xor.Known? && OpAt(Xor, a, b, w) == Some(xor.bits) && (BitAt(xor.bits, i) == 1 <==> BitAt(a, i) != BitAt(b, i))
  {
    BitwiseAt(AndBits, a, b, i);
    BitwiseAt(OrBits, a, b, i);
    BitwiseAt(XorBits, a, b, i);
  }

  /** The result without any bound on numbers. */
  function Unbounded(op: Op, a: nat, b: nat): int
    requires op in {Add, Sub, Mul, Shl}
  {
    match op
    case Add => a + b
    case Sub => a - b
    case Mul => a * b
    case Shl => a * Pow2(b)
  }

  /** `r` is `x` but for a multiple of the modulus, and in range. */
  predicate Wraps(x: int, r: nat, modulus: nat)
    requires modulus > 0
  {
    r < modulus && (x - r) % modulus == 0
  }

  lemma CutWraps(x: int, w: nat)
    ensures Wraps(x, Cut(x, w), Pow2(w))
  {
    var m := Pow2(w);
    assert x - x % m == (x / m) * m;
    Quotient(x - x % m, x / m, 0, m);
  }

  lemma PowersOfTwo()
    ensures Pow2(8) == 0x100 && Pow2(16) == 0x1_0000 && Pow2(32) == 0x1_0000_0000 && Pow2(64) == 0x1_0000_0000_0000_0000
  {
    assert Pow2(8) == 0x100;
    Pow2Sum(8, 8);
    Pow2Sum(16, 16);
    Pow2Sum(32, 32);
  }

  lemma WrapsAt64(x: int)
    ensures Wraps(x, Cut(x, 64), 0x1_0000_0000_0000_0000)
  {
    PowersOfTwo();
    CutWraps(x, 64);
  }

  /** Sums, differences, products and shifts wrap around: at 64 bits when folded, at the width when run. A
      shift is left undefined when folded from 64 on, when run from the width on. */
  lemma ArithmeticWraps(op: Op, a: nat, b: nat, w: nat)
    requires op in {Add, Sub, Mul, Shl}
    ensures FoldOp(op, a, b).Known? <==> (op == Shl ==> b < 64)
    ensures FoldOp(op, a, b).Known? ==> Wraps(Unbounded(op, a, b), FoldOp(op, a, b).bits, 0x1_0000_0000_0000_0000)
    ensures OpAt(op, a, b, w).Some? <==> (op == Shl ==> b < w)
    ensures OpAt(op, a, b, w).Some? ==> Wraps(Unbounded(op, a, b), OpAt(op, a, b, w).value, Pow2(w))
  {
    WrapsAt64(Unbounded(op, a, b));
    CutWraps(Unbounded(op, a, b), w);
  }

  /** Every run-time value fits its type. */
  lemma {:induction false} EvalInRange(e: Expr, env: Env)
    requires WellTyped(e) && Eval(e, env).Some?
    ensures Eval(e, env).value < Pow2(WidthOf(e))
  {
    match e
    case Bin(op, l, r) =>
      var a, b, w := Eval(l, env).value, Eval(r, env).value, WidthOf(l);
      EvalInRange(l, env);
      EvalInRange(r, env);
      if op in {BitAnd, BitOr, Xor} {
        BitwiseInRange(if op == BitAnd then AndBits else if op == BitOr then OrBits else XorBits, a, b, w);
      }
    case Cast(t, x) =>
      EvalInRange(x, env);
      if Width(t) >= WidthOf(x) {
        Pow2Grows(WidthOf(x), Width(t));
      }
    case _ =>
  }

  /** An operator within an expression works on its operands, in the order written. */
  lemma OperatorWraps(op: Op, l: Expr, r: Expr, env: Env)
    requires op in {Add, Sub, Mul, Shl}
    ensures var e := Bin(op, l, r);
      && (Fold(e).Known? ==>
            && Fold(l).Known? && Fold(r).Known?
            && Wraps(Unbounded(op, Fold(l).bits, Fold(r).bits), Fold(e).bits, 0x1_0000_0000_0000_0000))
      && (Eval(e, env).Some? ==>
            && Eval(l, env).Some? && Eval(r, env).Some?
            && Wraps(Unbounded(op, Eval(l, env).value, Eval(r, env).value), Eval(e, env).value, Pow2(WidthOf(l))))
  {
    if Fold(l).Known? && Fold(r).Known? {
      ArithmeticWraps(op, Fold(l).bits, Fold(r).bits, 64);
    }
    if Eval(l, env).Some? && Eval(r, env).Some? {
      ArithmeticWraps(op, Eval(l, env).value, Eval(r, env).value, WidthOf(l));
    }
  }

  lemma FoldedNegation(x: Expr)
    requires Fold(x).Known?
    ensures Fold(Neg(x)).Known? && Wraps(0 - Fold(x).bits, Fold(Neg(x)).bits, 0x1_0000_0000_0000_0000)
  {
    assert Fold(Neg(x)) == Known(Cut(0 - Fold(x).bits, 64));
    WrapsAt64(0 - Fold(x).bits);
  }

  lemma RunNegation(x: Expr, env: Env)
    requires Eval(x, env).Some?
    ensures Eval(Neg(x), env).Some? && Wraps(0 - Eval(x, env).value, Eval(Neg(x), env).value, Pow2(WidthOf(x)))
  {
    assert Eval(Neg(x), env) == Some(Cut(0 - Eval(x, env).value, WidthOf(x)));
    CutWraps(0 - Eval(x, env).value, WidthOf(x));
  }

  /** A cast keeps the number, as far as the type allows. */
  lemma CastWraps(x: Expr, t: IntType, env: Env)
    requires WellTyped(x) && Eval(x, env).Some?
    ensures Eval(Cast(t, x), env).Some? && Wraps(Eval(x, env).value, Eval(Cast(t, x), env).value, Pow2(Width(t)))
  {
    EvalInRange(x, env);
    CutWraps(Eval(x, env).value, Width(t));
    if Width(t) >= WidthOf(x) {
      Pow2Grows(WidthOf(x), Width(t));
      assert 0 % Pow2(Width(t)) == 0;
    }
  }

  function Largest(t: IntType): nat {
    match t
    case I8 => 0xFF
    case U8 => 0xFF
    case I16 => 0xFFFF
    case U16 => 0xFFFF
    case I32 => 0xFFFF_FFFF
    case U32 => 0xFFFF_FFFF
    case I64 => 0xFFFF_FFFF_FFFF_FFFF
    case U64 => 0xFFFF_FFFF_FFFF_FFFF
  }

  /** A literal is what it says exactly if it is not larger than the patterns of its type. */
  lemma LiteralFits(t: IntType, v: nat, env: Env)
    ensures Eval(Lit(t, v), env) == Some(v) <==> v <= Largest(t)
    ensures Emitted(Lit(t, v), env) == Some(v) <==> v <= Largest(t)
  {
    PowersOfTwo();
    if v <= Largest(t) {
      CutSmall(v, Width(t));
    }
  }

  /** The LLVM type of an integer type has the bits that its constants are cut to. */
  lemma WidthIsLayout(t: IntType)
    ensures LayoutOf(SPrim(IntOf(t))) == Layout.Bits(Width(t)) && Pow2(Width(t)) == Largest(t) + 1
  {
    PowersOfTwo();
  }

  // ---------- where folding is exact ----------

  /** A constant shift stays below 64, counted before anything is cut, or is poison at run time as well;
      and a constant that is widened has no bits that its own type would have cut. */
  predicate Guarded(e: Expr) {
    match e
    case Lit(_, _) => true
    case Leaf(_, _) => true
    case Bin(op, l, r) =>
      Guarded(l) && Guarded(r) && (op == Shl && Fold(l).Known? && Fold(r).Known? ==> !Overshoots(Fold(r).bits, WidthOf(l)))
    case Neg(x) => Guarded(x)
    case Cast(t, x) => Guarded(x) && (Fold(x).Known? ==> !Spills(Fold(x).bits, WidthOf(x), Width(t)))
  }

  /** The shift is undefined in the compiler, but not when it is run: cutting brings the count down. */
  predicate Overshoots(count: nat, w: nat) {
    count >= 64 && Cut(count, w) < w
  }

  /** Bits beyond the narrower width that the wider one would keep. */
  predicate Spills(v: nat, from: nat, to: nat) {
    Cut(v, to) >= Pow2(from)
  }

  /** What is run may be replaced by what is emitted: the same value, or anything for poison. */
  predicate Refines(emitted: Option<nat>, run: Option<nat>) {
    run.Some? ==> emitted == run
  }

  function Constant(f: Folded, w: nat): Option<nat> {
    if f.Known? then Some(Cut(f.bits, w)) else None
  }

  /** One operator: folding wide and cutting is cutting and computing narrow, exactly where no shift
      overshoots. */
  lemma FoldOpExact(op: Op, a: nat, b: nat, w: nat)
    requires w in {8, 16, 32, 64}
    ensures Refines(Constant(FoldOp(op, a, b), w), OpAt(op, Cut(a, w), Cut(b, w), w)) <==> !(op == Shl && Overshoots(b, w))
  {
    match op
    case Shl => ShiftExact(a, b, w);
    case BitAnd => BitsExact(op, a, b, w);
    case BitOr => BitsExact(op, a, b, w);
    case Xor => BitsExact(op, a, b, w);
    case _ => SumsExact(op, a, b, w);
  }

  lemma SumsExact(op: Op, a: nat, b: nat, w: nat)
    requires op in {Add, Sub, Mul} && w <= 64
    ensures Refines(Constant(FoldOp(op, a, b), w), OpAt(op, Cut(a, w), Cut(b, w), w))
  {
    if op == Mul {
      ProductExact(a, b, w);
    } else {
      SumExact(a, b, w);
    }
  }

  lemma BitsExact(op: Op, a: nat, b: nat, w: nat)
    requires op in {BitAnd, BitOr, Xor}
    ensures Refines(Constant(FoldOp(op, a, b), w), OpAt(op, Cut(a, w), Cut(b, w), w))
  {
    match op
    case BitAnd => CutBitwise(AndBits, a, b, w);
    case BitOr => CutBitwise(OrBits, a, b, w);
    case Xor => CutBitwise(XorBits, a, b, w);
  }

  lemma SumExact(a: nat, b: nat, w: nat)
    requires w <= 64
    ensures Cut(Cut(a + b, 64), w) == Cut(Cut(a, w) + Cut(b, w), w)
    ensures Cut(Cut(a - b, 64), w) == Cut(Cut(a, w) - Cut(b, w), w)
  {
    CutTwice(a + b, 64, w);
    CutTwice(a - b, 64, w);
    CutSum(a, b, w);
  }

  lemma ProductExact(a: nat, b: nat, w: nat)
    requires w <= 64
    ensures Cut(Cut(a * b, 64), w) == Cut(Cut(a, w) * Cut(b, w), w)
  {
    CutTwice(a * b, 64, w);
    CutProduct(a, b, w);
  }

  lemma ShiftExact(a: nat, b: nat, w: nat)
    requires w in {8, 16, 32, 64}
    ensures Refines(Constant(FoldOp(Shl, a, b), w), OpAt(Shl, Cut(a, w), Cut(b, w), w)) <==> !Overshoots(b, w)
  {
    if b < 64 {
      Pow2Grows(8, w);
      assert Pow2(8) == 256;
      CutSmall(b, w);
      CutTwice(a * Pow2(b), 64, w);
      CutShift(a, b, w);
    }
  }

  lemma CutShift(a: nat, b: nat, w: nat)
    ensures Cut(Cut(a, w) * Pow2(b), w) == Cut(a * Pow2(b), w)
  {
    CutProduct(a, Pow2(b), w);
    CutProduct(Cut(a, w), Pow2(b), w);
    CutTwice(a, w, w);
  }

  /** Outside the guard folding and running do differ: a widened constant keeps bits exactly when it
      spills. */
  lemma CastExact(v: nat, from: nat, to: nat)
    ensures CastTo(Cut(v, from), from, to) == Cut(v, to) <==> !Spills(v, from, to)
  {
    if to <= from {
      CutTwice(v, from, to);
      Pow2Grows(to, from);
    } else {
      CutTwice(v, to, from);
      if !Spills(v, from, to) {
        CutSmall(Cut(v, to), from);
      }
    }
  }

  /** A guarded constant expression folds to the bits that running it would give. */
  lemma {:induction false} FoldExact(e: Expr, env: Env)
    requires WellTyped(e) && Guarded(e) && !Fold(e).AtRunTime?
    ensures Refines(Constant(Fold(e), WidthOf(e)), Eval(e, env))
  {
    match e
    case Lit(_, _) =>
    case Bin(op, l, r) =>
      if Fold(l).Known? && Fold(r).Known? {
        FoldExact(l, env);
        FoldExact(r, env);
        FoldOpExact(op, Fold(l).bits, Fold(r).bits, WidthOf(l));
      } else {
        FoldExact(if Fold(l).Undefined? then l else r, env);
      }
    case Neg(x) =>
      FoldExact(x, env);
      if Fold(x).Known? {
        CutTwice(0 - Fold(x).bits, 64, WidthOf(x));
        CutSum(0, Fold(x).bits, WidthOf(x));
      }
    case Cast(t, x) =>
      FoldExact(x, env);
      if Fold(x).Known? {
        CastExact(Fold(x).bits, WidthOf(x), Width(t));
      }
  }

  /** The emitted code computes what computing every node at its own width gives. */
  lemma {:induction false} FoldingPreserves(e: Expr, env: Env)
    requires WellTyped(e) && Guarded(e)
    ensures Refines(Emitted(e, env), Eval(e, env))
  {
    if !Fold(e).AtRunTime? {
      FoldExact(e, env);
    } else {
      match e
      case Leaf(_, _) =>
      case Bin(_, l, r) =>
        FoldingPreserves(l, env);
        FoldingPreserves(r, env);
      case Neg(x) => FoldingPreserves(x, env);
      case Cast(_, x) => FoldingPreserves(x, env);
    }
  }

  // ---------- and nowhere else ----------

  /** At every node, what is emitted may stand for what is run. */
  predicate Everywhere(e: Expr, env: Env) {
    && Refines(Emitted(e, env), Eval(e, env))
    && match e
       case Lit(_, _) => true
       case Leaf(_, _) => true
       case Bin(_, l, r) => Everywhere(l, env) && Everywhere(r, env)
       case Neg(x) => Everywhere(x, env)
       case Cast(_, x) => Everywhere(x, env)
  }

  /** Where no node is poison, emitted code agrees with run-time arithmetic at every node if and only if
      the guard holds at every node. */
  lemma {:induction false} GuardExact(e: Expr, env: Env)
    requires WellTyped(e) && Eval(e, env).Some?
    ensures Everywhere(e, env) <==> Guarded(e)
  {
    match e
    case Lit(_, _) =>
    case Leaf(_, _) =>
    case Bin(op, l, r) =>
      GuardExact(l, env);
      GuardExact(r, env);
      if Fold(l).Known? && Fold(r).Known? {
        FoldOpExact(op, Fold(l).bits, Fold(r).bits, WidthOf(l));
      }
      if Guarded(e) {
        FoldingPreserves(e, env);
      }
    case Neg(x) =>
      GuardExact(x, env);
      if Guarded(e) {
        FoldingPreserves(e, env);
      }
    case Cast(t, x) =>
      GuardExact(x, env);
      if Fold(x).Known? {
        CastExact(Fold(x).bits, WidthOf(x), Width(t));
      }
      if Guarded(e) {
        FoldingPreserves(e, env);
      }
  }

  /** Something in it is known at run time only. */
  predicate HasLeaf(e: Expr) {
    match e
    case Lit(_, _) => false
    case Leaf(_, _) => true
    case Bin(_, l, r) => HasLeaf(l) || HasLeaf(r)
    case Neg(x) => HasLeaf(x)
    case Cast(_, x) => HasLeaf(x)
  }

  /** A constant is shifted by a literal below its width, and no constant is widened. */
  predicate Plain(e: Expr) {
    match e
    case Lit(_, _) => true
    case Leaf(_, _) => true
    case Bin(op, l, r) =>
      Plain(l) && Plain(r) && (op == Shl && !HasLeaf(e) ==> r.Lit? && r.value < WidthOf(l))
    case Neg(x) => Plain(x)
    case Cast(t, x) => Plain(x) && (HasLeaf(x) || Width(t) <= WidthOf(x))
  }

  lemma {:induction false} LeafIsNotKnown(e: Expr)
    requires HasLeaf(e)
    ensures !Fold(e).Known?
  {
    match e
    case Leaf(_, _) =>
    case Bin(_, l, r) => LeafIsNotKnown(if HasLeaf(l) then l else r);
    case Neg(x) => LeafIsNotKnown(x);
    case Cast(_, x) => LeafIsNotKnown(x);
  }

  lemma {:induction false} PlainIsGuarded(e: Expr)
    requires Plain(e)
    ensures Guarded(e)
  {
    match e
    case Lit(_, _) =>
    case Leaf(_, _) =>
    case Bin(_, l, r) =>
      PlainIsGuarded(l);
      PlainIsGuarded(r);
      if HasLeaf(e) {
        LeafIsNotKnown(if HasLeaf(l) then l else r);
      }
    case Neg(x) => PlainIsGuarded(x);
    case Cast(t, x) =>
      PlainIsGuarded(x);
      if HasLeaf(x) {
        LeafIsNotKnown(x);
      } else {
        Pow2Grows(Width(t), WidthOf(x));
      }
  }

  /** So folding preserves such expressions, which can be told by looking at them. */
  lemma PlainPreserved(e: Expr, env: Env)
    requires WellTyped(e) && Plain(e)
    ensures Refines(Emitted(e, env), Eval(e, env))
  {
    PlainIsGuarded(e);
    FoldingPreserves(e, env);
  }

  lemma SumOfBytes(n: nat, env: Env)
    requires 0 < n < 256
    ensures var sum := Bin(Add, Lit(U8, 255), Lit(U8, n));
      WellTyped(sum) && Fold(sum) == Known(255 + n) && Eval(sum, env) == Some(n - 1)
    ensures Pow2(8) == 256 && Cut(255 + n, 16) == 255 + n && 1 < Pow2(64)
  {
    Pow2Grows(16, 64);
    assert Pow2(8) == 256 && Pow2(16) == 65536;
    CutSmall(255 + n, 64);
    CutSmall(255 + n, 16);
    CutSmall(n, 8);
    CutSmall(255, 8);
    Quotient(255 + n, 1, n - 1, 256);
  }

  /** The guard cannot be dropped: one byte shifted by 255 + 2. */
  lemma ShiftGuardNeeded(env: Env)
    ensures var shift := Bin(Shl, Lit(U8, 1), Bin(Add, Lit(U8, 255), Lit(U8, 2)));
      WellTyped(shift) && !Refines(Emitted(shift, env), Eval(shift, env))
  {
    var count := Bin(Add, Lit(U8, 255), Lit(U8, 2));
    SumOfBytes(2, env);
    assert Fold(Bin(Shl, Lit(U8, 1), count)) == FoldOp(Shl, 1, 257);
    assert OpAt(Shl, 1, 1, 8).Some?;
  }

  /** Nor for widening: 255 + 1 from a byte. */
  lemma CastGuardNeeded(env: Env)
    ensures var widened := Cast(U16, Bin(Add, Lit(U8, 255), Lit(U8, 1)));
      WellTyped(widened) && !Refines(Emitted(widened, env), Eval(widened, env))
  {
    var sum := Bin(Add, Lit(U8, 255), Lit(U8, 1));
    SumOfBytes(1, env);
    assert Emitted(Cast(U16, sum), env) == Some(Cut(256, 16));
  }
}
