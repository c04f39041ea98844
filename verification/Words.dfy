/** 32-bit words: the arithmetic of the intermediate language (include/Optimize/ConstFold.hh). */
module Words {
  import opened Basis

  datatype Op = Add | Sub | Mul | SDiv | SRem | Shl | LShr | AShr | And

  datatype Cmp = Eq | Ne | Gt | Ge | Lt | Le

  predicate Int32(n: int) { -0x8000_0000 <= n < 0x8000_0000 }

  function Wrap(n: int): int {
    var m := n % 0x1_0000_0000;
    if m < 0x8000_0000 then m else m - 0x1_0000_0000
  }

  function Unsigned(n: int): int { n % 0x1_0000_0000 }

  function Abs(n: int): int { if n < 0 then -n else n }

  // C++ division rounds toward zero and the remainder takes the sign of the dividend.
  function TruncDiv(a: int, b: int): int
    requires b != 0
  {
    if (a < 0) == (b < 0) then Abs(a) / Abs(b) else -(Abs(a) / Abs(b))
  }

  function TruncRem(a: int, b: int): int
    requires b != 0
  {
    a - b * TruncDiv(a, b)
  }

  function Pow2(k: nat): (r: int)
    ensures r > 0
  {
    if k == 0 then 1 else 2 * Pow2(k - 1)
  }

  // The bits that two unsigned words have in common.
  function BitAnd(a: nat, b: nat, bits: nat): nat {
    if bits == 0 then 0 else BitAnd(a / 2, b / 2, bits - 1) * 2 + (if a % 2 == 1 && b % 2 == 1 then 1 else 0)
  }

  function ShiftLeft(a: int, b: nat): int { Wrap(a * Pow2(b)) }

  function ShiftRight(a: int, b: nat): int { a / Pow2(b) }

  /** ConstFold::eval on integers (include/Optimize/ConstFold.hh, lines 9-49). A shift by an amount outside
      0..31 has no defined result in C++; 0 stands for whatever comes out. */
  function Fold(op: Op, a: int, b: int): int {
    match op
    case Add => Wrap(a + b)
    case Sub => Wrap(a - b)
    case Mul => Wrap(a * b)
    case SDiv => if b != 0 then Wrap(TruncDiv(a, b)) else 0
    case SRem => if b != 0 then Wrap(TruncRem(a, b)) else 0
    case Shl => if 0 <= b < 32 then ShiftLeft(a, b) else 0
    case LShr => if 0 <= b < 32 then Wrap(ShiftRight(Unsigned(a), b)) else 0
    case AShr => if 0 <= b < 32 then ShiftRight(a, b) else 0
    case And => Wrap(BitAnd(Unsigned(a), Unsigned(b), 32))
  }

  /** Lines 74-100. */
  function FoldCmp(c: Cmp, a: int, b: int): int {
    var r := match c
      case Eq => a == b
      case Ne => a != b
      case Gt => a > b
      case Ge => a >= b
      case Lt => a < b
      case Le => a <= b;
    if r then 1 else 0
  }

  // What an operation yields when the program runs; nothing where its result is undefined.
  function Result(op: Op, a: int, b: int): Option<int> {
    if (op == SDiv || op == SRem) && (b == 0 || (a == -0x8000_0000 && b == -1)) then None
    else if (op == Shl || op == LShr || op == AShr) && !(0 <= b < 32) then None
    else Some(Fold(op, a, b))
  }
}
