/** Arithmetic expansion of the POSIX Shell Command Language (IEEE Std 1003.1,
    section 2.6.4), for sums, products and quotients of non-negative numbers. */
module ShellArithmetic {
  import opened Decimal

  datatype Expr =
    | Num(n: nat)
    | Name(name: string)
    | Group(inner: Expr)
    | Add(left: Expr, right: Expr)
    | Mul(left: Expr, right: Expr)
    | Div(left: Expr, right: Expr)

  predicate Atom(e: Expr) { e.Num? || e.Name? || e.Group? }

  /** No operand that the text would give to another operator: products before
      sums, and operators of one precedence from the left. */
  predicate Unambiguous(e: Expr) {
    match e
    case Num(_) => true
    case Name(_) => true
    case Group(inner) => Unambiguous(inner)
    case Add(left, right) => Unambiguous(left) && Unambiguous(right) && !right.Add?
    case Mul(left, right) => Unambiguous(left) && Unambiguous(right) && !left.Add? && Atom(right)
    case Div(left, right) => Unambiguous(left) && Unambiguous(right) && !left.Add? && Atom(right)
  }

  function Text(e: Expr): string {
    match e
    case Num(n) => Itoa(n)
    case Name(name) => name
    case Group(inner) => "(" + Text(inner) + ")"
    case Add(left, right) => Text(left) + " + " + Text(right)
    case Mul(left, right) => Text(left) + " * " + Text(right)
    case Div(left, right) => Text(left) + " / " + Text(right)
  }

  /** The value, where no division is by zero. */
  function Value(e: Expr, names: string -> nat): nat {
    match e
    case Num(n) => n
    case Name(name) => names(name)
    case Group(inner) => Value(inner, names)
    case Add(left, right) => Value(left, names) + Value(right, names)
    case Mul(left, right) => Value(left, names) * Value(right, names)
    case Div(left, right) => var d := Value(right, names); if d == 0 then 0 else Value(left, names) / d
  }
}
