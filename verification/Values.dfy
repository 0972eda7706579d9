/** Column values, their order, and the filter expressions a query brings to a scan.

    Values of one kind are totally ordered; values of different kinds are not related.  A filter
    compares a column with a literal, or is left to the query engine; either way it has a meaning
    on rows, which is what pruning and the reading of time bounds are proved against. */
module Values {

  datatype Option<+T> = None | Some(value: T)

  /** The kinds of value that carry statistics.  Integers stand for every integer, date and
      millisecond-timestamp type. */
  datatype Value = Bool(b: bool) | Int(i: int) | Float(r: real) | Str(s: string)

  predicate SameKind(x: Value, y: Value) {
    x.Bool? == y.Bool? && x.Int? == y.Int? && x.Float? == y.Float? && x.Str? == y.Str?
  }

  /** Strings compare character by character, a prefix coming first. */
  predicate StrLe(x: string, y: string) {
    x == [] || (y != [] && (x[0] < y[0] || (x[0] == y[0] && StrLe(x[1..], y[1..]))))
  }

  /** The order on values of one kind; values of different kinds are not related. */
  predicate Le(x: Value, y: Value) {
    match (x, y)
    case (Bool(a), Bool(b)) => a ==> b
    case (Int(a), Int(b)) => a <= b
    case (Float(a), Float(b)) => a <= b
    case (Str(a), Str(b)) => StrLe(a, b)
    case _ => false
  }

  lemma {:induction false} StrTotal(x: string, y: string)
    ensures StrLe(x, y) || StrLe(y, x)
    ensures StrLe(x, y) && StrLe(y, x) ==> x == y
  {
    if x != [] && y != [] {
      StrTotal(x[1..], y[1..]);
      assert x == [x[0]] + x[1..] && y == [y[0]] + y[1..];
    }
  }

  lemma {:induction false} StrTrans(x: string, y: string, z: string)
    requires StrLe(x, y) && StrLe(y, z)
    ensures StrLe(x, z)
  {
    if x != [] && x[0] == y[0] && y[0] == z[0] {
      StrTrans(x[1..], y[1..], z[1..]);
    }
  }

  lemma LeTotal(x: Value, y: Value)
    requires SameKind(x, y)
    ensures Le(x, y) || Le(y, x)
    ensures Le(x, y) && Le(y, x) ==> x == y
  {
    if x.Str? { StrTotal(x.s, y.s); }
  }

  lemma LeTrans(x: Value, y: Value, z: Value)
    requires Le(x, y) && Le(y, z)
    ensures Le(x, z)
  {
    if x.Str? { StrTrans(x.s, y.s, z.s); }
  }

  /** A row gives each column a value or, by leaving it out, null. */
  type Row = map<string, Value>

  datatype Op = Eq | NotDistinct | Lt | LtEq | Gt | GtEq | OtherOp

  /** Literals, by what the scan can make of them.  `Unsigned` covers every unsigned width. */
  datatype Scalar =
    | Null
    | Boolean(truth: Option<bool>)
    | Signed(integer: Option<int>)
    | Unsigned(natural: Option<nat>)
    | Floating(decimal: Option<real>)
    | Utf8(text: Option<string>)
    | Millis(ms: Option<int>)
    | Nanos(ns: Option<int>)
    | OtherScalar

  datatype Operand = Column(name: string) | Literal(value: Scalar) | OtherOperand

  /** A filter.  `engine` is what the query engine makes of it on a row in the cases that are
      not an ordinary comparison of a column with a literal of the column's kind. */
  datatype Expr =
    | Binary(left: Operand, op: Op, right: Operand, engine: Row -> bool)
    | Opaque(engine: Row -> bool)

  /** The value a literal denotes, where it is of a kind that carries statistics. */
  function Denotes(s: Scalar): Option<Value> {
    match s
    case Boolean(Some(b)) => Some(Bool(b))
    case Signed(Some(i)) => Some(Int(i))
    case Unsigned(Some(n)) => Some(Int(n))
    case Floating(Some(r)) => Some(Float(r))
    case Utf8(Some(t)) => Some(Str(t))
    case Millis(Some(t)) => Some(Int(t))
    case _ => None
  }

  predicate Compares(op: Op, x: Value, y: Value) {
    match op
    case Eq => x == y
    case NotDistinct => x == y
    case Lt => !Le(y, x)
    case LtEq => Le(x, y)
    case Gt => !Le(x, y)
    case GtEq => Le(y, x)
    case OtherOp => false
  }

  /** The row passes the filter. */
  predicate Holds(e: Expr, row: Row) {
    if e.Binary? && e.left.Column? && e.right.Literal? && !e.op.OtherOp?
       && Denotes(e.right.value).Some?
       && (e.left.name in row ==> SameKind(row[e.left.name], Denotes(e.right.value).value))
    then e.left.name in row && Compares(e.op, row[e.left.name], Denotes(e.right.value).value)
    else e.engine(row)
  }
}
