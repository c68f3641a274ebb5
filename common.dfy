// Small value types shared by every module of the model.
module Common {

  /** A value that may be absent: SQL NULL, a nil reference, a missing map key. */
  datatype Option<T> = None | Some(value: T)

  /** The outcome of an operation that may fail with one of the errors of type E. */
  datatype Result<T, E> = Ok(value: T) | Err(error: E)

  /** Bounds of Go's int64, the width of every id, amount and price in the system. */
  const Int64Min: int := -0x8000_0000_0000_0000
  const Int64Max: int := 0x7fff_ffff_ffff_ffff

  predicate IsInt64(n: int)
  {
    Int64Min <= n <= Int64Max
  }

  /** Division truncating toward zero, as Go's `/` does on integers. */
  function Quot(a: int, b: int): (q: int)
    requires b != 0
    ensures b > 0 && a >= 0 ==> q == a / b
    ensures b > 0 && a < 0 ==> q == -((-a) / b)
    ensures b < 0 && a >= 0 ==> q == -(a / (-b))
    ensures b < 0 && a < 0 ==> q == (-a) / (-b)
  {
    var q0 := Abs(a) / Abs(b);
    if (a < 0) == (b < 0) then q0 else -q0
  }

  function Abs(n: int): (r: nat)
    ensures r == n || r == -n
  {
    if n < 0 then -n else n
  }
}
