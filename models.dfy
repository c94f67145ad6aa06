/** The record the catalog stores, C#'s `int`, and the failures a service call can raise. */
module Models {

  const MinInt32: int := -0x8000_0000
  const MaxInt32: int := 0x7FFF_FFFF

  /** C#'s 32-bit `int`. */
  type Int32 = x: int | MinInt32 <= x <= MaxInt32

  /** A nullable value: `None` stands for C#'s `null`. */
  datatype Option<+T> = None | Some(value: T)

  /** A product. `price` stands for the C# `decimal`, which the code only ever compares with
      zero; `description` and `sku` are nullable strings. */
  datatype Product = Product(id: Int32, description: Option<string>, sku: Option<string>, price: real)

  /** An exception thrown by a service call, classified the way the request handler's catch
      clauses tell them apart. */
  datatype Fault =
    | ArgumentError(message: string)  // ArgumentException or one of its subclasses
    | KeyNotFound(message: string)    // KeyNotFoundException, which is not an ArgumentException
    | OtherError(message: string)     // any other exception

  /** What a call does: return a value or throw. */
  datatype Outcome<+T> = Returned(value: T) | Threw(fault: Fault)

  /** `x++` on a C# `int` in the default unchecked context: the Int32 congruent to x + 1
      modulo 2^32, so int.MaxValue wraps to int.MinValue. */
  function Increment(x: Int32): (r: Int32)
    ensures (r - (x + 1)) % 0x1_0000_0000 == 0
    ensures x < MaxInt32 ==> r > x
  {
    if x == MaxInt32 then MinInt32 else x + 1
  }
}
