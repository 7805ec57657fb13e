// Result types shared by the models.
module Prelude {
  datatype Option<+T> = None | Some(value: T)

  // The errors the money kernel throws, and an integer overflow in the database.
  datatype MoneyError =
    | DivisionByZero
    | InvalidDecimal
    | InvalidBigInt
    | NegativeTotal
    | NoWeights
    | NegativeWeight
    | ZeroWeightSum
    | IntegerOutOfRange

  datatype Result<+T> = Ok(value: T) | Err(error: MoneyError)

  function Abs(x: int): (r: nat)
    ensures r == x || r == -x
  {
    if x < 0 then -x else x
  }
}
