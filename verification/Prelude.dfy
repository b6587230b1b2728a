/** Small types shared by the modules of the model. */
module Prelude {

  datatype Option<+T> = None | Some(value: T)

  datatype Result<+T, +E> = Ok(value: T) | Err(error: E)

  /** A Counter: an absent key counts zero. */
  function Count<K>(counter: map<K, int>, key: K): int
  {
    if key in counter then counter[key] else 0
  }

  function Bump<K>(counter: map<K, int>, key: K, amount: int): map<K, int>
  {
    counter[key := Count(counter, key) + amount]
  }
}
