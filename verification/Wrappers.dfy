/** The failure-aware carriers and the two facts about lists that modules share. */
module Wrappers {

  datatype Option<+T> = None | Some(value: T)

  datatype Result<+T, +E> = Ok(value: T) | Err(error: E)

  lemma HeadAndTail<T>(items: seq<T>, more: seq<T>)
    requires items != []
    ensures items == [items[0]] + items[1..]
    ensures items + more == [items[0]] + (items[1..] + more)
  {
  }

  lemma Associates<T>(a: seq<T>, b: seq<T>, c: seq<T>)
    ensures a + b + c == a + (b + c)
  {
  }
}
