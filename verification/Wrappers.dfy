/** The types and the text operations that several modules share. */
module Wrappers {

  datatype Option<+T> = None | Some(value: T)

  /** `parts.join(separator)`; the join of nothing is empty. */
  function Joined(parts: seq<string>, separator: string): string {
    if parts == [] then ""
    else if |parts| == 1 then parts[0]
    else parts[0] + separator + Joined(parts[1..], separator)
  }

  lemma Regroup<T>(a: seq<T>, b: seq<T>, c: seq<T>)
    ensures a + b + c == a + (b + c)
  {
  }
}
