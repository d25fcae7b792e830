/** Small vocabulary shared by every module: options, bytes, flattening of lists of lists. */
module Common {

  datatype Option<+T> = None | Some(value: T)

  type byte = x: int | 0 <= x < 256

  const MAX_PLAIN_LENGTH: nat := 16384         // SSL3_RT_MAX_PLAIN_LENGTH, of TLS and DTLS records

  /** The concatenation of a list of sequences, in order. */
  function Flatten<T>(xss: seq<seq<T>>): (r: seq<T>)
  {
    if xss == [] then [] else xss[0] + Flatten(xss[1..])
  }

  lemma {:induction false} FlattenAppend<T>(xss: seq<seq<T>>, xs: seq<T>)
    ensures Flatten(xss + [xs]) == Flatten(xss) + xs
  {
    if xss == [] {
      assert (xss + [xs])[1..] == [];
    } else {
      assert (xss + [xs])[1..] == xss[1..] + [xs];
      FlattenAppend(xss[1..], xs);
    }
  }

  /** An item that is there or not. */
  function Opt<T>(b: bool, x: T): seq<T> { if b then [x] else [] }

  function Min(a: int, b: int): (r: int)
  {
    if a < b then a else b
  }
}
