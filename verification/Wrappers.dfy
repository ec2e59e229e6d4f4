/** A value that may be missing: a null pointer, an operation not in flight, an error. */
module Wrappers {

  datatype Option<T> = None | Some(value: T)

  /** The next of some elements goes to the end of the earlier ones. */
  lemma OneByOne<X>(earlier: seq<X>, es: seq<X>)
    ensures es == [] ==> earlier + es == earlier
    ensures es != [] ==> earlier + [es[0]] + es[1..] == earlier + es
  {
  }

  lemma NothingFirst<X>(es: seq<X>)
    ensures [] + es == es
  {
  }
}
