/** A value that may be missing, and a sequence put in front of one that may be missing. */
module Options {

  datatype Option<+V> = None | Some(value: V)

  function Onto<T>(front: seq<T>, rest: Option<seq<T>>): Option<seq<T>> {
    if rest.None? then None else Some(front + rest.value)
  }

  lemma {:induction false} OntoNothing<T>(rest: Option<seq<T>>)
    ensures Onto([], rest) == rest
  {
    if rest.Some? { assert [] + rest.value == rest.value; }
  }

  lemma {:induction false} OntoOnto<T>(a: seq<T>, b: seq<T>, rest: Option<seq<T>>)
    ensures Onto(a, Onto(b, rest)) == Onto(a + b, rest)
  {
    if rest.Some? { assert a + (b + rest.value) == a + b + rest.value; }
  }
}
