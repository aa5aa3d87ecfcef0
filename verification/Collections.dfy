/** An optional value, and a fact about sequences that long proofs state rather than find. */
module Collections {

  datatype Option<+T> = None | Some(value: T)
  {
    function GetOr(default: T): T {
      if Some? then value else default
    }
  }

  lemma ConcatNothing<T>(a: seq<T>)
    ensures a + [] == a == [] + a
  {
  }

  lemma ConcatAssociates<T>(a: seq<T>, b: seq<T>, c: seq<T>)
    ensures a + b + c == a + (b + c)
  {
  }
}
