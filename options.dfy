/** The source's `T | null` results, and dropping the nulls from a list of them. */
module Options {

  datatype Option<+T> = None | Some(value: T)

  /** `xs.filter(x => x !== null)`: the present values, in order. */
  function Somes<T>(xs: seq<Option<T>>): seq<T>
  {
    if xs == [] then [] else
      (if xs[0].Some? then [xs[0].value] else []) + Somes(xs[1..])
  }

  /** Dropping nulls commutes with concatenation, so the order of the values is kept. */
  lemma {:induction false} SomesConcat<T>(a: seq<Option<T>>, b: seq<Option<T>>)
    ensures Somes(a + b) == Somes(a) + Somes(b)
  {
    if a != [] {
      assert (a + b)[1..] == a[1..] + b;
      SomesConcat(a[1..], b);
    } else {
      assert a + b == b;
    }
  }

  /** A value survives the filter iff it was present in the input. */
  lemma {:induction false} SomesMembers<T>(xs: seq<Option<T>>, x: T)
    ensures x in Somes(xs) <==> Some(x) in xs
  {
    if xs != [] {
      SomesMembers(xs[1..], x);
      assert xs == [xs[0]] + xs[1..];
    }
  }

  /** With no null in the input, the filter keeps every value. */
  lemma {:induction false} SomesAllPresent<T>(xs: seq<Option<T>>)
    requires forall i :: 0 <= i < |xs| ==> xs[i].Some?
    ensures |Somes(xs)| == |xs|
    ensures forall i :: 0 <= i < |xs| ==> Somes(xs)[i] == xs[i].value
  {
    if xs != [] {
      SomesAllPresent(xs[1..]);
    }
  }

  /** With only nulls in the input, the filter keeps nothing. */
  lemma {:induction false} SomesAllAbsent<T>(xs: seq<Option<T>>)
    requires forall i :: 0 <= i < |xs| ==> xs[i].None?
    ensures Somes(xs) == []
  {
    if xs != [] {
      SomesAllAbsent(xs[1..]);
    }
  }
}
