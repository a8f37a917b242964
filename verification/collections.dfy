/** Sequence helpers shared by the modules that count distinct values. */
module Collections {

  /** The distinct values of `s`, built front to back. */
  function Elements<T(==,!new)>(s: seq<T>): (e: set<T>)
    ensures forall x :: x in e <==> x in s
  {
    if |s| == 0 then {} else Elements(s[..|s| - 1]) + {s[|s| - 1]}
  }
}
