/** A value that may be missing, and facts about sequences. */
module Wrappers {
  datatype Option<T> = None | Some(value: T)

  function Flatten<T>(lists: seq<seq<T>>): (all: seq<T>) {
    if lists == [] then [] else Flatten(lists[..|lists| - 1]) + lists[|lists| - 1]
  }

  predicate Distinct<T(==)>(s: seq<T>) {
    forall i, j :: 0 <= i < j < |s| ==> s[i] != s[j]
  }

  lemma Regroup<T>(a: seq<T>, b: seq<T>, c: seq<T>)
    ensures a + b + c == a + (b + c)
  {
  }

  lemma SplitFirst<T>(s: seq<T>, rest: seq<T>)
    requires s != []
    ensures s + rest == [s[0]] + (s[1..] + rest)
  {
  }
}
