/** What several modules need: an optional value, and that a set with no element is empty. */
module Basis {
  datatype Option<+T> = None | Some(value: T)

  lemma SomeElement(s: set<int>)
    ensures s == {} || exists x :: x in s
  {
    if forall x :: x !in s {
      assert s == {};
    }
  }
}
