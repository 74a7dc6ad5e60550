/** Vocabulary shared by the models: bytes, optional values, the error numbers the
    storage stack returns, and lists of distinct elements. */
module Types {

  newtype Byte = b: int | 0 <= b < 0x100

  datatype Option<+T> = None | Some(value: T)

  const EIO := 5
  const EAGAIN := 11
  const ENOMEM := 12
  const ENODEV := 19
  const EINVAL := 22
}

module Seqs {

  ghost predicate NoDup<T>(s: seq<T>) {
    forall i, j :: 0 <= i < j < |s| ==> s[i] != s[j]
  }

  /** The list without `x`. */
  function Remove<T(==,!new)>(s: seq<T>, x: T): (r: seq<T>)
    ensures forall y :: y in r <==> y in s && y != x
    ensures forall k :: 0 <= k < |r| ==> r[k] in s
    ensures x !in s ==> r == s
  {
    if s == [] then
      []
    else
      var r := Remove(s[..|s| - 1], x);
      assert s == s[..|s| - 1] + [s[|s| - 1]];
      if s[|s| - 1] == x then r else r + [s[|s| - 1]]
  }

  lemma {:induction false} RemoveNoDup<T(!new)>(s: seq<T>, x: T)
    requires NoDup(s)
    ensures NoDup(Remove(s, x))
    ensures x in s ==> |Remove(s, x)| == |s| - 1
  {
    if s != [] {
      var t := s[..|s| - 1];
      RemoveNoDup(t, x);
      assert s == t + [s[|s| - 1]];
      assert s[|s| - 1] !in t;
    }
  }

  lemma {:induction false} RemoveAppended<T(!new)>(s: seq<T>, x: T)
    requires x !in s
    ensures Remove(s + [x], x) == s
  {
    assert (s + [x])[..|s|] == s;
  }
}
