/** Python list operations the visualizer relies on, on sequences. */
module PyList {
  import opened Wrappers

  /** `list.index(x)`: the first position holding `x`, or None where Python raises ValueError. */
  function IndexOf<T(==)>(s: seq<T>, x: T): (r: Option<nat>)
    ensures r.Some? <==> x in s
    ensures r.Some? ==> r.value < |s| && s[r.value] == x && x !in s[..r.value]
  {
    if |s| == 0 then None
    else if s[0] == x then Some(0)
    else
      match IndexOf(s[1..], x)
      case None => None
      case Some(i) =>
        assert s[..i + 1] == [s[0]] + s[1..][..i];
        Some(i + 1)
  }

  /**
   * `list.remove(x)`: the first occurrence of `x` leaves the list and the
   * rest keep their order; None where Python raises ValueError.
   */
  function RemoveFirst<T(==)>(s: seq<T>, x: T): (r: Option<seq<T>>)
    ensures r.None? <==> x !in s
    ensures r.Some? ==> |r.value| == |s| - 1 && multiset(r.value) == multiset(s) - multiset{x}
    ensures r.Some? ==> exists i :: 0 <= i < |s| && s[i] == x && x !in s[..i] && r.value == s[..i] + s[i + 1..]
  {
    match IndexOf(s, x)
    case None => None
    case Some(i) =>
      assert s == s[..i] + [x] + s[i + 1..];
      assert multiset(s) == multiset(s[..i]) + multiset{x} + multiset(s[i + 1..]);
      Some(s[..i] + s[i + 1..])
  }

  /** Removing an element just appended, when it was not there before, gives the list back. */
  lemma RemoveAppended<T>(s: seq<T>, x: T)
    requires x !in s
    ensures RemoveFirst(s + [x], x) == Some(s)
  {
    var t := s + [x];
    assert IndexOf(t, x) == Some(|s|) by {
      assert t[..|s|] == s;
    }
    assert t[..|s|] + t[|s| + 1..] == s;
  }

  /** What `list.remove` leaves was already in the list. */
  lemma RemoveFirstKeeps<T>(s: seq<T>, x: T)
    requires RemoveFirst(s, x).Some?
    ensures forall y :: y in RemoveFirst(s, x).value ==> y in s
  {
    var r := RemoveFirst(s, x).value;
    forall y | y in r
      ensures y in s
    {
      assert y in multiset(r);
    }
  }
}
