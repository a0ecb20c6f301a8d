/**
 * A JavaScript `Set<number>` as the code above it uses one: its members in
 * insertion order without repetition, `add`, `delete`, and the ascending
 * array `[...set].sort((a, b) => a - b)`.
 */
module JsSet {

  function Elems(s: seq<int>): set<int>
  {
    set x | x in s
  }

  predicate Distinct(s: seq<int>)
  {
    forall i, j :: 0 <= i < j < |s| ==> s[i] != s[j]
  }

  predicate StrictlyIncreasing(r: seq<int>)
  {
    forall i, j :: 0 <= i < j < |r| ==> r[i] < r[j]
  }

  /** A set is empty exactly when it has no member in order. */
  lemma EmptyElems(s: seq<int>)
    ensures Elems(s) == {} <==> s == []
  {
    if s != [] {
      assert s[0] in Elems(s);
    }
  }

  /** `set.add(x)`: a new member goes to the end; a present one stays put. */
  function Add(s: seq<int>, x: int): (t: seq<int>)
    ensures Elems(t) == Elems(s) + {x}
    ensures Distinct(s) ==> Distinct(t)
  {
    if x in s then s else s + [x]
  }

  /** `set.delete(x)`: the other members keep their order. */
  function Delete(s: seq<int>, x: int): (t: seq<int>)
    ensures Elems(t) == Elems(s) - {x}
    ensures |t| <= |s|
    ensures Distinct(s) ==> Distinct(t)
  {
    if s == [] then []
    else
      var rest := Delete(s[1..], x);
      assert Elems(s) == {s[0]} + Elems(s[1..]);
      if s[0] == x then rest
      else
        var t := [s[0]] + rest;
        assert Elems(t) == {s[0]} + Elems(rest);
        assert Distinct(s) ==> s[0] !in Elems(s[1..]) && Distinct(s[1..]);
        assert Distinct(s) ==> forall j :: 0 < j < |t| ==> t[j] in Elems(rest);
        t
  }

  /** `[...set].sort((a, b) => a - b)`: the members in ascending order. */
  method SortedMembers(s: seq<int>) returns (r: seq<int>)
    ensures StrictlyIncreasing(r)
    ensures Elems(r) == Elems(s)
  {
    r := [];
    for k := 0 to |s|
      invariant StrictlyIncreasing(r)
      invariant Elems(r) == Elems(s[..k])
    {
      assert Elems(s[..k + 1]) == Elems(s[..k]) + {s[k]} by {
        assert s[..k + 1] == s[..k] + [s[k]];
      }
      r := InsertSorted(r, s[k]);
    }
    assert s[..|s|] == s;
  }

  /** Puts `x` into its place in an ascending list, unless it is there. */
  method InsertSorted(r: seq<int>, x: int) returns (t: seq<int>)
    requires StrictlyIncreasing(r)
    ensures StrictlyIncreasing(t)
    ensures Elems(t) == Elems(r) + {x}
  {
    var i := 0;
    while i < |r| && r[i] < x
      invariant 0 <= i <= |r|
      invariant forall j :: 0 <= j < i ==> r[j] < x
    {
      i := i + 1;
    }
    if i < |r| && r[i] == x {
      t := r;
    } else {
      t := r[..i] + [x] + r[i..];
      assert Elems(t) == Elems(r[..i]) + {x} + Elems(r[i..]);
      assert r == r[..i] + r[i..];
      assert Elems(r) == Elems(r[..i]) + Elems(r[i..]);
    }
  }
}
