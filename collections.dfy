/** The two operations of Doctrine's ArrayCollection that the User entity
    uses on its articles, over sequences: `contains`/`add` and
    `removeElement`. Both compare elements by identity (`===`), which is
    Dafny's `==` on references. */
module Collections {

  predicate Distinct<T(==)>(s: seq<T>) {
    forall i, j :: 0 <= i < j < |s| ==> s[i] != s[j]
  }

  /** `if (!$c->contains($x)) { $c->add($x); }` */
  function AddOnce<T(==)>(s: seq<T>, x: T): seq<T> {
    if x in s then s else s + [x]
  }

  /** `$c->removeElement($x)`: drop the first occurrence of `x`, if any,
      keeping the order of the rest. */
  function RemoveFirst<T(==)>(s: seq<T>, x: T): seq<T> {
    if s == [] then []
    else if s[0] == x then s[1..]
    else [s[0]] + RemoveFirst(s[1..], x)
  }

  /** Adding an element twice is the same as adding it once; the element is
      then present, and a collection without duplicates stays without. */
  lemma AddOnceIdempotent<T>(s: seq<T>, x: T)
    ensures x in AddOnce(s, x)
    ensures AddOnce(AddOnce(s, x), x) == AddOnce(s, x)
    ensures Distinct(s) ==> Distinct(AddOnce(s, x))
  {
  }

  /** The position of the first occurrence of `x` (`array_search`). */
  function IndexOf<T(==)>(s: seq<T>, x: T): (k: nat)
    requires x in s
    ensures k < |s| && s[k] == x && x !in s[..k]
  {
    if s[0] == x then 0 else 1 + IndexOf(s[1..], x)
  }

  /** Removing an element that is absent changes nothing; removing one that
      is present takes out exactly its first occurrence and keeps everything
      else in order. */
  lemma {:induction false} RemoveFirstAt<T>(s: seq<T>, x: T)
    ensures x !in s ==> RemoveFirst(s, x) == s
    ensures x in s ==> RemoveFirst(s, x) == s[..IndexOf(s, x)] + s[IndexOf(s, x) + 1..]
  {
    if s != [] && s[0] != x {
      RemoveFirstAt(s[1..], x);
      if x in s {
        var k := IndexOf(s[1..], x);
        assert s[..k + 1] == [s[0]] + s[1..][..k];
        assert s[k + 2..] == s[1..][k + 1..];
      }
    }
  }

  /** Removing an element from a collection without duplicates leaves it
      absent and the collection still without duplicates. */
  lemma {:induction false} RemoveFirstDistinct<T>(s: seq<T>, x: T)
    requires Distinct(s)
    ensures x !in RemoveFirst(s, x)
    ensures Distinct(RemoveFirst(s, x))
  {
    RemoveFirstAt(s, x);
    if x in s {
      var k := IndexOf(s, x);
      var r := RemoveFirst(s, x);
      assert |r| == |s| - 1;
      forall i | 0 <= i < |r| ensures r[i] == s[if i < k then i else i + 1] { }
      forall i, j | 0 <= i < j < |r| ensures r[i] != r[j] {
        assert r[i] == s[if i < k then i else i + 1];
        assert r[j] == s[if j < k then j else j + 1];
      }
      forall i | 0 <= i < |r| ensures r[i] != x {
        assert r[i] == s[if i < k then i else i + 1];
      }
    }
  }

  /** `removeElement` undoes an `add` of an element that was not there. */
  lemma {:induction false} RemoveUndoesAdd<T>(s: seq<T>, x: T)
    requires x !in s
    ensures RemoveFirst(AddOnce(s, x), x) == s
  {
    if s != [] {
      assert (s + [x])[1..] == s[1..] + [x];
      RemoveUndoesAdd(s[1..], x);
    }
  }
}
