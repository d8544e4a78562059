/** The operations of Doctrine's ArrayCollection that the entities use,
    on a sequence of elements compared by identity (`contains` is a strict
    `in_array`, `removeElement` unsets the first strictly equal element),
    and PHP's `array_unique`. */
module Collections {

  /** No element occurs twice. */
  predicate NoDup<T(==)>(s: seq<T>)
  {
    forall i, j :: 0 <= i < j < |s| ==> s[i] != s[j]
  }

  /** The add-once pattern of every `add*` method: append `x` unless the
      collection already contains it. */
  function AddOnce<T(==)>(s: seq<T>, x: T): (r: seq<T>)
    ensures x in r
    ensures forall y :: y in s ==> y in r
    ensures forall y :: y in r ==> y in s || y == x
    ensures x in s ==> r == s
    ensures x !in s ==> r == s + [x]
    ensures NoDup(s) ==> NoDup(r)
  {
    if x in s then s else s + [x]
  }

  /** `removeElement`: remove the first occurrence of `x`, if any. */
  function RemoveFirst<T(==)>(s: seq<T>, x: T): (r: seq<T>)
    ensures x !in s ==> r == s
    ensures multiset(r) == multiset(s) - multiset{x}
  {
    if s == [] then []
    else if s[0] == x then
      assert s == [s[0]] + s[1..];
      s[1..]
    else
      assert s == [s[0]] + s[1..];
      [s[0]] + RemoveFirst(s[1..], x)
  }

  /** On a collection without duplicates, removal takes the element out
      completely, keeps the rest and keeps the collection duplicate-free. */
  lemma {:induction false} RemoveFirstNoDup<T>(s: seq<T>, x: T)
    requires NoDup(s)
    ensures NoDup(RemoveFirst(s, x))
    ensures x !in RemoveFirst(s, x)
    ensures forall y :: y in s && y != x ==> y in RemoveFirst(s, x)
    ensures forall y :: y in RemoveFirst(s, x) ==> y in s
  {
    if s != [] {
      NoDupTail(s);
      var tail := s[1..];
      assert s == [s[0]] + tail;
      if s[0] != x {
        var t := RemoveFirst(tail, x);
        RemoveFirstNoDup(tail, x);
        NoDupCons(s[0], t);
      }
    }
  }

  lemma NoDupSnoc<T>(t: seq<T>, a: T)
    requires a !in t && NoDup(t)
    ensures NoDup(t + [a])
  {
  }

  lemma NoDupCons<T>(a: T, t: seq<T>)
    requires a !in t && NoDup(t)
    ensures NoDup([a] + t)
  {
    var s := [a] + t;
    forall i, j | 0 <= i < j < |s| ensures s[i] != s[j] {
      assert s[j] == t[j - 1];
      if i > 0 { assert s[i] == t[i - 1]; }
    }
  }

  lemma NoDupTail<T>(s: seq<T>)
    requires s != []
    ensures NoDup(s) ==> NoDup(s[1..]) && s[0] !in s[1..]
  {
    if NoDup(s) {
      forall k | 0 <= k < |s[1..]|
        ensures s[1..][k] != s[0]
      {
        assert s[1..][k] == s[k + 1];
      }
    }
  }

  lemma NoDupInit<T>(s: seq<T>)
    requires s != []
    ensures NoDup(s) ==> NoDup(s[..|s| - 1]) && s[|s| - 1] !in s[..|s| - 1]
  {
    if NoDup(s) {
      var init := s[..|s| - 1];
      forall i, j | 0 <= i < j < |init| ensures init[i] != init[j] {
        assert init[i] == s[i] && init[j] == s[j];
      }
      forall k | 0 <= k < |init| ensures init[k] != s[|s| - 1] {
        assert init[k] == s[k];
      }
    }
  }

  /** Removing what was just added to a collection without it gives the
      collection back: `remove*` undoes `add*`. */
  lemma {:induction false} RemoveUndoesAdd<T>(s: seq<T>, x: T)
    requires x !in s
    ensures RemoveFirst(AddOnce(s, x), x) == s
  {
    if s != [] {
      assert (s + [x])[1..] == s[1..] + [x];
      RemoveUndoesAdd(s[1..], x);
    }
  }

  /** Adding back an element that was present once gives the same elements
      as before, each as often (in another order when `x` was not last). */
  lemma AddUndoesRemove<T>(s: seq<T>, x: T)
    requires NoDup(s) && x in s
    ensures multiset(AddOnce(RemoveFirst(s, x), x)) == multiset(s)
  {
    var r := RemoveFirst(s, x);
    RemoveFirstNoDup(s, x);
    assert multiset(r + [x]) == multiset(r) + multiset{x};
  }

  /** `array_unique`: keep the first occurrence of every value, in order. */
  function Dedup<T(==)>(s: seq<T>): (r: seq<T>)
    ensures NoDup(r)
    ensures forall y :: y in r ==> y in s
    ensures forall y :: y in s ==> y in r
    ensures |r| <= |s|
  {
    if s == [] then []
    else
      var d := Dedup(s[..|s| - 1]);
      var last := s[|s| - 1];
      assert s == s[..|s| - 1] + [last];
      if last in d then d else d + [last]
  }

  /** A collection without duplicates is left as it is by `array_unique`. */
  lemma {:induction false} DedupOfNoDup<T>(s: seq<T>)
    requires NoDup(s)
    ensures Dedup(s) == s
  {
    if s != [] {
      var init := s[..|s| - 1];
      assert NoDup(init) by {
        forall i, j | 0 <= i < j < |init| ensures init[i] != init[j] {
          assert init[i] == s[i] && init[j] == s[j];
        }
      }
      DedupOfNoDup(init);
      assert s[|s| - 1] !in init by {
        forall k | 0 <= k < |init| ensures init[k] != s[|s| - 1] {
          assert init[k] == s[k];
        }
      }
      assert s == init + [s[|s| - 1]];
    }
  }
}
