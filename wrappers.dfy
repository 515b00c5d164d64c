/** The optional-value datatype used throughout the model (a missing header,
    a script tag without text, a regex search that found nothing), and the values
    kept from a sequence of optional results. */
module Wrappers {

  datatype Option<+T> = None | Some(value: T)

  /** The present values of `s`, in order. */
  function Somes<T>(s: seq<Option<T>>): seq<T>
  {
    if s == [] then []
    else Somes(s[..|s| - 1]) + (if s[|s| - 1].Some? then [s[|s| - 1].value] else [])
  }

  lemma SomesSnoc<T>(s: seq<Option<T>>, o: Option<T>)
    ensures Somes(s + [o]) == Somes(s) + (if o.Some? then [o.value] else [])
  {
    assert (s + [o])[..|s|] == s;
  }

  /** Extending a prefix by one entry keeps that entry's value, if it has one. */
  lemma SomesPrefix<T>(s: seq<Option<T>>, i: nat)
    requires i < |s|
    ensures Somes(s[..i + 1]) == Somes(s[..i]) + (if s[i].Some? then [s[i].value] else [])
  {
    assert s[..i + 1] == s[..i] + [s[i]];
    SomesSnoc(s[..i], s[i]);
  }

  /** Nothing is kept exactly when every entry is absent. */
  lemma {:induction false} SomesEmpty<T>(s: seq<Option<T>>)
    ensures Somes(s) == [] <==> forall i :: 0 <= i < |s| ==> s[i].None?
    decreases |s|
  {
    if s != [] {
      var n := |s| - 1;
      SomesEmpty(s[..n]);
      assert forall i :: 0 <= i < n ==> s[..n][i] == s[i];
    }
  }

  /** A value is kept exactly when some entry holds it. */
  lemma {:induction false} SomesMembers<T>(s: seq<Option<T>>, x: T)
    ensures x in Somes(s) <==> exists i :: 0 <= i < |s| && s[i] == Some(x)
    decreases |s|
  {
    if s != [] {
      var n := |s| - 1;
      SomesMembers(s[..n], x);
      if exists i :: 0 <= i < |s| && s[i] == Some(x) {
        var i :| 0 <= i < |s| && s[i] == Some(x);
        if i < n { assert s[..n][i] == Some(x); }
      }
      if exists i :: 0 <= i < n && s[..n][i] == Some(x) {
        var i :| 0 <= i < n && s[..n][i] == Some(x);
        assert s[i] == Some(x);
      }
    }
  }
}
