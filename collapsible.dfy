/**
 * `collapsibleStates`: the list of metadata tokens of the collapsible groups
 * that are currently shown.  The Hide/Show button toggles a group's token in
 * or out of it.
 */
module Collapsible {

  /** No token appears twice. */
  predicate NoDup(s: seq<int>) {
    forall i, j :: 0 <= i < j < |s| ==> s[i] != s[j]
  }

  /** `List.Remove`: the list without the first occurrence of `x`, the same list when there is none. */
  function RemoveFirst(s: seq<int>, x: int): (r: seq<int>)
    ensures x !in s ==> r == s
    ensures x in s ==> |r| == |s| - 1
    ensures forall y :: y != x ==> multiset(r)[y] == multiset(s)[y]
    ensures x in s ==> multiset(r)[x] == multiset(s)[x] - 1
    decreases |s|
  {
    if s == [] then []
    else
      assert s == [s[0]] + s[1..];
      if s[0] == x then s[1..] else [s[0]] + RemoveFirst(s[1..], x)
  }

  /** Removing the first occurrence at `i` is cutting the list at `i`. */
  lemma {:induction false} RemoveFirstAt(s: seq<int>, x: int, i: nat)
    requires i < |s| && s[i] == x && x !in s[..i]
    ensures RemoveFirst(s, x) == s[..i] + s[i + 1..]
    decreases i
  {
    if i > 0 {
      assert s[0] != x by { assert s[0] == s[..i][0]; }
      assert s[1..][..i - 1] == s[1..i];
      assert x !in s[1..][..i - 1];
      RemoveFirstAt(s[1..], x, i - 1);
      assert s[..i] == [s[0]] + s[1..][..i - 1];
      assert s[i + 1..] == s[1..][i..];
    }
  }

  /** What a click on a group's button does to the list. */
  function Toggled(s: seq<int>, token: int): seq<int> {
    if token in s then RemoveFirst(s, token) else s + [token]
  }

  /** A click flips whether the token is listed and leaves every other token as it was. */
  lemma ToggledFlips(s: seq<int>, token: int)
    requires NoDup(s)
    ensures (token in Toggled(s, token)) <==> token !in s
    ensures forall y :: y != token ==> ((y in Toggled(s, token)) <==> y in s)
  {
    var r := Toggled(s, token);
    if token in s {
      assert multiset(s)[token] == 1 by { NoDupCount(s, token); }
      assert multiset(r)[token] == 0;
    }
    forall y | y != token
      ensures (y in r) <==> y in s
    {
      assert (y in r) <==> multiset(r)[y] > 0;
      assert (y in s) <==> multiset(s)[y] > 0;
    }
  }

  /** In a list without duplicates a listed token occurs once. */
  lemma {:induction false} NoDupCount(s: seq<int>, x: int)
    requires NoDup(s) && x in s
    ensures multiset(s)[x] == 1
    decreases |s|
  {
    assert s == [s[0]] + s[1..];
    var t := s[1..];
    assert NoDup(t) by {
      forall i, j | 0 <= i < j < |t|
        ensures t[i] != t[j]
      {
        assert t[i] == s[i + 1] && t[j] == s[j + 1];
      }
    }
    if s[0] == x {
      forall j | 0 <= j < |t|
        ensures t[j] != x
      {
        assert t[j] == s[j + 1];
      }
    } else {
      NoDupCount(t, x);
    }
  }

  /** Cutting one element out keeps a list free of duplicates. */
  lemma CutNoDup(s: seq<int>, i: nat)
    requires NoDup(s) && i < |s|
    ensures NoDup(s[..i] + s[i + 1..])
  {
    var r := s[..i] + s[i + 1..];
    forall a, b | 0 <= a < b < |r|
      ensures r[a] != r[b]
    {
      var a' := if a < i then a else a + 1;
      var b' := if b < i then b else b + 1;
      assert r[a] == s[a'] && r[b] == s[b'];
    }
  }

  /** Appending a token not yet listed keeps a list free of duplicates. */
  lemma AppendNoDup(s: seq<int>, x: int)
    requires NoDup(s) && x !in s
    ensures NoDup(s + [x])
  {
    var r := s + [x];
    forall a, b | 0 <= a < b < |r|
      ensures r[a] != r[b]
    {
      assert r[a] == s[a] || a == |s|;
    }
  }

  /** Clicking keeps the list free of duplicates. */
  lemma ToggledNoDup(s: seq<int>, token: int)
    requires NoDup(s)
    ensures NoDup(Toggled(s, token))
  {
    if token in s {
      FirstIndex(s, token);
      var i :| 0 <= i < |s| && s[i] == token && token !in s[..i];
      RemoveFirstAt(s, token, i);
      CutNoDup(s, i);
    } else {
      AppendNoDup(s, token);
    }
  }

  /** A listed token has a first occurrence. */
  lemma {:induction false} FirstIndex(s: seq<int>, x: int)
    requires x in s
    ensures exists i :: 0 <= i < |s| && s[i] == x && x !in s[..i]
    decreases |s|
  {
    if s[0] == x {
      assert s[..0] == [];
    } else {
      FirstIndex(s[1..], x);
      var i :| 0 <= i < |s[1..]| && s[1..][i] == x && x !in s[1..][..i];
      assert s[..i + 1] == [s[0]] + s[1..][..i];
      assert s[i + 1] == x;
    }
  }

  /** Two clicks on a hidden group's button leave the list as it was. */
  lemma ShowThenHide(s: seq<int>, token: int)
    requires token !in s
    ensures Toggled(Toggled(s, token), token) == s
  {
    var r := s + [token];
    assert token in r;
    RemoveFirstAt(r, token, |s|);
    assert r[..|s|] == s;
  }

  /** The process-wide list, changed in place. */
  class CollapsibleStates {
    var tokens: seq<int>

    constructor ()
      ensures tokens == []
    {
      tokens := [];
    }

    /** `collapsibleStates.Exists(x => x == token)`. */
    predicate Shown(token: int)
      reads this
    {
      token in tokens
    }

    /**
     * The group's Hide/Show button: remove the token when it is listed (the
     * group was shown), else add it.
     */
    method Toggle(token: int) returns (wasShown: bool)
      modifies this
      ensures wasShown <==> token in old(tokens)
      ensures tokens == Toggled(old(tokens), token)
    {
      var i := 0;
      while i < |tokens| && tokens[i] != token
        invariant 0 <= i <= |tokens|
        invariant token !in tokens[..i]
      {
        assert tokens[..i + 1] == tokens[..i] + [tokens[i]];
        i := i + 1;
      }
      if i < |tokens| {
        RemoveFirstAt(tokens, token, i);
        tokens := tokens[..i] + tokens[i + 1..];
        wasShown := true;
      } else {
        assert tokens[..i] == tokens;
        tokens := tokens + [token];
        wasShown := false;
      }
    }
  }
}
