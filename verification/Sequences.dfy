/** What it is for a list to be the elements of another that pass a test. */
module Sequences {

  /** r lists, in order and each as often as it occurs, the elements of s that pass; `at` says where they are. */
  ghost predicate SelectedAt<T>(s: seq<T>, passes: T -> bool, r: seq<T>, at: seq<nat>) {
    && |at| == |r|
    && (forall i, j :: 0 <= i < j < |at| ==> at[i] < at[j])
    && (forall i :: 0 <= i < |r| ==> at[i] < |s| && r[i] == s[at[i]])
    && (forall k :: 0 <= k < |s| ==> (passes(s[k]) <==> k in at))
  }

  ghost predicate Selected<T>(s: seq<T>, passes: T -> bool, r: seq<T>) { exists at :: SelectedAt(s, passes, r, at) }

  lemma NoneSelected<T>(passes: T -> bool)
    ensures Selected([], passes, [])
  {
    assert SelectedAt([], passes, [], []);
  }

  lemma PlacesInside<T>(s: seq<T>, passes: T -> bool, r: seq<T>, at: seq<nat>, k: nat)
    requires SelectedAt(s, passes, r, at) && k in at
    ensures k < |s|
  {
    var i :| 0 <= i < |at| && at[i] == k;
  }

  lemma SkipOne<T>(s: seq<T>, passes: T -> bool, r: seq<T>, at: seq<nat>, x: T)
    requires SelectedAt(s, passes, r, at) && !passes(x)
    ensures SelectedAt(s + [x], passes, r, at)
  {
    var all := s + [x];
    forall k: nat | k < |all| ensures passes(all[k]) <==> k in at {
      if k < |s| { assert all[k] == s[k]; } else if k in at { PlacesInside(s, passes, r, at, k); }
    }
  }

  lemma TakeOne<T>(s: seq<T>, passes: T -> bool, r: seq<T>, at: seq<nat>, x: T)
    requires SelectedAt(s, passes, r, at) && passes(x)
    ensures SelectedAt(s + [x], passes, r + [x], at + [|s|])
  {
    var all, here := s + [x], at + [|s|];
    forall k: nat | k < |all| ensures passes(all[k]) <==> k in here {
      if k < |s| { assert all[k] == s[k]; }
    }
    forall i, j | 0 <= i < j < |here| ensures here[i] < here[j] {
      if j == |at| { PlacesInside(s, passes, r, at, here[i]); }
    }
  }

  lemma SelectMore<T>(s: seq<T>, passes: T -> bool, r: seq<T>, x: T)
    requires Selected(s, passes, r)
    ensures Selected(s + [x], passes, r + if passes(x) then [x] else [])
  {
    var at :| SelectedAt(s, passes, r, at);
    if passes(x) {
      TakeOne(s, passes, r, at, x);
    } else {
      SkipOne(s, passes, r, at, x);
      assert r + [] == r;
    }
    hide SelectedAt;
  }

  /** Which elements those are, and how often. */
  lemma SelectedElements<T>(s: seq<T>, passes: T -> bool, r: seq<T>, x: T)
    requires Selected(s, passes, r)
    ensures x in r <==> x in s && passes(x)
  {
    var at :| SelectedAt(s, passes, r, at);
    if x in s && passes(x) {
      var k :| 0 <= k < |s| && s[k] == x;
      assert k in at;
      var i :| 0 <= i < |at| && at[i] == k;
      assert r[i] == x;
    }
    if x in r {
      var i :| 0 <= i < |r| && r[i] == x;
      assert at[i] in at;
    }
  }
}
