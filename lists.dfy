// Lists of objects that the games filter in place: which entries a filter
// keeps, and lists in which no object occurs twice.

module Lists {

  /** `kept` lists the entries of `s` at the indices `idx`, in order. */
  ghost predicate Picks<T>(kept: seq<T>, s: seq<T>, idx: seq<int>)
  {
    |kept| == |idx| && forall k :: 0 <= k < |idx| ==> 0 <= idx[k] < |s| && kept[k] == s[idx[k]]
  }

  /** No entry occurs twice: each one is new to the entries before it. */
  ghost predicate Distinct<T>(s: seq<T>)
  {
    s == [] || (Distinct(s[..|s| - 1]) && s[|s| - 1] !in s[..|s| - 1])
  }

  lemma {:induction false} DistinctByIndex<T>(s: seq<T>)
    ensures Distinct(s) <==> forall i, j :: 0 <= i < j < |s| ==> s[i] != s[j]
  {
    if s != [] {
      var init := s[..|s| - 1];
      DistinctByIndex(init);
      assert forall i :: 0 <= i < |init| ==> init[i] == s[i];
    }
  }

  /** In a list without repeats, no other entry is the one at `i`. */
  lemma DistinctAt<T>(s: seq<T>, i: int)
    requires Distinct(s) && 0 <= i < |s|
    ensures forall j :: 0 <= j < |s| && j != i ==> s[j] != s[i]
  {
    DistinctByIndex(s);
  }

  /** Picking increasing indices from a list without repeats gives a list
      without repeats. */
  lemma PickDistinct<T>(kept: seq<T>, s: seq<T>, idx: seq<int>)
    requires Distinct(s) && Picks(kept, s, idx)
    requires forall a, b :: 0 <= a < b < |idx| ==> idx[a] < idx[b]
    ensures Distinct(kept)
  {
    DistinctByIndex(s);
    DistinctByIndex(kept);
  }

  /** What is picked from a list comes from that list. */
  lemma PicksFrom<T>(kept: seq<T>, s: seq<T>, idx: seq<int>)
    requires Picks(kept, s, idx)
    ensures forall x :: x in kept ==> x in s
  {
    forall x | x in kept
      ensures x in s
    {
      var k :| 0 <= k < |kept| && kept[k] == x;
      assert s[idx[k]] == x;
    }
  }

  /** The entries of `s` that satisfy `keep`, in order. */
  function Filter<T>(s: seq<T>, keep: T -> bool): (r: seq<T>)
    ensures |r| <= |s|
  {
    if s == [] then []
    else Filter(s[..|s| - 1], keep) + (if keep(s[|s| - 1]) then [s[|s| - 1]] else [])
  }

  /** The indices, among the first `n` entries of `s`, of those that
      satisfy `keep`: what a filter loop has kept after `n` steps. */
  function Survivors<T>(s: seq<T>, n: nat, keep: T -> bool): (r: seq<int>)
    requires n <= |s|
    ensures |r| <= n && forall k :: 0 <= k < |r| ==> 0 <= r[k] < n
  {
    if n == 0 then []
    else Survivors(s, n - 1, keep) + (if keep(s[n - 1]) then [n - 1] else [])
  }

  /** The surviving indices increase and pick out the filtered prefix. */
  lemma {:induction false} SurvivorsSelect<T>(s: seq<T>, n: nat, keep: T -> bool)
    requires n <= |s|
    ensures Picks(Filter(s[..n], keep), s, Survivors(s, n, keep))
    ensures forall a, b :: 0 <= a < b < |Survivors(s, n, keep)| ==>
              Survivors(s, n, keep)[a] < Survivors(s, n, keep)[b]
  {
    if n > 0 {
      SurvivorsSelect(s, n - 1, keep);
      assert s[..n][..n - 1] == s[..n - 1];
    }
  }
}
