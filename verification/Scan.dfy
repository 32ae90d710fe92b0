/**
 Linear scans over tables.

 Every table of the daemon and of its client library is searched by a loop that stops at the
 first matching slot.  `First` is what such a loop computes and `Count` is how many slots match.
 */
module Scan {

  datatype Option<+T> = None | Some(value: T)

  /** Index of the first element satisfying `p`, or `|s|` when there is none. */
  function First<T>(s: seq<T>, p: T -> bool): (k: nat)
    ensures k <= |s|
    ensures k < |s| ==> p(s[k])
    ensures forall i :: 0 <= i < k ==> !p(s[i])
  {
    if |s| == 0 || p(s[0]) then 0 else 1 + First(s[1..], p)
  }

  /** Number of elements satisfying `p`. */
  function Count<T>(s: seq<T>, p: T -> bool): (n: nat)
    ensures n <= |s|
  {
    if |s| == 0 then 0 else Count(s[..|s| - 1], p) + (if p(s[|s| - 1]) then 1 else 0)
  }

  /** Overwriting one slot moves the count by what that slot gained or lost. */
  lemma {:induction false} CountUpdate<T>(s: seq<T>, p: T -> bool, k: nat, x: T)
    requires k < |s|
    ensures Count(s[k := x], p) == Count(s, p) - (if p(s[k]) then 1 else 0) + (if p(x) then 1 else 0)
  {
    var u := s[k := x];
    if k == |s| - 1 {
      assert u[..|s| - 1] == s[..|s| - 1];
    } else {
      CountUpdate(s[..|s| - 1], p, k, x);
      assert u[..|s| - 1] == s[..|s| - 1][k := x];
    }
  }

  /** The count is positive exactly when the scan succeeds. */
  lemma {:induction false} CountFirst<T>(s: seq<T>, p: T -> bool)
    ensures Count(s, p) > 0 <==> First(s, p) < |s|
  {
    if |s| > 0 {
      var init := s[..|s| - 1];
      CountFirst(init, p);
      if Count(init, p) > 0 {
        assert p(s[First(init, p)]);
      } else {
        assert forall i :: 0 <= i < |init| ==> !p(init[i]) && init[i] == s[i];
      }
    }
  }

  /** A slot failing `p` exists as soon as the count is below the table size. */
  lemma {:induction false} CountRoom<T>(s: seq<T>, p: T -> bool)
    requires Count(s, p) < |s|
    ensures exists i :: 0 <= i < |s| && !p(s[i])
  {
    if p(s[|s| - 1]) {
      CountRoom(s[..|s| - 1], p);
      var i :| 0 <= i < |s| - 1 && !p(s[..|s| - 1][i]);
      assert !p(s[i]);
    }
  }

  /** A table full of matches has nothing else. */
  lemma {:induction false} CountFull<T>(s: seq<T>, p: T -> bool)
    requires Count(s, p) == |s|
    ensures forall i :: 0 <= i < |s| ==> p(s[i])
  {
    if |s| > 0 {
      CountFull(s[..|s| - 1], p);
      assert forall i :: 0 <= i < |s| - 1 ==> s[..|s| - 1][i] == s[i];
    }
  }

  /** A table with no match at all counts zero. */
  lemma {:induction false} CountNone<T>(s: seq<T>, p: T -> bool)
    requires forall i :: 0 <= i < |s| ==> !p(s[i])
    ensures Count(s, p) == 0
  {
    if |s| > 0 {
      CountNone(s[..|s| - 1], p);
    }
  }
}
