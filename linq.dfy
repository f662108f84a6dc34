/** The LINQ search the relationship lookup is built on. */
module Linq {
  import opened Wrappers

  /** Position `i` is the first element of `s` that satisfies `p`. */
  predicate IsFirstMatch<T>(s: seq<T>, p: T -> bool, i: int)
  {
    && 0 <= i < |s|
    && p(s[i])
    && forall j | 0 <= j < i :: !p(s[j])
  }

  /**
   * FirstOrDefault(p), giving the position of the element it returns,
   * or None where it returns null.
   */
  function FirstOrDefault<T>(s: seq<T>, p: T -> bool): (r: Option<nat>)
    ensures r.None? <==> forall i | 0 <= i < |s| :: !p(s[i])
    ensures r.Some? ==> IsFirstMatch(s, p, r.value)
  {
    if |s| == 0 then None
    else if p(s[0]) then Some(0)
    else
      var rest := FirstOrDefault(s[1..], p);
      assert forall i | 1 <= i < |s| :: s[i] == s[1..][i - 1];
      match rest
      case None => None
      case Some(k) => Some(k + 1)
  }

  /** The search finds exactly the first match. */
  lemma FirstMatchIsFound<T>(s: seq<T>, p: T -> bool, k: nat)
    requires IsFirstMatch(s, p, k)
    ensures FirstOrDefault(s, p) == Some(k)
  {
  }

  /** A match in a prefix stays the answer whatever follows it. */
  lemma LaterMatchesIgnored<T>(s: seq<T>, t: seq<T>, p: T -> bool)
    requires FirstOrDefault(s, p).Some?
    ensures FirstOrDefault(s + t, p) == FirstOrDefault(s, p)
  {
    var k := FirstOrDefault(s, p).value;
    var u := s + t;
    assert forall j | 0 <= j <= k :: u[j] == s[j];
    FirstMatchIsFound(u, p, k);
  }

  /** A prefix without matches is skipped: the answer is the first match after it. */
  lemma NonMatchesSkipped<T>(s: seq<T>, t: seq<T>, p: T -> bool)
    requires forall i | 0 <= i < |s| :: !p(s[i])
    ensures FirstOrDefault(s + t, p).None? <==> FirstOrDefault(t, p).None?
    ensures FirstOrDefault(t, p).Some? ==> FirstOrDefault(s + t, p) == Some(|s| + FirstOrDefault(t, p).value)
  {
    var u := s + t;
    assert forall j | 0 <= j < |s| :: u[j] == s[j];
    assert forall j | |s| <= j < |u| :: u[j] == t[j - |s|];
    match FirstOrDefault(t, p)
    case None =>
    case Some(k) =>
      FirstMatchIsFound(u, p, |s| + k);
  }
}
