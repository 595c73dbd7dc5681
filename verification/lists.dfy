/** The list operations the page controllers apply to their state: replace or
    append a fetched page, update the entries with a given id, and filter. */
module Lists {

  /** `replace ? incoming : [...prev, ...incoming]`. */
  function Merge<T>(prev: seq<T>, incoming: seq<T>, replace: bool): seq<T> {
    if replace then incoming else prev + incoming
  }

  /** `s.map(x => hit(x) ? f(x) : x)`. */
  function MapWhere<T>(s: seq<T>, hit: T -> bool, f: T -> T): (r: seq<T>)
    ensures |r| == |s|
    ensures forall i :: 0 <= i < |s| && hit(s[i]) ==> r[i] == f(s[i])
    ensures forall i :: 0 <= i < |s| && !hit(s[i]) ==> r[i] == s[i]
  {
    seq(|s|, i requires 0 <= i < |s| => if hit(s[i]) then f(s[i]) else s[i])
  }

  /** `r` is obtained from `s` by deleting some entries, keeping the order. */
  ghost predicate IsSubsequence<T>(r: seq<T>, s: seq<T>)
    decreases |s|
  {
    if r == [] then true
    else if s == [] then false
    else (r[0] == s[0] && IsSubsequence(r[1..], s[1..])) || IsSubsequence(r, s[1..])
  }

  /** `s.filter(keep)`: the order-preserving subsequence of the entries that
      satisfy `keep`, each of them kept. */
  function Filter<T>(s: seq<T>, keep: T -> bool): (r: seq<T>)
    ensures |r| <= |s|
    ensures forall x :: x in r ==> x in s && keep(x)
    ensures forall x :: x in s && keep(x) ==> x in r
    ensures IsSubsequence(r, s)
    ensures forall i :: 0 <= i < |s| ==> multiset(r)[s[i]] == if keep(s[i]) then multiset(s)[s[i]] else 0
  {
    if s == [] then []
    else
      assert s == [s[0]] + s[1..];
      if keep(s[0]) then
        var tail := Filter(s[1..], keep);
        assert ([s[0]] + tail)[1..] == tail;
        [s[0]] + tail
      else Filter(s[1..], keep)
  }

  /** Filtering with a predicate every entry satisfies changes nothing. */
  lemma {:induction false} FilterKeepsAll<T>(s: seq<T>, keep: T -> bool)
    requires forall i :: 0 <= i < |s| ==> keep(s[i])
    ensures Filter(s, keep) == s
  {
    if s != [] {
      FilterKeepsAll(s[1..], keep);
    }
  }

  /** Filtering with a predicate no entry satisfies gives the empty list. */
  lemma {:induction false} FilterDropsAll<T>(s: seq<T>, keep: T -> bool)
    requires forall i :: 0 <= i < |s| ==> !keep(s[i])
    ensures Filter(s, keep) == []
  {
    if s != [] {
      FilterDropsAll(s[1..], keep);
    }
  }
}
