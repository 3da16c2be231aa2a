/** Counting over sequences: the measures that the game's counters are compared with. */
module Counting {

  /** The number of elements of `s` that satisfy `p`. */
  function CountIf<T>(s: seq<T>, p: T -> bool): (n: nat)
    ensures n <= |s|
  {
    if s == [] then 0 else (if p(s[0]) then 1 else 0) + CountIf(s[1..], p)
  }

  /** Replacing one element changes the count by what that element contributed. */
  lemma {:induction false} CountIfUpdate<T>(s: seq<T>, i: nat, x: T, p: T -> bool)
    requires i < |s|
    ensures CountIf(s[i := x], p) + (if p(s[i]) then 1 else 0)
         == CountIf(s, p) + (if p(x) then 1 else 0)
  {
    if i > 0 {
      CountIfUpdate(s[1..], i - 1, x, p);
      assert s[i := x][1..] == s[1..][i - 1 := x];
    } else {
      assert s[i := x][1..] == s[1..];
    }
  }

  /** Predicates that agree on every element give the same count. */
  lemma {:induction false} CountIfSame<T>(s: seq<T>, p: T -> bool, q: T -> bool)
    requires forall k :: 0 <= k < |s| ==> (p(s[k]) <==> q(s[k]))
    ensures CountIf(s, p) == CountIf(s, q)
  {
    if s != [] {
      CountIfSame(s[1..], p, q);
    }
  }

  /** Sequences whose elements agree on a predicate give the same count. */
  lemma {:induction false} CountIfPointwise<T>(s: seq<T>, t: seq<T>, p: T -> bool)
    requires |s| == |t| && forall k :: 0 <= k < |s| ==> (p(s[k]) <==> p(t[k]))
    ensures CountIf(s, p) == CountIf(t, p)
  {
    if s != [] {
      CountIfPointwise(s[1..], t[1..], p);
    }
  }

  /** A predicate that is the disjoint union of two others counts as their sum. */
  lemma {:induction false} CountIfSplit<T>(s: seq<T>, p: T -> bool, q: T -> bool, r: T -> bool)
    requires forall k :: 0 <= k < |s| ==> (p(s[k]) <==> q(s[k]) || r(s[k]))
    requires forall k :: 0 <= k < |s| ==> !(q(s[k]) && r(s[k]))
    ensures CountIf(s, p) == CountIf(s, q) + CountIf(s, r)
  {
    if s != [] {
      CountIfSplit(s[1..], p, q, r);
    }
  }

  /** A predicate that holds of every element counts every element. */
  lemma {:induction false} CountIfAll<T>(s: seq<T>, p: T -> bool)
    requires forall k :: 0 <= k < |s| ==> p(s[k])
    ensures CountIf(s, p) == |s|
  {
    if s != [] {
      CountIfAll(s[1..], p);
    }
  }

  /** A predicate that holds of no element counts nothing, and conversely. */
  lemma {:induction false} CountIfNone<T>(s: seq<T>, p: T -> bool)
    ensures CountIf(s, p) == 0 <==> forall k :: 0 <= k < |s| ==> !p(s[k])
  {
    if s != [] {
      CountIfNone(s[1..], p);
      if CountIf(s, p) == 0 {
        forall k | 0 <= k < |s| ensures !p(s[k]) {
          if k > 0 {
            assert s[k] == s[1..][k - 1];
          }
        }
      } else if forall k :: 0 <= k < |s| ==> !p(s[k]) {
        assert !p(s[0]);
        forall k | 0 <= k < |s| - 1 ensures !p(s[1..][k]) {
          assert s[1..][k] == s[k + 1];
        }
      }
    }
  }

  /** No element occurs twice. */
  predicate Distinct<T(==)>(s: seq<T>) {
    forall a, b :: 0 <= a < |s| && 0 <= b < |s| && a != b ==> s[a] != s[b]
  }

  /** Joining two duplicate-free sequences with no common element gives a duplicate-free sequence. */
  lemma DistinctConcat<T>(a: seq<T>, b: seq<T>)
    requires Distinct(a) && Distinct(b) && forall x :: x in a ==> x !in b
    ensures Distinct(a + b)
  {
    var s := a + b;
    forall x, y | 0 <= x < |s| && 0 <= y < |s| && x != y ensures s[x] != s[y] {
      if x < |a| && y >= |a| {
        assert s[x] in a && s[y] == b[y - |a|];
      } else if y < |a| && x >= |a| {
        assert s[y] in a && s[x] == b[x - |a|];
      } else if x >= |a| {
        assert s[x] == b[x - |a|] && s[y] == b[y - |a|];
      }
    }
  }

  /** The number of indices in `idx` whose entry in the map `m` is set. */
  function Marked(m: seq<bool>, idx: seq<nat>): (n: nat)
    ensures n <= |idx|
  {
    if idx == [] then 0
    else (if idx[0] < |m| && m[idx[0]] then 1 else 0) + Marked(m, idx[1..])
  }

  /** Setting one entry of the map adds one to the count of every duplicate-free index list
      that mentions it, and nothing to the others. */
  lemma {:induction false} MarkedSet(m: seq<bool>, b: nat, idx: seq<nat>)
    requires b < |m| && !m[b] && Distinct(idx)
    ensures Marked(m[b := true], idx) == Marked(m, idx) + (if b in idx then 1 else 0)
  {
    if idx != [] {
      assert Distinct(idx[1..]) by {
        forall x, y | 0 <= x < |idx[1..]| && 0 <= y < |idx[1..]| && x != y
          ensures idx[1..][x] != idx[1..][y]
        {
          assert idx[1..][x] == idx[x + 1] && idx[1..][y] == idx[y + 1];
        }
      }
      MarkedSet(m, b, idx[1..]);
      if idx[0] == b {
        assert b !in idx[1..] by {
          forall x | 0 <= x < |idx[1..]| ensures idx[1..][x] != b {
            assert idx[1..][x] == idx[x + 1];
          }
        }
      }
      assert b in idx <==> idx[0] == b || b in idx[1..];
    }
  }

  /** Entries that agree on every listed index give the same count. */
  lemma {:induction false} MarkedSame(m: seq<bool>, m': seq<bool>, idx: seq<nat>)
    requires |m| == |m'|
    requires forall k :: k in idx && k < |m| ==> m[k] == m'[k]
    ensures Marked(m, idx) == Marked(m', idx)
  {
    if idx != [] {
      MarkedSame(m, m', idx[1..]);
    }
  }
}
