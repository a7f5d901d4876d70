/** Hops in a directed graph: what can be reached, in how many steps, and how a
    search from both ends meets in the middle. */
module Paths {
  /** For each node, the nodes one arc away. */
  type Links = seq<set<nat>>

  predicate Leads(links: Links, u: nat, v: nat) {
    u < |links| && v in links[u]
  }

  /** `v` is at most `k` arcs from `s`, entering no node of `avoid`. */
  ghost predicate Within(links: Links, avoid: set<nat>, s: nat, k: nat, v: nat)
    decreases k
  {
    if k == 0 then v == s
    else
      || Within(links, avoid, s, k - 1, v)
      || (v !in avoid && exists u :: Within(links, avoid, s, k - 1, u) && Leads(links, u, v))
  }

  /** `k` is the number of arcs on a shortest way from `s` to `v`. */
  ghost predicate First(links: Links, avoid: set<nat>, s: nat, k: nat, v: nat) {
    Within(links, avoid, s, k, v) && (k == 0 || !Within(links, avoid, s, k - 1, v))
  }

  lemma {:induction false} WithinLonger(links: Links, avoid: set<nat>, s: nat, k: nat, m: nat, v: nat)
    requires Within(links, avoid, s, k, v) && k <= m
    ensures Within(links, avoid, s, m, v)
    decreases m
  {
    if k < m {
      WithinLonger(links, avoid, s, k, m - 1, v);
    }
  }

  /** Once a step reaches nothing new, no number of further steps does. */
  lemma {:induction false} NothingNewStaysSo(links: Links, avoid: set<nat>, s: nat, k: nat, m: nat, v: nat)
    requires forall u :: !First(links, avoid, s, k, u)
    requires k > 0 && k <= m && Within(links, avoid, s, m, v)
    ensures Within(links, avoid, s, k - 1, v)
    decreases m
  {
    if m > k {
      if Within(links, avoid, s, m - 1, v) {
        NothingNewStaysSo(links, avoid, s, k, m - 1, v);
      } else {
        var u :| Within(links, avoid, s, m - 1, u) && Leads(links, u, v);
        NothingNewStaysSo(links, avoid, s, k, m - 1, u);
        assert Within(links, avoid, s, k, v);
        assert !First(links, avoid, s, k, v);
      }
    } else {
      assert !First(links, avoid, s, k, v);
    }
  }

  // ---- Walks ----------------------------------------------------------------

  /** A walk along arcs, entering no node of `avoid`. */
  predicate IsWalk(links: Links, avoid: set<nat>, walk: seq<nat>) {
    && walk != []
    && forall i | 0 < i < |walk| :: Leads(links, walk[i - 1], walk[i]) && walk[i] !in avoid
  }

  lemma {:induction false} WithinHasWalk(links: Links, avoid: set<nat>, s: nat, k: nat, v: nat) returns (walk: seq<nat>)
    requires Within(links, avoid, s, k, v)
    ensures IsWalk(links, avoid, walk) && walk[0] == s && walk[|walk| - 1] == v && |walk| <= k + 1
    decreases k
  {
    if k == 0 {
      walk := [s];
    } else if Within(links, avoid, s, k - 1, v) {
      walk := WithinHasWalk(links, avoid, s, k - 1, v);
    } else {
      var u :| Within(links, avoid, s, k - 1, u) && Leads(links, u, v);
      walk := WithinHasWalk(links, avoid, s, k - 1, u);
      walk := walk + [v];
    }
  }

  lemma {:induction false} WalkIsWithin(links: Links, avoid: set<nat>, walk: seq<nat>)
    requires IsWalk(links, avoid, walk)
    ensures Within(links, avoid, walk[0], |walk| - 1, walk[|walk| - 1])
    decreases |walk|
  {
    if |walk| > 1 {
      var before := walk[..|walk| - 1];
      WalkIsWithin(links, avoid, before);
      assert Leads(links, before[|before| - 1], walk[|walk| - 1]);
    }
  }

  /** Each link of one graph is a link of the other the other way round. */
  ghost predicate Transposed(links: Links, back: Links) {
    forall u: nat, v: nat :: Leads(links, u, v) <==> Leads(back, v, u)
  }

  function Reversed(walk: seq<nat>): seq<nat> {
    seq(|walk|, i requires 0 <= i < |walk| => walk[|walk| - 1 - i])
  }

  lemma ReversedWalk(links: Links, back: Links, walk: seq<nat>)
    requires Transposed(links, back) && IsWalk(links, {}, walk)
    ensures IsWalk(back, {}, Reversed(walk))
  {
    var r := Reversed(walk);
    forall i | 0 < i < |r|
      ensures Leads(back, r[i - 1], r[i])
    {
      var j := |walk| - i;
      assert walk[j] == r[i - 1] && walk[j - 1] == r[i] && 0 < j < |walk|;
      assert Leads(links, walk[j - 1], walk[j]);
    }
  }

  /** A way of at most `a + b` arcs from `s` to `t` has a node within `a` of `s`
      forwards and within `b` of `t` backwards. */
  lemma SearchesMeet(links: Links, back: Links, s: nat, t: nat, a: nat, b: nat) returns (x: nat)
    requires Transposed(links, back) && Within(links, {}, s, a + b, t)
    ensures Within(links, {}, s, a, x) && Within(back, {}, t, b, x)
  {
    var walk := WithinHasWalk(links, {}, s, a + b, t);
    var m := if a < |walk| then a else |walk| - 1;
    x := walk[m];
    var head, tail := walk[..m + 1], walk[m..];
    WalkIsWithin(links, {}, head);
    WithinLonger(links, {}, s, m, a, x);
    assert IsWalk(links, {}, tail);
    ReversedWalk(links, back, tail);
    WalkIsWithin(back, {}, Reversed(tail));
    WithinLonger(back, {}, t, |tail| - 1, b, x);
  }

  /** The other way round: two such halves join into one way. */
  lemma HalvesJoin(links: Links, back: Links, s: nat, t: nat, a: nat, b: nat, x: nat)
    requires Transposed(links, back)
    requires Within(links, {}, s, a, x) && Within(back, {}, t, b, x)
    ensures Within(links, {}, s, a + b, t)
  {
    var head := WithinHasWalk(links, {}, s, a, x);
    var tail := WithinHasWalk(back, {}, t, b, x);
    assert Transposed(back, links);
    ReversedWalk(back, links, tail);
    var walk := head + Reversed(tail)[1..];
    forall i | 0 < i < |walk|
      ensures Leads(links, walk[i - 1], walk[i])
    {
      if i >= |head| {
        var j := i - |head| + 1;
        assert walk[i] == Reversed(tail)[j] && walk[i - 1] == Reversed(tail)[j - 1];
      }
    }
    WalkIsWithin(links, {}, walk);
    WithinLonger(links, {}, s, |walk| - 1, a + b, t);
  }
}
