/** Parent chains over a finite set of keys: rooted, broken, or cyclic. */
module Chains {
  import opened Text

  datatype Key = Key(provider: string, slug: string)

  datatype Parent = Root | BadRef | Missing | Up(key: Key)

  type Parents = map<Key, Parent>

  ghost predicate Closed(ps: Parents) {
    forall k | k in ps :: ps[k].Up? ==> ps[k].key in ps
  }

  /** The chain of `k` ends in a root after exactly `n` steps. */
  ghost predicate Grounded(ps: Parents, k: Key, n: nat)
    decreases n
  {
    k in ps && if n == 0 then ps[k] == Root else ps[k].Up? && Grounded(ps, ps[k].key, n - 1)
  }

  ghost predicate HasRoot(ps: Parents, k: Key) {
    exists n: nat :: Grounded(ps, k, n)
  }

  lemma {:induction false} DepthIsUnique(ps: Parents, k: Key, n: nat, m: nat)
    requires Grounded(ps, k, n) && Grounded(ps, k, m)
    ensures n == m
    decreases n
  {
    if n > 0 && m > 0 {
      DepthIsUnique(ps, ps[k].key, n - 1, m - 1);
    }
  }

  ghost function Depth(ps: Parents, k: Key): (n: nat)
    requires HasRoot(ps, k)
    ensures Grounded(ps, k, n)
  {
    var n: nat :| Grounded(ps, k, n);
    n
  }

  lemma DepthOfRoot(ps: Parents, k: Key)
    requires k in ps && ps[k] == Root
    ensures HasRoot(ps, k) && Depth(ps, k) == 0
  {
    assert Grounded(ps, k, 0);
    DepthIsUnique(ps, k, 0, Depth(ps, k));
  }

  lemma DepthOfChild(ps: Parents, k: Key)
    requires k in ps && ps[k].Up?
    ensures HasRoot(ps, k) <==> HasRoot(ps, ps[k].key)
    ensures HasRoot(ps, k) ==> Depth(ps, k) == Depth(ps, ps[k].key) + 1
  {
    var p := ps[k].key;
    if HasRoot(ps, k) {
      var n := Depth(ps, k);
      assert n > 0 && Grounded(ps, p, n - 1);
      DepthIsUnique(ps, p, n - 1, Depth(ps, p));
    }
    if HasRoot(ps, p) {
      assert Grounded(ps, k, Depth(ps, p) + 1);
    }
  }

  /** The `j`-th ancestor, while the chain goes on. */
  ghost function Walk(ps: Parents, k: Key, j: nat): Option<Key>
    decreases j
  {
    if j == 0 then Some(k)
    else if k in ps && ps[k].Up? then Walk(ps, ps[k].key, j - 1)
    else None
  }

  /** `target` lies on the chain of `k`, `k` included. */
  ghost predicate Meets(ps: Parents, k: Key, target: Key) {
    exists j: nat :: Walk(ps, k, j) == Some(target)
  }

  ghost predicate EndsBadly(ps: Parents, k: Key) {
    exists j: nat :: BadAt(ps, Walk(ps, k, j))
  }

  ghost predicate BadAt(ps: Parents, a: Option<Key>) {
    a.Some? && a.value in ps && (ps[a.value] == BadRef || ps[a.value] == Missing)
  }

  ghost predicate Cyclic(ps: Parents, k: Key) {
    exists i: nat, j: nat :: i < j && Walk(ps, k, i).Some? && Walk(ps, k, i) == Walk(ps, k, j)
  }

  lemma MeetsStep(ps: Parents, k: Key, target: Key)
    requires k in ps
    ensures Meets(ps, k, target) <==> k == target || (ps[k].Up? && Meets(ps, ps[k].key, target))
  {
    assert Walk(ps, k, 0) == Some(k);
    if Meets(ps, k, target) && k != target {
      var j: nat :| Walk(ps, k, j) == Some(target);
      assert Walk(ps, ps[k].key, j - 1) == Some(target);
    }
    if ps[k].Up? && Meets(ps, ps[k].key, target) {
      var j: nat :| Walk(ps, ps[k].key, j) == Some(target);
      assert Walk(ps, k, j + 1) == Some(target);
    }
  }

  lemma {:induction false} WalkStep(ps: Parents, k: Key, j: nat)
    ensures Walk(ps, k, j + 1) == match Walk(ps, k, j)
                                  case None => None
                                  case Some(a) => if a in ps && ps[a].Up? then Some(ps[a].key) else None
    decreases j
  {
    if j == 0 {
      assert k in ps && ps[k].Up? ==> Walk(ps, ps[k].key, 0) == Some(ps[k].key);
    } else if k in ps && ps[k].Up? {
      WalkStep(ps, ps[k].key, j - 1);
    }
  }

  lemma {:induction false} WalkStays(ps: Parents, k: Key, j: nat)
    requires Closed(ps) && k in ps
    ensures Walk(ps, k, j).Some? ==> Walk(ps, k, j).value in ps
    decreases j
  {
    if j > 0 && ps[k].Up? {
      WalkStays(ps, ps[k].key, j - 1);
    }
  }

  lemma {:induction false} GroundedWalk(ps: Parents, k: Key, n: nat, j: nat)
    requires Grounded(ps, k, n)
    ensures j <= n ==> Walk(ps, k, j).Some? && Grounded(ps, Walk(ps, k, j).value, n - j)
    ensures j > n ==> Walk(ps, k, j) == None
    decreases j
  {
    if j > 0 && n > 0 {
      GroundedWalk(ps, ps[k].key, n - 1, j - 1);
    }
  }

  lemma {:induction false} GroundedFromWalk(ps: Parents, k: Key, n: nat)
    requires Walk(ps, k, n).Some? && Walk(ps, k, n).value in ps && ps[Walk(ps, k, n).value] == Root
    ensures Grounded(ps, k, n)
    decreases n
  {
    if n > 0 {
      GroundedFromWalk(ps, ps[k].key, n - 1);
    }
  }

  /** A rooted entry is not one of its own proper ancestors. */
  lemma RootedNeverMeetsItself(ps: Parents, k: Key)
    requires HasRoot(ps, k) && k in ps && ps[k].Up?
    ensures !Meets(ps, ps[k].key, k)
  {
    if Meets(ps, ps[k].key, k) {
      var j: nat :| Walk(ps, ps[k].key, j) == Some(k);
      var n := Depth(ps, k);
      GroundedWalk(ps, k, n, j + 1);
      DepthIsUnique(ps, k, n, n - (j + 1));
    }
  }

  lemma RootedIsNotBad(ps: Parents, k: Key)
    requires HasRoot(ps, k)
    ensures !EndsBadly(ps, k)
  {
    var n := Depth(ps, k);
    forall j: nat ensures !BadAt(ps, Walk(ps, k, j)) {
      GroundedWalk(ps, k, n, j);
    }
  }

  lemma RootedIsNotCyclic(ps: Parents, k: Key)
    requires HasRoot(ps, k)
    ensures !Cyclic(ps, k)
  {
    var n := Depth(ps, k);
    if i: nat, j: nat :| i < j && Walk(ps, k, i).Some? && Walk(ps, k, i) == Walk(ps, k, j) {
      GroundedWalk(ps, k, n, i);
      GroundedWalk(ps, k, n, j);
      DepthIsUnique(ps, Walk(ps, k, i).value, n - i, n - j);
    }
  }

  /** A chain is rooted exactly when it is neither malformed, nor dangling, nor cyclic. */
  lemma {:induction false} RootedIff(ps: Parents, k: Key)
    requires Closed(ps) && k in ps
    ensures HasRoot(ps, k) <==> !EndsBadly(ps, k) && !Cyclic(ps, k)
  {
    if HasRoot(ps, k) {
      RootedIsNotBad(ps, k);
      RootedIsNotCyclic(ps, k);
    } else if !EndsBadly(ps, k) && !Cyclic(ps, k) {
      var seen := EndlessWalk(ps, k, |ps.Keys| + 1);
      SubsetCard(seen, ps.Keys);
    }
  }

  lemma SubsetCard<T>(a: set<T>, b: set<T>)
    requires a <= b
    ensures |a| <= |b|
  {
    assert b == a + (b - a);
  }

  ghost predicate VisitedBefore(ps: Parents, k: Key, n: nat, x: Key) {
    exists j: nat | j < n :: Walk(ps, k, j) == Some(x)
  }

  /** An unrooted chain that neither ends badly nor repeats would visit arbitrarily many entries. */
  lemma {:induction false} EndlessWalk(ps: Parents, k: Key, n: nat) returns (seen: set<Key>)
    requires Closed(ps) && k in ps && !HasRoot(ps, k) && !EndsBadly(ps, k) && !Cyclic(ps, k)
    ensures Walk(ps, k, n).Some? && |seen| == n && seen <= ps.Keys
    ensures forall x | x in seen :: VisitedBefore(ps, k, n, x)
    decreases n
  {
    if n == 0 {
      seen := {};
    } else {
      var before := EndlessWalk(ps, k, n - 1);
      WalkStays(ps, k, n - 1);
      var last := Walk(ps, k, n - 1).value;
      seen := before + {last};
      assert last !in before by { NotVisited(ps, k, n - 1, before); }
      forall x | x in seen ensures VisitedBefore(ps, k, n, x) {
        if x in before {
          assert VisitedBefore(ps, k, n - 1, x);
        } else {
          assert Walk(ps, k, n - 1) == Some(x);
        }
      }
      WalkStep(ps, k, n - 1);
      assert !BadAt(ps, Walk(ps, k, n - 1));
      assert ps[last] != Root by {
        if ps[last] == Root { GroundedFromWalk(ps, k, n - 1); }
      }
    }
  }

  lemma NotVisited(ps: Parents, k: Key, n: nat, before: set<Key>)
    requires !Cyclic(ps, k) && Walk(ps, k, n).Some?
    requires forall x | x in before :: VisitedBefore(ps, k, n, x)
    ensures Walk(ps, k, n).value !in before
  {
    forall j: nat | j < n ensures Walk(ps, k, j) != Walk(ps, k, n) {
    }
  }
}
