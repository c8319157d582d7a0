/** What a complete run of the deletions leaves of a tree. */
module Purge {
  import opened FileSystem

  /** The tree without the subtrees under `tops`. */
  ghost function Cut(t: Tree, tops: set<Loc>): Tree {
    map l | l in t && !(exists p | p in tops :: p <= l) :: t[l]
  }

  /** The listed directories under which nothing stays but listed directories. */
  ghost function Prunable(t: Tree, dirs: set<Loc>): set<Loc> {
    set d | d in dirs && d in t && forall l | l in t && d < l :: l in dirs
  }

  /** The subtrees go, then the single nodes, then every listed directory that this leaves empty. */
  ghost function Purged(t: Tree, tops: set<Loc>, singles: set<Loc>, dirs: set<Loc>): Tree {
    var left := Cut(t, tops) - singles;
    left - Prunable(left, dirs)
  }

  /** `after` is `before` without some nodes. */
  ghost predicate Shrunk(before: Tree, after: Tree) {
    after.Keys <= before.Keys && forall l | l in after :: after[l] == before[l]
  }

  /** Every node lost lies under a top, or is one of the single nodes. */
  ghost predicate LostOnly(before: Tree, after: Tree, tops: set<Loc>, singles: set<Loc>) {
    forall l | l in before && l !in after :: l in singles || exists p | p in tops :: p <= l
  }

  lemma LengthBound(ls: set<Loc>) returns (n: nat)
    ensures forall l | l in ls :: |l| <= n
  {
    if ls == {} {
      n := 0;
    } else {
      var l :| l in ls;
      var m := LengthBound(ls - {l});
      n := if m < |l| then |l| else m;
    }
  }

  /** A prunable directory that still has something below it contradicts the fixpoint: follow it down. */
  lemma FollowDown(t: Tree, dirs: set<Loc>, gone: set<Loc>, d: Loc, bound: nat)
    requires forall l | l in t :: |l| <= bound
    requires d in Prunable(t, dirs)
    requires forall e | e in dirs && e in t && e !in gone :: HasChild(t - gone, e)
    ensures d in gone
    decreases bound - |d|
  {
    if d !in gone {
      var l :| l in t - gone && d < l;
      forall m | m in t && l < m ensures m in dirs { assert d < m; }
      FollowDown(t, dirs, gone, l, bound);
    }
  }

  /**
   Removing listed directories until each is gone or still has something below it, and never one that
   still has, removes exactly the prunable ones.
   */
  lemma FixpointIsPrunable(t: Tree, dirs: set<Loc>, gone: set<Loc>)
    requires gone <= dirs && gone <= t.Keys
    requires forall r, l | r in gone && l in t && r < l :: l in gone
    requires forall e | e in dirs && e in t && e !in gone :: HasChild(t - gone, e)
    ensures gone == Prunable(t, dirs)
  {
    var bound := LengthBound(t.Keys);
    forall d | d in Prunable(t, dirs) ensures d in gone {
      FollowDown(t, dirs, gone, d, bound);
    }
  }
}
