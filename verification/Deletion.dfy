/** The loops of `Adapter.Delete`: collect, prove ownership, delete, prune. */
module Deletion {
  import opened Text
  import opened Paths
  import opened Tags
  import opened Records
  import opened Lists
  import opened FileSystem
  import opened Planner
  import opened Purge

  // ----- Collecting candidates -----

  /** The inner search: the candidate is one of the payloads. */
  method IsPayload(base: string, p: string, payloads: seq<string>) returns (b: bool)
    ensures b <==> p in NormalAll(base, payloads)
  {
    ghost var all := NormalAll(base, payloads);
    b := false;
    var i := 0;
    while i < |payloads|
      invariant 0 <= i <= |payloads| && !b
      invariant forall j | 0 <= j < i :: all[j] != p
    {
      assert all[i] == Normal(base, payloads[i]);
      if Normal(base, payloads[i]) == p { return true; }
      i := i + 1;
    }
  }

  /** The climb from a candidate towards the base. */
  method Climb(base: string, p: string) returns (dirs: set<string>)
    ensures dirs == Ancestors(base, p)
  {
    DirIsClean(p);
    var d := Dir(p);
    dirs := {};
    while !(d == base || d == "/" || d == ".")
      invariant IsClean(d) && dirs + Chain(base, d) == Ancestors(base, p)
      decreases |Parse(d).names|
    {
      DirShrinks(d);
      dirs := dirs + {d};
      d := Dir(d);
    }
  }

  lemma AncestorsAppend(base: string, ps: seq<string>, p: string)
    ensures AllAncestors(base, ps + [p]) == AllAncestors(base, ps) + Ancestors(base, p)
  {}

  /** The candidates that stem from the payload list. */
  function Known(files: seq<string>, payloads: seq<string>): set<string> {
    set p | p in files && p in payloads
  }

  lemma KnownAppend(files: seq<string>, payloads: seq<string>, p: string)
    ensures Known(files + [p], payloads) == Known(files, payloads) + if p in payloads then {p} else {}
  {}

  lemma TakeNext(all: seq<string>, i: nat)
    requires i < |all|
    ensures all[..i + 1] == all[..i] + [all[i]]
  {}

  lemma AllSafeAppend(base: string, ps: seq<string>, p: string)
    requires AllSafe(base, ps) && Safe(base, p)
    ensures AllSafe(base, ps + [p])
  {}

  method Collect(base: string, candidates: seq<string>, payloads: seq<string>)
    returns (ok: bool, files: seq<string>, payloadSet: set<string>, dirs: set<string>)
    ensures ok <==> AllSafe(base, NormalAll(base, candidates))
    ensures ok ==> files == NormalAll(base, candidates) && dirs == AllAncestors(base, files)
    ensures ok ==> payloadSet == Known(files, NormalAll(base, payloads))
  {
    ghost var all, own := NormalAll(base, candidates), NormalAll(base, payloads);
    ok, files, payloadSet, dirs := true, [], {}, {};
    for i := 0 to |candidates|
      invariant ok && files == all[..i] && dirs == AllAncestors(base, files) && payloadSet == Known(files, own)
      invariant AllSafe(base, files)
    {
      var p := Normal(base, candidates[i]);
      TakeNext(all, i);
      if !Safe(base, p) {
        ok := false;
        return;
      }
      var known := IsPayload(base, p, payloads);
      KnownAppend(files, own, p);
      if known { payloadSet := payloadSet + {p}; }
      var up := Climb(base, p);
      AncestorsAppend(base, files, p);
      AllSafeAppend(base, files, p);
      dirs := dirs + up;
      files := files + [p];
    }
    assert all[..|candidates|] == all;
  }

  // ----- Ownership of the tag-stripped root -----

  lemma SubsetSize<T>(a: set<T>, b: set<T>)
    requires a <= b
    ensures |a| <= |b|
  {
    if a != {} {
      var x :| x in a;
      SubsetSize(a - {x}, b - {x});
    }
  }

  /** The early-stopping walk: owned exactly when two distinct expected names occur in the full walk. */
  method WalkFinds(files: set<Loc>, expected: set<string>) returns (owned: bool)
    ensures owned <==> |Found(files, expected)| >= 2
  {
    var rest, found: set<string> := files, {};
    owned := false;
    while rest != {}
      invariant rest <= files && !owned
      invariant found == Found(files - rest, expected) && |found| < 2
      decreases |rest|
    {
      var l :| l in rest;
      ghost var seen := files - rest;
      rest := rest - {l};
      assert files - rest == seen + {l};
      if LastName(l) in expected {
        found := found + {LastName(l)};
        if |found| >= 2 {
          SubsetSize(found, Found(files, expected));
          return true;
        }
      }
    }
    assert files - rest == files;
  }

  method ProveOwned(disk: Disk, dl: Record) returns (owned: bool)
    ensures owned == TrimmedOwned(dl, disk.tree, disk.loc)
  {
    owned := false;
    var stripped := StripLeadingTags(dl.name);
    if dl.name != "" && stripped != "" && stripped != dl.name {
      var cand := Join(BaseOf(dl), stripped);
      if Safe(BaseOf(dl), cand) {
        if disk.Exists(cand + ARIA2) {
          owned := true;
        } else if |dl.files| > 0 {
          var expected := Expected(dl);
          if |expected| >= 2 {
            owned := WalkFinds(disk.FilesUnder(cand), expected);
          } else {
            SubsetSize(Found(disk.FilesUnder(cand), expected), expected);
          }
        } else {
          assert Expected(dl) == {};
          SubsetSize(Found(disk.FilesUnder(cand), Expected(dl)), Expected(dl));
        }
      }
    }
  }

  // ----- The root and the sidecars -----

  method InferRoot(base: string, files: seq<string>) returns (root: string)
    ensures IsRoot(base, files, root)
  {
    root := base;
    var segs: set<string> := {};
    for i := 0 to |files|
      invariant segs == Heads(base, files[..i])
    {
      assert files[..i + 1] == files[..i] + [files[i]];
      var head := HeadOf(base, files[i]);
      if head.Some? { segs := segs + {head.value}; }
    }
    assert files[..|files|] == files;
    if |segs| == 1 {
      var s :| s in segs;
      root := Join(base, s);
    }
  }

  method AddSidecars(sidecars: set<string>, root: string, torrent: bool) returns (more: set<string>)
    ensures more == sidecars + SidecarsOf(root, torrent)
  {
    more := sidecars + {root + ARIA2};
    if torrent { more := more + {root + TORRENT}; }
  }

  /** The three rules, and the two root branches that add nothing to them. */
  method GatherSidecars(dl: Record, ghost plan: Plan, payloadSet: set<string>, owned: bool, root: string)
    returns (sidecars: set<string>)
    requires payloadSet == Elements(NormalAll(BaseOf(dl), plan.payloads)) && owned == plan.owned
    ensures sidecars == Sidecars(dl, plan)
  {
    var base, torrent := BaseOf(dl), IsTorrentSource(dl.source);
    sidecars := set p | p in payloadSet :: p + ARIA2;
    if dl.name != "" {
      var exact := Join(base, dl.name);
      sidecars := AddSidecars(sidecars, exact, torrent);
      if root != base && root == exact {
        sidecars := AddSidecars(sidecars, root, torrent);
      }
    }
    if owned {
      var stripped := StripLeadingTags(dl.name);
      var t := Join(base, stripped);
      sidecars := AddSidecars(sidecars, t, torrent);
      if root != base && root == t {
        sidecars := AddSidecars(sidecars, root, torrent);
      }
    }
  }

  ghost predicate AllClean(paths: set<string>) {
    forall s {:trigger IsClean(s)} | s in paths :: IsClean(s)
  }

  ghost predicate SetSafe(base: string, paths: set<string>) {
    forall s {:trigger Safe(base, s)} | s in paths :: Safe(base, s)
  }

  lemma ElementsAppend(list: seq<string>, s: string)
    ensures Elements(list + [s]) == Elements(list) + {s}
  {}

  /** Clean and check a set of paths, in whatever order the set yields them. */
  method CheckAll(base: string, paths: set<string>) returns (ok: bool, list: seq<string>)
    requires AllClean(paths)
    ensures ok <==> SetSafe(base, paths)
    ensures ok ==> Elements(list) == paths && Distinct(list)
  {
    var rest := paths;
    ok, list := true, [];
    while rest != {}
      invariant rest <= paths && ok && Elements(list) == paths - rest && SetSafe(base, paths - rest) && Distinct(list)
      decreases |rest|
    {
      var s :| s in rest;
      var c := Clean(s);
      assert IsClean(s) && c == s;
      ElementsAppend(list, c);
      assert paths - (rest - {s}) == (paths - rest) + {s};
      if !Safe(base, c) {
        ok := false;
        return;
      }
      assert c !in Elements(list);
      DistinctAppend(list, c);
      list := list + [c];
      rest := rest - {s};
    }
    assert paths - rest == paths;
  }

  /** The distinct elements of a list, in order of first occurrence. */
  function Firsts(list: seq<string>): (r: seq<string>)
    ensures forall s :: s in r <==> s in list
    ensures forall i, j | 0 <= i < j < |r| :: r[i] != r[j]
  {
    if list == [] then []
    else
      var r, last := Firsts(list[..|list| - 1]), list[|list| - 1];
      assert list == list[..|list| - 1] + [last];
      if last in r then r else r + [last]
  }

  /** What comes first in the result came first in the list. */
  lemma {:induction false} FirstsInOrder(list: seq<string>, i: nat, j: nat)
    requires i < j < |Firsts(list)|
    ensures exists k | 0 <= k < |list| :: list[k] == Firsts(list)[i] && Firsts(list)[j] !in list[..k + 1]
    decreases |list|
  {
    var shorter, r := list[..|list| - 1], Firsts(list);
    assert list == shorter + [list[|list| - 1]];
    if j < |Firsts(shorter)| {
      FirstsInOrder(shorter, i, j);
      var k :| 0 <= k < |shorter| && shorter[k] == r[i] && r[j] !in shorter[..k + 1];
      assert list[..k + 1] == shorter[..k + 1];
    } else {
      assert r[i] in shorter;
      var k :| 0 <= k < |shorter| && shorter[k] == r[i];
      assert list[..k + 1] == shorter[..k + 1];
    }
  }

  /** `dedup`. */
  method Dedup(list: seq<string>) returns (out: seq<string>)
    ensures out == Firsts(list)
  {
    if |list| <= 1 {
      assert |list| == 1 ==> list[..0] == [] && Firsts(list[..0]) == [];
      return list;
    }
    var seen: set<string> := {};
    out := [];
    for i := 0 to |list|
      invariant out == Firsts(list[..i]) && forall s :: s in seen <==> s in out
    {
      assert list[..i + 1][..i] == list[..i];
      if list[i] !in seen {
        seen := seen + {list[i]};
        out := out + [list[i]];
      }
    }
    assert list[..|list|] == list;
  }

  // ----- The deletions -----

  function Elements(list: seq<string>): set<string> {
    set s | s in list
  }

  function Locs(loc: Resolver, paths: seq<string>): set<Loc> {
    LocsOf(loc, Elements(paths))
  }

  function LocsOf(loc: Resolver, paths: set<string>): set<Loc> {
    set p | p in paths :: loc(p)
  }

  function AllCalls(paths: seq<string>): (r: seq<Call>)
    ensures |r| == |paths| && forall i | 0 <= i < |paths| :: r[i] == RemoveAllCall(paths[i])
  {
    seq(|paths|, i requires 0 <= i < |paths| => RemoveAllCall(paths[i]))
  }

  lemma LocsNext(loc: Resolver, paths: seq<string>, i: nat)
    requires i < |paths|
    ensures Locs(loc, paths[..i + 1]) == Locs(loc, paths[..i]) + {loc(paths[i])}
    ensures paths[..i + 1] == paths[..i] + [paths[i]]
  {}

  lemma CutNext(t: Tree, tops: set<Loc>, at: Loc, fault: Fault)
    requires fault.Works?
    ensures AfterRemoveAll(Cut(t, tops), at, fault) == Cut(t, tops + {at})
  {}

  /** However a call on one of the tops ends, only nodes under the tops are lost. */
  lemma CutLoses(t: Tree, done: set<Loc>, tops: set<Loc>, at: Loc, fault: Fault)
    requires done <= tops && at in tops
    ensures Shrunk(t, AfterRemoveAll(Cut(t, done), at, fault)) && LostOnly(t, AfterRemoveAll(Cut(t, done), at, fault), tops, {})
  {}

  lemma CutIsShrunk(t: Tree, tops: set<Loc>)
    ensures Shrunk(t, Cut(t, tops)) && LostOnly(t, Cut(t, tops), tops, {})
  {}

  lemma LocIn(loc: Resolver, paths: seq<string>, i: nat)
    requires i < |paths|
    ensures loc(paths[i]) in Locs(loc, paths) && Locs(loc, paths[..i]) <= Locs(loc, paths)
  {}

  lemma AllCallsNext(calls: seq<Call>, paths: seq<string>, i: nat)
    requires i < |paths|
    ensures calls + AllCalls(paths[..i]) + [RemoveAllCall(paths[i])] == calls + AllCalls(paths[..i + 1])
  {}

  /** No call from the `k`-th on broke, but for the last when the stage failed. */
  ghost predicate Unbroken(faults: nat -> Fault, k: nat, end: nat, ok: bool) {
    forall i: nat | k <= i < end && (ok || i < end - 1) :: faults(i).Works?
  }

  /** The state a stage starts from or leaves: the tree, and the calls made so far. */
  datatype Moment = Moment(tree: Tree, calls: seq<Call>)

  /** The targets' stage: a prefix of the list is called for, all of it on success, and it stops at a call that breaks. */
  ghost predicate TargetStage(loc: Resolver, faults: nat -> Fault, a: Moment, b: Moment, files: seq<string>, n: nat, ok: bool) {
    && n <= |files| && b.calls == a.calls + AllCalls(files[..n]) && (ok ==> n == |files|)
    && Unbroken(faults, |a.calls|, |b.calls|, ok) && (!ok ==> n > 0 && faults(|b.calls| - 1).Breaks?)
    && Shrunk(a.tree, b.tree) && LostOnly(a.tree, b.tree, Locs(loc, files), {})
    && (ok ==> b.tree == Cut(a.tree, Locs(loc, files)))
    && (WellFormed(a.tree) ==> WellFormed(b.tree))
  }

  /** The stage half way: the first `i` are through. */
  ghost predicate TargetsThrough(loc: Resolver, faults: nat -> Fault, a: Moment, b: Moment, files: seq<string>, i: nat) {
    && i <= |files| && b.calls == a.calls + AllCalls(files[..i]) && Unbroken(faults, |a.calls|, |b.calls|, true)
    && b.tree == Cut(a.tree, Locs(loc, files[..i])) && (WellFormed(a.tree) ==> WellFormed(b.tree))
  }

  lemma NextTarget(loc: Resolver, faults: nat -> Fault, a: Moment, b: Moment, c: Moment, files: seq<string>, i: nat)
    requires TargetsThrough(loc, faults, a, b, files, i) && i < |files|
    requires c == Moment(AfterRemoveAll(b.tree, loc(files[i]), faults(|b.calls|)), b.calls + [RemoveAllCall(files[i])])
    ensures faults(|b.calls|).Works? ==> TargetsThrough(loc, faults, a, c, files, i + 1)
    ensures faults(|b.calls|).Breaks? ==> TargetStage(loc, faults, a, c, files, i + 1, false)
  {
    var fault, at := faults(|b.calls|), loc(files[i]);
    if WellFormed(a.tree) { RemoveAllKeepsWellFormed(b.tree, at, fault); }
    AllCallsNext(a.calls, files, i);
    if fault.Works? {
      CutNext(a.tree, Locs(loc, files[..i]), at, fault);
      LocsNext(loc, files, i);
    } else {
      TargetBroke(loc, a, b, c, files, i, fault);
    }
  }

  lemma TargetBroke(loc: Resolver, a: Moment, b: Moment, c: Moment, files: seq<string>, i: nat, fault: Fault)
    requires i < |files| && b.tree == Cut(a.tree, Locs(loc, files[..i])) && c.tree == AfterRemoveAll(b.tree, loc(files[i]), fault)
    ensures Shrunk(a.tree, c.tree) && LostOnly(a.tree, c.tree, Locs(loc, files), {})
  {
    LocIn(loc, files, i);
    CutLoses(a.tree, Locs(loc, files[..i]), Locs(loc, files), loc(files[i]), fault);
  }

  lemma AllTargetsThrough(loc: Resolver, faults: nat -> Fault, a: Moment, b: Moment, files: seq<string>)
    requires TargetsThrough(loc, faults, a, b, files, |files|)
    ensures TargetStage(loc, faults, a, b, files, |files|, true)
  {
    assert files[..|files|] == files;
    CutIsShrunk(a.tree, Locs(loc, files));
  }

  /** Delete payload files and directories. */
  method RemoveTargets(disk: Disk, files: seq<string>) returns (ok: bool, ghost n: nat)
    modifies disk
    ensures TargetStage(disk.loc, disk.faults, old(Moment(disk.tree, disk.calls)), Moment(disk.tree, disk.calls), files, n, ok)
  {
    ghost var a := Moment(disk.tree, disk.calls);
    ok, n := true, 0;
    assert TargetsThrough(disk.loc, disk.faults, a, a, files, 0);
    for i := 0 to |files|
      invariant n == i && TargetsThrough(disk.loc, disk.faults, a, Moment(disk.tree, disk.calls), files, i)
    {
      ghost var b := Moment(disk.tree, disk.calls);
      var r := disk.RemoveAll(files[i]);
      NextTarget(disk.loc, disk.faults, a, b, Moment(disk.tree, disk.calls), files, i);
      n := n + 1;
      if r != Done && r != NotExist {
        ok := false;
        return;
      }
    }
    AllTargetsThrough(disk.loc, disk.faults, a, Moment(disk.tree, disk.calls), files);
  }

  /** The calls from `k` on are `Remove` calls on the given paths. */
  ghost predicate RemovesIn(calls: seq<Call>, k: nat, paths: set<string>) {
    forall i | k <= i < |calls| :: calls[i].RemoveCall? && calls[i].path in paths
  }

  lemma RemovesInGrows(calls: seq<Call>, calls': seq<Call>, k: nat, paths: set<string>, more: set<string>)
    requires k <= |calls| && calls <= calls' && more <= paths
    requires RemovesIn(calls, k, paths) && RemovesIn(calls', |calls|, more)
    ensures RemovesIn(calls', k, paths)
  {
    assert forall i | k <= i < |calls| :: calls'[i] == calls[i];
  }

  lemma DropNext(t: Tree, singles: set<Loc>, at: Loc, fault: Fault)
    requires RemoveResult(t - singles, at, fault) in {Done, NotExist}
    ensures AfterRemove(t - singles, at, fault) == t - (singles + {at})
  {}

  lemma DropLoses(t: Tree, done: set<Loc>, singles: set<Loc>, at: Loc, fault: Fault)
    requires done <= singles && at in singles
    ensures Shrunk(t, AfterRemove(t - done, at, fault)) && LostOnly(t, AfterRemove(t - done, at, fault), {}, singles)
  {}

  function AllRemoves(paths: seq<string>): (r: seq<Call>)
    ensures |r| == |paths| && forall i | 0 <= i < |paths| :: r[i] == RemoveCall(paths[i])
  {
    seq(|paths|, i requires 0 <= i < |paths| => RemoveCall(paths[i]))
  }

  lemma AllRemovesNext(calls: seq<Call>, paths: seq<string>, i: nat)
    requires i < |paths|
    ensures calls + AllRemoves(paths[..i]) + [RemoveCall(paths[i])] == calls + AllRemoves(paths[..i + 1])
  {}

  lemma AllRemovesWithin(calls: seq<Call>, paths: seq<string>, n: nat)
    requires n <= |paths|
    ensures RemovesIn(calls + AllRemoves(paths[..n]), |calls|, Elements(paths))
  {
    var all := calls + AllRemoves(paths[..n]);
    forall i | |calls| <= i < |all| ensures all[i].RemoveCall? && all[i].path in Elements(paths) {
      assert all[i] == RemoveCall(paths[i - |calls|]);
    }
  }

  /** The place holds a directory with something in it, which `Remove` does not take. */
  predicate Occupied(t: Tree, at: Loc) {
    at in t && HasChild(t, at)
  }

  /**
   The sidecars' stage: a prefix of the list is called for, all of it on success. It stops at a call that breaks, or for
   a place that is a directory with something in it; a sidecar that is not there is passed over.
   */
  ghost predicate SidecarStage(loc: Resolver, faults: nat -> Fault, a: Moment, b: Moment, scs: seq<string>, n: nat, ok: bool) {
    && n <= |scs| && b.calls == a.calls + AllRemoves(scs[..n]) && (ok ==> n == |scs|)
    && Unbroken(faults, |a.calls|, |b.calls|, ok)
    && (!ok ==> n > 0 && (faults(|b.calls| - 1).Breaks? || Occupied(b.tree, loc(scs[n - 1]))))
    && Shrunk(a.tree, b.tree) && LostOnly(a.tree, b.tree, {}, Locs(loc, scs))
    && (ok ==> b.tree == a.tree - Locs(loc, scs))
    && (WellFormed(a.tree) ==> WellFormed(b.tree))
  }

  /** The stage half way. */
  ghost predicate SidecarsThrough(loc: Resolver, faults: nat -> Fault, a: Moment, b: Moment, scs: seq<string>, i: nat) {
    && i <= |scs| && b.calls == a.calls + AllRemoves(scs[..i]) && Unbroken(faults, |a.calls|, |b.calls|, true)
    && b.tree == a.tree - Locs(loc, scs[..i]) && (WellFormed(a.tree) ==> WellFormed(b.tree))
  }

  lemma NextSidecar(loc: Resolver, faults: nat -> Fault, a: Moment, b: Moment, c: Moment, scs: seq<string>, i: nat)
    requires SidecarsThrough(loc, faults, a, b, scs, i) && i < |scs|
    requires c == Moment(AfterRemove(b.tree, loc(scs[i]), faults(|b.calls|)), b.calls + [RemoveCall(scs[i])])
    ensures var r := RemoveResult(b.tree, loc(scs[i]), faults(|b.calls|));
            && (r in {Done, NotExist} ==> SidecarsThrough(loc, faults, a, c, scs, i + 1))
            && (r !in {Done, NotExist} ==> SidecarStage(loc, faults, a, c, scs, i + 1, false))
  {
    var fault, done, at := faults(|b.calls|), Locs(loc, scs[..i]), loc(scs[i]);
    LocIn(loc, scs, i);
    DropLoses(a.tree, done, Locs(loc, scs), at, fault);
    if WellFormed(a.tree) { RemoveKeepsWellFormed(b.tree, at, fault); }
    AllRemovesNext(a.calls, scs, i);
    if RemoveResult(b.tree, at, fault) in {Done, NotExist} {
      DropNext(a.tree, done, at, fault);
      LocsNext(loc, scs, i);
    }
  }

  lemma AllSidecarsThrough(loc: Resolver, faults: nat -> Fault, a: Moment, b: Moment, scs: seq<string>)
    requires SidecarsThrough(loc, faults, a, b, scs, |scs|)
    ensures SidecarStage(loc, faults, a, b, scs, |scs|, true)
  {
    assert scs[..|scs|] == scs;
  }

  /** Delete the sidecars. */
  method RemoveSidecars(disk: Disk, scs: seq<string>) returns (ok: bool, ghost n: nat)
    modifies disk
    ensures SidecarStage(disk.loc, disk.faults, old(Moment(disk.tree, disk.calls)), Moment(disk.tree, disk.calls), scs, n, ok)
  {
    ghost var a := Moment(disk.tree, disk.calls);
    ok, n := true, 0;
    assert SidecarsThrough(disk.loc, disk.faults, a, a, scs, 0);
    for i := 0 to |scs|
      invariant n == i && SidecarsThrough(disk.loc, disk.faults, a, Moment(disk.tree, disk.calls), scs, i)
    {
      ghost var b := Moment(disk.tree, disk.calls);
      var r := disk.Remove(scs[i]);
      NextSidecar(disk.loc, disk.faults, a, b, Moment(disk.tree, disk.calls), scs, i);
      n := n + 1;
      if r != Done && r != NotExist {
        ok := false;
        return;
      }
    }
    AllSidecarsThrough(disk.loc, disk.faults, a, Moment(disk.tree, disk.calls), scs);
  }

  // ----- Pruning, deepest first -----

  ghost predicate LongestFirst(list: seq<string>) {
    forall i, j | 0 <= i < j < |list| :: |list[i]| >= |list[j]|
  }

  lemma InsertKeepsOrder(sorted: seq<string>, k: nat, x: string)
    requires LongestFirst(sorted) && k <= |sorted|
    requires forall j | 0 <= j < k :: |sorted[j]| >= |x|
    requires k < |sorted| ==> |x| >= |sorted[k]|
    ensures LongestFirst(sorted[..k] + [x] + sorted[k..])
  {
    var s := sorted[..k] + [x] + sorted[k..];
    forall i, j | 0 <= i < j < |s| ensures |s[i]| >= |s[j]| {
      assert i < k ==> s[i] == sorted[i];
      assert j > k ==> s[j] == sorted[j - 1];
      assert i > k ==> s[i] == sorted[i - 1];
      assert j < k ==> s[j] == sorted[j];
    }
  }

  /** A sort by descending length; among paths of one length any order will do. */
  method SortLongestFirst(list: seq<string>) returns (sorted: seq<string>)
    ensures LongestFirst(sorted) && multiset(sorted) == multiset(list)
  {
    sorted := [];
    for i := 0 to |list|
      invariant LongestFirst(sorted) && multiset(sorted) == multiset(list[..i])
    {
      TakeNext(list, i);
      var k := 0;
      while k < |sorted| && |sorted[k]| >= |list[i]|
        invariant 0 <= k <= |sorted| && forall j | 0 <= j < k :: |sorted[j]| >= |list[i]|
      {
        k := k + 1;
      }
      InsertKeepsOrder(sorted, k, list[i]);
      InsertKeepsAll(sorted, k, list[i]);
      sorted := sorted[..k] + [list[i]] + sorted[k..];
    }
    assert list[..|list|] == list;
  }

  predicate Deeper(loc: Resolver, x: string, y: string) {
    loc(x) < loc(y)
  }

  /** Deeper places have strictly longer paths. */
  ghost predicate DeeperIsLonger(loc: Resolver, paths: set<string>) {
    forall x, y {:trigger Deeper(loc, x, y)} | x in paths && y in paths && Deeper(loc, x, y) :: |x| < |y|
  }

  lemma AncestorsComeLater(loc: Resolver, list: seq<string>, i: nat)
    requires i < |list| && LongestFirst(list) && DeeperIsLonger(loc, Elements(list))
    ensures forall d | d in Locs(loc, list[..i]) :: !(d < loc(list[i]))
  {
    forall j | 0 <= j < i ensures !Deeper(loc, list[j], list[i]) {
      assert |list[j]| >= |list[i]|;
      assert list[j] in Elements(list) && list[i] in Elements(list);
    }
  }

  /** What pruning has come to: the nodes gone are closed downwards, and every directory tried and kept has something below it. */
  ghost predicate PruneState(t: Tree, now: Tree, gone: set<Loc>, tried: set<Loc>, ordered: bool) {
    && gone <= t.Keys && gone <= tried && now == t - gone
    && (forall r, l | r in gone && l in t && r < l :: l in gone)
    && (ordered ==> forall d {:trigger HasChild(now, d)} | d in tried && d in now :: HasChild(now, d))
  }

  lemma PruneStep(t: Tree, now: Tree, gone: set<Loc>, tried: set<Loc>, ordered: bool, at: Loc, fault: Fault) returns (gone': set<Loc>)
    requires PruneState(t, now, gone, tried, ordered) && RemoveResult(now, at, fault) != OtherError
    requires ordered ==> forall d | d in tried :: !(d < at)
    ensures PruneState(t, AfterRemove(now, at, fault), gone', tried + {at}, ordered)
  {
    if RemoveResult(now, at, fault) == Done {
      gone' := gone + {at};
      var after := now - {at};
      forall r, l | r in gone' && l in t && r < l ensures l in gone' {
        if r == at { assert l !in now; }
      }
      forall d | ordered && d in tried && d in after ensures HasChild(after, d) {
        assert HasChild(now, d);
        var m :| m in now && d < m;
        assert m in after;
      }
      assert after == t - gone';
    } else {
      gone' := gone;
    }
  }

  lemma PruneLoses(t: Tree, now: Tree, gone: set<Loc>, tried: set<Loc>, ordered: bool, dirs: set<Loc>)
    requires PruneState(t, now, gone, tried, ordered) && tried <= dirs
    ensures Shrunk(t, now) && LostOnly(t, now, {}, dirs)
    ensures WellFormed(t) ==> WellFormed(now)
  {
    if WellFormed(t) {
      forall l | l in now && l != [] ensures Up(l) in now && now[Up(l)] == Directory {
        assert Up(l) in t && Up(l) < l;
      }
    }
  }

  /** The calls made for one directory: behind the root, when it has gone and may take its sidecar along, one more. */
  function OneLog(d: string, r: IOResult, root: string, rootSidecarAllowed: bool): seq<Call> {
    [RemoveCall(d)] + if r == Done && rootSidecarAllowed && d == root then [RemoveCall(root + ARIA2)] else []
  }

  /** The calls made for directories with these results. */
  function PruneLog(list: seq<string>, rs: seq<IOResult>, root: string, rootSidecarAllowed: bool): seq<Call>
    requires |list| == |rs|
    decreases |list|
  {
    var n := |list|;
    if n == 0 then []
    else PruneLog(list[..n - 1], rs[..n - 1], root, rootSidecarAllowed) + OneLog(list[n - 1], rs[n - 1], root, rootSidecarAllowed)
  }

  /** The `at`-th call was for the directory, and failed exactly if it broke. */
  predicate Told(faults: nat -> Fault, calls: seq<Call>, start: nat, d: string, r: IOResult, at: nat) {
    start <= at < |calls| && calls[at] == RemoveCall(d) && (r == OtherError <==> faults(at).Breaks?)
  }

  /** The directories were tried in order, with these results, by the calls at these places. */
  ghost predicate Tried(faults: nat -> Fault, calls: seq<Call>, calls': seq<Call>, list: seq<string>, rs: seq<IOResult>, ats: seq<nat>,
                        root: string, rootSidecarAllowed: bool)
  {
    && |list| == |rs| == |ats| && calls' == calls + PruneLog(list, rs, root, rootSidecarAllowed)
    && forall i {:trigger ats[i]} | 0 <= i < |ats| :: Told(faults, calls', |calls|, list[i], rs[i], ats[i])
  }

  lemma PruneLogNext(list: seq<string>, rs: seq<IOResult>, d: string, r: IOResult, root: string, rootSidecarAllowed: bool)
    requires |list| == |rs|
    ensures PruneLog(list + [d], rs + [r], root, rootSidecarAllowed) == PruneLog(list, rs, root, rootSidecarAllowed) + OneLog(d, r, root, rootSidecarAllowed)
  {
    assert (list + [d])[..|list|] == list && (rs + [r])[..|rs|] == rs;
  }

  lemma CallsAssociate(a: seq<Call>, b: seq<Call>, c: seq<Call>)
    ensures (a + b) + c == a + (b + c)
  {}

  lemma TriedNext(faults: nat -> Fault, calls: seq<Call>, calls': seq<Call>, list: seq<string>, rs: seq<IOResult>, ats: seq<nat>,
                  root: string, rootSidecarAllowed: bool, d: string, r: IOResult, calls'': seq<Call>)
    requires Tried(faults, calls, calls', list, rs, ats, root, rootSidecarAllowed)
    requires calls'' == calls' + OneLog(d, r, root, rootSidecarAllowed) && (r == OtherError <==> faults(|calls'|).Breaks?)
    ensures Tried(faults, calls, calls'', list + [d], rs + [r], ats + [|calls'|], root, rootSidecarAllowed)
  {
    PruneLogNext(list, rs, d, r, root, rootSidecarAllowed);
    CallsAssociate(calls, PruneLog(list, rs, root, rootSidecarAllowed), OneLog(d, r, root, rootSidecarAllowed));
    var all := ats + [|calls'|];
    assert Told(faults, calls'', |calls|, d, r, |calls'|);
    forall i | 0 <= i < |ats| ensures Told(faults, calls'', |calls|, list[i], rs[i], all[i]) {
      assert Told(faults, calls', |calls|, list[i], rs[i], ats[i]);
    }
  }

  lemma {:induction false} PruneLogWithin(list: seq<string>, rs: seq<IOResult>, root: string, rootSidecarAllowed: bool)
    requires |list| == |rs|
    ensures RemovesIn(PruneLog(list, rs, root, rootSidecarAllowed), 0, PrunePaths(list, rootSidecarAllowed, root + ARIA2))
    decreases |list|
  {
    var n := |list|;
    if n > 0 {
      PruneLogWithin(list[..n - 1], rs[..n - 1], root, rootSidecarAllowed);
      assert list == list[..n - 1] + [list[n - 1]];
    }
  }

  lemma TriedWithin(faults: nat -> Fault, calls: seq<Call>, calls': seq<Call>, list: seq<string>, rs: seq<IOResult>, ats: seq<nat>,
                    root: string, rootSidecarAllowed: bool)
    requires Tried(faults, calls, calls', list, rs, ats, root, rootSidecarAllowed)
    ensures RemovesIn(calls', |calls|, PrunePaths(list, rootSidecarAllowed, root + ARIA2))
  {
    var log := PruneLog(list, rs, root, rootSidecarAllowed);
    PruneLogWithin(list, rs, root, rootSidecarAllowed);
    forall i | |calls| <= i < |calls'| ensures calls'[i] == log[i - |calls|] {}
  }

  /** Prune one directory; behind the pruned root its sidecar is removed too, if it may be. */
  method PruneOne(disk: Disk, d: string, root: string, rootSidecarAllowed: bool) returns (r: IOResult)
    requires rootSidecarAllowed ==> disk.loc(root + ARIA2) !in disk.tree
    modifies disk
    ensures disk.tree == AfterRemove(old(disk.tree), disk.loc(d), disk.faults(|old(disk.calls)|))
    ensures r == RemoveResult(old(disk.tree), disk.loc(d), disk.faults(|old(disk.calls)|))
    ensures disk.calls == old(disk.calls) + OneLog(d, r, root, rootSidecarAllowed)
  {
    r := disk.Remove(d);
    if r == Done && rootSidecarAllowed && d == root {
      var _ := disk.Remove(d + ARIA2);
    }
  }

  ghost function PrunePaths(list: seq<string>, rootSidecarAllowed: bool, rootSidecar: string): set<string> {
    Elements(list) + if rootSidecarAllowed then {rootSidecar} else {}
  }

  /** A directory that `Remove` took was there and is gone. */
  ghost predicate TakenOnly(loc: Resolver, t: Tree, t': Tree, list: seq<string>, rs: seq<IOResult>)
    requires |rs| <= |list|
  {
    forall i | 0 <= i < |rs| && rs[i] == Done :: loc(list[i]) in t && loc(list[i]) !in t'
  }

  /** All went through, or only the last did not. */
  predicate StopsLast(rs: seq<IOResult>, ok: bool) {
    && (ok ==> OtherError !in rs)
    && (!ok ==> rs != [] && rs[|rs| - 1] == OtherError && OtherError !in rs[..|rs| - 1])
  }

  /**
   The pruning stage, one pass over the list. It stops only at a directory whose call breaks. When deeper places have
   longer paths, every listed directory ends up gone or with something below it, and exactly the prunable ones are gone.
   */
  ghost predicate PruneStage(loc: Resolver, faults: nat -> Fault, a: Moment, b: Moment, list: seq<string>, root: string, rootSidecarAllowed: bool,
                             ok: bool, n: nat, rs: seq<IOResult>, ats: seq<nat>)
  {
    && n <= |list| && (ok ==> n == |list|) && StopsLast(rs, ok)
    && (!ok ==> |b.calls| > |a.calls| && faults(|b.calls| - 1).Breaks?)
    && Tried(faults, a.calls, b.calls, list[..n], rs, ats, root, rootSidecarAllowed)
    && TakenOnly(loc, a.tree, b.tree, list, rs)
    && Shrunk(a.tree, b.tree) && LostOnly(a.tree, b.tree, {}, Locs(loc, list))
    && (ok && DeeperIsLonger(loc, Elements(list)) ==>
          && (forall d {:trigger HasChild(b.tree, d)} | d in Locs(loc, list) && d in b.tree :: HasChild(b.tree, d))
          && b.tree == a.tree - Prunable(a.tree, Locs(loc, list)))
    && (WellFormed(a.tree) ==> WellFormed(b.tree))
  }

  /** The stage half way: the first `i` directories are tried, and `gone` are the places given up. */
  ghost predicate PrunedThrough(loc: Resolver, faults: nat -> Fault, a: Moment, b: Moment, list: seq<string>, root: string, rootSidecarAllowed: bool,
                                i: nat, rs: seq<IOResult>, ats: seq<nat>, gone: set<Loc>)
  {
    && i <= |list| && |rs| == i && StopsLast(rs, true)
    && Tried(faults, a.calls, b.calls, list[..i], rs, ats, root, rootSidecarAllowed)
    && TakenOnly(loc, a.tree, b.tree, list, rs)
    && PruneState(a.tree, b.tree, gone, Locs(loc, list[..i]), DeeperIsLonger(loc, Elements(list)))
  }

  lemma NextPruned(loc: Resolver, faults: nat -> Fault, a: Moment, b: Moment, c: Moment, list: seq<string>, root: string, rootSidecarAllowed: bool,
                   i: nat, rs: seq<IOResult>, ats: seq<nat>, gone: set<Loc>) returns (gone': set<Loc>)
    requires PrunedThrough(loc, faults, a, b, list, root, rootSidecarAllowed, i, rs, ats, gone) && i < |list| && LongestFirst(list)
    requires var r := RemoveResult(b.tree, loc(list[i]), faults(|b.calls|));
             c == Moment(AfterRemove(b.tree, loc(list[i]), faults(|b.calls|)), b.calls + OneLog(list[i], r, root, rootSidecarAllowed))
    ensures var r := RemoveResult(b.tree, loc(list[i]), faults(|b.calls|));
            && (r != OtherError ==>
                  PrunedThrough(loc, faults, a, c, list, root, rootSidecarAllowed, i + 1, rs + [r], ats + [|b.calls|], gone'))
            && (r == OtherError ==>
                  PruneStage(loc, faults, a, c, list, root, rootSidecarAllowed, false, i + 1, rs + [r], ats + [|b.calls|]))
  {
    var fault, at, ordered := faults(|b.calls|), loc(list[i]), DeeperIsLonger(loc, Elements(list));
    var r := RemoveResult(b.tree, at, fault);
    TriedNext(faults, a.calls, b.calls, list[..i], rs, ats, root, rootSidecarAllowed, list[i], r, c.calls);
    TakeNext(list, i);
    TakenNext(loc, a.tree, b.tree, c.tree, list, rs, r, fault);
    StopsNext(rs, r);
    LocIn(loc, list, i);
    if r == OtherError {
      PruneLoses(a.tree, b.tree, gone, Locs(loc, list[..i]), ordered, Locs(loc, list));
      gone' := gone;
    } else {
      if ordered { AncestorsComeLater(loc, list, i); }
      LocsNext(loc, list, i);
      gone' := PruneStep(a.tree, b.tree, gone, Locs(loc, list[..i]), ordered, at, fault);
    }
  }

  lemma AllPruned(loc: Resolver, faults: nat -> Fault, a: Moment, b: Moment, list: seq<string>, root: string, rootSidecarAllowed: bool,
                  rs: seq<IOResult>, ats: seq<nat>, gone: set<Loc>)
    requires PrunedThrough(loc, faults, a, b, list, root, rootSidecarAllowed, |list|, rs, ats, gone)
    ensures PruneStage(loc, faults, a, b, list, root, rootSidecarAllowed, true, |list|, rs, ats)
  {
    var dirs, ordered := Locs(loc, list), DeeperIsLonger(loc, Elements(list));
    assert list[..|list|] == list;
    PruneLoses(a.tree, b.tree, gone, dirs, ordered, dirs);
    if ordered { FixpointIsPrunable(a.tree, dirs, gone); }
  }

  method PruneAll(disk: Disk, list: seq<string>, root: string, rootSidecarAllowed: bool)
    returns (ok: bool, ghost n: nat, ghost rs: seq<IOResult>, ghost ats: seq<nat>)
    requires LongestFirst(list)
    requires rootSidecarAllowed ==> disk.loc(root + ARIA2) !in disk.tree
    modifies disk
    ensures PruneStage(disk.loc, disk.faults, old(Moment(disk.tree, disk.calls)), Moment(disk.tree, disk.calls), list, root, rootSidecarAllowed,
                       ok, n, rs, ats)
  {
    ghost var a, gone := Moment(disk.tree, disk.calls), {};
    ok, n, rs, ats := true, 0, [], [];
    assert PrunedThrough(disk.loc, disk.faults, a, a, list, root, rootSidecarAllowed, 0, rs, ats, gone);
    for i := 0 to |list|
      invariant n == i && PrunedThrough(disk.loc, disk.faults, a, Moment(disk.tree, disk.calls), list, root, rootSidecarAllowed, i, rs, ats, gone)
      invariant rootSidecarAllowed ==> disk.loc(root + ARIA2) !in disk.tree
    {
      ghost var b := Moment(disk.tree, disk.calls);
      var r := PruneOne(disk, list[i], root, rootSidecarAllowed);
      gone := NextPruned(disk.loc, disk.faults, a, b, Moment(disk.tree, disk.calls), list, root, rootSidecarAllowed, i, rs, ats, gone);
      n, rs, ats := n + 1, rs + [r], ats + [|b.calls|];
      if r == OtherError {
        ok := false;
        return;
      }
    }
    AllPruned(disk.loc, disk.faults, a, Moment(disk.tree, disk.calls), list, root, rootSidecarAllowed, rs, ats, gone);
  }

  lemma StopsNext(rs: seq<IOResult>, r: IOResult)
    requires StopsLast(rs, true)
    ensures StopsLast(rs + [r], r != OtherError)
  {
    assert (rs + [r])[..|rs|] == rs;
  }

  lemma TakenNext(loc: Resolver, t: Tree, now: Tree, after: Tree, list: seq<string>, rs: seq<IOResult>, r: IOResult, fault: Fault)
    requires |rs| < |list| && TakenOnly(loc, t, now, list, rs) && now.Keys <= t.Keys
    requires after == AfterRemove(now, loc(list[|rs|]), fault) && r == RemoveResult(now, loc(list[|rs|]), fault)
    ensures TakenOnly(loc, t, after, list, rs + [r])
  {
    forall i | 0 <= i < |rs| + 1 && (rs + [r])[i] == Done ensures loc(list[i]) in t && loc(list[i]) !in after {
      if i < |rs| { assert rs[i] == Done; }
    }
  }

  // ----- The whole of it -----

  datatype Outcome = Deleted | Refused | Stopped

  /** The log after `k`: first `RemoveAll` on distinct targets, then `Remove` on sidecars and listed directories. */
  ghost predicate CallsWithin(calls: seq<Call>, k: nat, targets: seq<string>, singles: set<string>) {
    && (forall i | k <= i < |calls| :: if calls[i].RemoveAllCall? then calls[i].path in targets else calls[i].path in singles)
    && (forall i, j | k <= i < j < |calls| && calls[j].RemoveAllCall? :: calls[i].RemoveAllCall? && calls[i].path != calls[j].path)
  }

  lemma CallsWithinIntro(calls: seq<Call>, files: seq<string>, n: nat, calls': seq<Call>, targets: seq<string>, singles: set<string>)
    requires n <= |files| && calls + AllCalls(files[..n]) <= calls'
    requires forall i, j | 0 <= i < j < |files| :: files[i] != files[j]
    requires forall p | p in files :: p in targets
    requires RemovesIn(calls', |calls| + n, singles)
    ensures CallsWithin(calls', |calls|, targets, singles)
  {
    var k := |calls|;
    assert forall i | 0 <= i < n :: calls'[k + i] == RemoveAllCall(files[i]);
    assert forall i | k <= i < k + n :: calls'[i] == RemoveAllCall(files[i - k]);
  }

  /** Payload paths: aria2's while there is a GID, else the recorded ones; then the paths to start from. */
  method ChoosePaths(dl: Record, reported: seq<string>) returns (payloads: seq<string>, paths: seq<string>)
    ensures payloads == Payloads(dl, reported) && paths == Candidates(dl, payloads)
  {
    payloads := [];
    if dl.gid != "" { payloads := reported; }
    if |payloads| == 0 && |dl.files| > 0 {
      for i := 0 to |dl.files|
        invariant payloads == FilePaths(dl.files)[..i]
      {
        payloads := payloads + [dl.files[i].path];
      }
    }
    paths := [];
    if |payloads| > 0 {
      paths := paths + payloads;
    } else if dl.targetPath != "" && dl.name != "" {
      paths := [dl.name];
    }
  }

  /** The root candidates: the exact name, and the stripped one when it is proven. */
  method AddRoots(disk: Disk, dl: Record, files: seq<string>) returns (targets: seq<string>, owned: bool)
    ensures owned == TrimmedOwned(dl, disk.tree, disk.loc)
    ensures targets == files + RootTargets(dl, owned)
  {
    targets, owned := files, false;
    if dl.name != "" {
      var cand := Join(BaseOf(dl), dl.name);
      if Safe(BaseOf(dl), cand) { targets := targets + [Clean(cand)]; }
      owned := ProveOwned(disk, dl);
      if owned {
        var stripped := StripLeadingTags(dl.name);
        targets := targets + [Clean(Join(BaseOf(dl), stripped))];
      }
    }
  }

  /** The root's sidecar may go along with the root when the root is the download's own. */
  method RootSidecarAllowed(dl: Record, owned: bool, root: string) returns (allowed: bool)
    ensures allowed <==> (dl.name != "" && root == Exact(dl)) || (dl.name != "" && owned && root == Trimmed(dl))
  {
    allowed := false;
    if dl.name != "" {
      if Join(BaseOf(dl), dl.name) == root { allowed := true; }
      var stripped := StripLeadingTags(dl.name);
      if owned && Join(BaseOf(dl), stripped) == root { allowed := true; }
    }
  }

  lemma AllowedIsSidecar(dl: Record, plan: Plan, root: string)
    requires (dl.name != "" && root == Exact(dl)) || (plan.owned && root == Trimmed(dl))
    ensures root + ARIA2 in Sidecars(dl, plan)
  {
    var torrent := IsTorrentSource(dl.source);
    assert root + ARIA2 in SidecarsOf(root, torrent);
  }

  /** Dropping duplicates, sorting and checking change no set of paths. */
  lemma SameElements(xs: seq<string>, ys: seq<string>)
    requires multiset(xs) == multiset(ys)
    ensures Elements(xs) == Elements(ys)
  {
    forall s ensures s in xs <==> s in ys {
      assert s in xs <==> s in multiset(xs);
      assert s in ys <==> s in multiset(ys);
    }
  }

  lemma KnownPayloads(base: string, dl: Record, payloads: seq<string>)
    ensures Known(NormalAll(base, Candidates(dl, payloads)), NormalAll(base, payloads)) == Elements(NormalAll(base, payloads))
  {
    if payloads == [] { assert NormalAll(base, payloads) == []; }
  }

  /** The decision: what the plan amounts to, without touching the disk. */
  method Decide(disk: Disk, dl: Record, reported: seq<string>)
    returns (ok: bool, targets: seq<string>, scs: seq<string>, dirs: set<string>, owned: bool, root: string)
    ensures var plan := PlanFor(dl, reported, disk.tree, disk.loc);
            && (ok <==> !Refuses(dl, plan))
            && (ok ==> targets == Targets(dl, plan) && owned == plan.owned
                       && Elements(scs) == Sidecars(dl, plan)
                       && dirs == AllAncestors(BaseOf(dl), NormalAll(BaseOf(dl), plan.candidates))
                       && IsRoot(BaseOf(dl), targets, root))
  {
    ghost var plan := PlanFor(dl, reported, disk.tree, disk.loc);
    targets, scs, owned, root := [], [], false, BaseOf(dl);
    var payloads, paths := ChoosePaths(dl, reported);
    var files, payloadSet;
    ok, files, payloadSet, dirs := Collect(BaseOf(dl), paths, payloads);
    if !ok { return; }
    targets, owned := AddRoots(disk, dl, files);
    root := InferRoot(BaseOf(dl), targets);
    KnownPayloads(BaseOf(dl), dl, payloads);
    var sidecars := GatherSidecars(dl, plan, payloadSet, owned, root);
    SidecarsAreClean(dl, plan);
    assert SetSafe(BaseOf(dl), sidecars) <==> forall s | s in sidecars :: Safe(BaseOf(dl), Clean(s));
    ok, scs := CheckAll(BaseOf(dl), sidecars);
  }

  lemma PurgedInSteps(t: Tree, tops: set<Loc>, singles: set<Loc>, dirs: set<Loc>, t': Tree, t'': Tree)
    requires t' == Cut(t, tops) && t'' == t' - singles
    ensures t'' - Prunable(t'', dirs) == Purged(t, tops, singles, dirs)
  {}

  /** A run, complete or not: what it calls, and what it takes from the tree. */
  ghost predicate RunWithin(loc: Resolver, t: Tree, calls: seq<Call>, t': Tree, calls': seq<Call>, targets: seq<string>, singles: set<string>) {
    && calls <= calls' && CallsWithin(calls', |calls|, targets, singles)
    && Shrunk(t, t') && LostOnly(t, t', Locs(loc, targets), LocsOf(loc, singles))
    && (WellFormed(t) ==> WellFormed(t'))
  }

  /** A complete run: exactly the purged tree, in which every listed directory is gone or has something below it. */
  ghost predicate RunComplete(loc: Resolver, t: Tree, t': Tree, targets: seq<string>, sidecars: set<string>, dirs: set<string>) {
    && t' == Purged(t, Locs(loc, targets), LocsOf(loc, sidecars), LocsOf(loc, dirs))
    && forall d {:trigger HasChild(t', d)} | d in LocsOf(loc, dirs) && d in t' :: HasChild(t', d)
  }

  /** A stage that only issues `Remove` calls on single paths extends a run. */
  lemma RunGrows(loc: Resolver, t: Tree, calls: seq<Call>, t': Tree, calls': seq<Call>, t'': Tree, calls'': seq<Call>,
                 targets: seq<string>, singles: set<string>, more: set<string>)
    requires RunWithin(loc, t, calls, t', calls', targets, singles) && more <= singles
    requires calls' <= calls'' && RemovesIn(calls'', |calls'|, singles)
    requires Shrunk(t', t'') && LostOnly(t', t'', {}, LocsOf(loc, more)) && (WellFormed(t') ==> WellFormed(t''))
    ensures RunWithin(loc, t, calls, t'', calls'', targets, singles)
  {
    assert LocsOf(loc, more) <= LocsOf(loc, singles);
    CallsGrow(calls', calls'', |calls|, targets, singles);
  }

  lemma CallsGrow(calls: seq<Call>, calls': seq<Call>, k: nat, targets: seq<string>, singles: set<string>)
    requires k <= |calls| && calls <= calls' && CallsWithin(calls, k, targets, singles) && RemovesIn(calls', |calls|, singles)
    ensures CallsWithin(calls', k, targets, singles)
  {
    assert forall i | k <= i < |calls| :: calls'[i] == calls[i];
  }

  /** What a run has tried, stage by stage, with the results for the directories and the places of their calls. */
  datatype Log = Log(targets: seq<string>, sidecars: seq<string>, dirs: seq<string>, results: seq<IOResult>, ats: seq<nat>)

  const NO_LOG := Log([], [], [], [], [])

  ghost predicate Whole(g: Log) {
    |g.dirs| == |g.results| == |g.ats|
  }

  function CallsOf(g: Log, root: string, allowed: bool): seq<Call>
    requires |g.dirs| == |g.results|
  {
    AllCalls(g.targets) + AllRemoves(g.sidecars) + PruneLog(g.dirs, g.results, root, allowed)
  }

  /** Each stage tries each of its paths once, in the source's order, and begins when the one before is through. */
  ghost predicate Staged(g: Log, targets: seq<string>, sidecars: set<string>, dirs: set<string>, ok: bool) {
    && g.targets <= Firsts(targets) && (ok || g.sidecars != [] || g.dirs != [] ==> g.targets == Firsts(targets))
    && Distinct(g.sidecars) && Elements(g.sidecars) <= sidecars && (ok || g.dirs != [] ==> Elements(g.sidecars) == sidecars)
    && Distinct(g.dirs) && Elements(g.dirs) <= dirs && LongestFirst(g.dirs) && (ok ==> Elements(g.dirs) == dirs)
    && (forall x, y | x in Elements(g.dirs) && y in dirs - Elements(g.dirs) :: |x| >= |y|)
  }

  /** No call on a target, a sidecar or a listed directory broke, but for the last when the run stopped. */
  ghost predicate Tolerated(faults: nat -> Fault, calls: seq<Call>, calls': seq<Call>, g: Log, ok: bool)
    requires Whole(g)
  {
    var pruning := |calls| + |g.targets| + |g.sidecars|;
    && Unbroken(faults, |calls|, pruning, ok || g.dirs != []) && (g.dirs == [] || StopsLast(g.results, ok))
    && forall i {:trigger g.ats[i]} | 0 <= i < |g.ats| :: Told(faults, calls', pruning, g.dirs[i], g.results[i], g.ats[i])
  }

  /** Why a run stopped: its last call broke, or was for a sidecar whose place is a directory with something in it. */
  ghost predicate Stuck(loc: Resolver, faults: nat -> Fault, t': Tree, end: nat, g: Log) {
    || (end > 0 && faults(end - 1).Breaks?)
    || (g.dirs == [] && g.sidecars != [] && Occupied(t', loc(g.sidecars[|g.sidecars| - 1])))
  }

  /** A run with the account of its calls: it stops exactly for cause. */
  ghost predicate Accounted(loc: Resolver, faults: nat -> Fault, t': Tree, calls: seq<Call>, calls': seq<Call>, g: Log,
                            targets: seq<string>, sidecars: set<string>, dirs: set<string>, root: string, allowed: bool, ok: bool)
  {
    && Whole(g) && calls' == calls + CallsOf(g, root, allowed)
    && Staged(g, targets, sidecars, dirs, ok) && Tolerated(faults, calls, calls', g, ok)
    && (!ok ==> Stuck(loc, faults, t', |calls'|, g) && |calls'| > |calls|)
  }

  /** Once the targets are through, nothing is left below them; in the end no sidecar is either, and only listed directories have gone besides. */
  ghost predicate Cleared(loc: Resolver, t: Tree, t': Tree, g: Log, targets: seq<string>, sidecars: set<string>, dirs: set<string>, ok: bool) {
    && (ok || g.sidecars != [] || g.dirs != [] ==> Shrunk(Cut(t, Locs(loc, targets)), t'))
    && (ok ==> var left := Cut(t, Locs(loc, targets)) - LocsOf(loc, sidecars);
               Shrunk(left, t') && LostOnly(left, t', {}, LocsOf(loc, dirs)))
  }

  /** Everything there is to say about a run of the deletions. */
  ghost predicate Finished(loc: Resolver, faults: nat -> Fault, a: Moment, b: Moment, g: Log, targets: seq<string>, sidecars: set<string>,
                           dirs: set<string>, root: string, allowed: bool, ok: bool)
  {
    && RunWithin(loc, a.tree, a.calls, b.tree, b.calls, targets, sidecars + dirs)
    && Accounted(loc, faults, b.tree, a.calls, b.calls, g, targets, sidecars, dirs, root, allowed, ok)
    && Cleared(loc, a.tree, b.tree, g, targets, sidecars, dirs, ok)
    && (ok && DeeperIsLonger(loc, dirs) ==> RunComplete(loc, a.tree, b.tree, targets, sidecars, dirs))
  }

  lemma TargetsWithin(loc: Resolver, faults: nat -> Fault, a: Moment, b: Moment, targets: seq<string>, n: nat, ok: bool, singles: set<string>)
    requires TargetStage(loc, faults, a, b, Firsts(targets), n, ok)
    ensures RunWithin(loc, a.tree, a.calls, b.tree, b.calls, targets, singles)
    ensures ok ==> b.tree == Cut(a.tree, Locs(loc, targets)) && b.calls == a.calls + AllCalls(Firsts(targets))
  {
    var files := Firsts(targets);
    assert Elements(files) == Elements(targets);
    assert files[..|files|] == files;
    CallsWithinIntro(a.calls, files, n, b.calls, targets, singles);
  }

  lemma TargetsStopped(loc: Resolver, faults: nat -> Fault, a: Moment, b: Moment, n: nat, targets: seq<string>, sidecars: set<string>,
                       dirs: set<string>, root: string, allowed: bool)
    requires TargetStage(loc, faults, a, b, Firsts(targets), n, false)
    ensures Finished(loc, faults, a, b, Log(Firsts(targets)[..n], [], [], [], []), targets, sidecars, dirs, root, allowed, false)
  {
    var g := Log(Firsts(targets)[..n], [], [], [], []);
    TargetsWithin(loc, faults, a, b, targets, n, false, sidecars + dirs);
    assert AllRemoves([]) == [] && CallsOf(g, root, allowed) == AllCalls(g.targets);
    assert |b.calls| == |a.calls| + n;
  }

  lemma SidecarsWithin(loc: Resolver, faults: nat -> Fault, a: Moment, b: Moment, c: Moment, scs: seq<string>, n: nat, ok: bool,
                       targets: seq<string>, dirs: set<string>)
    requires TargetStage(loc, faults, a, b, Firsts(targets), |Firsts(targets)|, true)
    requires SidecarStage(loc, faults, b, c, scs, n, ok)
    ensures RunWithin(loc, a.tree, a.calls, c.tree, c.calls, targets, Elements(scs) + dirs)
    ensures ok ==> c.tree == Cut(a.tree, Locs(loc, targets)) - Locs(loc, scs)
                   && c.calls == a.calls + AllCalls(Firsts(targets)) + AllRemoves(scs) && Unbroken(faults, |a.calls|, |c.calls|, true)
  {
    var singles := Elements(scs) + dirs;
    TargetsWithin(loc, faults, a, b, targets, |Firsts(targets)|, true, singles);
    AllRemovesWithin(b.calls, scs, n);
    RunGrows(loc, a.tree, a.calls, b.tree, b.calls, c.tree, c.calls, targets, singles, Elements(scs));
    if ok { assert scs[..n] == scs; }
  }

  lemma SidecarsStopped(loc: Resolver, faults: nat -> Fault, a: Moment, b: Moment, c: Moment, scs: seq<string>, n: nat, targets: seq<string>,
                        dirs: set<string>, root: string, allowed: bool)
    requires TargetStage(loc, faults, a, b, Firsts(targets), |Firsts(targets)|, true)
    requires SidecarStage(loc, faults, b, c, scs, n, false) && Distinct(scs)
    ensures Finished(loc, faults, a, c, Log(Firsts(targets), scs[..n], [], [], []), targets, Elements(scs), dirs, root, allowed, false)
  {
    var g := Log(Firsts(targets), scs[..n], [], [], []);
    SidecarsWithin(loc, faults, a, b, c, scs, n, false, targets, dirs);
    TargetsWithin(loc, faults, a, b, targets, |Firsts(targets)|, true, {});
    assert CallsOf(g, root, allowed) == AllCalls(g.targets) + AllRemoves(g.sidecars);
    CallsAssociate(a.calls, AllCalls(g.targets), AllRemoves(g.sidecars));
    assert |b.calls| == |a.calls| + |g.targets| && |c.calls| == |b.calls| + n;
  }

  lemma PrefixOfSorted(sorted: seq<string>, n: nat)
    requires n <= |sorted| && LongestFirst(sorted) && Distinct(sorted)
    ensures LongestFirst(sorted[..n]) && Distinct(sorted[..n]) && Elements(sorted[..n]) <= Elements(sorted)
    ensures forall x, y | x in Elements(sorted[..n]) && y in Elements(sorted) - Elements(sorted[..n]) :: |x| >= |y|
  {
    forall x, y | x in Elements(sorted[..n]) && y in Elements(sorted) - Elements(sorted[..n]) ensures |x| >= |y| {
      var i :| 0 <= i < n && sorted[..n][i] == x;
      var j :| 0 <= j < |sorted| && sorted[j] == y;
      assert forall k | 0 <= k < n :: sorted[..n][k] in Elements(sorted[..n]);
    }
  }

  lemma CallsInStages(calls: seq<Call>, mid: seq<Call>, calls': seq<Call>, g: Log, root: string, allowed: bool)
    requires |g.dirs| == |g.results|
    requires mid == calls + AllCalls(g.targets) + AllRemoves(g.sidecars) && calls' == mid + PruneLog(g.dirs, g.results, root, allowed)
    ensures calls' == calls + CallsOf(g, root, allowed)
  {
    CallsAssociate(calls, AllCalls(g.targets) + AllRemoves(g.sidecars), PruneLog(g.dirs, g.results, root, allowed));
    CallsAssociate(calls, AllCalls(g.targets), AllRemoves(g.sidecars));
  }

  lemma PruningStaged(g: Log, sorted: seq<string>, n: nat, targets: seq<string>, ok: bool)
    requires g.targets == Firsts(targets) && Distinct(g.sidecars) && Distinct(sorted) && LongestFirst(sorted)
    requires n <= |sorted| && (ok ==> n == |sorted|) && g.dirs == sorted[..n]
    ensures Staged(g, targets, Elements(g.sidecars), Elements(sorted), ok)
  {
    PrefixOfSorted(sorted, n);
    assert ok ==> sorted[..n] == sorted;
  }

  lemma PruningTolerated(faults: nat -> Fault, calls: seq<Call>, mid: seq<Call>, calls': seq<Call>, g: Log, root: string, allowed: bool, ok: bool)
    requires |mid| == |calls| + |g.targets| + |g.sidecars| && Unbroken(faults, |calls|, |mid|, true) && StopsLast(g.results, ok)
    requires Tried(faults, mid, calls', g.dirs, g.results, g.ats, root, allowed)
    ensures Whole(g) && Tolerated(faults, calls, calls', g, ok)
  {}

  lemma PruningAccounted(loc: Resolver, faults: nat -> Fault, t': Tree, calls: seq<Call>, mid: seq<Call>, calls': seq<Call>,
                         scs: seq<string>, sorted: seq<string>, n: nat, rs: seq<IOResult>, ats: seq<nat>, targets: seq<string>,
                         root: string, allowed: bool, ok: bool)
    requires Distinct(scs) && Distinct(sorted) && LongestFirst(sorted)
    requires mid == calls + AllCalls(Firsts(targets)) + AllRemoves(scs) && Unbroken(faults, |calls|, |mid|, true)
    requires n <= |sorted| && (ok ==> n == |sorted|) && StopsLast(rs, ok)
    requires Tried(faults, mid, calls', sorted[..n], rs, ats, root, allowed)
    requires !ok ==> |calls'| > |mid| && faults(|calls'| - 1).Breaks?
    ensures Accounted(loc, faults, t', calls, calls', Log(Firsts(targets), scs, sorted[..n], rs, ats), targets, Elements(scs),
                      Elements(sorted), root, allowed, ok)
  {
    var g := Log(Firsts(targets), scs, sorted[..n], rs, ats);
    assert |mid| == |calls| + |g.targets| + |g.sidecars|;
    PruningTolerated(faults, calls, mid, calls', g, root, allowed, ok);
    PruningStaged(g, sorted, n, targets, ok);
    CallsInStages(calls, mid, calls', g, root, allowed);
  }

  lemma PruningWithin(loc: Resolver, faults: nat -> Fault, a: Moment, c: Moment, d: Moment, scs: seq<string>, sorted: seq<string>,
                      n: nat, rs: seq<IOResult>, ats: seq<nat>, targets: seq<string>, root: string, allowed: bool, ok: bool)
    requires RunWithin(loc, a.tree, a.calls, c.tree, c.calls, targets, Elements(scs) + Elements(sorted))
    requires c.tree == Cut(a.tree, Locs(loc, targets)) - Locs(loc, scs) && (allowed ==> root + ARIA2 in scs)
    requires PruneStage(loc, faults, c, d, sorted, root, allowed, ok, n, rs, ats)
    ensures RunWithin(loc, a.tree, a.calls, d.tree, d.calls, targets, Elements(scs) + Elements(sorted))
    ensures ok && DeeperIsLonger(loc, Elements(sorted)) ==> RunComplete(loc, a.tree, d.tree, targets, Elements(scs), Elements(sorted))
    ensures Cleared(loc, a.tree, d.tree, Log(Firsts(targets), scs, sorted[..n], rs, ats), targets, Elements(scs), Elements(sorted), ok)
  {
    TriedWithin(faults, c.calls, d.calls, sorted[..n], rs, ats, root, allowed);
    assert Elements(sorted[..n]) <= Elements(sorted);
    RunGrows(loc, a.tree, a.calls, c.tree, c.calls, d.tree, d.calls, targets, Elements(scs) + Elements(sorted), Elements(sorted));
    PurgedInSteps(a.tree, Locs(loc, targets), Locs(loc, scs), Locs(loc, sorted), Cut(a.tree, Locs(loc, targets)), c.tree);
  }

  lemma PruningFinished(loc: Resolver, faults: nat -> Fault, a: Moment, b: Moment, c: Moment, d: Moment, scs: seq<string>, sorted: seq<string>,
                        n: nat, rs: seq<IOResult>, ats: seq<nat>, targets: seq<string>, root: string, allowed: bool, ok: bool)
    requires TargetStage(loc, faults, a, b, Firsts(targets), |Firsts(targets)|, true)
    requires SidecarStage(loc, faults, b, c, scs, |scs|, true) && Distinct(scs) && (allowed ==> root + ARIA2 in scs)
    requires Distinct(sorted) && LongestFirst(sorted) && PruneStage(loc, faults, c, d, sorted, root, allowed, ok, n, rs, ats)
    ensures Finished(loc, faults, a, d, Log(Firsts(targets), scs, sorted[..n], rs, ats), targets, Elements(scs), Elements(sorted), root, allowed, ok)
  {
    SidecarsWithin(loc, faults, a, b, c, scs, |scs|, true, targets, Elements(sorted));
    PruningWithin(loc, faults, a, c, d, scs, sorted, n, rs, ats, targets, root, allowed, ok);
    PruningAccounted(loc, faults, d.tree, a.calls, c.calls, d.calls, scs, sorted, n, rs, ats, targets, root, allowed, ok);
  }

  lemma SortedStaysDistinct(list: seq<string>, sorted: seq<string>)
    requires Distinct(list) && multiset(list) == multiset(sorted)
    ensures Distinct(sorted)
  {
    forall i, j | 0 <= i < j < |sorted| && sorted[i] == sorted[j] ensures false {
      assert sorted == sorted[..i] + [sorted[i]] + sorted[i + 1..j] + [sorted[j]] + sorted[j + 1..];
      assert multiset(sorted)[sorted[i]] >= 2;
      OnceInDistinct(list, sorted[i]);
    }
  }

  lemma {:induction false} OnceInDistinct(list: seq<string>, x: string)
    requires Distinct(list)
    ensures multiset(list)[x] <= 1
    decreases |list|
  {
    if list != [] {
      assert list == [list[0]] + list[1..];
      OnceInDistinct(list[1..], x);
      assert x == list[0] ==> x !in list[1..];
    }
  }

  /** The deletions, in the source's order: targets, sidecars, directories deepest first. */
  method Execute(disk: Disk, base: string, targets: seq<string>, sidecars: seq<string>, dirs: set<string>,
                 root: string, allowed: bool) returns (ok: bool, ghost log: Log)
    requires AllClean(dirs) && SetSafe(base, dirs)
    requires allowed ==> root + ARIA2 in sidecars
    modifies disk
    ensures Finished(disk.loc, disk.faults, old(Moment(disk.tree, disk.calls)), Moment(disk.tree, disk.calls), log, targets, Elements(sidecars),
                     dirs, root, allowed, ok)
  {
    ghost var a := Moment(disk.tree, disk.calls);
    var files := Dedup(targets);
    var scs := Dedup(sidecars);
    assert Elements(scs) == Elements(sidecars);
    ghost var n;
    ok, n := RemoveTargets(disk, files);
    ghost var b := Moment(disk.tree, disk.calls);
    if !ok {
      log := Log(files[..n], [], [], [], []);
      TargetsStopped(disk.loc, disk.faults, a, b, n, targets, Elements(scs), dirs, root, allowed);
      return;
    }
    ok, n := RemoveSidecars(disk, scs);
    ghost var c := Moment(disk.tree, disk.calls);
    if !ok {
      log := Log(files, scs[..n], [], [], []);
      SidecarsStopped(disk.loc, disk.faults, a, b, c, scs, n, targets, dirs, root, allowed);
      return;
    }
    ghost var rs, ats;
    var sorted := ListDeepestFirst(base, dirs);
    SidecarsWithin(disk.loc, disk.faults, a, b, c, scs, n, true, targets, {});
    ok, n, rs, ats := PruneAll(disk, sorted, root, allowed);
    log := Log(files, scs, sorted[..n], rs, ats);
    PruningFinished(disk.loc, disk.faults, a, b, c, Moment(disk.tree, disk.calls), scs, sorted, n, rs, ats, targets, root, allowed, ok);
  }

  /** The prune list: every listed directory passes the check, so the third refusal of the source is never taken. */
  method ListDeepestFirst(base: string, dirs: set<string>) returns (sorted: seq<string>)
    requires AllClean(dirs) && SetSafe(base, dirs)
    ensures Elements(sorted) == dirs && LongestFirst(sorted) && Distinct(sorted)
  {
    var checked, dirList := CheckAll(base, dirs);
    sorted := SortLongestFirst(dirList);
    SameElements(sorted, dirList);
    SortedStaysDistinct(dirList, sorted);
  }

  lemma AllPrunesAreSafe(dl: Record, plan: Plan, root: string)
    requires Permitted(dl, plan, root)
    ensures AllClean(Prunes(dl, plan, root)) && SetSafe(BaseOf(dl), Prunes(dl, plan, root))
  {
    forall d | d in Prunes(dl, plan, root) ensures IsClean(d) && Safe(BaseOf(dl), d) { PrunesAreSafe(dl, plan, root, d); }
  }

  /** Under lexical resolution the prune directories of an accepted plan are ordered by length. */
  lemma PrunesAreOrdered(loc: Resolver, dl: Record, plan: Plan, root: string)
    requires Permitted(dl, plan, root)
    ensures Lexical(loc) && Sound(BaseOf(dl)) ==> DeeperIsLonger(loc, Prunes(dl, plan, root))
  {
    if Lexical(loc) && Sound(BaseOf(dl)) {
      var cwd :| LexicalFrom(loc, cwd);
      forall x, y | x in Prunes(dl, plan, root) && y in Prunes(dl, plan, root) && Deeper(loc, x, y) ensures |x| < |y| {
        PrunesOrdered(dl, plan, root, cwd, x, y);
      }
    }
  }

  /** The last of the planning: the root joins the prune list, and its sidecar may go with it. */
  method AddRoot(dl: Record, ghost plan: Plan, ancestors: set<string>, owned: bool, root: string)
    returns (dirs: set<string>, allowed: bool)
    requires owned == plan.owned
    requires ancestors == AllAncestors(BaseOf(dl), NormalAll(BaseOf(dl), plan.candidates))
    ensures dirs == Prunes(dl, plan, root) && allowed == TakesSidecar(dl, plan, root)
    ensures allowed ==> root + ARIA2 in Sidecars(dl, plan)
  {
    dirs := ancestors;
    if root != BaseOf(dl) { dirs := dirs + {root}; }
    allowed := RootSidecarAllowed(dl, owned, root);
    if allowed { AllowedIsSidecar(dl, plan, root); }
  }

  /** The sidecar of the root may go with it when the root is the download's exact name, or its stripped name and proven. */
  predicate TakesSidecar(dl: Record, plan: Plan, root: string) {
    dl.name != "" && (root == Exact(dl) || (plan.owned && root == Trimmed(dl)))
  }

  /** The account of a run: which calls were made, why it stopped if it did, and what is gone. */
  ghost predicate Explained(dl: Record, plan: Plan, root: string, loc: Resolver, faults: nat -> Fault, t: Tree, calls: seq<Call>,
                            t': Tree, calls': seq<Call>, targets: seq<string>, log: Log, ok: bool)
  {
    && Accounted(loc, faults, t', calls, calls', log, targets, Sidecars(dl, plan), Prunes(dl, plan, root), root, TakesSidecar(dl, plan, root), ok)
    && Cleared(loc, t, t', log, targets, Sidecars(dl, plan), Prunes(dl, plan, root), ok)
  }

  /** Nothing broke and no sidecar's place, once the targets are gone, is a directory with something in it. */
  ghost predicate Smooth(loc: Resolver, faults: nat -> Fault, k: nat, t: Tree, dl: Record, plan: Plan) {
    && (forall i: nat | k <= i :: faults(i).Works?)
    && (forall s | s in Sidecars(dl, plan) :: !Occupied(Cut(t, Locs(loc, Targets(dl, plan))), loc(s)))
  }

  /** A run that meets no fault and no such directory succeeds: missing files are no failure, nor are directories still in use. */
  lemma SmoothRunSucceeds(dl: Record, plan: Plan, root: string, loc: Resolver, faults: nat -> Fault, t: Tree, calls: seq<Call>,
                          t': Tree, calls': seq<Call>, log: Log, ok: bool)
    requires Explained(dl, plan, root, loc, faults, t, calls, t', calls', Targets(dl, plan), log, ok)
    requires Smooth(loc, faults, |calls|, t, dl, plan)
    ensures ok
  {
    if !ok {
      assert faults(|calls'| - 1).Works?;
      var s := log.sidecars[|log.sidecars| - 1];
      assert s in Elements(log.sidecars);
      OccupiedBefore(Cut(t, Locs(loc, Targets(dl, plan))), t', loc(s));
    }
  }

  lemma OccupiedBefore(t: Tree, t': Tree, at: Loc)
    requires Shrunk(t, t') && Occupied(t', at)
    ensures Occupied(t, at)
  {
    var m :| m in t' && at < m;
    assert m in t;
  }

  /** What carrying out an accepted plan comes to: the run, its account, that it succeeds unless hindered, and the tree it leaves. */
  ghost predicate Purging(dl: Record, plan: Plan, root: string, loc: Resolver, faults: nat -> Fault, a: Moment, b: Moment, log: Log, ok: bool) {
    && Permitted(dl, plan, root)
    && RunWithin(loc, a.tree, a.calls, b.tree, b.calls, Targets(dl, plan), Sidecars(dl, plan) + Prunes(dl, plan, root))
    && Explained(dl, plan, root, loc, faults, a.tree, a.calls, b.tree, b.calls, Targets(dl, plan), log, ok)
    && (Smooth(loc, faults, |a.calls|, a.tree, dl, plan) ==> ok)
    && (ok && Sound(BaseOf(dl)) && Lexical(loc) ==>
          RunComplete(loc, a.tree, b.tree, Targets(dl, plan), Sidecars(dl, plan), Prunes(dl, plan, root)))
  }

  lemma FinishedIsPurging(dl: Record, plan: Plan, root: string, loc: Resolver, faults: nat -> Fault, a: Moment, b: Moment, log: Log, ok: bool)
    requires Permitted(dl, plan, root)
    requires Finished(loc, faults, a, b, log, Targets(dl, plan), Sidecars(dl, plan), Prunes(dl, plan, root), root, TakesSidecar(dl, plan, root), ok)
    ensures Purging(dl, plan, root, loc, faults, a, b, log, ok)
  {
    PrunesAreOrdered(loc, dl, plan, root);
    if Smooth(loc, faults, |a.calls|, a.tree, dl, plan) {
      SmoothRunSucceeds(dl, plan, root, loc, faults, a.tree, a.calls, b.tree, b.calls, log, ok);
    }
  }

  /** Carry an accepted plan out. */
  method CarryOut(disk: Disk, dl: Record, ghost plan: Plan, targets: seq<string>, scs: seq<string>, ancestors: set<string>,
                  owned: bool, root: string) returns (ok: bool, ghost log: Log)
    requires Permitted(dl, plan, root) && owned == plan.owned && targets == Targets(dl, plan)
    requires Elements(scs) == Sidecars(dl, plan)
    requires ancestors == AllAncestors(BaseOf(dl), NormalAll(BaseOf(dl), plan.candidates))
    modifies disk
    ensures Purging(dl, plan, root, disk.loc, disk.faults, old(Moment(disk.tree, disk.calls)), Moment(disk.tree, disk.calls), log, ok)
  {
    ghost var a := Moment(disk.tree, disk.calls);
    AllPrunesAreSafe(dl, plan, root);
    var dirs, allowed := AddRoot(dl, plan, ancestors, owned, root);
    ok, log := Execute(disk, BaseOf(dl), targets, scs, dirs, root, allowed);
    FinishedIsPurging(dl, plan, root, disk.loc, disk.faults, a, Moment(disk.tree, disk.calls), log, ok);
  }

  /** `Delete` after the cancellation: purge the payload, the owned sidecars and the directories left empty. */
  method DeleteFiles(disk: Disk, dl: Record, reported: seq<string>)
    returns (outcome: Outcome, ghost plan: Plan, ghost root: string, ghost log: Log)
    modifies disk
    ensures plan == PlanFor(dl, reported, old(disk.tree), disk.loc)
    ensures outcome == Refused <==> Refuses(dl, plan)
    ensures outcome == Refused ==> disk.tree == old(disk.tree) && disk.calls == old(disk.calls)
    ensures outcome != Refused ==>
              Purging(dl, plan, root, disk.loc, disk.faults, old(Moment(disk.tree, disk.calls)), Moment(disk.tree, disk.calls), log,
                      outcome == Deleted)
  {
    plan := PlanFor(dl, reported, disk.tree, disk.loc);
    var ok, targets, scs, ancestors, owned, r := Decide(disk, dl, reported);
    root, log := r, NO_LOG;
    assert disk.tree == old(disk.tree) && disk.calls == old(disk.calls);
    if !ok {
      outcome := Refused;
      return;
    }
    ok, log := CarryOut(disk, dl, plan, targets, scs, ancestors, owned, r);
    outcome := if ok then Deleted else Stopped;
  }

  /** For an absolute target path every call a run makes, complete or not, is on a clean path strictly below the base, name by name. */
  lemma CallsAreConfined(loc: Resolver, dl: Record, plan: Plan, root: string, t: Tree, calls: seq<Call>, t': Tree, calls': seq<Call>, i: nat)
    requires IsAbs(dl.targetPath) && Permitted(dl, plan, root)
    requires RunWithin(loc, t, calls, t', calls', Targets(dl, plan), Sidecars(dl, plan) + Prunes(dl, plan, root))
    requires |calls| <= i < |calls'|
    ensures IsClean(calls'[i].path) && Below(Parse(BaseOf(dl)), Parse(calls'[i].path))
  {
    AbsoluteIsSound(dl);
    PlanIsConfined(dl, plan, root, calls'[i].path);
  }

  /** Whatever a run does, complete or not, every node that is not strictly below the base survives it, the base included. */
  lemma OutsideSurvives(loc: Resolver, cwd: Loc, dl: Record, plan: Plan, root: string,
                        t: Tree, calls: seq<Call>, t': Tree, calls': seq<Call>, l: Loc)
    requires Permitted(dl, plan, root) && BaseOf(dl) != "" && Sound(BaseOf(dl)) && LexicalFrom(loc, cwd)
    requires RunWithin(loc, t, calls, t', calls', Targets(dl, plan), Sidecars(dl, plan) + Prunes(dl, plan, root))
    requires l in t && !(loc(BaseOf(dl)) < l)
    ensures l in t' && t'[l] == t[l]
  {
    if l !in t' {
      var x := Culprit(loc, t, t', Targets(dl, plan), Sidecars(dl, plan) + Prunes(dl, plan, root), l);
      TouchedIsBelow(loc, cwd, dl, plan, root, x);
      assert false;
    }
  }

  lemma Culprit(loc: Resolver, t: Tree, t': Tree, targets: seq<string>, singles: set<string>, l: Loc) returns (x: string)
    requires LostOnly(t, t', Locs(loc, targets), LocsOf(loc, singles)) && l in t && l !in t'
    ensures (x in targets || x in singles) && loc(x) <= l
  {
    if l in LocsOf(loc, singles) {
      x :| x in singles && loc(x) == l;
    } else {
      var q :| q in Locs(loc, targets) && q <= l;
      x :| x in Elements(targets) && loc(x) == q;
    }
  }

  lemma TouchedIsBelow(loc: Resolver, cwd: Loc, dl: Record, plan: Plan, root: string, x: string)
    requires Permitted(dl, plan, root) && BaseOf(dl) != "" && Sound(BaseOf(dl)) && LexicalFrom(loc, cwd)
    requires Touches(dl, plan, root, x)
    ensures loc(BaseOf(dl)) < loc(x)
  {
    var base := BaseOf(dl);
    BaseOfIsBase(dl);
    PlanIsConfined(dl, plan, root, x);
    LocateSafe(cwd, base, x);
    assert |Parse(x).names| > |AnchorNames(base)|;
  }
}
