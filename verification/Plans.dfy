/**
 Which paths a deletion plans for, said without the steps that lead there: the payloads, the targets, the
 sidecars, when the tag-stripped root counts as owned, and which directory is taken for the root.
 */
module Plans {
  import opened Text
  import opened Paths
  import opened Tags
  import opened Records
  import opened FileSystem
  import opened Planner
  import D = Deletion

  // ----- Payloads and targets -----

  /** aria2's own list counts while the download has a GID and the list is not empty. */
  predicate Reported(dl: Record, reported: seq<string>) {
    dl.gid != "" && reported != []
  }

  /** `q` is one of the download's payload paths. */
  predicate Payload(dl: Record, reported: seq<string>, q: string) {
    if Reported(dl, reported) then q in reported else exists f | f in dl.files :: f.path == q
  }

  lemma PayloadsExactly(dl: Record, reported: seq<string>, q: string)
    ensures q in Payloads(dl, reported) <==> Payload(dl, reported, q)
  {
    var paths := FilePaths(dl.files);
    if q in paths {
      var i :| 0 <= i < |paths| && paths[i] == q;
      assert dl.files[i].path == q;
    }
    if f :| f in dl.files && f.path == q {
      var i :| 0 <= i < |dl.files| && dl.files[i] == f;
      assert paths[i] == q;
    }
  }

  lemma NormalExactly(base: string, ps: seq<string>, p: string)
    ensures p in NormalAll(base, ps) <==> exists q | q in ps :: p == Normal(base, q)
  {
    var ns := NormalAll(base, ps);
    if p in ns {
      var i :| 0 <= i < |ns| && ns[i] == p;
      assert ps[i] in ps && p == Normal(base, ps[i]);
    }
    if q :| q in ps && p == Normal(base, q) {
      var i :| 0 <= i < |ps| && ps[i] == q;
      assert ns[i] == p;
    }
  }

  /** `p` comes from a payload, or from the name when there is no payload. */
  ghost predicate Candidate(dl: Record, reported: seq<string>, p: string) {
    || (exists q | Payload(dl, reported, q) :: p == Normal(BaseOf(dl), q))
    || (!Reported(dl, reported) && dl.files == [] && dl.targetPath != "" && dl.name != "" && p == Normal(BaseOf(dl), dl.name))
  }

  lemma CandidatesExactly(dl: Record, reported: seq<string>, p: string)
    ensures p in NormalAll(BaseOf(dl), Candidates(dl, Payloads(dl, reported))) <==> Candidate(dl, reported, p)
  {
    var base, payloads := BaseOf(dl), Payloads(dl, reported);
    NormalExactly(base, Candidates(dl, payloads), p);
    forall q ensures q in payloads <==> Payload(dl, reported, q) { PayloadsExactly(dl, reported, q); }
    if payloads == [] {
      assert forall q :: !Payload(dl, reported, q);
    } else {
      assert payloads[0] in payloads;
    }
  }

  /** What is removed with all its contents: the candidates, the exact name when it is safe, the stripped name when it is owned. */
  lemma TargetsExactly(dl: Record, reported: seq<string>, tree: Tree, loc: Resolver, p: string)
    ensures var base := BaseOf(dl);
            p in Targets(dl, PlanFor(dl, reported, tree, loc)) <==>
              || Candidate(dl, reported, p)
              || (dl.name != "" && Safe(base, Join(base, dl.name)) && p == Join(base, dl.name))
              || (TrimmedOwned(dl, tree, loc) && p == Join(base, StripTags(dl.name)))
  {
    CandidatesExactly(dl, reported, p);
    if TrimmedOwned(dl, tree, loc) { TrimmedIsClean(dl); }
    if dl.name != "" { JoinIsClean(BaseOf(dl), dl.name); }
  }

  // ----- Sidecars -----

  /** `s` is the sidecar of a root: `.aria2` for all, `.torrent` for torrents only. */
  predicate SidecarOf(root: string, source: string, s: string) {
    s == root + ".aria2" || (s == root + ".torrent" && IsTorrentSource(source))
  }

  /** The sidecars next to payloads. */
  lemma AdjacentExactly(dl: Record, reported: seq<string>, s: string)
    ensures (exists p | p in NormalAll(BaseOf(dl), Payloads(dl, reported)) :: s == p + ARIA2) <==>
            (exists q | Payload(dl, reported, q) :: s == Normal(BaseOf(dl), q) + ".aria2")
  {
    var base, payloads := BaseOf(dl), Payloads(dl, reported);
    if p :| p in NormalAll(base, payloads) && s == p + ARIA2 {
      NormalExactly(base, payloads, p);
      var q :| q in payloads && p == Normal(base, q);
      PayloadsExactly(dl, reported, q);
    }
    if q :| Payload(dl, reported, q) && s == Normal(base, q) + ".aria2" {
      PayloadsExactly(dl, reported, q);
      NormalExactly(base, payloads, Normal(base, q));
    }
  }

  lemma SidecarsOfExactly(root: string, source: string, s: string)
    ensures s in SidecarsOf(root, IsTorrentSource(source)) <==> SidecarOf(root, source, s)
  {}

  /** The sidecars are those of the payloads, for aria2 only, of the name, and of the stripped name when it is owned. */
  lemma SidecarsExactly(dl: Record, reported: seq<string>, tree: Tree, loc: Resolver, s: string)
    ensures var base := BaseOf(dl);
            s in Sidecars(dl, PlanFor(dl, reported, tree, loc)) <==>
              || (exists q | Payload(dl, reported, q) :: s == Normal(base, q) + ".aria2")
              || (dl.name != "" && SidecarOf(Join(base, dl.name), dl.source, s))
              || (TrimmedOwned(dl, tree, loc) && SidecarOf(Join(base, StripTags(dl.name)), dl.source, s))
  {
    AdjacentExactly(dl, reported, s);
    SidecarsOfExactly(Exact(dl), dl.source, s);
    SidecarsOfExactly(Trimmed(dl), dl.source, s);
  }

  /** The same characters but for the case of ASCII letters; `small` has only small ones. */
  predicate SpellsInAnyCase(s: string, small: string) {
    && |s| == |small|
    && forall i | 0 <= i < |s| :: s[i] == small[i] || ('a' <= small[i] <= 'z' && s[i] as int + 32 == small[i] as int)
  }

  lemma SpelledInAnyCase(s: string, small: string)
    requires forall i | 0 <= i < |small| :: !('A' <= small[i] <= 'Z')
    ensures ToLower(s) == small <==> SpellsInAnyCase(s, small)
  {
    if ToLower(s) == small {
      forall i | 0 <= i < |s| ensures s[i] == small[i] || ('a' <= small[i] <= 'z' && s[i] as int + 32 == small[i] as int) {
        assert ToLower(s)[i] == small[i];
      }
    }
    if SpellsInAnyCase(s, small) {
      forall i | 0 <= i < |s| ensures ToLower(s)[i] == small[i] {}
    }
  }

  /** A source is a torrent exactly when it begins with `magnet:` or ends in `.torrent`, in any case. */
  lemma TorrentIff(source: string)
    ensures IsTorrentSource(source) <==>
              || (|source| >= 7 && SpellsInAnyCase(source[..7], "magnet:"))
              || (|source| >= 8 && SpellsInAnyCase(source[|source| - 8..], ".torrent"))
  {
    var low := ToLower(source);
    if |source| >= 7 {
      assert low[..7] == ToLower(source[..7]);
      SpelledInAnyCase(source[..7], "magnet:");
      assert "magnet:" <= low <==> low[..7] == "magnet:";
    }
    if |source| >= 8 {
      assert low[|low| - 8..] == ToLower(source[|source| - 8..]);
      SpelledInAnyCase(source[|source| - 8..], ".torrent");
    }
  }

  // ----- Ownership of the stripped name -----

  /** A file below the stripped root that has the name of a recorded file. */
  predicate Recognised(dl: Record, tree: Tree, root: Loc, l: Loc) {
    root <= l && l in tree && tree[l] == File && exists f | f in dl.files :: Base(f.path) == LastName(l)
  }

  lemma FoundExactly(dl: Record, tree: Tree, root: Loc, n: string)
    ensures n in Found(FilesBelow(tree, root), Expected(dl)) <==> exists l | l in tree && Recognised(dl, tree, root, l) :: LastName(l) == n
  {}

  lemma TwoDistinct(names: set<string>)
    ensures |names| >= 2 <==> exists x, y | x in names && y in names :: x != y
  {
    if |names| >= 2 {
      var x :| x in names;
      assert |names - {x}| >= 1;
      var y :| y in names - {x};
    }
    if x, y :| x in names && y in names && x != y {
      D.SubsetSize({x, y}, names);
    }
  }

  /** Two recognised files with different names. */
  ghost predicate TwoRecognised(dl: Record, tree: Tree, root: Loc) {
    exists l, m | l in tree && m in tree :: Recognised(dl, tree, root, l) && Recognised(dl, tree, root, m) && LastName(l) != LastName(m)
  }

  lemma TwoFoundIff(dl: Record, tree: Tree, root: Loc)
    ensures |Found(FilesBelow(tree, root), Expected(dl))| >= 2 <==> TwoRecognised(dl, tree, root)
  {
    var found := Found(FilesBelow(tree, root), Expected(dl));
    TwoDistinct(found);
    if x, y :| x in found && y in found && x != y {
      FoundExactly(dl, tree, root, x);
      FoundExactly(dl, tree, root, y);
      var l :| l in tree && Recognised(dl, tree, root, l) && LastName(l) == x;
      var m :| m in tree && Recognised(dl, tree, root, m) && LastName(m) == y;
    }
    if l, m :| l in tree && m in tree && Recognised(dl, tree, root, l) && Recognised(dl, tree, root, m) && LastName(l) != LastName(m) {
      FoundExactly(dl, tree, root, LastName(l));
      FoundExactly(dl, tree, root, LastName(m));
    }
  }

  /** The stripped root is owned exactly when tags were stripped off, it is safe, and its sidecar or two recorded names are on disk. */
  lemma OwnedIff(dl: Record, tree: Tree, loc: Resolver)
    ensures var stripped := StripTags(dl.name);
            TrimmedOwned(dl, tree, loc) <==>
              && stripped != "" && stripped != dl.name && Safe(BaseOf(dl), Join(BaseOf(dl), stripped))
              && (loc(Join(BaseOf(dl), stripped) + ".aria2") in tree || TwoRecognised(dl, tree, loc(Join(BaseOf(dl), stripped))))
  {
    TwoFoundIff(dl, tree, loc(Trimmed(dl)));
    if dl.name == "" {
      var tags := StripTagsMeaning("");
      assert |TrimSpace("")| == 0 && Concat(tags) + StripTags("") == "";
    }
  }

  // ----- The root -----

  /** A target goes through the directory named `s` right below the base. */
  predicate GoesThrough(base: string, p: string, s: string) {
    var b, q := Parse(base).names, Parse(p).names;
    |q| >= |b| + 2 && q[|b|] == s && !(".." <= s)
  }

  /** Some target goes through `s`, and none through another directory. */
  ghost predicate OnlyThrough(base: string, targets: seq<string>, s: string) {
    && (exists p | p in targets :: GoesThrough(base, p, s))
    && (forall p, other | p in targets && GoesThrough(base, p, other) :: other == s)
  }

  lemma HeadsExactly(base: string, targets: seq<string>, s: string)
    requires IsClean(base) && base != "" && forall p | p in targets :: IsClean(p) && Safe(base, p)
    ensures s in Heads(base, targets) <==> exists p | p in targets :: GoesThrough(base, p, s)
  {
    if p :| p in targets && GoesThrough(base, p, s) { HeadExact(base, p); }
    if s in Heads(base, targets) {
      var p :| p in targets && HeadOf(base, p) == Some(s);
      HeadExact(base, p);
    }
  }

  lemma OneHeadIff(base: string, targets: seq<string>, s: string)
    requires IsClean(base) && base != "" && forall p | p in targets :: IsClean(p) && Safe(base, p)
    ensures Heads(base, targets) == {s} <==> OnlyThrough(base, targets, s)
  {
    var heads := Heads(base, targets);
    HeadsExactly(base, targets, s);
    if heads == {s} {
      forall p, other | p in targets && GoesThrough(base, p, other) ensures other == s { HeadsExactly(base, targets, other); }
    }
    if OnlyThrough(base, targets, s) {
      forall n | n in heads ensures n == s { HeadsExactly(base, targets, n); }
      assert heads == {s};
    }
  }

  /** When all targets that go through some directory below the base go through the same one, that is the root. */
  lemma RootIsCommon(base: string, targets: seq<string>, root: string, s: string)
    requires IsClean(base) && base != "" && forall p | p in targets :: IsClean(p) && Safe(base, p)
    requires OnlyThrough(base, targets, s)
    ensures IsRoot(base, targets, root) <==> root == Join(base, s)
  {
    OneHeadIff(base, targets, s);
    RootOfOneHead(base, targets, root, s);
  }

  lemma RootOfOneHead(base: string, targets: seq<string>, root: string, s: string)
    requires Heads(base, targets) == {s}
    ensures IsRoot(base, targets, root) <==> root == Join(base, s)
  {
    assert s in Heads(base, targets) && |{s}| == 1;
  }

  /** Otherwise it is the base: when none goes through any, or two through different ones. */
  lemma RootIsBase(base: string, targets: seq<string>, root: string)
    requires IsClean(base) && base != "" && forall p | p in targets :: IsClean(p) && Safe(base, p)
    requires forall s :: !OnlyThrough(base, targets, s)
    ensures IsRoot(base, targets, root) <==> root == base
  {
    var heads := Heads(base, targets);
    if |heads| == 1 {
      var s := TheOne(heads);
      OneHeadIff(base, targets, s);
    }
  }

  lemma TheOne(names: set<string>) returns (s: string)
    requires |names| == 1
    ensures names == {s}
  {
    s :| s in names;
    assert |names - {s}| == 0;
  }

  // ----- The prune list -----

  /** `d` is a proper ancestor of `p` strictly below the base, or below the file-system root when there is no base. */
  predicate Between(base: string, d: string, p: string) {
    IsClean(d) && Extends(if base == "" then Path(true, []) else Parse(base), Parse(d)) && Extends(Parse(d), Parse(p))
  }

  lemma AncestorIffBetween(base: string, p: string, d: string)
    requires IsBase(base) && IsClean(p) && Safe(base, p)
    ensures d in Ancestors(base, p) <==> Between(base, d, p)
  {
    if base == "" { AncestorsOfAbsolute(p, d); } else { AncestorsExact(base, p, d); }
  }

  /** Of an accepted plan exactly the directories between the base and a candidate are pruned, and the root when it is not the base. */
  lemma PrunesExactly(dl: Record, reported: seq<string>, tree: Tree, loc: Resolver, root: string, d: string)
    requires !Refuses(dl, PlanFor(dl, reported, tree, loc))
    ensures d in Prunes(dl, PlanFor(dl, reported, tree, loc), root) <==>
              || (exists p :: Candidate(dl, reported, p) && Between(BaseOf(dl), d, p))
              || (root != BaseOf(dl) && d == root)
  {
    var base, ns := BaseOf(dl), NormalAll(BaseOf(dl), Candidates(dl, Payloads(dl, reported)));
    BaseOfIsBase(dl);
    if p :| p in ns && d in Ancestors(base, p) {
      CandidatesExactly(dl, reported, p);
      NormalIsSafe(base, Candidates(dl, Payloads(dl, reported)), p);
      AncestorIffBetween(base, p, d);
    }
    if p :| Candidate(dl, reported, p) && Between(base, d, p) {
      CandidatesExactly(dl, reported, p);
      NormalIsSafe(base, Candidates(dl, Payloads(dl, reported)), p);
      AncestorIffBetween(base, p, d);
    }
  }

  lemma NormalIsSafe(base: string, ps: seq<string>, p: string)
    requires AllSafe(base, NormalAll(base, ps)) && p in NormalAll(base, ps)
    ensures IsClean(p) && Safe(base, p)
  {
    NormalExactly(base, ps, p);
    var q :| q in ps && p == Normal(base, q);
    NormalIsClean(base, q);
  }

  // ----- The last name of a path -----

  lemma {:induction false} SlashesStripped(t: string, k: nat)
    requires t == "" || t[|t| - 1] != '/'
    ensures StripSlashes(t + seq(k, _ => '/')) == t
    decreases k
  {
    var s := t + seq(k, _ => '/');
    if k == 0 {
      assert s == t;
    } else {
      assert s[..|s| - 1] == t + seq(k - 1, _ => '/');
      SlashesStripped(t, k - 1);
    }
  }

  /** `filepath.Base`: the last name, whatever stands before it and however many separators behind it. */
  lemma BaseIsLastName(before: string, c: string, k: nat)
    requires c != "" && '/' !in c && (before == "" || before[|before| - 1] == '/')
    ensures Base(before + c + seq(k, _ => '/')) == c
  {
    var t := before + c;
    assert t[|t| - 1] == c[|c| - 1];
    SlashesStripped(t, k);
    SplitOfName(c);
    if before == "" {
      assert t == c;
    } else {
      var x := before[..|before| - 1];
      assert t == x + "/" + c;
      SplitAtSlash(x, c);
    }
  }

  lemma BaseOfNothing(k: nat)
    ensures Base(seq(k, _ => '/')) == if k == 0 then "." else "/"
  {
    SlashesStripped("", k);
    assert "" + seq(k, _ => '/') == seq(k, _ => '/');
    assert Split("") == [""];
  }

  // ----- The calls of a run -----

  /** The root was among the directories tried, and has gone. */
  predicate RootPruned(dirs: seq<string>, rs: seq<IOResult>, root: string)
    requires |dirs| == |rs|
  {
    exists i | 0 <= i < |dirs| :: dirs[i] == root && rs[i] == Done
  }

  lemma {:induction false} PruneLogCounted(dirs: seq<string>, rs: seq<IOResult>, root: string, allowed: bool)
    requires |dirs| == |rs| && forall i, j | 0 <= i < j < |dirs| :: dirs[i] != dirs[j]
    ensures |D.PruneLog(dirs, rs, root, allowed)| == |dirs| + if allowed && RootPruned(dirs, rs, root) then 1 else 0
    decreases |dirs|
  {
    if dirs != [] {
      var n := |dirs| - 1;
      PruneLogCounted(dirs[..n], rs[..n], root, allowed);
      if i :| 0 <= i < |dirs| && dirs[i] == root && rs[i] == Done {
        if i < n { assert dirs[..n][i] == root && rs[..n][i] == Done; }
      }
    }
  }

  /** A run makes one call for each path it tries, and one more for the sidecar of a root it has pruned under one of the download's names. */
  lemma CallsCounted(dl: Record, plan: Plan, root: string, loc: Resolver, faults: nat -> Fault, t: Tree, calls: seq<Call>,
                     t': Tree, calls': seq<Call>, log: D.Log, ok: bool)
    requires D.Explained(dl, plan, root, loc, faults, t, calls, t', calls', Targets(dl, plan), log, ok)
    ensures var base := BaseOf(dl);
            var named := dl.name != "" && (root == Join(base, dl.name) || (plan.owned && root == Join(base, StripTags(dl.name))));
            |calls'| == |calls| + |log.targets| + |log.sidecars| + |log.dirs| + if named && RootPruned(log.dirs, log.results, root) then 1 else 0
  {
    PruneLogCounted(log.dirs, log.results, root, D.TakesSidecar(dl, plan, root));
  }
}
