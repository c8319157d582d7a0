/**
 What `Adapter.Delete` may touch, as functions of the download record, the payload paths aria2
 reports and the tree on disk; and what those functions promise.
 */
module Planner {
  import opened Text
  import opened Paths
  import opened Tags
  import opened Records
  import opened FileSystem

  const ARIA2 := ".aria2"
  const TORRENT := ".torrent"

  // ----- Candidates -----

  function BaseOf(dl: Record): string {
    if dl.targetPath == "" then "" else Clean(dl.targetPath)
  }

  /** `isSafe`. */
  predicate Safe(base: string, p: string) {
    if base == "" then IsAbs(p) else PrefixTest(base, p)
  }

  function Normal(base: string, p: string): string {
    Clean(if IsAbs(p) then p else Join(base, p))
  }

  function NormalAll(base: string, ps: seq<string>): (r: seq<string>)
    ensures |r| == |ps| && forall i | 0 <= i < |ps| :: r[i] == Normal(base, ps[i])
  {
    seq(|ps|, i requires 0 <= i < |ps| => Normal(base, ps[i]))
  }

  function FilePaths(files: seq<DownloadFile>): (r: seq<string>)
    ensures |r| == |files| && forall i | 0 <= i < |files| :: r[i] == files[i].path
  {
    seq(|files|, i requires 0 <= i < |files| => files[i].path)
  }

  /** The payload paths: those aria2 reports while the download has a GID, else the recorded ones. */
  function Payloads(dl: Record, reported: seq<string>): seq<string> {
    if dl.gid != "" && reported != [] then reported else FilePaths(dl.files)
  }

  function Candidates(dl: Record, payloads: seq<string>): seq<string> {
    if payloads != [] then payloads
    else if dl.targetPath != "" && dl.name != "" then [dl.name]
    else []
  }

  function Exact(dl: Record): string {
    Join(BaseOf(dl), dl.name)
  }

  function Trimmed(dl: Record): string {
    Join(BaseOf(dl), StripTags(dl.name))
  }

  // ----- Ownership of the tag-stripped root -----

  function LastName(l: Loc): string {
    if l == [] then "/" else l[|l| - 1]
  }

  function Expected(dl: Record): set<string> {
    set f | f in dl.files :: Base(f.path)
  }

  function FilesBelow(tree: Tree, at: Loc): set<Loc> {
    set l | l in tree && at <= l && tree[l] == File
  }

  /** The expected names that occur below a place. */
  function Found(files: set<Loc>, expected: set<string>): set<string> {
    set l | l in files && LastName(l) in expected :: LastName(l)
  }

  /** The tag-stripped root belongs to the download: its sidecar exists, or two expected names lie below it. */
  predicate TrimmedOwned(dl: Record, tree: Tree, loc: Resolver) {
    var stripped, cand := StripTags(dl.name), Trimmed(dl);
    && dl.name != "" && stripped != "" && stripped != dl.name && Safe(BaseOf(dl), cand)
    && (|| loc(cand + ARIA2) in tree
        || |Found(FilesBelow(tree, loc(cand)), Expected(dl))| >= 2)
  }

  // ----- The plan -----

  datatype Plan = Plan(payloads: seq<string>, candidates: seq<string>, owned: bool)

  function PlanFor(dl: Record, reported: seq<string>, tree: Tree, loc: Resolver): Plan {
    var payloads := Payloads(dl, reported);
    Plan(payloads, Candidates(dl, payloads), TrimmedOwned(dl, tree, loc))
  }

  function RootTargets(dl: Record, owned: bool): seq<string> {
    (if dl.name != "" && Safe(BaseOf(dl), Exact(dl)) then [Clean(Exact(dl))] else [])
    + (if owned then [Clean(Trimmed(dl))] else [])
  }

  /** The paths given to `RemoveAll`, before duplicates are dropped. */
  function Targets(dl: Record, plan: Plan): seq<string> {
    NormalAll(BaseOf(dl), plan.candidates) + RootTargets(dl, plan.owned)
  }

  predicate IsTorrentSource(src: string) {
    "magnet:" <= ToLower(src) || HasSuffix(ToLower(src), TORRENT)
  }

  /** Sidecars of a root: always `.aria2`, and `.torrent` for a torrent source. */
  function SidecarsOf(root: string, torrent: bool): set<string> {
    {root + ARIA2} + if torrent then {root + TORRENT} else {}
  }

  /** The three ownership rules: next to a payload, of the exact name, of the proven tag-stripped name. */
  function Sidecars(dl: Record, plan: Plan): set<string> {
    (set p | p in NormalAll(BaseOf(dl), plan.payloads) :: p + ARIA2)
    + (if dl.name != "" then SidecarsOf(Exact(dl), IsTorrentSource(dl.source)) else {})
    + (if plan.owned then SidecarsOf(Trimmed(dl), IsTorrentSource(dl.source)) else {})
  }

  /** First name of a target below the base, when more names follow. */
  function HeadOf(base: string, p: string): Option<string> {
    var rel := RelTo(base, p);
    if rel.Rel? && !(".." <= rel.text) && |Split(rel.text)| > 1 then Some(Split(rel.text)[0]) else None
  }

  /** The first names of the targets that have further names behind them. */
  function Heads(base: string, targets: seq<string>): set<string> {
    set p | p in targets && HeadOf(base, p).Some? :: HeadOf(base, p).value
  }

  /** `root` is the inferred download root: the one head joined to the base, or the base. */
  ghost predicate IsRoot(base: string, targets: seq<string>, root: string) {
    var heads := Heads(base, targets);
    if |heads| == 1 then exists s | s in heads :: root == Join(base, s) else root == base
  }

  /** The directories the ancestor loop collects from `d` upwards. */
  function Chain(base: string, d: string): set<string>
    requires IsClean(d)
    decreases |Parse(d).names|
  {
    if d == base || d == "/" || d == "." then {}
    else
      DirShrinks(d);
      {d} + Chain(base, Dir(d))
  }

  lemma DirShrinks(d: string)
    requires IsClean(d) && d != "/" && d != "."
    ensures IsClean(Dir(d)) && |Parse(Dir(d)).names| < |Parse(d).names|
  {
    CleanIdempotent(UpToLastSlash(d));
    ParseIsCanonical(d);
    var p := Parse(d);
    DirIsParent(p);
    ParseRender(Parent(p));
  }

  lemma DirIsClean(p: string)
    ensures IsClean(Dir(p))
  {
    CleanIdempotent(UpToLastSlash(p));
  }

  function Ancestors(base: string, p: string): set<string> {
    DirIsClean(p);
    Chain(base, Dir(p))
  }

  function AllAncestors(base: string, ps: seq<string>): set<string> {
    set p, d | p in ps && d in Ancestors(base, p) :: d
  }

  /** The directories to prune: ancestors of the candidates, and the root when it is not the base. */
  function Prunes(dl: Record, plan: Plan, root: string): set<string> {
    AllAncestors(BaseOf(dl), NormalAll(BaseOf(dl), plan.candidates))
    + (if root != BaseOf(dl) then {root} else {})
  }

  predicate AllSafe(base: string, ps: seq<string>) {
    forall p | p in ps :: Safe(base, p)
  }

  /** Some candidate or sidecar falls outside the base. */
  predicate Refuses(dl: Record, plan: Plan) {
    || !AllSafe(BaseOf(dl), NormalAll(BaseOf(dl), plan.candidates))
    || exists s | s in Sidecars(dl, plan) :: !Safe(BaseOf(dl), Clean(s))
  }

  /** A plan that is carried out, with the root inferred for it. */
  ghost predicate Permitted(dl: Record, plan: Plan, root: string) {
    && !Refuses(dl, plan) && IsRoot(BaseOf(dl), Targets(dl, plan), root)
    && (plan.owned ==> Safe(BaseOf(dl), Trimmed(dl)))
  }

  // ----- What is safe, and where it lies -----

  /** A base as `Delete` computes it. */
  predicate IsBase(base: string) {
    base == "" || IsClean(base)
  }

  lemma BaseOfIsBase(dl: Record)
    ensures IsBase(BaseOf(dl))
  {
    CleanIdempotent(dl.targetPath);
  }

  lemma SafeIsExtension(base: string, p: string)
    requires IsBase(base) && base != "" && IsClean(p)
    ensures Safe(base, p) <==> base != "." && Extends(Parse(base), Parse(p))
  {
    CleanIdempotent(base);
    CleanIdempotent(p);
    PrefixIsExtension(Parse(base), Parse(p));
  }

  /** The prefix test confines: below a base that does not end in "..", safe means strictly below. */
  lemma SafeIsBelow(base: string, p: string)
    requires IsBase(base) && base != "" && IsClean(p) && Descending(Parse(base)) && Safe(base, p)
    ensures Below(Parse(base), Parse(p))
  {
    CleanIdempotent(base);
    CleanIdempotent(p);
    SafeIsExtension(base, p);
    assert Parse(".") == Path(false, []) by { SplitOfName("."); assert Reduce(false, [], ["."]) == []; }
    assert Render(Parse(base)) == base;
    ExtensionIsBelow(Parse(base), Parse(p));
  }

  lemma NormalIsClean(base: string, p: string)
    ensures IsClean(Normal(base, p))
  {
    CleanIdempotent(if IsAbs(p) then p else Join(base, p));
  }

  lemma JoinIsClean(base: string, s: string)
    requires base != "" || s != ""
    ensures IsClean(Join(base, s)) && Join(base, s) != ""
  {
    var t := if base != "" then base + "/" + s else s;
    CleanIdempotent(t);
    if Parse(t).names != [] { UnsplitNonEmpty(Parse(t).names); }
  }

  // ----- The ancestor loop -----

  /** The loop stops, and has collected exactly the directories strictly between the base and the path. */
  lemma {:induction false} ChainExact(base: string, d: string, x: string)
    requires IsClean(base) && base != "." && IsClean(d) && Parse(base).rooted == Parse(d).rooted
    requires Parse(base).names <= Parse(d).names
    ensures x in Chain(base, d) <==>
            IsClean(x) && Extends(Parse(base), Parse(x)) && Parse(x).names <= Parse(d).names
    decreases |Parse(d).names|
  {
    var b, p, y := Parse(base), Parse(d), Parse(x);
    ParseIsCanonical(d);
    ParseIsCanonical(base);
    if d == base || d == "/" || d == "." {
      assert p.names == b.names by { assert Render(p) == d && Render(b) == base; AtTop(p); }
    } else {
      DirShrinks(d);
      DirIsParent(p);
      ParseRender(Parent(p));
      assert b != p by { assert Render(p) == d && Render(b) == base; }
      ChainExact(base, Dir(d), x);
      if IsClean(x) && y.rooted == p.rooted && y.names <= p.names {
        if |y.names| == |p.names| { assert y == p; assert x == d; } else { assert y.names <= Parent(p).names; }
      }
    }
  }

  lemma AtTop(p: Path)
    requires Canonical(p)
    ensures Render(p) == "/" ==> p == Path(true, [])
    ensures Render(p) == "." ==> p == Path(false, [])
  {
    ParseRender(p);
    ParseRender(Path(true, []));
    ParseRender(Path(false, []));
    assert Render(Path(true, [])) == "/" && Render(Path(false, [])) == ".";
  }

  /** For a safe path the loop collects exactly its proper ancestors strictly below the base. */
  lemma AncestorsExact(base: string, p: string, x: string)
    requires IsClean(base) && base != "" && IsClean(p) && Safe(base, p)
    ensures x in Ancestors(base, p) <==>
            IsClean(x) && Extends(Parse(base), Parse(x)) && Extends(Parse(x), Parse(p))
  {
    SafeIsExtension(base, p);
    ParseIsCanonical(p);
    DirIsParent(Parse(p));
    DirIsClean(p);
    ParseRender(Parent(Parse(p)));
    ChainExact(base, Dir(p), x);
  }

  /** Without a base the loop collects every proper ancestor but the file-system root. */
  lemma AncestorsOfAbsolute(p: string, x: string)
    requires IsClean(p) && IsAbs(p)
    ensures x in Ancestors("", p) <==> IsClean(x) && Extends(Path(true, []), Parse(x)) && Extends(Parse(x), Parse(p))
  {
    ParseIsCanonical(p);
    if Parse(p).names == [] {
      assert p == "/";
      assert Ancestors("", p) == {} by { DirIsClean(p); assert Dir("/") == "/"; }
    } else {
      DirIsParent(Parse(p));
      DirIsClean(p);
      ParseRender(Parent(Parse(p)));
      ParseRender(Path(true, []));
      ChainWithoutBase(Dir(p));
      ChainExact("/", Dir(p), x);
    }
  }

  lemma {:induction false} ChainWithoutBase(d: string)
    requires IsClean(d)
    ensures Chain("", d) == Chain("/", d)
    decreases |Parse(d).names|
  {
    if d != "/" && d != "." {
      DirShrinks(d);
      ChainWithoutBase(Dir(d));
      ParseIsCanonical(d);
      if Parse(d).names != [] { UnsplitNonEmpty(Parse(d).names); }
    }
  }

  // ----- The inferred root -----

  lemma CommonOfPrefix(xs: seq<string>, ys: seq<string>)
    requires xs <= ys
    ensures CommonLength(xs, ys) == |xs|
  {
    assert forall i | 0 <= i < |xs| :: xs[i] == ys[i];
  }

  lemma RelOfExtension(base: string, p: string)
    requires IsClean(base) && IsClean(p) && Extends(Parse(base), Parse(p))
    ensures RelTo(base, p) == Rel(Unsplit(Parse(p).names[|Parse(base).names|..]))
  {
    var b, q := Parse(base), Parse(p);
    CommonOfPrefix(b.names, q.names);
    assert seq(|b.names| - |b.names|, _ => "..") + q.names[|b.names|..] == q.names[|b.names|..];
  }

  /** The head of a safe target is the name right below the base, when more follow and it does not start with two dots. */
  lemma HeadExact(base: string, p: string)
    requires IsClean(base) && base != "" && IsClean(p) && Safe(base, p)
    ensures var b, q := Parse(base), Parse(p);
            && |q.names| > |b.names|
            && HeadOf(base, p) == if |q.names| >= |b.names| + 2 && !(".." <= q.names[|b.names|])
                                  then Some(q.names[|b.names|]) else None
  {
    SafeIsExtension(base, p);
    RelOfExtension(base, p);
    ParseIsCanonical(p);
    var rest := Parse(p).names[|Parse(base).names|..];
    SplitUnsplit(rest);
    assert Plain(rest[0]);
    assert |rest| > 1 ==> Unsplit(rest) == rest[0] + "/" + Unsplit(rest[1..]);
    if |rest| > 1 { DotsInFirst(rest); }
  }

  lemma DotsInFirst(rest: seq<string>)
    requires |rest| > 1 && Plain(rest[0])
    ensures ".." <= Unsplit(rest) <==> ".." <= rest[0]
  {
    var u := Unsplit(rest);
    assert u == rest[0] + "/" + Unsplit(rest[1..]);
    assert u[0] == rest[0][0];
    if |rest[0]| == 1 { assert u[1] == '/'; } else { assert u[1] == rest[0][1]; }
  }

  lemma NoHeadWithoutBase(p: string)
    ensures IsAbs(p) ==> HeadOf("", p) == None
  {
    assert Parse("") == Path(false, []) by { assert Split("") == [""]; assert Reduce(false, [], [""]) == []; }
  }

  lemma JoinOfName(base: string, s: string)
    requires IsClean(base) && base != "" && base != "." && Plain(s) && s != ".."
    ensures IsClean(Join(base, s)) && Parse(Join(base, s)) == Parse(base).(names := Parse(base).names + [s])
  {
    var b := Parse(base);
    ParseIsCanonical(base);
    SplitOfName(s);
    assert Render(Path(false, [])) == ".";
    JoinIsReduce(b, s);
    assert Reduce(b.rooted, b.names, [s]) == Reduce(b.rooted, b.names + [s], []) == b.names + [s];
    ParseRender(b.(names := b.names + [s]));
  }

  lemma RootThrough(base: string, p: string)
    requires IsClean(base) && base != "" && IsClean(p) && Safe(base, p) && HeadOf(base, p).Some?
    ensures var root := Join(base, HeadOf(base, p).value);
            && IsClean(root) && Extends(Parse(root), Parse(p))
            && Extends(Parse(base), Parse(root)) && |Parse(root).names| == |Parse(base).names| + 1
  {
    var s := HeadOf(base, p).value;
    HeadExact(base, p);
    SafeIsExtension(base, p);
    ParseIsCanonical(p);
    var b, q := Parse(base).names, Parse(p).names;
    assert Plain(q[|b|]);
    JoinOfName(base, s);
    assert b + [s] == q[..|b| + 1];
  }

  /** The root is the base, or one plain name right below it that some target passes through. */
  lemma RootMeaning(base: string, targets: seq<string>, root: string)
    requires IsBase(base) && IsRoot(base, targets, root)
    requires forall p | p in targets :: IsClean(p) && Safe(base, p)
    ensures root != base ==>
            && base != "" && IsClean(root)
            && Extends(Parse(base), Parse(root)) && |Parse(root).names| == |Parse(base).names| + 1
            && exists p | p in targets :: Extends(Parse(root), Parse(p))
  {
    if root != base {
      var s :| s in Heads(base, targets) && root == Join(base, s);
      var p :| p in targets && HeadOf(base, p).Some? && HeadOf(base, p).value == s;
      NoHeadWithoutBase(p);
      RootThrough(base, p);
    }
  }

  // ----- Everything the plan names is strictly below the base -----

  lemma TargetsAreSafe(dl: Record, plan: Plan, p: string)
    requires !Refuses(dl, plan) && p in Targets(dl, plan)
    requires plan.owned ==> Safe(BaseOf(dl), Trimmed(dl))
    ensures IsClean(p) && Safe(BaseOf(dl), p)
  {
    var base := BaseOf(dl);
    BaseOfIsBase(dl);
    var ns := NormalAll(base, plan.candidates);
    if p in ns {
      var i :| 0 <= i < |ns| && ns[i] == p;
      NormalIsClean(base, plan.candidates[i]);
    } else if dl.name != "" && Safe(base, Exact(dl)) && p == Clean(Exact(dl)) {
      JoinIsClean(base, dl.name);
    } else {
      assert p == Clean(Trimmed(dl));
      TrimmedIsClean(dl);
    }
  }

  lemma TrimmedIsClean(dl: Record)
    requires Safe(BaseOf(dl), Trimmed(dl))
    ensures IsClean(Trimmed(dl))
  {
    if BaseOf(dl) != "" || StripTags(dl.name) != "" {
      JoinIsClean(BaseOf(dl), StripTags(dl.name));
    }
  }

  /** A sidecar's suffix lands in the last name, so the joined string is already clean. */
  lemma SuffixIsClean(p: string, ext: string)
    requires IsClean(p) && |ext| >= 3 && '/' !in ext
    ensures IsClean(p + ext)
  {
    ParseIsCanonical(p);
    var q := Extended(Parse(p), ext);
    if Parse(p).rooted || Parse(p).names != [] {
      ExtendedIsCanonical(Parse(p), ext);
      AppendText(Parse(p), ext);
      ParseRender(q);
    } else {
      assert p == ".";
      assert Plain("." + ext);
      ParseRender(Path(false, ["." + ext]));
      assert Render(Path(false, ["." + ext])) == p + ext;
    }
  }

  lemma SidecarsOfAreClean(root: string, torrent: bool)
    requires IsClean(root)
    ensures forall s | s in SidecarsOf(root, torrent) :: IsClean(s)
  {
    SuffixIsClean(root, ARIA2);
    SuffixIsClean(root, TORRENT);
  }

  lemma PayloadSidecarIsClean(base: string, payloads: seq<string>, p: string)
    requires p in NormalAll(base, payloads)
    ensures IsClean(p + ARIA2)
  {
    var i :| 0 <= i < |payloads| && NormalAll(base, payloads)[i] == p;
    NormalIsClean(base, payloads[i]);
    SuffixIsClean(p, ARIA2);
  }

  lemma SidecarsAreClean(dl: Record, plan: Plan)
    requires plan.owned ==> Safe(BaseOf(dl), Trimmed(dl))
    ensures forall s | s in Sidecars(dl, plan) :: IsClean(s)
  {
    forall p | p in NormalAll(BaseOf(dl), plan.payloads) ensures IsClean(p + ARIA2) {
      PayloadSidecarIsClean(BaseOf(dl), plan.payloads, p);
    }
    if plan.owned {
      TrimmedIsClean(dl);
      SidecarsOfAreClean(Trimmed(dl), IsTorrentSource(dl.source));
    }
    if dl.name != "" {
      JoinIsClean(BaseOf(dl), dl.name);
      SidecarsOfAreClean(Exact(dl), IsTorrentSource(dl.source));
    }
  }

  lemma AncestorIsSafe(base: string, p: string, d: string)
    requires IsBase(base) && IsClean(p) && Safe(base, p) && d in Ancestors(base, p)
    ensures IsClean(d) && Safe(base, d) && Extends(Parse(d), Parse(p)) && Parse(d).names != []
  {
    if base == "" {
      AncestorsOfAbsolute(p, d);
      AbsIsRooted(d);
    } else {
      AncestorsExact(base, p, d);
      SafeIsExtension(base, p);
      SafeIsExtension(base, d);
    }
  }

  lemma RootIsSafe(dl: Record, plan: Plan, root: string)
    requires Permitted(dl, plan, root) && root != BaseOf(dl)
    ensures IsClean(root) && Safe(BaseOf(dl), root) && Parse(root).names != []
    ensures exists p | p in Targets(dl, plan) :: Extends(Parse(root), Parse(p))
  {
    var base := BaseOf(dl);
    BaseOfIsBase(dl);
    forall p | p in Targets(dl, plan) ensures IsClean(p) && Safe(base, p) { TargetsAreSafe(dl, plan, p); }
    RootMeaning(base, Targets(dl, plan), root);
    var p :| p in Targets(dl, plan) && Extends(Parse(root), Parse(p));
    SafeIsExtension(base, p);
    SafeIsExtension(base, root);
  }

  /** Every directory on the prune list is clean and safe: the refusal after the deletions cannot happen. */
  lemma PrunesAreSafe(dl: Record, plan: Plan, root: string, d: string)
    requires Permitted(dl, plan, root) && d in Prunes(dl, plan, root)
    ensures IsClean(d) && Safe(BaseOf(dl), d) && Parse(d).names != []
    ensures exists p | p in Targets(dl, plan) :: Extends(Parse(d), Parse(p))
  {
    var base, ns := BaseOf(dl), NormalAll(BaseOf(dl), plan.candidates);
    if p :| p in ns && d in Ancestors(base, p) {
      assert p in Targets(dl, plan);
      BaseOfIsBase(dl);
      TargetsAreSafe(dl, plan, p);
      AncestorIsSafe(base, p, d);
    } else {
      RootIsSafe(dl, plan, root);
    }
  }

  lemma AbsIsRooted(d: string)
    requires IsClean(d)
    ensures IsAbs(d) <==> Parse(d).rooted
  {}

  // ----- Where safe paths lie on disk -----

  /** The base leads down only, so that what is safe is confined. Every absolute or empty base qualifies. */
  predicate Sound(base: string) {
    base == "" || Descending(Parse(base))
  }

  lemma LocateCanonical(cwd: Loc, p: Path)
    requires Canonical(p)
    ensures LocateFrom(cwd, Render(p)) == Reduce(true, if p.rooted then [] else cwd, p.names)
  {
    var start: Loc := if p.rooted then [] else cwd;
    if p.names == [] {
      SplitOfName(".");
      SplitAtSlash("", "");
      assert "" + "/" + "" == "/";
      assert Reduce(true, start, ["", ""]) == Reduce(true, start, [""]) == start;
      assert Reduce(true, start, ["."]) == start;
    } else {
      UnsplitNonEmpty(p.names);
      SplitUnsplit(p.names);
      if p.rooted {
        SplitAtSlash("", Unsplit(p.names));
        assert "" + "/" + Unsplit(p.names) == Render(p);
        assert Split(Render(p)) == [""] + p.names;
        assert ([""] + p.names)[1..] == p.names;
      } else {
        assert Render(p) == Unsplit(p.names);
      }
    }
  }

  lemma {:induction false} ReduceOfDescent(kept: Loc, names: seq<string>)
    requires forall i | 0 <= i < |names| :: Plain(names[i]) && names[i] != ".."
    ensures Reduce(true, kept, names) == kept + names
    decreases |names|
  {
    if names != [] {
      ReduceOfDescent(kept + [names[0]], names[1..]);
      assert kept + [names[0]] + names[1..] == kept + names;
    }
  }

  function AnchorNames(base: string): seq<string> {
    if base == "" then [] else Parse(base).names
  }

  function AnchorLoc(cwd: Loc, base: string): Loc {
    if base == "" then [] else LocateFrom(cwd, base)
  }

  lemma SafeExtendsAnchor(base: string, p: string)
    requires IsBase(base) && Sound(base) && IsClean(p) && Safe(base, p)
    ensures AnchorNames(base) <= Parse(p).names
    ensures forall i | |AnchorNames(base)| <= i < |Parse(p).names| :: Plain(Parse(p).names[i]) && Parse(p).names[i] != ".."
    ensures Parse(p).rooted == (base == "" || Parse(base).rooted)
  {
    ParseIsCanonical(p);
    if base != "" {
      SafeIsExtension(base, p);
      SafeIsBelow(base, p);
      assert Parse(p).names[|Parse(base).names|] != "..";
    } else {
      AbsIsRooted(p);
    }
  }

  lemma ReduceAnchored(start: Loc, anchor: seq<string>, tail: seq<string>)
    requires forall i | 0 <= i < |tail| :: Plain(tail[i]) && tail[i] != ".."
    ensures Reduce(true, start, anchor + tail) == Reduce(true, start, anchor) + tail
  {
    ReduceAppend(true, start, anchor, tail);
    ReduceOfDescent(Reduce(true, start, anchor), tail);
  }

  lemma ReduceTail(start: Loc, anchor: seq<string>, names: seq<string>)
    requires anchor <= names
    requires forall i | |anchor| <= i < |names| :: Plain(names[i]) && names[i] != ".."
    ensures Reduce(true, start, names) == Reduce(true, start, anchor) + names[|anchor|..]
  {
    assert names == anchor + names[|anchor|..];
    ReduceAnchored(start, anchor, names[|anchor|..]);
  }

  /** A safe path lies in the base's place, under the names it adds. */
  lemma LocateSafe(cwd: Loc, base: string, p: string)
    requires IsBase(base) && Sound(base) && IsClean(p) && Safe(base, p)
    ensures AnchorNames(base) <= Parse(p).names
    ensures LocateFrom(cwd, p) == AnchorLoc(cwd, base) + Parse(p).names[|AnchorNames(base)|..]
  {
    SafeExtendsAnchor(base, p);
    ParseIsCanonical(p);
    LocateCanonical(cwd, Parse(p));
    ReduceTail(if Parse(p).rooted then [] else cwd, AnchorNames(base), Parse(p).names);
    if base != "" {
      ParseIsCanonical(base);
      LocateCanonical(cwd, Parse(base));
    }
  }

  /** Places on disk are ordered and told apart as the safe paths are. */
  lemma LocateOrder(cwd: Loc, base: string, x: string, y: string)
    requires IsBase(base) && Sound(base)
    requires IsClean(x) && Safe(base, x) && IsClean(y) && Safe(base, y)
    ensures LocateFrom(cwd, x) == LocateFrom(cwd, y) ==> x == y
    ensures LocateFrom(cwd, x) < LocateFrom(cwd, y) ==> Extends(Parse(x), Parse(y)) && |x| < |y|
  {
    LocateSafe(cwd, base, x);
    LocateSafe(cwd, base, y);
    SafeExtendsAnchor(base, x);
    SafeExtendsAnchor(base, y);
    var a, n, p, q := AnchorLoc(cwd, base), AnchorNames(base), Parse(x).names, Parse(y).names;
    assert p == n + p[|n|..] && q == n + q[|n|..];
    TailOrder(a, n, p[|n|..], q[|n|..]);
    if LocateFrom(cwd, x) < LocateFrom(cwd, y) {
      ParseIsCanonical(x);
      ParseIsCanonical(y);
      SafeHasNames(base, x);
      ExtensionIsLonger(Parse(x), Parse(y));
    }
  }

  lemma SafeHasNames(base: string, x: string)
    requires IsBase(base) && IsClean(x) && Safe(base, x)
    ensures Parse(x).rooted || Parse(x).names != []
  {
    if base != "" { SafeIsExtension(base, x); }
  }

  lemma TailOrder(a: Loc, n: seq<string>, s: seq<string>, t: seq<string>)
    ensures a + s == a + t ==> s == t && n + s == n + t
    ensures a + s < a + t ==> n + s < n + t
  {
    assert (a + s)[|a|..] == s && (a + t)[|a|..] == t;
    if a + s < a + t {
      var u := (a + t)[|a + s|..];
      assert a + t == a + s + u;
      assert t == s + u;
      assert n + t == n + s + u;
    }
  }

  // ----- Confinement -----

  /** An absolute target path gives a sound base. */
  lemma AbsoluteIsSound(dl: Record)
    requires IsAbs(dl.targetPath)
    ensures BaseOf(dl) != "" && Sound(BaseOf(dl)) && Parse(BaseOf(dl)).rooted
  {
    CleanIdempotent(dl.targetPath);
    var p := Parse(dl.targetPath);
    if p.names != [] { UnsplitNonEmpty(p.names); }
  }

  /** Every path the plan can hand to the file system. */
  ghost predicate Touches(dl: Record, plan: Plan, root: string, x: string) {
    x in Targets(dl, plan) || x in Sidecars(dl, plan) || x in Prunes(dl, plan, root)
  }

  /**
   Deletion confinement: unless it refuses, every path the plan hands to the file system is clean and
   passes the prefix test; so it lies strictly, name by name, below a base that does not end in "..".
   */
  lemma PlanIsConfined(dl: Record, plan: Plan, root: string, x: string)
    requires Permitted(dl, plan, root) && Touches(dl, plan, root, x)
    ensures IsClean(x) && Safe(BaseOf(dl), x)
    ensures BaseOf(dl) != "" && Sound(BaseOf(dl)) ==> Below(Parse(BaseOf(dl)), Parse(x))
  {
    var base := BaseOf(dl);
    BaseOfIsBase(dl);
    if x in Targets(dl, plan) {
      TargetsAreSafe(dl, plan, x);
    } else if x in Sidecars(dl, plan) {
      SidecarsAreClean(dl, plan);
      assert Safe(base, Clean(x));
    } else {
      PrunesAreSafe(dl, plan, root, x);
    }
    if base != "" && Sound(base) { SafeIsBelow(base, x); }
  }

  /** Among the prune directories, deeper places have longer paths. */
  lemma PrunesOrdered(dl: Record, plan: Plan, root: string, cwd: Loc, x: string, y: string)
    requires Permitted(dl, plan, root) && Sound(BaseOf(dl))
    requires x in Prunes(dl, plan, root) && y in Prunes(dl, plan, root)
    ensures LocateFrom(cwd, x) < LocateFrom(cwd, y) ==> |x| < |y|
  {
    BaseOfIsBase(dl);
    PrunesAreSafe(dl, plan, root, x);
    PrunesAreSafe(dl, plan, root, y);
    LocateOrder(cwd, BaseOf(dl), x, y);
  }

  // ----- An example -----

  /** The text of an absolute path with plain names is clean and stands for those names. */
  lemma PlainPath(names: seq<string>) returns (s: string)
    requires names != [] && forall i | 0 <= i < |names| :: Plain(names[i]) && names[i] != ".."
    ensures s == "/" + Unsplit(names) && IsClean(s) && IsAbs(s) && Parse(s) == Path(true, names)
  {
    ParseRender(Path(true, names));
    s := "/" + Unsplit(names);
  }

  /** What the example needs to know of its paths. */
  ghost predicate OneLevelBetween(base: string, root: string, file: string, between: string) {
    && base != "" && IsClean(base) && IsAbs(base) && IsClean(file) && IsAbs(file)
    && Safe(base, file) && HeadOf(base, file) == Some(between) && Join(base, between) == root
  }

  lemma ExamplePaths(d: string, between: string, f: string) returns (base: string, root: string, file: string)
    requires Plain(d) && Plain(between) && Plain(f) && d != ".." && f != ".." && !(".." <= between)
    ensures OneLevelBetween(base, root, file, between)
    ensures base == "/" + Unsplit([d]) && root == "/" + Unsplit([d, between]) && file == "/" + Unsplit([d, between, f])
  {
    base := PlainPath([d]);
    root := PlainPath([d, between]);
    file := PlainPath([d, between, f]);
    PrefixIsExtension(Path(true, [d]), Path(true, [d, between, f]));
    HeadExact(base, file);
    JoinOfName(base, between);
    ParseRender(Path(true, [d, between]));
    assert [d] + [between] == [d, between];
  }

  lemma SuffixStaysSafe(base: string, p: string, ext: string)
    requires base != "" && Safe(base, p)
    ensures Safe(base, p + ext)
  {
    assert WithSep(base) <= p <= p + ext;
  }

  /** A download with one file, no name and no GID. */
  function ExampleRecord(base: string, file: string): Record {
    Record("1", "", "http://host/f", base, "", [DownloadFile(file, 0, 0)], Active, Active, 1)
  }

  lemma ExampleAccepted(base: string, root: string, file: string, between: string)
    requires OneLevelBetween(base, root, file, between)
    ensures var dl, plan := ExampleRecord(base, file), Plan([file], [file], false);
            && BaseOf(dl) == base && NormalAll(base, [file]) == [file] && Targets(dl, plan) == [file]
            && !Refuses(dl, plan)
  {
    var dl, plan := ExampleRecord(base, file), Plan([file], [file], false);
    assert Normal(base, file) == file;
    SuffixIsClean(file, ARIA2);
    SuffixStaysSafe(base, file, ARIA2);
    assert forall s | s in Sidecars(dl, plan) :: s == file + ARIA2;
  }

  lemma ExampleRoot(base: string, root: string, file: string, between: string)
    requires OneLevelBetween(base, root, file, between)
    ensures IsRoot(base, [file], root)
  {
    assert Heads(base, [file]) == {between};
  }

  /** A payload two levels down: its plan is accepted, the root is the directory between, and the payload is touched. */
  lemma PermittedExample(d: string, between: string, f: string, tree: Tree, loc: Resolver) returns (dl: Record, plan: Plan, root: string)
    requires Plain(d) && Plain(between) && Plain(f) && d != ".." && f != ".." && !(".." <= between)
    ensures IsAbs(dl.targetPath) && plan == PlanFor(dl, [], tree, loc) && root == "/" + Unsplit([d, between])
    ensures Permitted(dl, plan, root) && Touches(dl, plan, root, "/" + Unsplit([d, between, f]))
  {
    var base, file;
    base, root, file := ExamplePaths(d, between, f);
    dl, plan := ExampleRecord(base, file), Plan([file], [file], false);
    ExampleAccepted(base, root, file, between);
    ExampleRoot(base, root, file, between);
    assert FilePaths(dl.files) == [file];
  }
}
