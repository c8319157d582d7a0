/** The disk behind the adapter's two-method `fsOps`, and the read-only calls the ownership proof makes. */
module FileSystem {
  import opened Paths

  /** A place on disk: the names on the way from the root. */
  type Loc = seq<string>

  datatype Kind = File | Directory

  type Tree = map<Loc, Kind>

  function Up(l: Loc): Loc
    requires l != []
  {
    l[..|l| - 1]
  }

  /** Every node but the root hangs in a directory. */
  ghost predicate WellFormed(t: Tree) {
    forall l {:trigger Up(l)} | l in t && l != [] :: Up(l) in t && t[Up(l)] == Directory
  }

  /** How the operating system resolves a path to a place. */
  type Resolver = string -> Loc

  /** Lexical resolution: relative paths start in the working directory. */
  function LocateFrom(cwd: Loc, path: string): Loc {
    Reduce(true, if IsAbs(path) then [] else cwd, Split(path))
  }

  ghost predicate LexicalFrom(loc: Resolver, cwd: Loc) {
    forall path :: loc(path) == LocateFrom(cwd, path)
  }

  /** No symbolic links and the like: every path leads where its names say. */
  ghost predicate Lexical(loc: Resolver) {
    exists cwd :: LexicalFrom(loc, cwd)
  }

  /** What the operating system makes of one call: it carries it out, or fails and spares some nodes. */
  datatype Fault = Works | Breaks(spared: set<Loc>)

  datatype IOResult = Done | NotExist | NotEmpty | OtherError

  datatype Call = RemoveAllCall(path: string) | RemoveCall(path: string)

  predicate HasChild(t: Tree, l: Loc) {
    exists m | m in t :: l < m
  }

  /** `os.RemoveAll`; when it breaks, a part of the subtree closed under parents stays. */
  function AfterRemoveAll(t: Tree, at: Loc, fault: Fault): Tree {
    map l | l in t && (at <= l ==> fault.Breaks? && exists s | s in fault.spared :: l <= s) :: t[l]
  }

  function RemoveAllResult(fault: Fault): IOResult {
    if fault.Works? then Done else OtherError
  }

  /** `os.Remove`: a file or an empty directory goes, and a failing call leaves everything as it was. */
  function RemoveResult(t: Tree, at: Loc, fault: Fault): IOResult {
    if fault.Breaks? then OtherError
    else if at !in t then NotExist
    else if HasChild(t, at) then NotEmpty
    else Done
  }

  function AfterRemove(t: Tree, at: Loc, fault: Fault): Tree {
    if RemoveResult(t, at, fault) == Done then t - {at} else t
  }

  lemma RemoveAllKeepsWellFormed(t: Tree, at: Loc, fault: Fault)
    requires WellFormed(t)
    ensures WellFormed(AfterRemoveAll(t, at, fault))
  {
    var t' := AfterRemoveAll(t, at, fault);
    forall l | l in t' && l != []
      ensures Up(l) in t' && t'[Up(l)] == Directory
    {
      var up := Up(l);
      if at <= up {
        assert at <= l;
        var s :| s in fault.spared && l <= s;
        assert up <= s;
      }
    }
  }

  lemma RemoveKeepsWellFormed(t: Tree, at: Loc, fault: Fault)
    requires WellFormed(t)
    ensures WellFormed(AfterRemove(t, at, fault))
  {
    if RemoveResult(t, at, fault) == Done {
      forall l | l in t && l != at && l != []
        ensures Up(l) != at
      {
        assert !(at < l);
      }
    }
  }

  /** The process's view of the disk, with the log of the calls that may change it. */
  class Disk {
    const loc: Resolver
    const faults: nat -> Fault
    var tree: Tree
    var calls: seq<Call>

    constructor (loc: Resolver, faults: nat -> Fault, tree: Tree)
      ensures this.loc == loc && this.faults == faults && this.tree == tree && calls == []
    {
      this.loc, this.faults, this.tree, calls := loc, faults, tree, [];
    }

    method RemoveAll(path: string) returns (r: IOResult)
      modifies this
      ensures tree == AfterRemoveAll(old(tree), loc(path), faults(|old(calls)|))
      ensures r == RemoveAllResult(faults(|old(calls)|))
      ensures calls == old(calls) + [RemoveAllCall(path)]
    {
      var fault := faults(|calls|);
      r := RemoveAllResult(fault);
      tree := AfterRemoveAll(tree, loc(path), fault);
      calls := calls + [RemoveAllCall(path)];
    }

    method Remove(path: string) returns (r: IOResult)
      modifies this
      ensures tree == AfterRemove(old(tree), loc(path), faults(|old(calls)|))
      ensures r == RemoveResult(old(tree), loc(path), faults(|old(calls)|))
      ensures calls == old(calls) + [RemoveCall(path)]
    {
      var fault := faults(|calls|);
      r := RemoveResult(tree, loc(path), fault);
      tree := AfterRemove(tree, loc(path), fault);
      calls := calls + [RemoveCall(path)];
    }

    /** `os.Stat` succeeds. */
    predicate Exists(path: string)
      reads this
    {
      loc(path) in tree
    }

    /** The files `filepath.Walk` visits below a path. */
    function FilesUnder(path: string): set<Loc>
      reads this
    {
      set l | l in tree && loc(path) <= l && tree[l] == File
    }
  }
}
