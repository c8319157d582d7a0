/**
 What `filepath.Clean` does to a path, said in strings: the rules by which any path comes down to a
 canonical one, how cleaning goes with joining, and what that means for requests and for `Delete`.
 */
module Cleaning {
  import T = Text
  import opened Paths
  import F = Fingerprint
  import opened Planner
  import opened Records

  /** A name that stands for itself. */
  predicate Name(c: string) {
    Plain(c) && c != ".."
  }

  // ----- Pieces of a path -----

  lemma ReduceJoined(rooted: bool, kept: seq<string>, xs: seq<string>, ys: seq<string>, zs: seq<string>)
    requires Reduce(rooted, Reduce(rooted, kept, xs), ys) == Reduce(rooted, kept, xs)
    ensures Reduce(rooted, kept, xs + ys + zs) == Reduce(rooted, kept, xs + zs)
  {
    ReduceAppend(rooted, kept, xs, ys);
    ReduceAppend(rooted, kept, xs + ys, zs);
    ReduceAppend(rooted, kept, xs, zs);
  }

  lemma SplitMiddle(x: string, m: string, y: string)
    ensures Split(x + "/" + m + "/" + y) == Split(x) + Split(m) + Split(y)
  {
    SplitAtSlash(x + "/" + m, y);
    SplitAtSlash(x, m);
  }

  /** Pieces that change no reduction may be left out of the middle of a path. */
  lemma LeaveOut(x: string, m: string, y: string)
    requires forall rooted, kept :: Reduce(rooted, kept, Split(m)) == kept
    ensures Parse(x + "/" + m + "/" + y) == Parse(x + "/" + y)
  {
    SplitMiddle(x, m, y);
    SplitAtSlash(x, y);
    var long, short := x + "/" + m + "/" + y, x + "/" + y;
    assert long[0] == short[0];
    ReduceJoined(IsAbs(long), [], Split(x), Split(m), Split(y));
  }

  lemma Singles(rooted: bool, kept: seq<string>, c: string)
    ensures Reduce(rooted, kept, [c]) == Push(rooted, kept, c)
  {
    assert Reduce(rooted, kept, [c]) == Reduce(rooted, Push(rooted, kept, c), [c][1..]);
  }

  lemma UpAfterName(rooted: bool, kept: seq<string>, c: string)
    requires Name(c)
    ensures Split(c + "/..") == [c, ".."] && Reduce(rooted, kept, [c, ".."]) == kept
  {
    SplitOfName(c);
    SplitOfName("..");
    SplitAtSlash(c, "..");
    assert c + "/" + ".." == c + "/..";
    assert [c, ".."][1..] == [".."];
    Singles(rooted, kept + [c], "..");
  }

  // ----- The rules -----

  /** A name and the ".." behind it cancel, wherever they stand. */
  lemma UpCancelsName(x: string, c: string, y: string)
    requires Name(c)
    ensures Clean(x + "/" + (c + "/..") + "/" + y) == Clean(x + "/" + y)
    ensures x != "" ==> Clean(x + "/" + (c + "/..")) == Clean(x)
    ensures Clean(c + "/..") == "."
  {
    forall rooted, kept ensures Reduce(rooted, kept, Split(c + "/..")) == kept { UpAfterName(rooted, kept, c); }
    LeaveOut(x, c + "/..", y);
    SplitAtSlash(x, c + "/..");
    if x != "" {
      ReduceAppend(IsAbs(x), [], Split(x), Split(c + "/.."));
      assert IsAbs(x + "/" + (c + "/..")) == IsAbs(x);
    }
    assert !IsAbs(c + "/..") by { assert Plain(c); }
  }

  /** "." and the empty piece between two separators change nothing. */
  lemma DotAndEmptyDoNothing(x: string, m: string, y: string)
    requires m == "." || m == ""
    ensures Clean(x + "/" + m + "/" + y) == Clean(x + "/" + y)
    ensures x != "" ==> Clean(x + "/" + m) == Clean(x)
  {
    SplitOfName(m);
    forall rooted, kept ensures Reduce(rooted, kept, Split(m)) == kept { Singles(rooted, kept, m); }
    LeaveOut(x, m, y);
    SplitAtSlash(x, m);
    if x != "" {
      ReduceAppend(IsAbs(x), [], Split(x), Split(m));
      assert IsAbs(x + "/" + m) == IsAbs(x);
    }
  }

  lemma Leading(c: string, y: string)
    requires '/' !in c
    ensures Parse(c + "/" + y) == Path(c == "", Reduce(c == "", Push(c == "", [], c), Split(y)))
  {
    SplitOfName(c);
    SplitAtSlash(c, y);
    assert ([c] + Split(y))[1..] == Split(y);
    if c != "" { assert (c + "/" + y)[0] == c[0]; }
  }

  /** Above the root there is only the root. */
  lemma UpAtRootIsDropped(y: string)
    ensures Clean("/" + ".." + "/" + y) == Clean("/" + y) && Clean("/..") == "/"
  {
    Rooted(y);
    Rooted(".." + "/" + y);
    Rooted("..");
    SplitOfName("..");
    SplitAtSlash("..", y);
    Singles(true, [], "..");
    ReduceAppend(true, [], [".."], Split(y));
    T.Associate("/", "..", "/" + y);
    assert "/" + ".." + "/" + y == "/" + (".." + "/" + y);
    assert "/" + ".." == "/..";
  }

  lemma Rooted(y: string)
    ensures Parse("/" + y) == Path(true, Reduce(true, [], Split(y)))
  {
    Leading("", y);
    assert "" + "/" + y == "/" + y;
  }

  lemma {:induction false} ReduceBelowUp(kept: seq<string>, cs: seq<string>)
    ensures Reduce(false, [".."] + kept, cs) == [".."] + Reduce(false, kept, cs)
    decreases |cs|
  {
    if cs != [] {
      var k := Push(false, kept, cs[0]);
      if kept != [] { assert ([".."] + kept)[..|kept|] == [".."] + kept[..|kept| - 1]; }
      assert Push(false, [".."] + kept, cs[0]) == [".."] + k;
      ReduceBelowUp(k, cs[1..]);
    }
  }

  /** In front of a relative path ".." stays, and the rest is cleaned by itself. */
  lemma UpInFrontStays(y: string)
    requires !IsAbs(y)
    ensures Clean("../" + y) == if Clean(y) == "." then ".." else "../" + Clean(y)
  {
    Leading("..", y);
    assert ".." + "/" + y == "../" + y;
    assert Push(false, [], "..") == [".."] + [];
    ReduceBelowUp([], Split(y));
    var p := Parse(y);
    ParseIsCanonical(y);
    AtTop(p);
    if p.names != [] { assert ([".."] + p.names)[1..] == p.names; }
  }

  lemma NamesAreCanonical(rooted: bool, cs: seq<string>)
    requires forall i | 0 <= i < |cs| :: Name(cs[i])
    ensures Canonical(Path(rooted, cs))
  {
    forall i | 0 <= i < |cs| ensures Plain(cs[i]) && cs[i] != ".." { assert Name(cs[i]); }
  }

  /** Names stay, in their order: a path of names is clean. */
  lemma NamesStay(cs: seq<string>)
    requires cs != [] && forall i | 0 <= i < |cs| :: Name(cs[i])
    ensures Clean(Unsplit(cs)) == Unsplit(cs) && Clean("/" + Unsplit(cs)) == "/" + Unsplit(cs)
  {
    NamesAreCanonical(false, cs);
    NamesAreCanonical(true, cs);
    ParseRelative(Path(false, cs));
    ParseRooted(Path(true, cs));
  }

  // ----- Cleaning in parts -----

  lemma {:induction false} ReduceOfReduced(rooted: bool, kept: seq<string>, q: seq<string>, cs: seq<string>)
    requires Canonical(Path(false, q)) && SlashFree(cs)
    ensures Reduce(rooted, kept, Reduce(false, q, cs)) == Reduce(rooted, Reduce(rooted, kept, q), cs)
    decreases |cs|
  {
    if cs != [] {
      PushOfReduced(rooted, kept, q, cs[0]);
      Singles(false, q, cs[0]);
      ReduceKeepsCanonical(false, q, [cs[0]]);
      ReduceOfReduced(rooted, kept, Push(false, q, cs[0]), cs[1..]);
    }
  }

  lemma PushOfReduced(rooted: bool, kept: seq<string>, q: seq<string>, c: string)
    requires Canonical(Path(false, q)) && '/' !in c
    ensures Reduce(rooted, kept, Push(false, q, c)) == Push(rooted, Reduce(rooted, kept, q), c)
  {
    if c != "" && c != "." {
      if c == ".." && q != [] && q[|q| - 1] != ".." {
        var n := |q| - 1;
        assert q == q[..n] + [q[n]] && Plain(q[n]);
        ReduceAppend(rooted, kept, q[..n], [q[n]]);
        Singles(rooted, Reduce(rooted, kept, q[..n]), q[n]);
      } else {
        ReduceAppend(rooted, kept, q, [c]);
        Singles(rooted, Reduce(rooted, kept, q), c);
      }
    }
  }

  lemma CleanedPieces(rooted: bool, kept: seq<string>, y: string)
    requires !IsAbs(y)
    ensures Reduce(rooted, kept, Split(Clean(y))) == Reduce(rooted, kept, Split(y))
  {
    var p := Parse(y);
    ParseIsCanonical(y);
    ReduceOfReduced(rooted, kept, [], Split(y));
    assert p == Path(false, Reduce(false, [], Split(y)));
    if p.names != [] {
      assert Clean(y) == Unsplit(p.names);
      assert SlashFree(p.names) by { forall n | n in p.names ensures '/' !in n { assert Plain(n); } }
      SplitUnsplit(p.names);
    } else {
      SplitOfName(".");
      Singles(rooted, kept, ".");
    }
  }

  /** A joined path is cleaned by cleaning either part first. */
  lemma CleanInParts(x: string, y: string)
    requires x != ""
    ensures Clean(Clean(x) + "/" + y) == Clean(x + "/" + y)
    ensures !IsAbs(y) ==> Clean(x + "/" + Clean(y)) == Clean(x + "/" + y)
  {
    CleanIdempotent(x);
    F.CleanNotEmpty(x);
    SplitAtSlash(x, y);
    SplitAtSlash(Clean(x), y);
    ReduceAppend(IsAbs(x), [], Split(x), Split(y));
    ReduceAppend(IsAbs(x), [], Split(Clean(x)), Split(y));
    assert IsAbs(x + "/" + y) == IsAbs(x) && IsAbs(Clean(x) + "/" + y) == IsAbs(Clean(x)) && Parse(Clean(x)).rooted == Parse(x).rooted;
    if !IsAbs(y) {
      SplitAtSlash(x, Clean(y));
      ReduceAppend(IsAbs(x), [], Split(x), Split(Clean(y)));
      CleanedPieces(IsAbs(x), Reduce(IsAbs(x), [], Split(x)), y);
      assert IsAbs(x + "/" + Clean(y)) == IsAbs(x);
    }
  }

  // ----- Requests -----

  /** A detour through a name and back makes no difference to the fingerprint of a request. */
  lemma DetourIsSameRequest(s: string, x: string, c: string, y: string)
    requires Name(c) && T.Bare(x + "/" + y)
    ensures F.Of(s, x + "/" + (c + "/..") + "/" + y) == F.Of(s, x + "/" + y)
  {
    var long, short := x + "/" + (c + "/..") + "/" + y, x + "/" + y;
    UpCancelsName(x, c, y);
    assert long[0] == short[0] && long[|long| - 1] == short[|short| - 1];
    T.TrimBare(long);
    T.TrimBare(short);
  }

  /** The target paths `/b` and `/a/../b` make one request. */
  lemma DetourExample(s: string)
    ensures F.Of(s, "/a/../b") == F.Of(s, "/b")
  {
    assert "" + "/" + ("a" + "/..") + "/" + "b" == "/a/../b" && "" + "/" + "b" == "/b";
    DetourIsSameRequest(s, "", "a", "b");
  }

  // ----- Relative paths handed to `Delete` -----

  /** `ups` times "..", then names. */
  function Climbing(ups: nat, rest: seq<string>): seq<string> {
    seq(ups, _ => "..") + rest
  }

  function Above(names: seq<string>, ups: nat): seq<string> {
    if ups <= |names| then names[..|names| - ups] else []
  }

  lemma {:induction false} ReduceClimbing(b: seq<string>, ups: nat, rest: seq<string>)
    requires Canonical(Path(true, b)) && forall i | 0 <= i < |rest| :: Name(rest[i])
    ensures Reduce(true, b, Climbing(ups, rest)) == Above(b, ups) + rest
    decreases ups
  {
    if ups == 0 {
      assert Climbing(0, rest) == rest && Above(b, 0) == b;
      var p := Path(true, b + rest);
      assert forall i | 0 <= i < |rest| :: p.names[|b| + i] == rest[i];
      assert Canonical(p) by {
        forall i | 0 <= i < |p.names| ensures Plain(p.names[i]) && p.names[i] != ".." {
          assert p.names[i] == if i < |b| then b[i] else rest[i - |b|];
        }
      }
      ReduceOfCanonical(p, |b|);
      assert p.names[..|b|] == b && p.names[|b|..] == rest;
    } else {
      var cs := Climbing(ups, rest);
      assert cs[0] == ".." && cs[1..] == Climbing(ups - 1, rest);
      var k := Push(true, b, "..");
      assert k == Above(b, 1);
      ReduceClimbing(k, ups - 1, rest);
      assert Above(k, ups - 1) == Above(b, ups);
    }
  }

  /** A relative path climbs from the base by its leading ".."s, never past the root, and goes on down from there. */
  lemma NormalClimbs(base: string, ups: nat, rest: seq<string>)
    requires IsClean(base) && IsAbs(base) && ups + |rest| > 0 && forall i | 0 <= i < |rest| :: Name(rest[i])
    ensures Normal(base, Unsplit(Climbing(ups, rest))) == Render(Path(true, Above(Parse(base).names, ups) + rest))
    ensures Canonical(Path(true, Above(Parse(base).names, ups) + rest))
  {
    var b, cs := Parse(base), Climbing(ups, rest);
    ParseIsCanonical(base);
    assert forall i | 0 <= i < |cs| :: Plain(cs[i]) by {
      forall i | 0 <= i < |cs| ensures Plain(cs[i]) { if i >= ups { assert cs[i] == rest[i - ups]; } }
    }
    SplitUnsplit(cs);
    UnsplitNonEmpty(cs);
    ReduceClimbing(b.names, ups, rest);
    JoinIsReduce(b, Unsplit(cs));
    ParseRender(Path(true, Above(b.names, ups) + rest));
  }

  /** Such a path passes the check exactly when it comes back down through every directory of the base it has left, and further. */
  lemma ClimbingIsSafeIff(base: string, ups: nat, rest: seq<string>)
    requires IsClean(base) && IsAbs(base) && ups + |rest| > 0 && forall i | 0 <= i < |rest| :: Name(rest[i])
    ensures Safe(base, Normal(base, Unsplit(Climbing(ups, rest)))) <==> Parse(base).names < Above(Parse(base).names, ups) + rest
  {
    var q := Path(true, Above(Parse(base).names, ups) + rest);
    NormalClimbs(base, ups, rest);
    ParseRender(q);
    SafeIsExtension(base, Render(q));
  }

  /** A path beside the base, `../c`, is safe only when there is nothing beside it: deleting it is refused. */
  lemma SiblingIsSafeIff(base: string, c: string)
    requires IsClean(base) && IsAbs(base) && Name(c)
    ensures Safe(base, Normal(base, "../" + c)) <==> base == "/"
    ensures Normal(base, "../" + c) == Render(Path(true, Above(Parse(base).names, 1) + [c]))
  {
    assert Climbing(1, [c]) == ["..", c] && ["..", c][1..] == [c];
    assert Unsplit(["..", c]) == ".." + "/" + c == "../" + c;
    ClimbingIsSafeIff(base, 1, [c]);
    NormalClimbs(base, 1, [c]);
    ParseIsCanonical(base);
    AtTop(Parse(base));
  }

  lemma SiblingIsRefused(dl: Record, plan: Plan, k: nat, c: string)
    requires IsAbs(dl.targetPath) && Clean(dl.targetPath) != "/" && Name(c)
    requires k < |plan.candidates| && plan.candidates[k] == "../" + c
    ensures Refuses(dl, plan)
  {
    var base := BaseOf(dl);
    CleanIdempotent(dl.targetPath);
    SiblingIsSafeIff(base, c);
    assert NormalAll(base, plan.candidates)[k] == Normal(base, "../" + c);
  }
}
