/**
 Go's `path/filepath` on Unix, as the service uses it. A path is a string; `Parse` reads it as a
 rootedness and a list of names, `Render` writes the canonical string back, and every operation is
 defined through the two.
 */
module Paths {
  import T = Text

  datatype Path = Path(rooted: bool, names: seq<string>)

  /** A string that can stand between two slashes of a cleaned path. */
  predicate Plain(s: string) {
    s != "" && s != "." && '/' !in s
  }

  predicate SlashFree(cs: seq<string>) {
    forall c | c in cs :: '/' !in c
  }

  /** The names a cleaned path may have: no empty or "." name, and ".." only in front of a relative path. */
  predicate Canonical(p: Path) {
    && (forall i | 0 <= i < |p.names| :: Plain(p.names[i]))
    && (forall i | 0 <= i < |p.names| && p.names[i] == ".." :: !p.rooted && forall j | 0 <= j < i :: p.names[j] == "..")
  }

  // ----- Splitting at separators -----

  /** `strings.Split(s, "/")`. */
  function Split(s: string): (cs: seq<string>)
    ensures |cs| >= 1 && SlashFree(cs)
  {
    if s == "" then [""]
    else
      var rest := Split(s[1..]);
      if s[0] == '/' then [""] + rest else [[s[0]] + rest[0]] + rest[1..]
  }

  function Unsplit(cs: seq<string>): string
    requires |cs| >= 1
  {
    if |cs| == 1 then cs[0] else cs[0] + "/" + Unsplit(cs[1..])
  }

  lemma {:induction false} SplitOfName(c: string)
    requires '/' !in c
    ensures Split(c) == [c]
  {
    if c != "" {
      SplitOfName(c[1..]);
      assert [c[0]] + c[1..] == c;
    }
  }

  /** `c` put in front of the first piece, or opening a new one. */
  function Lead(c: char, cs: seq<string>): seq<string>
    requires |cs| >= 1
  {
    if c == '/' then [""] + cs else [[c] + cs[0]] + cs[1..]
  }

  lemma LeadAppend(c: char, xs: seq<string>, ys: seq<string>)
    requires |xs| >= 1
    ensures Lead(c, xs + ys) == Lead(c, xs) + ys
  {
    assert (xs + ys)[1..] == xs[1..] + ys;
  }

  lemma {:induction false} SplitAtSlash(x: string, y: string)
    ensures Split(x + "/" + y) == Split(x) + Split(y)
  {
    var s := x + "/" + y;
    if x == "" {
      assert s[1..] == y;
    } else {
      SplitAtSlash(x[1..], y);
      assert s[1..] == x[1..] + "/" + y;
      assert Split(s) == Lead(s[0], Split(s[1..]));
      assert Split(x) == Lead(x[0], Split(x[1..]));
      LeadAppend(x[0], Split(x[1..]), Split(y));
    }
  }

  lemma {:induction false} SplitUnsplit(cs: seq<string>)
    requires |cs| >= 1 && SlashFree(cs)
    ensures Split(Unsplit(cs)) == cs
  {
    SplitOfName(cs[0]);
    if |cs| > 1 {
      SplitUnsplit(cs[1..]);
      SplitAtSlash(cs[0], Unsplit(cs[1..]));
      assert [cs[0]] + cs[1..] == cs;
    }
  }

  lemma {:induction false} UnsplitAppend(xs: seq<string>, ys: seq<string>)
    requires |xs| >= 1 && |ys| >= 1
    ensures Unsplit(xs + ys) == Unsplit(xs) + "/" + Unsplit(ys)
  {
    if |xs| == 1 {
      assert (xs + ys)[1..] == ys;
    } else {
      assert (xs + ys)[1..] == xs[1..] + ys;
      UnsplitAppend(xs[1..], ys);
    }
  }

  lemma {:induction false} UnsplitNonEmpty(cs: seq<string>)
    requires |cs| >= 1 && forall i | 0 <= i < |cs| :: Plain(cs[i])
    ensures Unsplit(cs) != "" && Unsplit(cs)[0] != '/'
  {}

  // ----- Lexical cleaning -----

  predicate IsAbs(s: string) {
    s != "" && s[0] == '/'
  }

  /** One step of lexical cleaning: what a further name does to the names kept so far. */
  function Push(rooted: bool, kept: seq<string>, c: string): seq<string> {
    if c == "" || c == "." then kept
    else if c == ".." then
      if kept != [] && kept[|kept| - 1] != ".." then kept[..|kept| - 1]
      else if rooted then kept
      else kept + [".."]
    else kept + [c]
  }

  function Reduce(rooted: bool, kept: seq<string>, cs: seq<string>): seq<string>
    decreases |cs|
  {
    if cs == [] then kept else Reduce(rooted, Push(rooted, kept, cs[0]), cs[1..])
  }

  function Parse(s: string): Path {
    Path(IsAbs(s), Reduce(IsAbs(s), [], Split(s)))
  }

  function Render(p: Path): string {
    if p.names == [] then (if p.rooted then "/" else ".")
    else (if p.rooted then "/" else "") + Unsplit(p.names)
  }

  /** `filepath.Clean`. */
  function Clean(s: string): string {
    Render(Parse(s))
  }

  predicate IsClean(s: string) {
    Clean(s) == s
  }

  lemma {:induction false} ReduceKeepsCanonical(rooted: bool, kept: seq<string>, cs: seq<string>)
    requires Canonical(Path(rooted, kept)) && SlashFree(cs)
    ensures Canonical(Path(rooted, Reduce(rooted, kept, cs)))
    decreases |cs|
  {
    if cs != [] {
      var k := Push(rooted, kept, cs[0]);
      if kept != [] && kept[|kept| - 1] == ".." {
        assert forall j | 0 <= j < |kept| - 1 :: kept[j] == "..";
      }
      ReduceKeepsCanonical(rooted, k, cs[1..]);
    }
  }

  lemma ParseIsCanonical(s: string)
    ensures Canonical(Parse(s))
  {
    ReduceKeepsCanonical(IsAbs(s), [], Split(s));
  }

  /** Pushing a name of a canonical path onto the names before it keeps it. */
  lemma PushOfCanonical(p: Path, k: nat)
    requires Canonical(p) && k < |p.names|
    ensures Push(p.rooted, p.names[..k], p.names[k]) == p.names[..k + 1]
  {
    assert p.names[..k + 1] == p.names[..k] + [p.names[k]];
    assert Plain(p.names[k]);
  }

  lemma {:induction false} ReduceOfCanonical(p: Path, k: nat)
    requires Canonical(p) && k <= |p.names|
    ensures Reduce(p.rooted, p.names[..k], p.names[k..]) == p.names
    decreases |p.names| - k
  {
    if k == |p.names| {
      assert p.names[..k] == p.names;
    } else {
      PushOfCanonical(p, k);
      assert p.names[k..][1..] == p.names[k + 1..];
      ReduceOfCanonical(p, k + 1);
    }
  }

  lemma ParseNothing()
    ensures Parse("/") == Path(true, []) && Parse(".") == Path(false, [])
  {
    SplitOfName(".");
    SplitAtSlash("", "");
    assert "" + "/" + "" == "/";
    assert Split("/") == ["", ""];
    assert Reduce(true, [], ["", ""]) == Reduce(true, [], [""]) == [];
    assert Reduce(false, [], ["."]) == [];
  }

  lemma ParseRooted(p: Path)
    requires Canonical(p) && p.names != [] && p.rooted
    ensures Parse("/" + Unsplit(p.names)) == p
  {
    SplitUnsplit(p.names);
    ReduceOfCanonical(p, 0);
    assert p.names[..0] == [] && p.names[0..] == p.names;
    SplitAtSlash("", Unsplit(p.names));
    assert "" + "/" + Unsplit(p.names) == "/" + Unsplit(p.names);
    assert ([""] + p.names)[1..] == p.names;
  }

  lemma ParseRelative(p: Path)
    requires Canonical(p) && p.names != [] && !p.rooted
    ensures Parse(Unsplit(p.names)) == p
  {
    UnsplitNonEmpty(p.names);
    SplitUnsplit(p.names);
    ReduceOfCanonical(p, 0);
    assert p.names[..0] == [] && p.names[0..] == p.names;
  }

  /** `Render` is one-to-one on canonical paths, and `Parse` undoes it. */
  lemma ParseRender(p: Path)
    requires Canonical(p)
    ensures Parse(Render(p)) == p
  {
    if p.names == [] {
      ParseNothing();
    } else if p.rooted {
      ParseRooted(p);
    } else {
      ParseRelative(p);
      assert Render(p) == Unsplit(p.names);
    }
  }

  /** Cleaning is idempotent, and leaves no ".." in a rooted path. */
  lemma CleanIdempotent(s: string)
    ensures IsClean(Clean(s))
    ensures Parse(Clean(s)) == Parse(s) && Canonical(Parse(s))
    ensures IsAbs(s) ==> ".." !in Parse(s).names
  {
    ParseIsCanonical(s);
    ParseRender(Parse(s));
  }

  /** Two strings clean to the same path exactly when they reduce to the same rootedness and names. */
  lemma CleanEqual(s: string, t: string)
    ensures Clean(s) == Clean(t) <==> Parse(s) == Parse(t)
  {
    CleanIdempotent(s);
    CleanIdempotent(t);
  }

  // ----- Join, Dir, Base, Rel -----

  /** `filepath.Join(a, b)`. */
  function Join(a: string, b: string): string {
    if a != "" then Clean(a + "/" + b)
    else if b != "" then Clean(b)
    else ""
  }

  function UpToLastSlash(s: string): (r: string)
    ensures r <= s
  {
    if s == "" || s[|s| - 1] == '/' then s else UpToLastSlash(s[..|s| - 1])
  }

  /** `filepath.Dir`. */
  function Dir(s: string): string {
    Clean(UpToLastSlash(s))
  }

  function StripSlashes(s: string): string {
    if s != "" && s[|s| - 1] == '/' then StripSlashes(s[..|s| - 1]) else s
  }

  /** `filepath.Base`. */
  function Base(s: string): (r: string)
    ensures r != ""
  {
    if s == "" then "."
    else
      var t := StripSlashes(s);
      var cs := Split(t);
      if cs[|cs| - 1] == "" then "/" else cs[|cs| - 1]
  }

  function CommonLength(xs: seq<string>, ys: seq<string>): (n: nat)
    ensures n <= |xs| && n <= |ys| && xs[..n] == ys[..n]
    ensures n < |xs| && n < |ys| ==> xs[n] != ys[n]
  {
    if xs == [] || ys == [] || xs[0] != ys[0] then 0
    else
      var n := CommonLength(xs[1..], ys[1..]);
      assert xs[..n + 1] == [xs[0]] + xs[1..][..n] && ys[..n + 1] == [ys[0]] + ys[1..][..n];
      1 + n
  }

  datatype Relative = NoRel | Rel(text: string)

  /** `filepath.Rel`. */
  function RelTo(base: string, target: string): Relative {
    var b, t := Parse(base), Parse(target);
    if b == t then Rel(".")
    else if b.rooted != t.rooted then NoRel
    else
      var goal := if !t.rooted && t.names == [] then ["."] else t.names;
      var k := CommonLength(b.names, goal);
      if k < |b.names| && b.names[k] == ".." then NoRel
      else
        var path := seq(|b.names| - k, _ => "..") + goal[k..];
        if path == [] then NoRel else Rel(Unsplit(path))
  }

  // ----- Strict descent and the string prefix test -----

  /** `p` is a strict component-wise descendant of `b`: more names, and the first of them leads down. */
  predicate Below(b: Path, p: Path) {
    b.rooted == p.rooted && b.names < p.names && p.names[|b.names|] != ".."
  }

  function WithSep(base: string): string {
    if base != "" && base[|base| - 1] != '/' then base + "/" else base
  }

  lemma {:induction false} NoTrailingSlash(cs: seq<string>)
    requires |cs| >= 1 && forall i | 0 <= i < |cs| :: Plain(cs[i])
    ensures Unsplit(cs) != "" && Unsplit(cs)[|Unsplit(cs)| - 1] != '/'
  {
    if |cs| > 1 {
      NoTrailingSlash(cs[1..]);
    } else {
      assert Plain(cs[0]);
    }
  }

  lemma UnsplitOfLonger(xs: seq<string>, ys: seq<string>)
    requires |xs| >= 1 && xs < ys
    ensures Unsplit(xs) + "/" <= Unsplit(ys)
  {
    UnsplitAppend(xs, ys[|xs|..]);
    assert ys == xs + ys[|xs|..];
  }

  lemma UnsplitPrefixOnly(xs: seq<string>, ys: seq<string>, x: string, y: string)
    requires |xs| >= 1 && |ys| >= 1 && SlashFree(xs) && SlashFree(ys)
    requires x == Unsplit(xs) && y == Unsplit(ys) && x + "/" <= y
    ensures xs < ys
  {
    var z := y[|x| + 1..];
    assert y == x + "/" + z;
    SplitAtSlash(x, z);
    SplitUnsplit(xs);
    SplitUnsplit(ys);
  }

  /** The text of `xs` and a separator is a prefix of the text of `ys` exactly when `xs` is a strict prefix of `ys`. */
  lemma UnsplitPrefix(xs: seq<string>, ys: seq<string>)
    requires |xs| >= 1 && |ys| >= 1 && SlashFree(xs) && SlashFree(ys)
    ensures Unsplit(xs) + "/" <= Unsplit(ys) <==> xs < ys
  {
    var x, y := Unsplit(xs), Unsplit(ys);
    if xs < ys {
      UnsplitOfLonger(xs, ys);
    } else if x + "/" <= y {
      UnsplitPrefixOnly(xs, ys, x, y);
    }
  }

  /** The text of a rooted path is that of its names behind an empty one. */
  lemma RootedText(p: Path)
    requires Canonical(p) && p.rooted
    ensures WithSep(Render(p)) == Unsplit([""] + p.names) + "/"
    ensures p.names != [] ==> Render(p) == Unsplit([""] + p.names)
  {
    if p.names != [] {
      UnsplitAppend([""], p.names);
      assert Unsplit([""] + p.names) == "/" + Unsplit(p.names) == Render(p);
      NoTrailingSlash(p.names);
    } else {
      assert [""] + p.names == [""] && Render(p) == "/";
    }
  }

  lemma PrefixUnderHead(h: string, xs: seq<string>, ys: seq<string>)
    ensures [h] + xs < [h] + ys <==> xs < ys
  {
    assert ([h] + xs)[1..] == xs && ([h] + ys)[1..] == ys;
    if xs < ys { assert ys == xs + ys[|xs|..]; assert [h] + ys == ([h] + xs) + ys[|xs|..]; }
  }

  /** `p` extends `b` by at least one name. */
  predicate Extends(b: Path, p: Path) {
    b.rooted == p.rooted && b.names < p.names
  }

  /** The prefix test on the cleaned strings. */
  predicate PrefixTest(base: string, p: string) {
    p != base && WithSep(base) <= p
  }

  lemma PrefixOfRooted(b: Path, p: Path)
    requires Canonical(b) && Canonical(p) && b.rooted
    ensures PrefixTest(Render(b), Render(p)) <==> Extends(b, p)
  {
    RootedText(b);
    ParseRender(b);
    ParseRender(p);
    if p.rooted && p.names != [] {
      RootedText(p);
      UnsplitPrefix([""] + b.names, [""] + p.names);
      PrefixUnderHead("", b.names, p.names);
    } else if p.names != [] {
      UnsplitNonEmpty(p.names);
    }
  }

  lemma RelativeText(b: Path) returns (bs: seq<string>)
    requires Canonical(b) && !b.rooted
    ensures bs == (if b.names == [] then ["."] else b.names) && SlashFree(bs)
    ensures Render(b) == Unsplit(bs) && WithSep(Render(b)) == Unsplit(bs) + "/"
    ensures Unsplit(bs) != "" && Unsplit(bs)[0] != '/'
  {
    bs := if b.names == [] then ["."] else b.names;
    if b.names != [] {
      NoTrailingSlash(b.names);
      UnsplitNonEmpty(b.names);
    }
  }

  /** Two relative paths with names. */
  lemma PrefixOfRelatives(b: Path, p: Path)
    requires Canonical(b) && Canonical(p) && !b.rooted && !p.rooted && p.names != []
    ensures PrefixTest(Render(b), Render(p)) <==> b.names != [] && Extends(b, p)
  {
    var bs := RelativeText(b);
    UnsplitPrefix(bs, p.names);
    assert Plain(p.names[0]);
    ParseRender(b);
    ParseRender(p);
  }

  lemma PrefixOfRelative(b: Path, p: Path)
    requires Canonical(b) && Canonical(p) && !b.rooted
    ensures PrefixTest(Render(b), Render(p)) <==> b.names != [] && Extends(b, p)
  {
    if p.names != [] && !p.rooted {
      PrefixOfRelatives(b, p);
    } else {
      var bs := RelativeText(b);
      if p.rooted { assert Render(p)[0] == '/' && WithSep(Render(b))[0] == Unsplit(bs)[0]; }
      else { assert |Render(p)| == 1 && |WithSep(Render(b))| > 1; }
    }
  }

  /** For every cleaned base but ".", the prefix test says exactly that the path has more names. */
  lemma PrefixIsExtension(b: Path, p: Path)
    requires Canonical(b) && Canonical(p)
    ensures PrefixTest(Render(b), Render(p)) <==> (b.rooted || b.names != []) && Extends(b, p)
  {
    if b.rooted { PrefixOfRooted(b, p); } else { PrefixOfRelative(b, p); }
  }

  /** A base from which more names can only lead down. */
  predicate Descending(b: Path) {
    b.rooted || b.names == [] || b.names[|b.names| - 1] != ".."
  }

  lemma ExtensionIsBelow(b: Path, p: Path)
    requires Canonical(b) && Canonical(p) && Descending(b) && (b.rooted || b.names != []) && Extends(b, p)
    ensures Below(b, p)
  {
    var k := |b.names|;
    if k > 0 { assert p.names[k - 1] == b.names[k - 1]; }
  }

  /**
   The prefix test admits only strict descendants exactly when the base does not end in "..";
   an absolute base never does.
   */
  lemma PrefixTestConfinesIff(b: Path)
    requires Canonical(b)
    ensures Descending(b) <==> forall p | Canonical(p) && PrefixTest(Render(b), Render(p)) :: Below(b, p)
  {
    if Descending(b) {
      forall p | Canonical(p) && PrefixTest(Render(b), Render(p)) ensures Below(b, p) {
        PrefixIsExtension(b, p);
        ExtensionIsBelow(b, p);
      }
    } else {
      var p := b.(names := b.names + [".."]);
      assert Plain("..");
      assert Canonical(p);
      PrefixIsExtension(b, p);
      assert !Below(b, p);
    }
  }

  /** A path with more names has a strictly longer string. */
  lemma ExtensionIsLonger(b: Path, p: Path)
    requires Canonical(b) && Canonical(p) && (b.rooted || b.names != []) && Extends(b, p)
    ensures |Render(b)| < |Render(p)|
  {
    PrefixIsExtension(b, p);
  }

  // ----- The operations on canonical paths -----

  lemma {:induction false} UpToLastSlashOf(pre: string, name: string)
    requires '/' !in name && (pre == "" || pre[|pre| - 1] == '/')
    ensures UpToLastSlash(pre + name) == pre
    decreases |name|
  {
    if name == "" {
      assert pre + name == pre;
    } else {
      assert (pre + name)[..|pre + name| - 1] == pre + name[..|name| - 1];
      UpToLastSlashOf(pre, name[..|name| - 1]);
    }
  }

  function Parent(p: Path): Path
    requires p.names != []
  {
    p.(names := p.names[..|p.names| - 1])
  }

  lemma ParseTrailingSlash(s: string)
    requires s != ""
    ensures Parse(s + "/") == Parse(s)
  {
    assert s + "/" + "" == s + "/";
    SplitAtSlash(s, "");
    ReduceAppend(IsAbs(s), [], Split(s), [""]);
  }

  lemma {:induction false} ReduceAppend(rooted: bool, kept: seq<string>, xs: seq<string>, ys: seq<string>)
    ensures Reduce(rooted, kept, xs + ys) == Reduce(rooted, Reduce(rooted, kept, xs), ys)
    decreases |xs|
  {
    if xs == [] {
      assert xs + ys == ys;
    } else {
      assert (xs + ys)[1..] == xs[1..] + ys;
      ReduceAppend(rooted, Push(rooted, kept, xs[0]), xs[1..], ys);
    }
  }

  lemma UnsplitPush(xs: seq<string>, c: string)
    requires |xs| >= 1
    ensures Unsplit(xs + [c]) == Unsplit(xs) + "/" + c
  {
    UnsplitAppend(xs, [c]);
  }

  /** The text of a canonical path ends in its last name, after the text of the names before it. */
  lemma RenderLast(p: Path) returns (pre: string)
    requires p.names != []
    ensures Render(p) == pre + p.names[|p.names| - 1]
    ensures |p.names| > 1 ==> pre == Render(Parent(p)) + "/"
    ensures |p.names| == 1 ==> pre == if p.rooted then "/" else ""
  {
    var lead := if p.rooted then "/" else "";
    if |p.names| == 1 {
      pre := lead;
    } else {
      var xs, c := Parent(p).names, p.names[|p.names| - 1];
      assert xs + [c] == p.names;
      UnsplitPush(xs, c);
      T.Regroup(lead, Unsplit(xs), "/", c);
      pre := Render(Parent(p)) + "/";
    }
  }

  /** `Dir` of a cleaned path drops its last name. */
  lemma DirIsParent(p: Path)
    requires Canonical(p) && p.names != []
    ensures Canonical(Parent(p)) && Dir(Render(p)) == Render(Parent(p))
  {
    var pre := RenderLast(p);
    var q := Parent(p);
    assert Plain(p.names[|p.names| - 1]);
    UpToLastSlashOf(pre, p.names[|p.names| - 1]);
    ParseRender(q);
    if |p.names| > 1 {
      ParseTrailingSlash(Render(q));
    } else if !p.rooted {
      assert Reduce(false, [], Split("")) == [];
    } else {
      assert pre == Render(q);
    }
  }

  /** A suffix appended to a cleaned path lands in its last name. */
  function Extended(p: Path, ext: string): Path {
    if p.names == [] then p.(names := [ext])
    else p.(names := LastExtended(p.names, ext))
  }

  lemma ExtendedIsCanonical(p: Path, ext: string)
    requires Canonical(p) && |ext| >= 3 && '/' !in ext
    ensures Canonical(Extended(p, ext))
  {
    var q := Extended(p, ext);
    if p.names != [] {
      var n := |p.names| - 1;
      assert Plain(p.names[n]) && Plain(q.names[n]);
      assert forall i | 0 <= i < n :: q.names[i] == p.names[i];
    } else {
      assert Plain(ext);
    }
  }

  function LastExtended(names: seq<string>, ext: string): seq<string>
    requires names != []
  {
    names[..|names| - 1] + [names[|names| - 1] + ext]
  }

  lemma {:induction false} UnsplitLastExtended(names: seq<string>, ext: string)
    requires names != []
    ensures Unsplit(LastExtended(names, ext)) == Unsplit(names) + ext
  {
    if |names| > 1 {
      UnsplitLastExtended(names[1..], ext);
      assert LastExtended(names, ext)[1..] == LastExtended(names[1..], ext);
    }
  }

  lemma AppendText(p: Path, ext: string)
    requires p.rooted || p.names != []
    ensures Render(Extended(p, ext)) == Render(p) + ext
  {
    if p.names != [] {
      UnsplitLastExtended(p.names, ext);
      T.Associate(if p.rooted then "/" else "", Unsplit(p.names), ext);
    }
  }

  /** Joining a path to a cleaned base continues the reduction of the base's names. */
  lemma JoinIsReduce(b: Path, s: string)
    requires Canonical(b) && (b.rooted || b.names != [])
    ensures Canonical(Path(b.rooted, Reduce(b.rooted, b.names, Split(s))))
    ensures Join(Render(b), s) == Render(Path(b.rooted, Reduce(b.rooted, b.names, Split(s))))
  {
    var base := Render(b);
    if b.names != [] { UnsplitNonEmpty(b.names); }
    SplitAtSlash(base, s);
    ParseRender(b);
    ReduceAppend(b.rooted, [], Split(base), Split(s));
    assert (base + "/" + s)[0] == base[0];
    ReduceKeepsCanonical(b.rooted, b.names, Split(s));
  }
}
