/**
 Idempotency fingerprints. The digest is represented by the text that is hashed, so that it is
 one-to-one by construction, as SHA-256 is taken to be.
 */
module Fingerprint {
  import opened Text
  import opened Paths

  function NormalizeSource(s: string): string {
    TrimSpace(s)
  }

  function NormalizeTargetPath(p: string): string {
    var t := TrimSpace(p);
    if t == "" then t else Clean(t)
  }

  const NUL: char := '\0'

  /** The text hashed for a request: both normal forms around a NUL byte. */
  function Of(source: string, targetPath: string): string {
    NormalizeSource(source) + [NUL] + NormalizeTargetPath(targetPath)
  }

  // ----- Equal fingerprints mean lexically equal requests -----

  /** `x` and `y` around a NUL, with the part of `y` up to a NUL of its own moved into `x`. */
  predicate Shifts(x: string, y: string, x': string, y': string) {
    x + [NUL] <= x' && y == x'[|x| + 1..] + [NUL] + y'
  }

  /** Texts put together around a NUL are the same exactly when their parts are, or one is a shift of the other. */
  lemma SplitAtNul(x: string, y: string, x': string, y': string)
    ensures x + [NUL] + y == x' + [NUL] + y' <==>
            (x == x' && y == y') || Shifts(x, y, x', y') || Shifts(x', y', x, y)
  {
    if x + [NUL] + y == x' + [NUL] + y' {
      if |x| < |x'| {
        ShiftsWhenShorter(x, y, x', y');
      } else if |x'| < |x| {
        ShiftsWhenShorter(x', y', x, y);
      } else {
        assert x == (x + [NUL] + y)[..|x|] && x' == (x' + [NUL] + y')[..|x|];
        assert y == (x + [NUL] + y)[|x| + 1..] && y' == (x' + [NUL] + y')[|x| + 1..];
      }
    } else {
      if Shifts(x, y, x', y') { ShiftsAgree(x, y, x', y'); }
      if Shifts(x', y', x, y) { ShiftsAgree(x', y', x, y); }
    }
  }

  lemma ShiftsWhenShorter(x: string, y: string, x': string, y': string)
    requires x + [NUL] + y == x' + [NUL] + y' && |x| < |x'|
    ensures Shifts(x, y, x', y')
  {
    var s, s' := x + [NUL] + y, x' + [NUL] + y';
    assert s[..|x| + 1] == x + [NUL] && s'[..|x| + 1] == x'[..|x| + 1];
    assert s[|x| + 1..] == y && s'[|x| + 1..] == x'[|x| + 1..] + [NUL] + y';
  }

  lemma ShiftsAgree(x: string, y: string, x': string, y': string)
    requires Shifts(x, y, x', y')
    ensures x + [NUL] + y == x' + [NUL] + y' && x != x'
  {
    var m := x'[|x| + 1..];
    assert x' == x + [NUL] + m;
    Regroup(x + [NUL], m, [NUL], y');
  }

  /** What a target path names once trimmed: nothing, or a rootedness and a list of names. */
  datatype Target = NoTarget | At(path: Path)

  function Denoted(p: string): Target {
    var t := TrimSpace(p);
    if t == "" then NoTarget else At(Parse(t))
  }

  lemma NormalTargetsAgree(p: string, q: string)
    ensures NormalizeTargetPath(p) == NormalizeTargetPath(q) <==> Denoted(p) == Denoted(q)
  {
    var t, u := TrimSpace(p), TrimSpace(q);
    CleanEqual(t, u);
    CleanNotEmpty(t);
    CleanNotEmpty(u);
  }

  lemma CleanNotEmpty(s: string)
    ensures Clean(s) != ""
  {
    ParseIsCanonical(s);
    RenderNotEmpty(Parse(s));
  }

  lemma RenderNotEmpty(p: Path)
    ensures Canonical(p) ==> Render(p) != ""
  {
    if Canonical(p) && p.names != [] { UnsplitNonEmpty(p.names); }
  }

  /** The same trimmed source, and targets that are both empty or reduce to the same rootedness and names. */
  predicate SameRequest(s: string, p: string, s': string, p': string) {
    TrimSpace(s) == TrimSpace(s') && Denoted(p) == Denoted(p')
  }

  /** The second request's source takes in a NUL and what stood before a NUL in the first one's target. */
  predicate Confusable(s: string, p: string, s': string, p': string) {
    Shifts(NormalizeSource(s), NormalizeTargetPath(p), NormalizeSource(s'), NormalizeTargetPath(p'))
  }

  /** Exactly when two requests share a fingerprint, whatever is in them. */
  lemma EqualExactly(s: string, p: string, s': string, p': string)
    ensures Of(s, p) == Of(s', p') <==>
            SameRequest(s, p, s', p') || Confusable(s, p, s', p') || Confusable(s', p', s, p)
  {
    NormalTargetsAgree(p, p');
    SplitAtNul(NormalizeSource(s), NormalizeTargetPath(p), NormalizeSource(s'), NormalizeTargetPath(p'));
  }

  /**
   Fingerprints tell two requests apart as they should if and only if neither is the other with its separator
   shifted; and sources without NUL are never confused.
   */
  lemma EqualIffSameRequest(s: string, p: string, s': string, p': string)
    ensures (Of(s, p) == Of(s', p') <==> SameRequest(s, p, s', p'))
       <==> !Confusable(s, p, s', p') && !Confusable(s', p', s, p)
    ensures NUL !in s && NUL !in s' ==> (Of(s, p) == Of(s', p') <==> SameRequest(s, p, s', p'))
  {
    EqualExactly(s, p, s', p');
    if Confusable(s, p, s', p') { ConfusedSource(s, p, s', p'); }
    if Confusable(s', p', s, p) { ConfusedSource(s', p', s, p); }
  }

  lemma ConfusedSource(s: string, p: string, s': string, p': string)
    requires Confusable(s, p, s', p')
    ensures NUL in s' && !SameRequest(s, p, s', p')
  {
    ShiftsAgree(NormalizeSource(s), NormalizeTargetPath(p), NormalizeSource(s'), NormalizeTargetPath(p'));
    assert NormalizeSource(s')[|NormalizeSource(s)|] == NUL;
    if NUL !in s' { TrimKeepsNulFree(s'); }
  }

  lemma TrimKeepsNulFree(s: string)
    requires NUL !in s
    ensures NUL !in TrimSpace(s)
  {
    var front, back := TrimSplits(s);
    forall k | 0 <= k < |TrimSpace(s)| ensures TrimSpace(s)[k] != NUL {
      assert s[|front| + k] == TrimSpace(s)[k];
    }
  }

  lemma PlainTarget(c: string)
    requires Plain(c) && Bare(c) && c != ".."
    ensures NormalizeTargetPath(c) == c
  {
    TrimBare(c);
    ParseRender(Path(false, [c]));
    assert Render(Path(false, [c])) == c;
  }

  lemma OfPlain(s: string, c: string)
    requires Bare(s) && Plain(c) && Bare(c) && c != ".."
    ensures NormalizeTargetPath(c) == c && NormalizeSource(s) == s
  {
    TrimBare(s);
    PlainTarget(c);
  }

  /** A source with a NUL shares its fingerprint with the text before the NUL, for a target that begins with the text after it. */
  lemma NulInSourceCollides(a: string, b: string, p: string, q: string)
    requires NormalizeSource(a) == a && NormalizeSource(a + [NUL] + b) == a + [NUL] + b
    requires NormalizeTargetPath(p) == b + [NUL] + NormalizeTargetPath(q)
    ensures Of(a, p) == Of(a + [NUL] + b, q) && !SameRequest(a, p, a + [NUL] + b, q)
  {
    assert (a + [NUL] + b)[|a| + 1..] == b;
    EqualExactly(a, p, a + [NUL] + b, q);
    ConfusedSource(a, p, a + [NUL] + b, q);
  }

  lemma NulCollisionExample()
    ensures Of("a", "b\0c") == Of("a\0b", "c") && !SameRequest("a", "b\0c", "a\0b", "c")
  {
    OfPlain("a", "b\0c");
    OfPlain("a\0b", "c");
    assert "a" + [NUL] + "b" == "a\0b" && "b" + [NUL] + "c" == "b\0c";
    NulInSourceCollides("a", "b", "b\0c", "c");
  }

  // ----- When normalising twice changes nothing -----

  /** The room `names` take when each is followed by a slash. */
  function Room(names: seq<string>): nat {
    if names == [] then 0 else Room(names[..|names| - 1]) + |names[|names| - 1]| + 1
  }

  lemma {:induction false} RoomIsLength(names: seq<string>)
    ensures names != [] ==> Room(names) == |Unsplit(names)| + 1
  {
    if |names| > 1 {
      var xs, c := names[..|names| - 1], names[|names| - 1];
      RoomIsLength(xs);
      UnsplitPush(xs, c);
      assert xs + [c] == names;
    } else if |names| == 1 {
      assert names[..0] == [];
      assert Room(names) == Room(names[..0]) + |names[0]| + 1;
    }
  }

  lemma PushRoom(rooted: bool, kept: seq<string>, c: string)
    ensures Room(Push(rooted, kept, c)) <= Room(kept) + |c| + 1
  {
    assert (kept + [c])[..|kept|] == kept;
    assert (kept + [".."])[..|kept|] == kept;
  }

  lemma {:induction false} ReduceRoom(rooted: bool, kept: seq<string>, cs: seq<string>)
    requires |cs| >= 1
    ensures Room(Reduce(rooted, kept, cs)) <= Room(kept) + |Unsplit(cs)| + 1
    decreases |cs|
  {
    PushRoom(rooted, kept, cs[0]);
    if |cs| > 1 {
      ReduceRoom(rooted, Push(rooted, kept, cs[0]), cs[1..]);
    } else {
      assert Reduce(rooted, kept, cs) == Reduce(rooted, Push(rooted, kept, cs[0]), cs[1..]) == Push(rooted, kept, cs[0]);
    }
  }

  lemma {:induction false} UnsplitSplit(s: string)
    ensures Unsplit(Split(s)) == s
  {
    if s != "" {
      UnsplitSplit(s[1..]);
      assert [s[0]] + s[1..] == s;
      var rest := Split(s[1..]);
      if s[0] == '/' {
        assert ([""] + rest)[1..] == rest;
      } else if |rest| > 1 {
        var cs := [[s[0]] + rest[0]] + rest[1..];
        assert cs[1..] == rest[1..];
      }
    }
  }

  /** Cleaning never makes a non-empty path longer. */
  lemma CleanNotLonger(s: string)
    requires s != ""
    ensures |Clean(s)| <= |s|
  {
    var p := Parse(s);
    if IsAbs(s) {
      SplitOfAbs(s);
      ReduceRoom(true, [], Split(s[1..]));
      UnsplitSplit(s[1..]);
    } else {
      ReduceRoom(false, [], Split(s));
      UnsplitSplit(s);
    }
    RoomIsLength(p.names);
  }

  lemma SplitOfAbs(s: string)
    requires IsAbs(s)
    ensures Reduce(true, [], Split(s)) == Reduce(true, [], Split(s[1..]))
  {
    assert "" + "/" + s[1..] == s;
    SplitAtSlash("", s[1..]);
    assert ([""] + Split(s[1..]))[1..] == Split(s[1..]);
  }

  /** The first and last characters of a path's surviving names, unless a separator covers them, are not white space. */
  predicate OuterNamesBare(p: Path) {
    p.names != [] ==>
      var first, last := p.names[0], p.names[|p.names| - 1];
      && (last != "" ==> !IsSpace(last[|last| - 1]))
      && (!p.rooted && first != "" ==> !IsSpace(first[0]))
  }

  lemma BareIffOuterNamesBare(p: Path)
    requires Canonical(p)
    ensures Bare(Render(p)) <==> OuterNamesBare(p)
  {
    if p.names != [] {
      assert Plain(p.names[0]) && Plain(p.names[|p.names| - 1]);
      var pre := RenderLast(p);
      assert Render(p)[|Render(p)| - 1] == p.names[|p.names| - 1][|p.names[|p.names| - 1]| - 1];
      if !p.rooted { assert Unsplit(p.names)[0] == p.names[0][0]; }
    }
  }

  lemma TrimUnbare(s: string)
    ensures TrimSpace(s) == s || |TrimSpace(s)| < |s|
  {
    var front, back := TrimSplits(s);
    if |TrimSpace(s)| == |s| { assert front == "" && back == ""; }
  }

  /**
   Normalising a target path is idempotent exactly when no white space comes to either end of it:
   cleaning can expose white space that stood inside, as in `a /..` behind `b `.
   */
  lemma NormalizeTwice(p: string)
    ensures NormalizeTargetPath(NormalizeTargetPath(p)) == NormalizeTargetPath(p)
       <==> (Denoted(p).At? ==> OuterNamesBare(Denoted(p).path))
  {
    var t := TrimSpace(p);
    if t != "" {
      CleanIdempotent(t);
      var n := Clean(t);
      RenderNotEmpty(Parse(t));
      BareIffOuterNamesBare(Parse(t));
      TrimIsBare(n);
      if Bare(n) {
        TrimBare(n);
      } else {
        TrimUnbare(n);
        if TrimSpace(n) != "" { CleanNotLonger(TrimSpace(n)); }
      }
    }
  }
}
