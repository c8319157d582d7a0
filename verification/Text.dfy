/** String operations of Go's standard library that the service relies on. */
module Text {

  /** Go's `unicode.IsSpace`. */
  predicate IsSpace(c: char) {
    || '\U{9}' <= c <= '\U{D}' || c == ' ' || c == '\U{85}' || c == '\U{A0}' || c == '\U{1680}'
    || '\U{2000}' <= c <= '\U{200A}' || c == '\U{2028}' || c == '\U{2029}' || c == '\U{202F}'
    || c == '\U{205F}' || c == '\U{3000}'
  }

  predicate AllSpace(s: string) {
    forall i {:trigger IsSpace(s[i])} | 0 <= i < |s| :: IsSpace(s[i])
  }

  /** The first and the last character are not white space. */
  predicate BareFront(s: string) {
    s != "" ==> !IsSpace(s[0])
  }

  predicate BareBack(s: string) {
    s != "" ==> !IsSpace(s[|s| - 1])
  }

  predicate Bare(s: string) {
    BareFront(s) && BareBack(s)
  }

  function TrimLeft(s: string): (r: string)
    ensures |r| <= |s|
  {
    if BareFront(s) then s else TrimLeft(s[1..])
  }

  function TrimRight(s: string): (r: string)
    ensures |r| <= |s|
  {
    if BareBack(s) then s else TrimRight(s[..|s| - 1])
  }

  /** Go's `strings.TrimSpace`. */
  function TrimSpace(s: string): (r: string)
    ensures |r| <= |s|
  {
    TrimRight(TrimLeft(s))
  }

  lemma AllSpaceAppend(a: string, b: string)
    requires AllSpace(a) && AllSpace(b)
    ensures AllSpace(a + b)
  {
    forall i | 0 <= i < |a + b| ensures IsSpace((a + b)[i]) {
      if i < |a| { assert IsSpace(a[i]); } else { assert IsSpace(b[i - |a|]); }
    }
  }

  lemma {:induction false} TrimLeftSplits(s: string) returns (gap: string)
    ensures s == gap + TrimLeft(s) && AllSpace(gap) && BareFront(TrimLeft(s))
  {
    if BareFront(s) {
      gap := "";
    } else {
      var g := TrimLeftSplits(s[1..]);
      gap := [s[0]] + g;
      AllSpaceAppend([s[0]], g);
    }
  }

  lemma {:induction false} TrimRightSplits(s: string) returns (gap: string)
    ensures s == TrimRight(s) + gap && AllSpace(gap) && BareBack(TrimRight(s))
  {
    if BareBack(s) {
      gap := "";
    } else {
      var g := TrimRightSplits(s[..|s| - 1]);
      gap := g + [s[|s| - 1]];
      AllSpaceAppend(g, [s[|s| - 1]]);
    }
  }

  /** Trimming removes exactly the white space at both ends: the result is the one bare middle. */
  lemma TrimSplits(s: string) returns (front: string, back: string)
    ensures s == front + TrimSpace(s) + back
    ensures AllSpace(front) && AllSpace(back) && Bare(TrimSpace(s))
  {
    front := TrimLeftSplits(s);
    back := TrimRightSplits(TrimLeft(s));
    var l, r := TrimLeft(s), TrimSpace(s);
    if r != "" { assert r[0] == l[0]; }
    assert front + (r + back) == front + r + back;
  }

  /** Only white space is trimmed away altogether. */
  lemma TrimmedAway(s: string)
    ensures TrimSpace(s) == "" <==> AllSpace(s)
  {
    var front, back := TrimSplits(s);
    if TrimSpace(s) == "" {
      AllSpaceAppend(front, back);
      assert front + "" + back == front + back;
    } else {
      assert s[|front|] == TrimSpace(s)[0];
    }
  }

  lemma TrimIsBare(s: string)
    ensures Bare(TrimSpace(s))
  {
    var front, back := TrimSplits(s);
  }

  lemma TrimLeadOnly(s: string) returns (front: string)
    requires BareBack(s)
    ensures s == front + TrimSpace(s) && AllSpace(front) && Bare(TrimSpace(s))
  {
    front := TrimLeftSplits(s);
    var l := TrimLeft(s);
    assert l != "" ==> l[|l| - 1] == s[|s| - 1];
  }

  lemma TrimBare(s: string)
    requires Bare(s)
    ensures TrimSpace(s) == s
  {}

  /** Lower case of the ASCII letters, the only ones that can spell the two tested affixes. */
  function LowerChar(c: char): char {
    if 'A' <= c <= 'Z' then ((c as int) + 32) as char else c
  }

  function ToLower(s: string): (r: string)
    ensures |r| == |s|
  {
    seq(|s|, i requires 0 <= i < |s| => LowerChar(s[i]))
  }

  predicate HasSuffix(s: string, suffix: string) {
    |suffix| <= |s| && s[|s| - |suffix|..] == suffix
  }

  /** First position of `c` in `s`, or -1, as `strings.IndexRune`. */
  function IndexOf(s: string, c: char): (i: int)
    ensures i == -1 ==> c !in s
    ensures i != -1 ==> 0 <= i < |s| && s[i] == c && c !in s[..i]
  {
    if s == "" then -1
    else if s[0] == c then 0
    else
      var j := IndexOf(s[1..], c);
      assert j != -1 ==> s[..j + 1] == [s[0]] + s[1..][..j];
      if j == -1 then -1 else j + 1
  }

  lemma Associate(a: string, b: string, c: string)
    ensures a + (b + c) == (a + b) + c
  {}

  /** The same with a text between the last two. */
  lemma Regroup(a: string, b: string, sep: string, c: string)
    ensures a + (b + sep + c) == (a + b) + sep + c
  {}
}
