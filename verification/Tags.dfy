/** Stripping of leading bracketed tags from a download's name. */
module Tags {
  import opened Text

  predicate HasTag(s: string) {
    s != "" && s[0] == '[' && IndexOf(s, ']') >= 0
  }

  function AfterTag(s: string): (r: string)
    requires HasTag(s)
    ensures |r| < |s|
  {
    TrimSpace(s[IndexOf(s, ']') + 1..])
  }

  /** What the loop of `stripLeadingTags` leaves of a trimmed string. */
  function StripFrom(s: string): string
    decreases |s|
  {
    if HasTag(s) then StripFrom(AfterTag(s)) else s
  }

  function StripTags(name: string): string {
    StripFrom(TrimSpace(name))
  }

  /** `stripLeadingTags`. */
  method StripLeadingTags(name: string) returns (s: string)
    ensures s == StripTags(name)
  {
    s := TrimSpace(name);
    while s != "" && s[0] == '['
      invariant StripFrom(s) == StripTags(name)
      decreases |s|
    {
      var i := IndexOf(s, ']');
      if i >= 0 {
        s := TrimSpace(s[i + 1..]);
      } else {
        break;
      }
    }
  }

  /** One tag: an opening bracket, text without a closing one, the closing bracket, then white space. */
  predicate Tag(s: string) {
    exists i | 0 < i < |s| :: ClosesAt(s, i)
  }

  predicate ClosesAt(s: string, i: nat)
    requires i < |s|
  {
    s[0] == '[' && s[i] == ']' && ']' !in s[..i] && AllSpace(s[i + 1..])
  }

  function Concat(pieces: seq<string>): string {
    if pieces == [] then "" else pieces[0] + Concat(pieces[1..])
  }

  lemma TagOf(head: string, gap: string)
    requires |head| >= 2 && head[0] == '[' && head[|head| - 1] == ']' && ']' !in head[..|head| - 1]
    requires AllSpace(gap)
    ensures Tag(head + gap)
  {
    var i := |head| - 1;
    var tag := head + gap;
    assert tag[..i] == head[..i] && tag[i + 1..] == gap;
    assert ClosesAt(tag, i);
  }

  lemma FirstTag(s: string) returns (tag: string)
    requires BareBack(s) && HasTag(s)
    ensures Tag(tag) && s == tag + AfterTag(s) && Bare(AfterTag(s))
  {
    var i := IndexOf(s, ']');
    var head, rest := s[..i + 1], s[i + 1..];
    assert s == head + rest && head[..i] == s[..i];
    assert rest == "" || rest[|rest| - 1] == s[|s| - 1];
    var gap := TrimLeadOnly(rest);
    TagOf(head, gap);
    tag := head + gap;
    Associate(head, gap, AfterTag(s));
  }

  lemma ConcatCons(tag: string, more: seq<string>, rest: string)
    ensures Concat([tag] + more) + rest == tag + (Concat(more) + rest)
  {
    assert ([tag] + more)[1..] == more;
    Associate(tag, Concat(more), rest);
  }

  /** A bare string is some tags followed by what is left, which has no tag in front. */
  lemma {:induction false} StripFromSplits(s: string) returns (tags: seq<string>)
    requires Bare(s)
    ensures s == Concat(tags) + StripFrom(s) && AllTags(tags)
    ensures NoTagInFront(StripFrom(s)) && Bare(StripFrom(s))
    decreases |s|
  {
    if HasTag(s) {
      var tag := FirstTag(s);
      var more := StripFromSplits(AfterTag(s));
      tags := [tag] + more;
      ConcatCons(tag, more, StripFrom(s));
    } else {
      tags := [];
      assert Concat([]) == "";
    }
  }

  predicate AllTags(tags: seq<string>) {
    forall t | t in tags :: Tag(t)
  }

  predicate NoTagInFront(s: string) {
    s == "" || s[0] != '[' || ']' !in s
  }

  /**
   Stripping removes exactly a run of leading tags from the trimmed name, leaves none in front, and
   does nothing the second time.
   */
  lemma StripTagsMeaning(name: string) returns (tags: seq<string>)
    ensures TrimSpace(name) == Concat(tags) + StripTags(name) && AllTags(tags)
    ensures NoTagInFront(StripTags(name))
    ensures StripTags(StripTags(name)) == StripTags(name)
  {
    TrimIsBare(name);
    tags := StripFromSplits(TrimSpace(name));
    NothingLeftToStrip(StripTags(name));
  }

  lemma NothingLeftToStrip(s: string)
    requires Bare(s) && NoTagInFront(s)
    ensures StripTags(s) == s
  {
    TrimBare(s);
  }
}
