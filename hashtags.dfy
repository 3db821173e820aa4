/** The hashtag scan of the trending-topics action: the global regular expression
    `/#[\w\u0590-\u05ff]+/g` applied with `String.prototype.match`. Without the `u`
    flag the class is `[A-Za-z0-9_]` plus the Hebrew block U+0590..U+05FF; a match is
    a `#` followed by the longest run of such characters, and the scan resumes right
    after each match. */
module HashtagScan {

  /** `[\w\u0590-\u05ff]`. */
  predicate IsTagChar(c: char)
  {
    ('a' <= c <= 'z') || ('A' <= c <= 'Z') || ('0' <= c <= '9') || c == '_' ||
    ('\U{0590}' <= c <= '\U{05FF}')
  }

  /** A match can start at `p`: a `#` followed by at least one tag character. */
  predicate StartsTag(s: string, p: int)
  {
    0 <= p && p + 1 < |s| && s[p] == '#' && IsTagChar(s[p + 1])
  }

  /** The shape of every match: `#` and a non-empty run of tag characters. */
  predicate IsTag(t: string)
  {
    |t| >= 2 && t[0] == '#' && forall k :: 1 <= k < |t| ==> IsTagChar(t[k])
  }

  /** The end of the run of tag characters that starts at `i`. */
  function RunEnd(s: string, i: nat): (j: nat)
    requires i <= |s|
    ensures i <= j <= |s|
    ensures forall k :: i <= k < j ==> IsTagChar(s[k])
    ensures j == |s| || !IsTagChar(s[j])
    decreases |s| - i
  {
    if i < |s| && IsTagChar(s[i]) then RunEnd(s, i + 1) else i
  }

  /** The text of the match starting at `p`: it has the shape of a tag and is maximal,
      so the character after it, if any, is not a tag character. */
  function TagAt(s: string, p: nat): (t: string)
    requires StartsTag(s, p)
    ensures IsTag(t)
    ensures p + |t| <= |s| && t == s[p..p + |t|]
    ensures p + |t| == |s| || !IsTagChar(s[p + |t|])
  {
    s[p..RunEnd(s, p + 1)]
  }

  /** The start positions of the successive matches of the scan from `i`, increasing. */
  function MatchStarts(s: string, i: nat): (ps: seq<nat>)
    requires i <= |s|
    ensures forall k :: 0 <= k < |ps| ==> i <= ps[k] && StartsTag(s, ps[k])
    ensures forall k, l :: 0 <= k < l < |ps| ==> ps[k] < ps[l]
    decreases |s| - i
  {
    if i == |s| then []
    else if StartsTag(s, i) then [i] + MatchStarts(s, RunEnd(s, i + 1))
    else MatchStarts(s, i + 1)
  }

  /** The scan misses no match: a position from `i` on starts a match exactly when it
      holds a `#` followed by a tag character, since a `#` is never inside a run. */
  lemma {:induction false} MatchStartsComplete(s: string, i: nat, p: int)
    requires i <= |s|
    ensures p in MatchStarts(s, i) <==> i <= p && StartsTag(s, p)
    decreases |s| - i
  {
    if i < |s| {
      if StartsTag(s, i) {
        var j := RunEnd(s, i + 1);
        MatchStartsComplete(s, j, p);
        if i < p < j {
          assert IsTagChar(s[p]);
        }
      } else {
        MatchStartsComplete(s, i + 1, p);
      }
    }
  }

  /** `content.match(/#[\w\u0590-\u05ff]+/g)`, with no match read as no tags (line 171). */
  function Hashtags(s: string): (tags: seq<string>)
    ensures |tags| == |MatchStarts(s, 0)|
    ensures forall k :: 0 <= k < |tags| ==> tags[k] == TagAt(s, MatchStarts(s, 0)[k])
    ensures forall k :: 0 <= k < |tags| ==> IsTag(tags[k])
  {
    var ps := MatchStarts(s, 0);
    seq(|ps|, k requires 0 <= k < |ps| => TagAt(s, ps[k]))
  }

  /** A `#` right after a tag starts the next tag, and a `#` not followed by a tag
      character is skipped, so the `#` after it can start one. */
  lemma AdjacentTags()
    ensures Hashtags("#a#b") == ["#a", "#b"]
    ensures Hashtags("##a") == ["#a"]
  {
    var s := "#a#b";
    assert StartsTag(s, 0) && RunEnd(s, 1) == 2;
    assert StartsTag(s, 2) && RunEnd(s, 3) == 4;
    assert MatchStarts(s, 0) == [0, 2];
    assert TagAt(s, 0) == s[0..2] == "#a" && TagAt(s, 2) == s[2..4] == "#b";
    var t := "##a";
    assert !StartsTag(t, 0) && StartsTag(t, 1) && RunEnd(t, 2) == 3;
    assert MatchStarts(t, 0) == MatchStarts(t, 1) == [1];
    assert TagAt(t, 1) == t[1..3] == "#a";
  }

  /** A character outside the class ends a tag, and a lone `#` is no tag. */
  lemma TagBoundary()
    ensures Hashtags("x #ab-c #") == ["#ab"]
  {
    var t := "x #ab-c #";
    assert !StartsTag(t, 0) && !StartsTag(t, 1) && StartsTag(t, 2) && RunEnd(t, 3) == 5;
    assert !StartsTag(t, 5) && !StartsTag(t, 6) && !StartsTag(t, 7) && !StartsTag(t, 8);
    assert MatchStarts(t, 0) == [2];
    assert TagAt(t, 2) == t[2..5] == "#ab";
  }
}
