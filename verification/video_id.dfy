/**
 * Video-ID extraction (index.js:8-9). The pattern is the literal `https://`,
 * then one of four host-and-path prefixes, then a captured run of one or
 * more characters other than ampersand, vertical bar, caret and question
 * mark. The match is unanchored: the leftmost start position wins,
 * alternatives are tried in the order written, and the greedy run takes
 * the longest stretch it can.
 */
module VideoId {
  import opened Wrappers

  /** The literal every recognised link starts with. */
  const Scheme: string := "https://"

  /** The alternatives of the first group, in the order the pattern lists them. */
  const Prefixes: seq<string> := [
    "www.youtube.com/watch?v=",
    "youtu.be/",
    "youtube.com/shorts/",
    "youtube.com/watch?v="
  ]

  /** The four characters the capture excludes: each one ends a video ID. */
  predicate IsStop(c: char) {
    c == '&' || c == '|' || c == '^' || c == '?'
  }

  /** A string the second group can capture: non-empty, no stop character. */
  predicate IsVideoId(id: string) {
    |id| > 0 && forall k :: 0 <= k < |id| ==> !IsStop(id[k])
  }

  predicate StartsWith(s: string, i: nat, w: string) {
    i + |w| <= |s| && s[i..i + |w|] == w
  }

  /** Where the capture starts when alternative `a` matched at `i`. */
  function IdStart(i: nat, a: nat): nat
    requires a < |Prefixes|
  {
    i + |Scheme| + |Prefixes[a]|
  }

  /* ---------------------------------------------------------------- */
  /* What a match is                                                   */
  /* ---------------------------------------------------------------- */

  /** Alternative `a` occurs at `i` and is followed by a character the class admits. */
  predicate Anchored(s: string, i: nat, a: nat) {
    && a < |Prefixes|
    && StartsWith(s, i, Scheme + Prefixes[a])
    && IdStart(i, a) < |s|
    && !IsStop(s[IdStart(i, a)])
  }

  /**
   * The pattern matches at `i` through alternative `a` and captures `id`:
   * `id` follows the alternative and is the longest run of admitted characters there.
   */
  predicate CapturesAt(s: string, i: nat, a: nat, id: string) {
    && a < |Prefixes|
    && StartsWith(s, i, Scheme + Prefixes[a] + id)
    && IsVideoId(id)
    && (IdStart(i, a) + |id| == |s| || IsStop(s[IdStart(i, a) + |id|]))
  }

  /** No alternative is anchored at any position in `[lo, hi)`. */
  ghost predicate NoAnchorBetween(s: string, lo: nat, hi: nat) {
    forall j: nat, a: nat :: lo <= j < hi && a < |Prefixes| ==> !Anchored(s, j, a)
  }

  /** `id` is captured at some position from `i` on, and nothing is anchored between `i` and there. */
  ghost predicate FirstCaptureFrom(s: string, i: nat, id: string) {
    exists j: nat, a: nat :: i <= j <= |s| && CapturesAt(s, j, a, id) && NoAnchorBetween(s, i, j)
  }

  /* ---------------------------------------------------------------- */
  /* The matcher                                                       */
  /* ---------------------------------------------------------------- */

  /** Length of the run of admitted characters starting at `j`: what the greedy `+` consumes. */
  function RunLength(s: string, j: nat): (n: nat)
    requires j <= |s|
    ensures j + n <= |s|
    ensures forall k :: j <= k < j + n ==> !IsStop(s[k])
    ensures j + n == |s| || IsStop(s[j + n])
    decreases |s| - j
  {
    if j == |s| || IsStop(s[j]) then 0 else 1 + RunLength(s, j + 1)
  }

  /** Alternative `a` at position `i`, then the greedy capture. */
  function MatchAlternative(s: string, i: nat, a: nat): (r: Option<string>)
    requires a < |Prefixes|
  {
    if StartsWith(s, i, Scheme + Prefixes[a]) && RunLength(s, IdStart(i, a)) > 0 then
      var q := IdStart(i, a);
      Some(s[q..q + RunLength(s, q)])
    else
      None
  }

  /** The alternatives from `a` on, tried in order at position `i`. */
  function MatchFrom(s: string, i: nat, a: nat): (r: Option<string>)
    requires a <= |Prefixes|
    decreases |Prefixes| - a
  {
    if a == |Prefixes| then None
    else match MatchAlternative(s, i, a)
      case Some(id) => Some(id)
      case None => MatchFrom(s, i, a + 1)
  }

  /** The scan over start positions `i`, `i + 1`, …, `|s|`. */
  function ExtractFrom(s: string, i: nat): (r: Option<string>)
    decreases |s| + 1 - i
  {
    if i > |s| then None
    else match MatchFrom(s, i, 0)
      case Some(id) => Some(id)
      case None => ExtractFrom(s, i + 1)
  }

  /** The captured run of the leftmost match in `url`, or `None` when the pattern does not match. */
  function ExtractId(url: string): (r: Option<string>)
    ensures r.Some? ==> IsVideoId(r.value)
  {
    ExtractFromValid(url, 0);
    ExtractFrom(url, 0)
  }

  /* ---------------------------------------------------------------- */
  /* Facts about strings and runs                                      */
  /* ---------------------------------------------------------------- */

  lemma CharAt(s: string, i: nat, w: string, k: nat)
    requires StartsWith(s, i, w) && k < |w|
    ensures s[i + k] == w[k]
  {
    assert s[i..i + |w|][k] == s[i + k];
  }

  /** The same, as an implication, for use where the occurrence is to be ruled out. */
  lemma CharIfStarts(s: string, i: nat, w: string, k: nat)
    requires k < |w|
    ensures StartsWith(s, i, w) ==> s[i + k] == w[k]
  {
    if StartsWith(s, i, w) {
      CharAt(s, i, w, k);
    }
  }

  lemma StartsWithPrefix(s: string, i: nat, u: string, v: string)
    requires StartsWith(s, i, u + v)
    ensures StartsWith(s, i, u)
  {
    assert s[i..i + |u|] == s[i..i + |u + v|][..|u|];
  }

  /** A run of admitted characters that ends at a stop or at the end is the run `RunLength` finds. */
  lemma {:induction false} RunLengthUnique(s: string, j: nat, n: nat)
    requires j + n <= |s|
    requires forall k :: j <= k < j + n ==> !IsStop(s[k])
    requires j + n == |s| || IsStop(s[j + n])
    ensures RunLength(s, j) == n
    decreases n
  {
    if n > 0 {
      RunLengthUnique(s, j + 1, n - 1);
    }
  }

  /* ---------------------------------------------------------------- */
  /* The matcher meets the definition of a match                       */
  /* ---------------------------------------------------------------- */

  /** One alternative succeeds exactly when it is anchored, and then captures the maximal run. */
  lemma MatchAlternativeSpec(s: string, i: nat, a: nat)
    requires a < |Prefixes|
    ensures MatchAlternative(s, i, a).Some? <==> Anchored(s, i, a)
    ensures MatchAlternative(s, i, a).Some? ==> CapturesAt(s, i, a, MatchAlternative(s, i, a).value)
  {
    var w := Scheme + Prefixes[a];
    if StartsWith(s, i, w) && RunLength(s, IdStart(i, a)) > 0 {
      var q := IdStart(i, a);
      var id := s[q..q + RunLength(s, q)];
      assert forall k :: 0 <= k < |id| ==> id[k] == s[q + k];
      assert IsVideoId(id);
      assert s[i..q + |id|] == s[i..q] + id;
    }
  }

  /** Trying the alternatives in order fails exactly when none of them is anchored. */
  lemma {:induction false} MatchFromNone(s: string, i: nat, a: nat)
    requires a <= |Prefixes|
    ensures MatchFrom(s, i, a).None? <==> forall b: nat :: a <= b < |Prefixes| ==> !Anchored(s, i, b)
    decreases |Prefixes| - a
  {
    if a < |Prefixes| {
      MatchAlternativeSpec(s, i, a);
      MatchFromNone(s, i, a + 1);
    }
  }

  /** What the alternatives capture is a capture of one of them. */
  lemma {:induction false} MatchFromSome(s: string, i: nat, a: nat)
    requires a <= |Prefixes|
    requires MatchFrom(s, i, a).Some?
    ensures exists b: nat :: a <= b < |Prefixes| && CapturesAt(s, i, b, MatchFrom(s, i, a).value)
    decreases |Prefixes| - a
  {
    MatchAlternativeSpec(s, i, a);
    if MatchAlternative(s, i, a).None? {
      MatchFromSome(s, i, a + 1);
    }
  }

  lemma NoAnchorExtend(s: string, i: nat, j: nat)
    requires forall b: nat :: b < |Prefixes| ==> !Anchored(s, i, b)
    requires NoAnchorBetween(s, i + 1, j)
    ensures NoAnchorBetween(s, i, j)
  {
  }

  /** The scan from `i` fails exactly when nothing is anchored at or after `i`. */
  lemma {:induction false} ExtractFromNone(s: string, i: nat)
    ensures ExtractFrom(s, i).None? <==> NoAnchorBetween(s, i, |s| + 1)
    decreases |s| + 1 - i
  {
    if i <= |s| {
      MatchFromNone(s, i, 0);
      ExtractFromNone(s, i + 1);
      if MatchFrom(s, i, 0).None? && NoAnchorBetween(s, i + 1, |s| + 1) {
        NoAnchorExtend(s, i, |s| + 1);
      }
    }
  }

  lemma FoundHere(s: string, i: nat)
    requires i <= |s|
    requires MatchFrom(s, i, 0).Some?
    ensures FirstCaptureFrom(s, i, MatchFrom(s, i, 0).value)
  {
    MatchFromSome(s, i, 0);
    var a: nat :| a < |Prefixes| && CapturesAt(s, i, a, MatchFrom(s, i, 0).value);
    assert NoAnchorBetween(s, i, i);
  }

  lemma FoundLater(s: string, i: nat, id: string)
    requires forall b: nat :: b < |Prefixes| ==> !Anchored(s, i, b)
    requires FirstCaptureFrom(s, i + 1, id)
    ensures FirstCaptureFrom(s, i, id)
  {
    var j: nat, a: nat :| i + 1 <= j <= |s| && CapturesAt(s, j, a, id) && NoAnchorBetween(s, i + 1, j);
    NoAnchorExtend(s, i, j);
  }

  /** What the scan from `i` found is the capture of an anchored position with none before it. */
  lemma {:induction false} ExtractFromFound(s: string, i: nat)
    requires ExtractFrom(s, i).Some?
    ensures FirstCaptureFrom(s, i, ExtractFrom(s, i).value)
    decreases |s| + 1 - i
  {
    if MatchFrom(s, i, 0).Some? {
      FoundHere(s, i);
    } else {
      MatchFromNone(s, i, 0);
      ExtractFromFound(s, i + 1);
      FoundLater(s, i, ExtractFrom(s, i).value);
    }
  }

  /** Whatever the scan finds is a video ID. */
  lemma ExtractFromValid(s: string, i: nat)
    ensures ExtractFrom(s, i).Some? ==> IsVideoId(ExtractFrom(s, i).value)
  {
    if ExtractFrom(s, i).Some? {
      ExtractFromFound(s, i);
    }
  }

  /* ---------------------------------------------------------------- */
  /* A match is unique                                                 */
  /* ---------------------------------------------------------------- */

  /**
   * At any position at most one alternative occurs, so the order in
   * which the pattern lists them never changes the capture.
   */
  lemma AlternativesExclusive(s: string, i: nat, a: nat, b: nat)
    requires a < |Prefixes| && b < |Prefixes|
    requires StartsWith(s, i, Scheme + Prefixes[a])
    requires StartsWith(s, i, Scheme + Prefixes[b])
    ensures a == b
  {
    var wa, wb := Scheme + Prefixes[a], Scheme + Prefixes[b];
    CharAt(s, i, wa, 8);
    CharAt(s, i, wb, 8);
    if a != 0 && b != 0 {
      CharAt(s, i, wa, 13);
      CharAt(s, i, wb, 13);
      if a != 1 && b != 1 {
        CharAt(s, i, wa, 20);
        CharAt(s, i, wb, 20);
      }
    }
  }

  /** A match at a given position and alternative captures one ID only. */
  lemma CaptureUnique(s: string, i: nat, a: nat, id: string, id': string)
    requires CapturesAt(s, i, a, id) && CapturesAt(s, i, a, id')
    ensures id == id'
  {
    var q := IdStart(i, a);
    forall id0 | CapturesAt(s, i, a, id0)
      ensures id0 == s[q..q + RunLength(s, q)]
    {
      var w := Scheme + Prefixes[a];
      forall k | q <= k < q + |id0|
        ensures !IsStop(s[k])
      {
        CharAt(s, i, w + id0, k - i);
      }
      RunLengthUnique(s, q, |id0|);
      assert s[i..i + |w + id0|][|w|..] == id0;
    }
  }

  /** A capture implies its alternative is anchored there. */
  lemma CaptureAnchored(s: string, i: nat, a: nat, id: string)
    requires CapturesAt(s, i, a, id)
    ensures Anchored(s, i, a)
  {
    var w := Scheme + Prefixes[a];
    StartsWithPrefix(s, i, w, id);
    CharAt(s, i, w + id, |w|);
  }

  /** The scan from `i` returns the capture of the first anchored position at or after `i`. */
  lemma ExtractFromLeftmost(s: string, i: nat, j: nat, a: nat, id: string)
    requires i <= j
    requires CapturesAt(s, j, a, id) && NoAnchorBetween(s, i, j)
    ensures ExtractFrom(s, i) == Some(id)
  {
    CaptureAnchored(s, j, a, id);
    ExtractFromNone(s, i);
    var r := ExtractFrom(s, i);
    ExtractFromFound(s, i);
    var j': nat, b: nat :| i <= j' <= |s| && CapturesAt(s, j', b, r.value) && NoAnchorBetween(s, i, j');
    CaptureAnchored(s, j', b, r.value);
    assert j == j';
    AlternativesExclusive(s, j, a, b);
    CaptureUnique(s, j, a, id, r.value);
  }

  /* ---------------------------------------------------------------- */
  /* Extraction, stated against the definition                         */
  /* ---------------------------------------------------------------- */

  /**
   * The extracted ID is the capture of the leftmost match: extraction
   * returns `id` exactly when some alternative at some position `i`
   * captures `id` and no alternative is anchored before `i`.
   */
  lemma ExtractIdLeftmost(url: string, id: string)
    ensures ExtractId(url) == Some(id) <==>
      exists i: nat, a: nat :: CapturesAt(url, i, a, id) && NoAnchorBetween(url, 0, i)
  {
    if ExtractId(url) == Some(id) {
      ExtractFromFound(url, 0);
    }
    if i: nat, a: nat :| CapturesAt(url, i, a, id) && NoAnchorBetween(url, 0, i) {
      ExtractFromLeftmost(url, 0, i, a, id);
    }
  }

  /** Extraction fails exactly when no alternative is followed by an admitted character anywhere. */
  lemma ExtractIdFails(url: string)
    ensures ExtractId(url).None? <==> forall i: nat, a: nat :: !Anchored(url, i, a)
  {
    ExtractFromNone(url, 0);
  }

  /**
   * The recognised link shapes: `https://`, one of the four prefixes, an
   * ID, then the end or a stop character. The ID comes back unchanged.
   */
  lemma CanonicalLink(a: nat, id: string, rest: string)
    requires a < |Prefixes|
    requires IsVideoId(id)
    requires rest == [] || IsStop(rest[0])
    ensures ExtractId(Scheme + Prefixes[a] + id + rest) == Some(id)
  {
    var s := Scheme + Prefixes[a] + id + rest;
    assert s[0..|Scheme + Prefixes[a] + id|] == Scheme + Prefixes[a] + id;
    if rest != [] {
      assert s[IdStart(0, a) + |id|] == rest[0];
    }
    ExtractFromLeftmost(s, 0, 0, a, id);
  }

  /** A string without `https://` anywhere yields no ID (plain `http://` links, for one). */
  lemma NoSchemeNoId(url: string)
    requires forall i: nat :: !StartsWith(url, i, Scheme)
    ensures ExtractId(url) == None
  {
    forall i: nat, a: nat | a < |Prefixes|
      ensures !Anchored(url, i, a)
    {
      if StartsWith(url, i, Scheme + Prefixes[a]) {
        StartsWithPrefix(url, i, Scheme, Prefixes[a]);
      }
    }
    ExtractIdFails(url);
  }

  /* ---------------------------------------------------------------- */
  /* Skipped occurrences                                               */
  /* ---------------------------------------------------------------- */

  lemma StartsWithShift(p: string, r: string, i: nat, w: string)
    ensures StartsWith(p + r, |p| + i, w) <==> StartsWith(r, i, w)
  {
    if i + |w| <= |r| {
      assert (p + r)[|p| + i..|p| + i + |w|] == r[i..i + |w|];
    }
  }

  lemma RunLengthShift(p: string, r: string, j: nat)
    requires j <= |r|
    ensures RunLength(p + r, |p| + j) == RunLength(r, j)
  {
    RunLengthUnique(p + r, |p| + j, RunLength(r, j));
  }

  lemma MatchAlternativeShift(p: string, r: string, i: nat, a: nat)
    requires a < |Prefixes|
    ensures MatchAlternative(p + r, |p| + i, a) == MatchAlternative(r, i, a)
  {
    var w := Scheme + Prefixes[a];
    StartsWithShift(p, r, i, w);
    if StartsWith(r, i, w) {
      var q := IdStart(i, a);
      RunLengthShift(p, r, q);
      var n := RunLength(r, q);
      assert (p + r)[|p| + q..|p| + q + n] == r[q..q + n];
    }
  }

  lemma MatchFromShiftStep(p: string, r: string, i: nat, a: nat)
    requires a < |Prefixes|
    requires MatchFrom(p + r, |p| + i, a + 1) == MatchFrom(r, i, a + 1)
    ensures MatchFrom(p + r, |p| + i, a) == MatchFrom(r, i, a)
  {
    MatchAlternativeShift(p, r, i, a);
  }

  lemma {:induction false} MatchFromShift(p: string, r: string, i: nat, a: nat)
    requires a <= |Prefixes|
    ensures MatchFrom(p + r, |p| + i, a) == MatchFrom(r, i, a)
    decreases |Prefixes| - a
  {
    if a < |Prefixes| {
      MatchFromShift(p, r, i, a + 1);
      MatchFromShiftStep(p, r, i, a);
    } else {
      assert MatchFrom(r, i, a) == None;
    }
  }

  lemma ExtractFromShiftStep(s: string, p: string, r: string, i: nat)
    requires s == p + r
    requires i <= |r|
    requires ExtractFrom(s, |p| + (i + 1)) == ExtractFrom(r, i + 1)
    ensures ExtractFrom(s, |p| + i) == ExtractFrom(r, i)
  {
    MatchFromShift(p, r, i, 0);
  }

  /** Matching only looks forward: text in front of the scan does not change what it finds. */
  lemma ExtractFromShift(p: string, r: string, i: nat)
    ensures ExtractFrom(p + r, |p| + i) == ExtractFrom(r, i)
  {
    ExtractFromShiftIn(p + r, p, r, i);
  }

  lemma {:induction false} ExtractFromShiftIn(s: string, p: string, r: string, i: nat)
    requires s == p + r
    ensures ExtractFrom(s, |p| + i) == ExtractFrom(r, i)
    decreases |r| + 1 - i
  {
    if i <= |r| {
      ExtractFromShiftIn(s, p, r, i + 1);
      ExtractFromShiftStep(s, p, r, i);
    } else {
      ExtractFromPastEnd(r, i);
      ExtractFromPastEnd(s, |p| + i);
    }
  }

  /** The scan past the end finds nothing. */
  lemma ExtractFromPastEnd(s: string, i: nat)
    requires i > |s|
    ensures ExtractFrom(s, i) == None
  {
  }

  lemma ExtractStep(s: string, i: nat)
    requires i <= |s|
    requires forall b: nat :: b < |Prefixes| ==> !Anchored(s, i, b)
    ensures ExtractFrom(s, i) == ExtractFrom(s, i + 1)
  {
    MatchFromNone(s, i, 0);
  }

  /** Start positions where nothing is anchored are passed over. */
  lemma {:induction false} SkipUnanchored(s: string, i: nat, k: nat)
    requires i <= k <= |s| + 1
    requires NoAnchorBetween(s, i, k)
    ensures ExtractFrom(s, i) == ExtractFrom(s, k)
    decreases k - i
  {
    if i < k {
      ExtractStep(s, i);
      SkipUnanchored(s, i + 1, k);
    }
  }

  /**
   * An occurrence of `https://` that no alternative follows with an
   * admitted character is skipped: extraction goes on after it.
   */
  lemma SchemeSkipped(rest: string)
    requires forall a: nat :: a < |Prefixes| ==> !Anchored(Scheme + rest, 0, a)
    ensures ExtractId(Scheme + rest) == ExtractId(rest)
  {
    var s := Scheme + rest;
    forall j: nat, a: nat | 0 < j < |Scheme| && a < |Prefixes|
      ensures !Anchored(s, j, a)
    {
      assert s[j] == Scheme[j] != 'h';
      CharIfStarts(s, j, Scheme + Prefixes[a], 0);
    }
    SkipUnanchored(s, 0, |Scheme|);
    ExtractFromShift(Scheme, rest, 0);
  }

  /**
   * A link on a host the pattern does not list (`m.youtube.com`,
   * `music.youtube.com`, …) contributes no ID.
   */
  lemma UnlistedHostSkipped(rest: string)
    requires rest == [] || (rest[0] != 'w' && rest[0] != 'y')
    ensures ExtractId(Scheme + rest) == ExtractId(rest)
  {
    var s := Scheme + rest;
    forall a: nat | a < |Prefixes|
      ensures !Anchored(s, 0, a)
    {
      if StartsWith(s, 0, Scheme + Prefixes[a]) {
        CharAt(s, 0, Scheme + Prefixes[a], |Scheme|);
        assert s[|Scheme|] == rest[0];
      }
    }
    SchemeSkipped(rest);
  }

  /**
   * A recognised prefix followed directly by a stop character or by the
   * end is not a match: extraction goes on after `https://`.
   */
  lemma EmptyIdSkipped(a: nat, rest: string)
    requires a < |Prefixes|
    requires rest == [] || IsStop(rest[0])
    ensures ExtractId(Scheme + Prefixes[a] + rest) == ExtractId(Prefixes[a] + rest)
  {
    var s := Scheme + (Prefixes[a] + rest);
    assert s == Scheme + Prefixes[a] + rest;
    forall b: nat | b < |Prefixes|
      ensures !Anchored(s, 0, b)
    {
      if Anchored(s, 0, b) {
        assert StartsWith(s, 0, Scheme + Prefixes[a]) by {
          assert s[0..|Scheme + Prefixes[a]|] == Scheme + Prefixes[a];
        }
        AlternativesExclusive(s, 0, a, b);
        assert false;
      }
    }
    SchemeSkipped(Prefixes[a] + rest);
  }
}
