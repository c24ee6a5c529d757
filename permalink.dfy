/** The theme's `post_permalink` filter: one non-global replacement of the
    pattern `(\d+\/\d+)\/\d+(\/.*)` by `$1$2`, which drops the third number
    of the first `<digits>/<digits>/<digits>/` run in a permalink. The
    pattern is matched here by hand, and `PatternAt` gives the meaning of the
    pattern independently of how the matcher finds it. */
module Permalink {

  import opened Wrappers

  /** `\d` without the `u` flag: the ASCII digits only. */
  predicate IsDigit(c: char)
  {
    '0' <= c <= '9'
  }

  /** The characters `.` does not match: the ECMAScript line terminators. */
  predicate IsLineTerminator(c: char)
  {
    c == '\n' || c == '\r' || c as int == 0x2028 || c as int == 0x2029
  }

  /** `s[lo..hi]` is a non-empty run of digits: what `\d+` can consume. */
  ghost predicate Digits(s: string, lo: int, hi: int)
  {
    0 <= lo < hi <= |s| && forall k :: lo <= k < hi ==> IsDigit(s[k])
  }

  /** The pattern matches at `start` with its three `/` at `slash1`,
      `slash2` and `slash3`: `\d+ / \d+ / \d+ /`, after which `.*` may
      match the empty string. */
  ghost predicate PatternAt(s: string, start: int, slash1: int, slash2: int, slash3: int)
  {
    && Digits(s, start, slash1) && slash1 < |s| && s[slash1] == '/'
    && Digits(s, slash1 + 1, slash2) && slash2 < |s| && s[slash2] == '/'
    && Digits(s, slash2 + 1, slash3) && slash3 < |s| && s[slash3] == '/'
  }

  /** The pattern occurs somewhere in `s`. */
  ghost predicate Occurs(s: string)
  {
    exists start, slash1, slash2, slash3 :: PatternAt(s, start, slash1, slash2, slash3)
  }

  /** The pattern matches at `start` and at no earlier position. */
  ghost predicate Leftmost(s: string, start: int, slash1: int, slash2: int, slash3: int)
  {
    && PatternAt(s, start, slash1, slash2, slash3)
    && forall j, a, b, c :: 0 <= j < start ==> !PatternAt(s, j, a, b, c)
  }

  /** Where the pattern matched: its first position and its three slashes. */
  datatype Match = Match(start: nat, slash1: nat, slash2: nat, slash3: nat)

  /** The number of digits starting at `i`: what a greedy `\d+` consumes. */
  function DigitRun(s: string, i: nat): (n: nat)
    requires i <= |s|
    ensures i + n <= |s|
    ensures forall k :: i <= k < i + n ==> IsDigit(s[k])
    ensures i + n == |s| || !IsDigit(s[i + n])
    decreases |s| - i
  {
    if i < |s| && IsDigit(s[i]) then 1 + DigitRun(s, i + 1) else 0
  }

  /** `\d+\/` at `i`: the position of the slash, if there is one. */
  function DigitsThenSlash(s: string, i: nat): (r: Option<nat>)
    requires i <= |s|
    ensures r.Some? ==> Digits(s, i, r.value) && r.value < |s| && s[r.value] == '/'
  {
    var n := DigitRun(s, i);
    if n > 0 && i + n < |s| && s[i + n] == '/' then Some(i + n) else None
  }

  /** A run of digits that is followed by a slash can only end at that slash:
      a digit is never a slash, so greedy matching and backtracking agree. */
  lemma DigitsThenSlashExact(s: string, i: nat, slash: int)
    requires i <= |s|
    ensures (Digits(s, i, slash) && slash < |s| && s[slash] == '/') <==>
            DigitsThenSlash(s, i) == Some(slash)
  {
    var n := DigitRun(s, i);
    if Digits(s, i, slash) && slash < |s| && s[slash] == '/' {
      assert i + n == slash;
    }
  }

  /** The pattern tried at one position. */
  function MatchAt(s: string, i: nat): (r: Option<Match>)
    requires i <= |s|
    ensures r.Some? ==> r.value.start == i
    ensures r.Some? ==> PatternAt(s, i, r.value.slash1, r.value.slash2, r.value.slash3)
  {
    match DigitsThenSlash(s, i)
    case None => None
    case Some(slash1) =>
      match DigitsThenSlash(s, slash1 + 1)
      case None => None
      case Some(slash2) =>
        match DigitsThenSlash(s, slash2 + 1)
        case None => None
        case Some(slash3) => Some(Match(i, slash1, slash2, slash3))
  }

  /** `MatchAt` finds a match exactly where the pattern matches, and the match
      at a position is unique. */
  lemma MatchAtExact(s: string, i: nat, slash1: nat, slash2: nat, slash3: nat)
    requires i <= |s|
    ensures PatternAt(s, i, slash1, slash2, slash3) <==>
            MatchAt(s, i) == Some(Match(i, slash1, slash2, slash3))
  {
    DigitsThenSlashExact(s, i, slash1);
    if slash1 < |s| {
      DigitsThenSlashExact(s, slash1 + 1, slash2);
      if slash2 < |s| {
        DigitsThenSlashExact(s, slash2 + 1, slash3);
      }
    }
  }

  /** No match at `i` from `MatchAt` means no match at `i` at all. */
  lemma NoMatchAt(s: string, i: nat)
    requires i <= |s| && MatchAt(s, i).None?
    ensures forall a, b, c :: !PatternAt(s, i, a, b, c)
  {
    forall a, b, c ensures !PatternAt(s, i, a, b, c) {
      if PatternAt(s, i, a, b, c) {
        MatchAtExact(s, i, a, b, c);
      }
    }
  }

  /** The regular-expression engine's scan: try each position from `i` on and
      stop at the first one where the pattern matches. */
  function FindFrom(s: string, i: nat): (r: Option<Match>)
    requires i <= |s|
    ensures r.Some? ==> i <= r.value.start <= |s| && MatchAt(s, r.value.start) == r
    ensures r.Some? ==> forall j :: i <= j < r.value.start ==> MatchAt(s, j).None?
    ensures r.None? ==> forall j :: i <= j <= |s| ==> MatchAt(s, j).None?
    decreases |s| - i
  {
    var m := MatchAt(s, i);
    if m.Some? then m
    else if i == |s| then None
    else FindFrom(s, i + 1)
  }

  /** The end of what `.*` consumes from `i`: the next line terminator, or the end. */
  function LineEnd(s: string, i: nat): (e: nat)
    requires i <= |s|
    ensures i <= e <= |s|
    ensures forall k :: i <= k < e ==> !IsLineTerminator(s[k])
    ensures e == |s| || IsLineTerminator(s[e])
    decreases |s| - i
  {
    if i == |s| || IsLineTerminator(s[i]) then i else LineEnd(s, i + 1)
  }

  /** The `post_permalink` filter: `data.replace(/(\d+\/\d+)\/\d+(\/.*)/, '$1$2')`.
      The text before the match and after it is kept, and the match is replaced
      by its first group followed by its second. */
  function PostPermalink(s: string): (r: string)
    ensures |r| <= |s|
    ensures r == s <==> FindFrom(s, 0).None?
  {
    match FindFrom(s, 0)
    case None => s
    case Some(m) =>
      var end := LineEnd(s, m.slash3);
      var group1 := s[m.start..m.slash2];
      var group2 := s[m.slash3..end];
      s[..m.start] + group1 + group2 + s[end..]
  }

  /** A permalink in which the pattern does not occur is returned unchanged,
      and one in which it occurs is changed. */
  lemma UnchangedIffNoOccurrence(s: string)
    ensures PostPermalink(s) == s <==> !Occurs(s)
  {
    match FindFrom(s, 0)
    case None =>
      if Occurs(s) {
        var i, a, b, c :| PatternAt(s, i, a, b, c);
        MatchAtExact(s, i, a, b, c);
      }
    case Some(m) =>
      RewriteAtMatch(s, m);
      assert PatternAt(s, m.start, m.slash1, m.slash2, m.slash3);
      assert |PostPermalink(s)| < |s|;
  }

  /** On the leftmost match the filter deletes exactly `/` and the third
      number, and keeps everything before and after them. */
  lemma RewriteLeftmost(s: string, start: int, slash1: int, slash2: int, slash3: int)
    requires Leftmost(s, start, slash1, slash2, slash3)
    ensures PostPermalink(s) == s[..slash2] + s[slash3..]
    ensures |PostPermalink(s)| == |s| - (slash3 - slash2)
  {
    MatchAtExact(s, start, slash1, slash2, slash3);
    var m := FindFrom(s, 0);
    assert m.Some?;
    var found := m.value;
    assert PatternAt(s, found.start, found.slash1, found.slash2, found.slash3);
    assert found.start == start;
    RewriteAtMatch(s, found);
  }

  /** The replacement text rejoins the two groups, so the match collapses to
      the input minus the span from the second slash up to the third. */
  lemma RewriteAtMatch(s: string, m: Match)
    requires FindFrom(s, 0) == Some(m)
    ensures PostPermalink(s) == s[..m.slash2] + s[m.slash3..]
    ensures m.slash2 < m.slash3
  {
    assert PatternAt(s, m.start, m.slash1, m.slash2, m.slash3);
    Splice(s, m.start, m.slash2, m.slash3, LineEnd(s, m.slash3));
  }

  /** Keeping the text around the two groups and rejoining them drops only
      the text between them. */
  lemma Splice(s: string, a: nat, b: nat, c: nat, d: nat)
    requires a <= b <= c <= d <= |s|
    ensures s[..a] + s[a..b] + s[c..d] + s[d..] == s[..b] + s[c..]
  {
    var x, y := s[..a] + s[a..b], s[c..d] + s[d..];
    assert x == s[..b];
    assert y == s[c..];
    assert s[..a] + s[a..b] + s[c..d] + s[d..] == x + y;
  }

  /** The leftmost match always begins at the start of a run of digits: a
      match starting inside a run would also match from one position earlier. */
  lemma LeftmostStartsRun(s: string, start: int, slash1: int, slash2: int, slash3: int)
    requires Leftmost(s, start, slash1, slash2, slash3)
    ensures start == 0 || !IsDigit(s[start - 1])
  {
    if start > 0 && IsDigit(s[start - 1]) {
      assert PatternAt(s, start - 1, slash1, slash2, slash3);
    }
  }

  /** There is at most one leftmost match. */
  lemma LeftmostUnique(s: string, i: int, a: int, b: int, c: int, i': int, a': int, b': int, c': int)
    requires Leftmost(s, i, a, b, c) && Leftmost(s, i', a', b', c')
    ensures i == i' && a == a' && b == b' && c == c'
  {
    MatchAtExact(s, i, a, b, c);
    MatchAtExact(s, i', a', b', c');
  }

  /** A permalink with three numbered directories loses the third one. */
  lemma DropsThirdNumber(s: string)
    requires s == "2021/03/15/my-post/"
    ensures PostPermalink(s) == "2021/03/my-post/"
  {
    assert s[..7] + s[10..] == "2021/03/my-post/";
    assert Leftmost(s, 0, 4, 7, 10);
    RewriteLeftmost(s, 0, 4, 7, 10);
  }

  /** The year folder a post is filed under, which the permalink carries after
      its year and month, is removed from the URL. */
  lemma DropsYearFolder(s: string)
    requires s == "2021/03/2021/my-post/"
    ensures PostPermalink(s) == "2021/03/my-post/"
  {
    assert s[..7] + s[12..] == "2021/03/my-post/";
    assert Leftmost(s, 0, 4, 7, 12);
    RewriteLeftmost(s, 0, 4, 7, 12);
  }

  /** Text before the dated run and after it is kept. */
  lemma KeepsSurroundings(s: string)
    requires s == "posts/2021/03/15/x"
    ensures PostPermalink(s) == "posts/2021/03/x"
  {
    assert s[..13] + s[16..] == "posts/2021/03/x";
    forall j, a, b, c | 0 <= j < 6 ensures !PatternAt(s, j, a, b, c) {
      assert !IsDigit(s[j]);
    }
    assert Leftmost(s, 6, 10, 13, 16);
    RewriteLeftmost(s, 6, 10, 13, 16);
  }

  /** Without a slash after the third number the pattern does not occur. */
  lemma NoTrailingSlashUnchanged(s: string)
    requires s == "2021/03/15"
    ensures PostPermalink(s) == s
  {
    forall k | 0 <= k < |s| && s[k] == '/' ensures k == 4 || k == 7 {
    }
    assert !Occurs(s);
    UnchangedIffNoOccurrence(s);
  }

  /** Only the first match is rewritten, so applying the filter again
      removes one more directory: the filter is not idempotent. */
  lemma NotIdempotent(s: string)
    requires s == "2021/03/15/16/x"
    ensures PostPermalink(s) == "2021/03/16/x"
    ensures PostPermalink(PostPermalink(s)) == "2021/03/x"
  {
    var t := "2021/03/16/x";
    assert s[..7] + s[10..] == t;
    assert t[..7] + t[10..] == "2021/03/x";
    assert Leftmost(s, 0, 4, 7, 10);
    assert Leftmost(t, 0, 4, 7, 10);
    RewriteLeftmost(s, 0, 4, 7, 10);
    RewriteLeftmost(t, 0, 4, 7, 10);
  }
}
