/** The theme's Atom feed generator up to the template call: the posts it
    selects, the site URL it normalises, the `feed_url` it builds, and the
    `noControlChars` filter it gives the template. */
module Feed {

  import opened Content
  import opened Ordering

  /** The fixed, in-code feed configuration record. */
  datatype FeedConfig = FeedConfig(
    path: string,
    limit: nat,
    content: bool,
    contentLimit: nat,
    contentLimitDelim: string)

  const Config := FeedConfig("feed.xml", 20, true, 140, "")

  /** The parts of the site configuration the generator reads. */
  datatype SiteConfig = SiteConfig(url: string, root: string)

  /** The variables handed to the Atom template. */
  datatype FeedContext = FeedContext(
    config: SiteConfig,
    feedConfig: FeedConfig,
    url: string,
    posts: seq<Record>,
    feedUrl: string)

  /** The generator's result: the output path and what the template is rendered with. */
  datatype FeedArtifact = FeedArtifact(path: string, context: FeedContext)

  // ---------------------------------------------------------------------------
  // The `noControlChars` template filter

  /** The characters of the class `[\x00-\x1F\x7F]`. */
  predicate IsControl(c: char)
  {
    c as int <= 0x1F || c as int == 0x7F
  }

  /** `str.replace(/[\x00-\x1F\x7F]/g, '')`: every control character is deleted. */
  function NoControlChars(s: string): (r: string)
    ensures forall i :: 0 <= i < |r| ==> !IsControl(r[i])
  {
    Keep(s, c => !IsControl(c))
  }

  /** A character survives exactly when it occurs in the input and is not a
      control character. */
  lemma NoControlCharsMembers(s: string, c: char)
    ensures c in NoControlChars(s) <==> c in s && !IsControl(c)
  {
    KeepMembers(s, c => !IsControl(c), c);
  }

  /** The filter works character by character, keeping the surviving
      characters in their original order: it splits over concatenation and
      maps one character to itself or to nothing. */
  lemma NoControlCharsSplits(a: string, b: string, c: char)
    ensures NoControlChars(a + b) == NoControlChars(a) + NoControlChars(b)
    ensures NoControlChars([c]) == if IsControl(c) then [] else [c]
  {
    KeepAppend(a, b, c => !IsControl(c));
    assert [c][1..] == [];
  }

  /** The filter leaves a string unchanged exactly when the string has no
      control character. */
  lemma {:induction false} NoControlCharsFixpoint(s: string)
    ensures NoControlChars(s) == s <==> forall i :: 0 <= i < |s| ==> !IsControl(s[i])
  {
    if s != [] {
      NoControlCharsFixpoint(s[1..]);
      if !IsControl(s[0]) {
        assert NoControlChars(s) == [s[0]] + NoControlChars(s[1..]);
        if forall i :: 0 <= i < |s| ==> !IsControl(s[i]) {
          assert forall i :: 0 <= i < |s[1..]| ==> !IsControl(s[1..][i]) by {
            forall i | 0 <= i < |s[1..]| ensures !IsControl(s[1..][i]) {
              assert s[1..][i] == s[i + 1];
            }
          }
          assert s == [s[0]] + s[1..];
        }
      }
    }
  }

  /** Filtering twice is filtering once. */
  lemma NoControlCharsIdempotent(s: string)
    ensures NoControlChars(NoControlChars(s)) == NoControlChars(s)
  {
    NoControlCharsFixpoint(NoControlChars(s));
  }

  // ---------------------------------------------------------------------------
  // Post selection

  /** `post.draft !== true`. */
  predicate Published(p: Record)
  {
    !p.draft
  }

  /** `posts.sort('-date')`, then the drafts filtered out, then
      `posts.limit(limit)` when the limit is not zero. */
  function SelectPosts(posts: seq<Record>, limit: nat): (r: seq<Record>)
    ensures forall i :: 0 <= i < |r| ==> !r[i].draft
  {
    var published := Keep(SortDesc(posts, DateOf), Published);
    if limit != 0 && limit < |published| then published[..limit] else published
  }

  /** The selected posts are newest first. */
  lemma SelectionSorted(posts: seq<Record>, limit: nat)
    ensures SortedDesc(SelectPosts(posts, limit), DateOf)
  {
    KeepSorted(SortDesc(posts, DateOf), DateOf, Published);
  }

  /** The selection is a prefix of the published posts sorted newest first, of
      length `min(limit, number of published posts)` (all of them when the
      limit is zero). Sorting before filtering, as the generator does, and
      filtering before sorting give the same list. */
  lemma SelectionPrefix(posts: seq<Record>, limit: nat)
    ensures var n := Count(posts, Published);
            |SelectPosts(posts, limit)| == (if limit != 0 && limit < n then limit else n)
    ensures SelectPosts(posts, limit) ==
            SortDesc(Keep(posts, Published), DateOf)[..|SelectPosts(posts, limit)|]
  {
    KeepSortCommute(posts, DateOf, Published);
  }

  /** A published post is left out only when the limit is reached, and then
      every selected post is at least as new as it. */
  lemma SelectionNewest(posts: seq<Record>, limit: nat, q: Record)
    requires q in posts && !q.draft && q !in SelectPosts(posts, limit)
    ensures limit != 0 && |SelectPosts(posts, limit)| == limit
    ensures forall p :: p in SelectPosts(posts, limit) ==> p.date >= q.date
  {
    SelectionPrefix(posts, limit);
    var ordered := SortDesc(Keep(posts, Published), DateOf);
    var r := SelectPosts(posts, limit);
    KeepMembers(posts, Published, q);
    SortMembers(Keep(posts, Published), DateOf, q);
    var k :| 0 <= k < |ordered| && ordered[k] == q;
    assert |r| <= k;
    forall p | p in r ensures p.date >= q.date {
      var i :| 0 <= i < |r| && r[i] == p;
      assert ordered[i] == p;
    }
  }

  /** Every selected post is a published post of the input; when no more than
      `limit` posts are published, every one of them is selected. */
  lemma SelectionMembers(posts: seq<Record>, limit: nat, p: Record)
    ensures p in SelectPosts(posts, limit) ==> p in posts && !p.draft
    ensures (limit == 0 || Count(posts, Published) <= limit) ==>
            (p in SelectPosts(posts, limit) <==> p in posts && !p.draft)
  {
    SelectionPrefix(posts, limit);
    var ordered := SortDesc(Keep(posts, Published), DateOf);
    var r := SelectPosts(posts, limit);
    KeepMembers(posts, Published, p);
    SortMembers(Keep(posts, Published), DateOf, p);
    if p in r {
      var i :| 0 <= i < |r| && r[i] == p;
      assert ordered[i] == p;
    }
    if limit == 0 || Count(posts, Published) <= limit {
      assert r == ordered;
    }
  }

  // ---------------------------------------------------------------------------
  // URL normalisation and the generator

  /** `if (url[url.length - 1] !== '/') url += '/'`; on the empty string the
      last character is `undefined`, so a slash is appended. */
  function NormalizeUrl(url: string): (r: string)
    ensures |r| > 0 && r[|r| - 1] == '/'
    ensures url <= r && |r| <= |url| + 1
    ensures r == url <==> (|url| > 0 && url[|url| - 1] == '/')
  {
    if |url| > 0 && url[|url| - 1] == '/' then url else url + "/"
  }

  /** Normalising an already normalised URL changes nothing. */
  lemma NormalizeUrlIdempotent(url: string)
    ensures NormalizeUrl(NormalizeUrl(url)) == NormalizeUrl(url)
  {
  }

  /** The `feed` generator: the artifact path and the template's inputs. */
  function Generate(config: SiteConfig, posts: seq<Record>): (a: FeedArtifact)
    ensures a.path == "feed.xml"
    ensures a.context.feedUrl == config.root + "feed.xml"
    ensures a.context.url == NormalizeUrl(config.url)
    ensures a.context.config == config && a.context.feedConfig == Config
    ensures a.context.posts == SelectPosts(posts, 20)
    ensures |a.context.posts| <= 20
    ensures forall i :: 0 <= i < |a.context.posts| ==> !a.context.posts[i].draft
    ensures SortedDesc(a.context.posts, DateOf)
  {
    var selected := SelectPosts(posts, Config.limit);
    SelectionSorted(posts, Config.limit);
    var url := NormalizeUrl(config.url);
    FeedArtifact(Config.path, FeedContext(config, Config, url, selected, config.root + Config.path))
  }
}
