# clean-blog theme scripts — a Dafny model

The blog's Hexo theme (`themes/clean-blog`) adds three scripts to the site
generator, and this project models each of them:

- **`sitemap` generator** (`sitemap.js`). It first chooses the entries:
  - Posts stay unless they opt out with `sitemap: false`.
  - Pages are dropped when they opt out, have no layout, or have the layout `'false'`.
  - Each list is sorted by `updated`, most recent first.
  - Posts become `monthly`/`0.6` entries and pages become `weekly`/`0.8` entries.
  - A fixed homepage entry is put in front.

  It then builds a sitemaps.org 0.9 `<urlset>` document by appending text in
  a loop and returns it as `sitemap.xml`.
- **`feed` generator** (`feed-generator.js`). It prepares the Atom feed:
  - It sorts the posts by date, newest first, drops drafts and keeps at most 20.
  - It makes sure the site URL ends in `/`.
  - It builds the `feed_url` and names the output `feed.xml`.
  - It gives the template a `noControlChars` filter, which deletes the characters U+0000–U+001F and U+007F.
- **`post_permalink` filter** (`permalinks.js`). It replaces the first
  match of `(\d+\/\d+)\/\d+(\/.*)` with `$1$2`. The effect is to delete the
  third number of the first `<digits>/<digits>/<digits>/` run, which is the
  year folder the posts are filed under.

Modules:

- `Wrappers`: `Option`.
- `Content`: the post and page record the generators read, and the truthiness of front-matter values.
- `Ordering`: lodash's `filter`/`reject` and the engine's query `filter`, and the stable descending sorts (lodash's `orderBy(key, 'desc')`, the engine's `sort('-key')`), with their properties.
- `Sitemap`: selection, entries, the imperative serialisation loop `Serialize`, and the generator.
- `Feed`: the filter, post selection, URL normalisation and the generator.
- `Permalink`: the pattern as a predicate (`PatternAt`), a hand-written leftmost matcher, and the rewrite.

The feed generator sorts the posts before dropping the drafts. Describing it
as filtering first and then sorting gives the same list, and
`Ordering.KeepSortCommute` proves it. The model keeps the code's order.

The post `lastmod` is `post.lastUpdated || post.date`: a truthy
`lastUpdated` wins. Only a moment value is formatted; any other value is
inserted as it is. The model follows this code rather than a reading in
which a missing value falls back and the result is always formatted.

## Model

| member | source | states |
|---|---|---|
| Ordering.Keep | themes/clean-blog/scripts/sitemap.js:9-10 | the filtered list holds only elements satisfying the predicate; its length is the number of such elements |
| Ordering.KeepMembers | themes/clean-blog/scripts/sitemap.js:29-33 | an element is kept iff it occurs in the input and satisfies the predicate |
| Ordering.KeepAppend | themes/clean-blog/scripts/feed-generator.js:31-33 | filtering splits over concatenation, so the input order is kept |
| Ordering.SortDesc | themes/clean-blog/scripts/sitemap.js:11 | `orderBy(key, 'desc')` yields a sequence non-increasing by the key, of the input's length |
| Ordering.Insert | themes/clean-blog/scripts/sitemap.js:11 | inserting into a sorted sequence keeps it sorted and adds one element |
| Ordering.InsertPermutes | themes/clean-blog/scripts/sitemap.js:11 | insertion adds exactly the inserted element to the multiset |
| Ordering.SortPermutes | themes/clean-blog/scripts/sitemap.js:34 | the sort is a permutation of its input |
| Ordering.SortMembers | themes/clean-blog/scripts/sitemap.js:34 | an element is in the sorted list iff it is in the input |
| Ordering.KeepSorted | themes/clean-blog/scripts/feed-generator.js:30-33 | filtering a sorted list leaves it sorted |
| Ordering.KeepCons | themes/clean-blog/scripts/feed-generator.js:31-33 | filtering a list with a known head keeps the head iff it satisfies the predicate |
| Ordering.KeepInsert | themes/clean-blog/scripts/feed-generator.js:30-33 | filtering after inserting into a sorted list equals inserting (when the element passes) into the filtered list |
| Ordering.KeepInsertBehind | themes/clean-blog/scripts/feed-generator.js:30-33 | the case of `KeepInsert` where the element goes behind the head |
| Ordering.InsertBehindHead | themes/clean-blog/scripts/sitemap.js:11 | an element with a smaller key than the head is inserted after the head |
| Ordering.KeepSortCommute | themes/clean-blog/scripts/feed-generator.js:30-33 | sorting then filtering equals filtering then sorting |
| Ordering.SortConstantKey | themes/clean-blog/scripts/sitemap.js:34 | a list whose elements all have the same key is left unchanged by the sort |
| Ordering.SortStable | themes/clean-blog/scripts/sitemap.js:11 | the sort is stable: elements with equal keys keep their input order |
| Ordering.SortKeeps | themes/clean-blog/scripts/sitemap.js:9-11 | sorting a filtered list keeps only input elements, all satisfying the filter |
| Sitemap.SitemapPosts | themes/clean-blog/scripts/sitemap.js:9-11 | as many posts as do not set `sitemap: false`, each an input post that does not opt out, most recently updated first |
| Sitemap.SitemapPages | themes/clean-blog/scripts/sitemap.js:29-34 | as many pages as `reject` keeps, each an input page that does not opt out and has a layout other than `'false'`, most recently updated first |
| Sitemap.PostLastmod | themes/clean-blog/scripts/sitemap.js:14-18 | a falsy `lastUpdated` gives the formatted `date`; a moment `lastUpdated` is formatted; a non-empty text `lastUpdated` is used as it is |
| Sitemap.PostEntry | themes/clean-blog/scripts/sitemap.js:20-25 | the post's keys in declaration order: `loc` = permalink, `lastmod`, `changefreq` = `monthly`, `priority` = `0.6` |
| Sitemap.PageEntry | themes/clean-blog/scripts/sitemap.js:36-41 | the page's keys in declaration order: `loc` = permalink, `lastmod` = formatted `updated`, `changefreq` = `weekly`, `priority` = `0.8` |
| Sitemap.Document | themes/clean-blog/scripts/sitemap.js:53-64 | the document begins with the XML declaration and the `<urlset>` start tag and ends with `</urlset>`; with no entries it is just those two |
| Sitemap.PostSelection | themes/clean-blog/scripts/sitemap.js:9-11 | a post is in the sitemap iff it does not set `sitemap: false`; the kept posts are a permutation of the filtered input, most recently updated first |
| Sitemap.PageSelection | themes/clean-blog/scripts/sitemap.js:29-34 | a page is in the sitemap iff it does not set `sitemap: false`, has a layout and its layout is not `'false'`; the kept pages are a permutation of the filtered input, most recently updated first |
| Sitemap.PostEntries | themes/clean-blog/scripts/sitemap.js:12-26 | one entry per kept post |
| Sitemap.PageEntries | themes/clean-blog/scripts/sitemap.js:35-42 | one entry per kept page |
| Sitemap.Entries | themes/clean-blog/scripts/sitemap.js:45-51 | the homepage entry comes first, followed by one entry per kept post and page |
| Sitemap.EntriesOrder | themes/clean-blog/scripts/sitemap.js:12-51 | homepage (site URL, no lastmod, `weekly`, `0.8`), then the posts in sorted order (permalink, the post's `lastmod` value, `monthly`, `0.6`), then the pages (permalink, formatted `updated`, `weekly`, `0.8`) |
| Sitemap.Serialize | themes/clean-blog/scripts/sitemap.js:53-64 | the appending loop produces the header, one `<url>` block per entry with one line per key in declaration order, and the closing tag |
| Sitemap.AppendLine | themes/clean-blog/scripts/sitemap.js:58-60 | appending one key's line extends the joined lines by that line |
| Sitemap.AppendBlock | themes/clean-blog/scripts/sitemap.js:56-62 | appending one entry's block extends the joined blocks by that block |
| Sitemap.Generate | themes/clean-blog/scripts/sitemap.js:7-69 | the artifact is `sitemap.xml` holding the document of the generator's entries |
| Sitemap.JoinAppend | themes/clean-blog/scripts/sitemap.js:56-62 | the text of a concatenated entry list is the text of the first part followed by the second |
| Sitemap.DocumentLayout | themes/clean-blog/scripts/sitemap.js:51-64 | the document is header, homepage block, post blocks, page blocks and `</urlset>`, in that order |
| Sitemap.HomepageBlock | themes/clean-blog/scripts/sitemap.js:45-49 | the homepage block has `loc`, `changefreq` and `priority` lines and no `lastmod` line |
| Sitemap.PostBlock | themes/clean-blog/scripts/sitemap.js:20-25 | a post block has `loc`, `lastmod`, `changefreq`, `priority` lines in that order, with the values inserted unescaped |
| Sitemap.PageBlock | themes/clean-blog/scripts/sitemap.js:36-41 | a page block has `loc`, `lastmod` (formatted `updated`), `changefreq` = `weekly`, `priority` = `0.8` lines in that order, with the values inserted unescaped |
| Sitemap.JoinThree | themes/clean-blog/scripts/sitemap.js:58-60 | the lines of a three-key entry, in order |
| Sitemap.JoinFour | themes/clean-blog/scripts/sitemap.js:58-60 | the lines of a four-key entry, in order |
| Feed.NoControlChars | themes/clean-blog/scripts/feed-generator.js:12-14 | the result contains no character in U+0000–U+001F or U+007F |
| Feed.NoControlCharsMembers | themes/clean-blog/scripts/feed-generator.js:13 | a character survives iff it occurs in the input and is not a control character |
| Feed.NoControlCharsSplits | themes/clean-blog/scripts/feed-generator.js:13 | the global replacement works character by character: it splits over concatenation and deletes a single character iff it is a control character |
| Feed.NoControlCharsFixpoint | themes/clean-blog/scripts/feed-generator.js:13 | the filter returns its input unchanged iff the input has no control character |
| Feed.NoControlCharsIdempotent | themes/clean-blog/scripts/feed-generator.js:13 | filtering twice equals filtering once |
| Feed.SelectPosts | themes/clean-blog/scripts/feed-generator.js:30-35 | no selected post is a draft |
| Feed.SelectionSorted | themes/clean-blog/scripts/feed-generator.js:30 | the selected posts are newest first |
| Feed.SelectionPrefix | themes/clean-blog/scripts/feed-generator.js:30-35 | the selection is the prefix of the date-sorted published posts; its length is `min(limit, published)`, or every published post when the limit is 0 |
| Feed.SelectionNewest | themes/clean-blog/scripts/feed-generator.js:35 | a published post is left out only when the limit is reached, and every selected post is at least as new as it |
| Feed.SelectionMembers | themes/clean-blog/scripts/feed-generator.js:31-35 | every selected post is a published input post; with at most `limit` published posts, they are all selected |
| Feed.NormalizeUrl | themes/clean-blog/scripts/feed-generator.js:37-38 | the URL ends in `/`, extends the input by at most that one character, and is unchanged iff the input already ended in `/` (the empty URL gains a `/`) |
| Feed.NormalizeUrlIdempotent | themes/clean-blog/scripts/feed-generator.js:37-38 | normalising twice equals normalising once |
| Feed.Generate | themes/clean-blog/scripts/feed-generator.js:16-51 | the path is `feed.xml`; `feed_url` is `root + 'feed.xml'`; the URL is normalised; the site and feed configuration are passed on; the posts are the selection with limit 20, so at most 20 posts, none a draft, newest first |
| Permalink.DigitRun | themes/clean-blog/scripts/permalinks.js:7 | a greedy `\d+` reads digits up to the first non-digit |
| Permalink.DigitsThenSlash | themes/clean-blog/scripts/permalinks.js:7 | a found `\d+\/` is a digit run ending in a slash |
| Permalink.DigitsThenSlashExact | themes/clean-blog/scripts/permalinks.js:7 | `\d+\/` matches at a position with a given slash iff the greedy reading finds that slash, so backtracking gives no other match |
| Permalink.MatchAt | themes/clean-blog/scripts/permalinks.js:7 | a match found at a position satisfies the pattern there |
| Permalink.MatchAtExact | themes/clean-blog/scripts/permalinks.js:7 | the pattern matches at a position with given slashes iff the matcher returns exactly that match |
| Permalink.NoMatchAt | themes/clean-blog/scripts/permalinks.js:7 | when the matcher finds nothing at a position, the pattern does not match there |
| Permalink.FindFrom | themes/clean-blog/scripts/permalinks.js:7 | the scan returns the first position at which the pattern matches, or nothing when it matches nowhere |
| Permalink.LineEnd | themes/clean-blog/scripts/permalinks.js:7 | `.*` consumes up to the first line terminator or to the end |
| Permalink.UnchangedIffNoOccurrence | themes/clean-blog/scripts/permalinks.js:6-9 | the permalink is unchanged iff the pattern occurs nowhere in it |
| Permalink.RewriteLeftmost | themes/clean-blog/scripts/permalinks.js:7 | for the leftmost match, the result is the input with the span from the second slash up to the third removed |
| Permalink.RewriteAtMatch | themes/clean-blog/scripts/permalinks.js:7 | `$1$2` rejoins the groups, so the match collapses to the input without `/` and the third number |
| Permalink.Splice | themes/clean-blog/scripts/permalinks.js:7 | keeping the text around the two groups drops only the text between them |
| Permalink.LeftmostStartsRun | themes/clean-blog/scripts/permalinks.js:7 | the leftmost match starts at the beginning of a run of digits |
| Permalink.LeftmostUnique | themes/clean-blog/scripts/permalinks.js:7 | the leftmost match is unique |
| Permalink.PostPermalink | themes/clean-blog/scripts/permalinks.js:6-9 | the filter never lengthens a permalink, and leaves it unchanged iff the scan finds no match |
| Permalink.DropsThirdNumber | themes/clean-blog/scripts/permalinks.js:7 | `2021/03/15/my-post/` becomes `2021/03/my-post/` |
| Permalink.DropsYearFolder | themes/clean-blog/scripts/permalinks.js:5-7 | the year folder after year and month is removed: `2021/03/2021/my-post/` becomes `2021/03/my-post/` |
| Permalink.KeepsSurroundings | themes/clean-blog/scripts/permalinks.js:7 | `posts/2021/03/15/x` becomes `posts/2021/03/x` |
| Permalink.NoTrailingSlashUnchanged | themes/clean-blog/scripts/permalinks.js:7 | `2021/03/15` has no slash after the third number and is unchanged |
| Permalink.NotIdempotent | themes/clean-blog/scripts/permalinks.js:7 | only the first match is replaced: `2021/03/15/16/x` becomes `2021/03/16/x`, and a second application removes one more number |

## Left out

- `root-level-images.js` is not part of this model. It is a generator that only copies files.
- The `uriencode` template filter (`encodeURI`) is not modelled.
- Nunjucks rendering of the Atom template is not modelled. Neither is reading `layout/atom.xml` from disk. `Feed.Generate` returns the values the template is rendered with, not the XML.
- The `after_init` hook that sets `TZ=UTC` is not modelled, because it only changes process state.
- The registration of generators and filters with the engine is not modelled.
- Sitemap.PostLastmod: moment's `utc()` switches the post's own `lastUpdated` or `date` moment to UTC mode in place before formatting it. This change to the record is not modelled, so the model does not capture that those moments format in UTC mode for any later template or generator.
- Sitemap.PageEntry: `page.updated.utc()` switches the page's `updated` moment to UTC mode in place in the same way. This is not modelled either.
- Moment's `utc().format()` is the parameter `fmt`, which maps a timestamp to its text; the date formatting is not modelled.
- Every JavaScript value other than a moment is modelled as the text that string concatenation makes of it. Falsy values other than the empty string are modelled as absent.
- `date` and `updated` are modelled as always present, as the engine sets them. The case of a page without `updated`, where the code would throw, is not modelled.
- A `layout` value of `""` stands for every falsy layout.
- Sort keys are integers, so lodash's placement of `undefined` or `NaN` keys is not modelled.
- Strings are sequences of Unicode scalar values, not UTF-16 code units. For these three scripts the results agree: none of their patterns or checks looks at surrogates.
- The priorities are the text they print as (`0.6`, `0.8`), not numbers.
- Sitemap.Serialize: the count of `<url>` elements is stated through the document's structure (`Sitemap.DocumentLayout`), not by counting substrings. Values are inserted unescaped, so a value containing `<url>` would change a substring count.
- Feed.SelectPosts: the engine's `limit` on a query is modelled as taking a prefix of the sorted and filtered list.
