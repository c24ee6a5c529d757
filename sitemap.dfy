/** The theme's `sitemap` generator: it selects and orders posts and pages,
    maps each to a sitemap entry, puts a homepage entry first and writes the
    entries out as a sitemaps.org 0.9 `<urlset>` document, inserting every
    value verbatim (nothing is escaped). */
module Sitemap {

  import opened Wrappers
  import opened Content
  import opened Ordering

  const SiteUrl := "https://www.make-awesome.com"

  /** One `<url>` element. `lastmod` is `None` where the entry has no such key
      (the homepage); the priorities are kept as the text they print as. */
  datatype Entry = Entry(loc: string, lastmod: Option<string>, changefreq: string, priority: string)

  /** The generator's result. */
  datatype Artifact = Artifact(path: string, data: string)

  // ---------------------------------------------------------------------------
  // Selection and mapping

  /** `post.sitemap !== false`. */
  predicate InPostSitemap(p: Record)
  {
    p.sitemap != Some(false)
  }

  /** The pages `reject` keeps: not those opted out, without a layout, or
      with the layout `'false'`. */
  predicate InPageSitemap(p: Record)
  {
    !(p.sitemap == Some(false) || p.layout == "" || p.layout == "false")
  }

  /** The posts of the sitemap, most recently updated first. */
  function SitemapPosts(posts: seq<Record>): (r: seq<Record>)
    ensures |r| == Count(posts, InPostSitemap)
    ensures SortedDesc(r, UpdatedOf)
    ensures forall i :: 0 <= i < |r| ==> r[i] in posts && r[i].sitemap != Some(false)
  {
    var kept := Keep(posts, InPostSitemap);
    SortKeeps(kept, UpdatedOf, InPostSitemap);
    forall x | x in kept ensures x in posts { KeepMembers(posts, InPostSitemap, x); }
    SortDesc(kept, UpdatedOf)
  }

  /** The pages of the sitemap, most recently updated first. */
  function SitemapPages(pages: seq<Record>): (r: seq<Record>)
    ensures |r| == Count(pages, InPageSitemap)
    ensures SortedDesc(r, UpdatedOf)
    ensures forall i :: 0 <= i < |r| ==>
              r[i] in pages && r[i].sitemap != Some(false) && r[i].layout != "" && r[i].layout != "false"
  {
    var kept := Keep(pages, InPageSitemap);
    SortKeeps(kept, UpdatedOf, InPageSitemap);
    forall x | x in kept ensures x in pages { KeepMembers(pages, InPageSitemap, x); }
    SortDesc(kept, UpdatedOf)
  }

  /** `post.lastUpdated || post.date`, formatted by `fmt` (moment's
      `utc().format()`) when it is a moment and used as it is otherwise. */
  function PostLastmod(p: Record, fmt: int -> string): (r: string)
    ensures !Truthy(p.lastUpdated) ==> r == fmt(p.date)
    ensures p.lastUpdated.Some? && p.lastUpdated.value.Moment? ==> r == fmt(p.lastUpdated.value.t)
    ensures p.lastUpdated.Some? && p.lastUpdated.value.Text? && p.lastUpdated.value.s != "" ==>
              r == p.lastUpdated.value.s
  {
    var v := if Truthy(p.lastUpdated) then p.lastUpdated.value else Moment(p.date);
    match v
    case Moment(t) => fmt(t)
    case Text(s) => s
  }

  /** The post's object literal: its keys, in declaration order, with their values. */
  function PostEntry(p: Record, fmt: int -> string): (e: Entry)
    ensures Fields(e) == [("loc", p.permalink), ("lastmod", PostLastmod(p, fmt)),
                          ("changefreq", "monthly"), ("priority", "0.6")]
  {
    Entry(p.permalink, Some(PostLastmod(p, fmt)), "monthly", "0.6")
  }

  /** The page's object literal: its keys, in declaration order, with their values. */
  function PageEntry(p: Record, fmt: int -> string): (e: Entry)
    ensures Fields(e) == [("loc", p.permalink), ("lastmod", fmt(p.updated)),
                          ("changefreq", "weekly"), ("priority", "0.8")]
  {
    Entry(p.permalink, Some(fmt(p.updated)), "weekly", "0.8")
  }

  const Homepage := Entry(SiteUrl, None, "weekly", "0.8")

  function PostEntries(posts: seq<Record>, fmt: int -> string): (r: seq<Entry>)
    ensures |r| == |posts|
  {
    seq(|posts|, i requires 0 <= i < |posts| => PostEntry(posts[i], fmt))
  }

  function PageEntries(pages: seq<Record>, fmt: int -> string): (r: seq<Entry>)
    ensures |r| == |pages|
  {
    seq(|pages|, i requires 0 <= i < |pages| => PageEntry(pages[i], fmt))
  }

  /** `_.flatten([homepage, posts, pages])`. */
  function Entries(posts: seq<Record>, pages: seq<Record>, fmt: int -> string): (r: seq<Entry>)
    ensures |r| == 1 + |SitemapPosts(posts)| + |SitemapPages(pages)|
    ensures r[0] == Homepage
  {
    [Homepage] + PostEntries(SitemapPosts(posts), fmt) + PageEntries(SitemapPages(pages), fmt)
  }

  // ---------------------------------------------------------------------------
  // Serialisation

  const Header := "<?xml version=\"1.0\" encoding=\"UTF-8\"?>\n"
                + "<urlset xmlns=\"http://www.sitemaps.org/schemas/sitemap/0.9\">\n"

  const Footer := "</urlset>"

  /** The keys of an entry with their values, in the order the object
      literal that built it declares them. */
  function Fields(e: Entry): seq<(string, string)>
  {
    [("loc", e.loc)]
    + (if e.lastmod.Some? then [("lastmod", e.lastmod.value)] else [])
    + [("changefreq", e.changefreq), ("priority", e.priority)]
  }

  /** One child element, the value inserted as it is. */
  function Line(key: string, value: string): string
  {
    "  <" + key + ">" + value + "</" + key + ">\n"
  }

  function FieldLine(field: (string, string)): string
  {
    Line(field.0, field.1)
  }

  /** The concatenation of `f` over `xs`, built by appending as a loop does. */
  function Join<T>(xs: seq<T>, f: T -> string): string
  {
    if xs == [] then "" else Join(xs[..|xs| - 1], f) + f(xs[|xs| - 1])
  }

  /** One `<url>` element. */
  function Block(e: Entry): string
  {
    " <url>\n" + Join(Fields(e), FieldLine) + " </url>\n"
  }

  function Blocks(entries: seq<Entry>): string
  {
    Join(entries, Block)
  }

  /** The sitemap document: the declaration and `<urlset>` line, one block
      per entry, and the closing tag. */
  function Document(entries: seq<Entry>): (r: string)
    ensures Header <= r && |Header| + |Footer| <= |r|
    ensures r[|r| - |Footer|..] == Footer
    ensures entries == [] ==> r == Header + Footer
  {
    Header + Blocks(entries) + Footer
  }

  /** The serialisation loop: appends to `data` one block per entry, one line per key. */
  method Serialize(entries: seq<Entry>) returns (data: string)
    ensures data == Document(entries)
  {
    data := Header;
    var i := 0;
    while i < |entries|
      invariant 0 <= i <= |entries|
      invariant data == Header + Blocks(entries[..i])
    {
      var fields := Fields(entries[i]);
      ghost var before := data;
      data := data + " <url>\n";
      var j := 0;
      while j < |fields|
        invariant 0 <= j <= |fields|
        invariant data == (before + " <url>\n") + Join(fields[..j], FieldLine)
      {
        var (key, value) := fields[j];
        data := data + ("  <" + key + ">" + value + "</" + key + ">\n");
        AppendLine(before + " <url>\n", fields, j);
        j := j + 1;
      }
      assert fields[..j] == fields;
      data := data + " </url>\n";
      AppendBlock(Header, entries, i);
      i := i + 1;
    }
    assert entries[..i] == entries;
    data := data + Footer;
  }

  lemma AppendLine(prefix: string, fields: seq<(string, string)>, j: nat)
    requires j < |fields|
    ensures prefix + Join(fields[..j], FieldLine) + Line(fields[j].0, fields[j].1)
         == prefix + Join(fields[..j + 1], FieldLine)
  {
    assert fields[..j + 1][..j] == fields[..j];
  }

  lemma AppendBlock(prefix: string, entries: seq<Entry>, i: nat)
    requires i < |entries|
    ensures prefix + Blocks(entries[..i]) + " <url>\n" + Join(Fields(entries[i]), FieldLine) + " </url>\n"
         == prefix + Blocks(entries[..i + 1])
  {
    assert entries[..i + 1][..i] == entries[..i];
  }

  /** The `sitemap` generator. */
  method Generate(posts: seq<Record>, pages: seq<Record>, fmt: int -> string) returns (a: Artifact)
    ensures a.path == "sitemap.xml"
    ensures a.data == Document(Entries(posts, pages, fmt))
  {
    var entries := Entries(posts, pages, fmt);
    var data := Serialize(entries);
    a := Artifact("sitemap.xml", data);
  }

  // ---------------------------------------------------------------------------
  // Properties

  /** A post is in the sitemap exactly when it does not opt out with
      `sitemap: false`; the kept posts are a permutation of the filtered input,
      most recently updated first. */
  lemma PostSelection(posts: seq<Record>, p: Record)
    ensures p in SitemapPosts(posts) <==> p in posts && p.sitemap != Some(false)
    ensures multiset(SitemapPosts(posts)) == multiset(Keep(posts, InPostSitemap))
    ensures SortedDesc(SitemapPosts(posts), UpdatedOf)
  {
    KeepMembers(posts, InPostSitemap, p);
    SortMembers(Keep(posts, InPostSitemap), UpdatedOf, p);
    SortPermutes(Keep(posts, InPostSitemap), UpdatedOf);
  }

  /** A page is in the sitemap exactly when it does not opt out, has a layout,
      and its layout is not the string `'false'`; the kept pages are a
      permutation of the filtered input, most recently updated first. */
  lemma PageSelection(pages: seq<Record>, p: Record)
    ensures p in SitemapPages(pages) <==>
            p in pages && p.sitemap != Some(false) && p.layout != "" && p.layout != "false"
    ensures multiset(SitemapPages(pages)) == multiset(Keep(pages, InPageSitemap))
    ensures SortedDesc(SitemapPages(pages), UpdatedOf)
  {
    KeepMembers(pages, InPageSitemap, p);
    SortMembers(Keep(pages, InPageSitemap), UpdatedOf, p);
    SortPermutes(Keep(pages, InPageSitemap), UpdatedOf);
  }

  /** The homepage comes first, then one entry per kept post, then one per
      kept page, in the order of the sorted lists. A post entry carries the
      permalink, its `lastmod` value, `monthly` and `0.6`; a page entry
      carries the permalink, the formatted `updated`, `weekly` and `0.8`. */
  lemma EntriesOrder(posts: seq<Record>, pages: seq<Record>, fmt: int -> string)
    ensures var es, ps, gs := Entries(posts, pages, fmt), SitemapPosts(posts), SitemapPages(pages);
            && es[0].loc == SiteUrl && es[0].lastmod == None
            && es[0].changefreq == "weekly" && es[0].priority == "0.8"
            && (forall i :: 0 <= i < |ps| ==>
                  && es[1 + i].loc == ps[i].permalink
                  && es[1 + i].lastmod == Some(PostLastmod(ps[i], fmt))
                  && es[1 + i].changefreq == "monthly" && es[1 + i].priority == "0.6")
            && (forall i :: 0 <= i < |gs| ==>
                  && es[1 + |ps| + i].loc == gs[i].permalink
                  && es[1 + |ps| + i].lastmod == Some(fmt(gs[i].updated))
                  && es[1 + |ps| + i].changefreq == "weekly" && es[1 + |ps| + i].priority == "0.8")
  {
    var es, ps, gs := Entries(posts, pages, fmt), SitemapPosts(posts), SitemapPages(pages);
    var pe, ge := PostEntries(ps, fmt), PageEntries(gs, fmt);
    assert es == [Homepage] + pe + ge;
    forall i | 0 <= i < |ps| ensures es[1 + i] == PostEntry(ps[i], fmt) {
      assert es[1 + i] == pe[i];
    }
    forall i | 0 <= i < |gs| ensures es[1 + |ps| + i] == PageEntry(gs[i], fmt) {
      assert es[1 + |ps| + i] == ge[i];
    }
  }

  /** Joining a concatenation joins the parts. */
  lemma {:induction false} JoinAppend<T>(a: seq<T>, b: seq<T>, f: T -> string)
    ensures Join(a + b, f) == Join(a, f) + Join(b, f)
  {
    if b == [] {
      assert a + b == a;
    } else {
      var b' := b[..|b| - 1];
      assert (a + b)[..|a + b| - 1] == a + b';
      JoinAppend(a, b', f);
    }
  }

  /** The document is the declaration and `<urlset>` line, the homepage's
      block, the kept posts' blocks, the kept pages' blocks and the closing
      tag, in that order. */
  lemma DocumentLayout(posts: seq<Record>, pages: seq<Record>, fmt: int -> string)
    ensures Document(Entries(posts, pages, fmt))
         == Header + Block(Homepage)
            + Blocks(PostEntries(SitemapPosts(posts), fmt))
            + Blocks(PageEntries(SitemapPages(pages), fmt))
            + Footer
  {
    var ps, gs := PostEntries(SitemapPosts(posts), fmt), PageEntries(SitemapPages(pages), fmt);
    assert Entries(posts, pages, fmt) == [Homepage] + ps + gs;
    DocumentSplit(Homepage, ps, gs);
  }

  lemma DocumentSplit(x: Entry, a: seq<Entry>, b: seq<Entry>)
    ensures Document([x] + a + b) == Header + Block(x) + Blocks(a) + Blocks(b) + Footer
  {
    JoinCons(x, a, b, Block);
    Regroup(Header, Block(x), Blocks(a), Blocks(b), Footer);
  }

  lemma Regroup(u: string, v: string, w: string, y: string, z: string)
    ensures u + (v + w + y) + z == u + v + w + y + z
  {
  }

  /** Joining an element followed by two sequences. */
  lemma JoinCons<T>(x: T, a: seq<T>, b: seq<T>, f: T -> string)
    ensures Join([x] + a + b, f) == f(x) + Join(a, f) + Join(b, f)
  {
    assert Join([x], f) == f(x) by {
      assert [x][..0] == [];
      assert Join([x], f) == "" + f(x);
    }
    JoinAppend([x] + a, b, f);
    JoinAppend([x], a, f);
  }

  /** The homepage block has no `lastmod` line. */
  lemma HomepageBlock()
    ensures Block(Homepage)
         == " <url>\n"
          + Line("loc", "https://www.make-awesome.com")
          + Line("changefreq", "weekly")
          + Line("priority", "0.8")
          + " </url>\n"
  {
    var fs := Fields(Homepage);
    assert fs == [("loc", SiteUrl), ("changefreq", "weekly"), ("priority", "0.8")];
    JoinThree(fs, FieldLine);
  }

  /** A post's block: its values are inserted between the tags as they are. */
  lemma PostBlock(p: Record, fmt: int -> string)
    ensures Block(PostEntry(p, fmt))
         == " <url>\n"
          + Line("loc", p.permalink)
          + Line("lastmod", PostLastmod(p, fmt))
          + Line("changefreq", "monthly")
          + Line("priority", "0.6")
          + " </url>\n"
  {
    JoinFour(Fields(PostEntry(p, fmt)), FieldLine);
  }

  /** A page's block: its values are inserted between the tags as they are. */
  lemma PageBlock(p: Record, fmt: int -> string)
    ensures Block(PageEntry(p, fmt))
         == " <url>\n"
          + Line("loc", p.permalink)
          + Line("lastmod", fmt(p.updated))
          + Line("changefreq", "weekly")
          + Line("priority", "0.8")
          + " </url>\n"
  {
    JoinFour(Fields(PageEntry(p, fmt)), FieldLine);
  }

  lemma JoinThree<T>(xs: seq<T>, f: T -> string)
    requires |xs| == 3
    ensures Join(xs, f) == f(xs[0]) + f(xs[1]) + f(xs[2])
  {
    var a, b := xs[..1], xs[..2];
    assert Join(a, f) == f(xs[0]) by {
      assert a[..0] == [];
      assert Join(a, f) == "" + f(a[0]);
    }
    assert Join(b, f) == Join(a, f) + f(xs[1]) by {
      assert b[..1] == a;
    }
    assert xs[..2] == b;
  }

  lemma JoinFour<T>(xs: seq<T>, f: T -> string)
    requires |xs| == 4
    ensures Join(xs, f) == f(xs[0]) + f(xs[1]) + f(xs[2]) + f(xs[3])
  {
    var c := xs[..3];
    JoinThree(c, f);
    assert xs[..3] == c;
  }
}
