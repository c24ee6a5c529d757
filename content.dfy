/** Content records handed to the theme's generators by the blogging engine:
    one type for posts and pages, held as values. The sitemap generator's
    `utc()` calls switch the moment objects of a record to UTC mode in place;
    that change of the record is not part of this model. */
module Content {

  import opened Wrappers

  /** A date-like front-matter value. `Moment` is a moment object holding a
      timestamp; every other value (a string, a plain Date) is represented by
      the text that string concatenation turns it into. */
  datatype Stamp = Moment(t: int) | Text(s: string)

  /** JavaScript truthiness of an optional front-matter value: absent values
      and the empty string are falsy, a moment object is always truthy. */
  predicate Truthy(v: Option<Stamp>)
  {
    match v
    case None => false
    case Some(Moment(_)) => true
    case Some(Text(s)) => s != ""
  }

  /** A post or a page.
      - `date`, `updated`: moment timestamps the engine always sets;
      - `lastUpdated`: an optional custom front-matter field;
      - `sitemap`: the opt-out flag, `None` when not given;
      - `layout`: the layout name, `""` standing for every falsy value. */
  datatype Record = Record(
    date: int,
    updated: int,
    lastUpdated: Option<Stamp>,
    permalink: string,
    draft: bool,
    sitemap: Option<bool>,
    layout: string)

  function DateOf(r: Record): int { r.date }

  function UpdatedOf(r: Record): int { r.updated }
}
