/**
  `parse_markdown_file` and the loading loop of `main`: a Markdown file becomes a
  post record, is skipped (no frontmatter, or frontmatter YAML that does not
  parse), or stops the whole run (a date string `strptime` rejects, or
  frontmatter that is not a mapping). YAML loading, Markdown conversion and the
  clock are parameters.
*/
module Posts {
  import opened Common
  import opened Text
  import opened Dates
  import Frontmatter
  import ReadingTime

  /** What YAML loading yields for the `tags` key: a list of strings, a single
      string, or nothing. */
  datatype TagsField = TagList(items: seq<string>) | TagText(text: string) | NoTags

  /** A frontmatter mapping, reduced to the keys the generator reads. */
  datatype FrontMatter = FrontMatter(
    title: Option<string>,
    date: DateField,
    tags: TagsField,
    excerpt: Option<string>,
    image: Option<string>)

  /** The outcome of `yaml.safe_load` on the frontmatter text. */
  datatype YamlResult =
    | YamlError                      // `yaml.YAMLError`: the file is skipped
    | YamlMapping(fields: FrontMatter)
    | YamlOther                      // a scalar, a list or `None`: `.get` fails

  datatype Post = Post(
    title: string,
    date: PyDateTime,
    dateFormatted: string,
    tags: seq<string>,
    excerpt: string,
    image: string,
    content: string,
    readingTime: nat,
    slug: string)

  /** The exceptions that escape `parse_markdown_file` and end the run. */
  datatype LoadError = NotAMapping | BadDate(reason: DateError)

  datatype Outcome = Skipped | Loaded(post: Post) | Aborted(error: LoadError)

  /** One Markdown file: its stem, its text, and the clock reading taken if the
      post needs `datetime.now()`. */
  datatype Source = Source(slug: string, text: string, clock: PyDateTime)

  /** Iterating a string yields its characters as one-character strings, so a
      `tags` string behaves as the list of its characters. */
  function Characters(s: string): (r: seq<string>)
    ensures |r| == |s|
    ensures forall i | 0 <= i < |s| :: r[i] == [s[i]]
  {
    seq(|s|, i requires 0 <= i < |s| => [s[i]])
  }

  /** The tags as the generator iterates and indexes them. */
  function TagsOf(field: TagsField): (r: seq<string>)
    ensures field.NoTags? ==> r == []
    ensures field.TagText? ==> |r| == |field.text|
  {
    match field
    case TagList(items) => items
    case TagText(text) => Characters(text)
    case NoTags => []
  }

  function OrElse(v: Option<string>, default: string): string {
    if v.Some? then v.value else default
  }

  /** The invariants every loaded post satisfies: a positive reading time and a
      display date that reads back as the post's date. */
  predicate WellFormed(p: Post) {
    && p.readingTime >= 1
    && ParseDisplay(p.dateFormatted) == Some(p.date.date)
  }

  /** The body and fields of a document whose frontmatter split and YAML load
      succeeded. */
  function BuildPost(slug: string, fields: FrontMatter, date: PyDateTime, body: string, markdown: string -> string): (p: Post)
    ensures WellFormed(p)
    ensures p.slug == slug && p.date == date
    ensures p.title == OrElse(fields.title, "Untitled")
    ensures p.excerpt == OrElse(fields.excerpt, "") && p.image == OrElse(fields.image, "")
  {
    DisplayRoundTrip(date.date);
    Post(
      title := OrElse(fields.title, "Untitled"),
      date := date,
      dateFormatted := Display(date.date),
      tags := TagsOf(fields.tags),
      excerpt := OrElse(fields.excerpt, ""),
      image := OrElse(fields.image, ""),
      content := markdown(body),
      readingTime := ReadingTime.ReadingTimeOf(body),
      slug := slug)
  }

  /** `parse_markdown_file` once the file is read, with `normalise` for the
      date handling. */
  function ParseWith(src: Source, yaml: string -> YamlResult, markdown: string -> string,
                     normalise: (DateField, PyDateTime) -> Result<PyDateTime, DateError>): Outcome
  {
    match Frontmatter.SplitFrontmatter(src.text)
    case None => Skipped
    case Some((fm, body)) =>
      match yaml(fm)
      case YamlError => Skipped
      case YamlOther => Aborted(NotAMapping)
      case YamlMapping(fields) =>
        match normalise(fields.date, src.clock)
        case Err(e) => Aborted(BadDate(e))
        case Ok(date) => Loaded(BuildPost(src.slug, fields, date, body, markdown))
  }

  /** `parse_markdown_file`: the date is handled as the generator handles it,
      so an unquoted date becomes the clock reading (see
      `Dates.NormaliseDateAsWritten`). */
  function ParsePost(src: Source, yaml: string -> YamlResult, markdown: string -> string): (r: Outcome)
    ensures r.Skipped? <==>
      Frontmatter.SplitFrontmatter(src.text).None? || yaml(Frontmatter.SplitFrontmatter(src.text).value.0).YamlError?
    ensures r.Aborted? ==> Frontmatter.SplitFrontmatter(src.text).Some?
    ensures r.Aborted? && r.error.BadDate? ==>
      var fm := yaml(Frontmatter.SplitFrontmatter(src.text).value.0);
      fm.YamlMapping? && fm.fields.date.DateText? && ParseIsoDate(fm.fields.date.text) == Err(r.error.reason)
    ensures r.Loaded? ==> WellFormed(r.post) && r.post.slug == src.slug
  {
    ParseWith(src, yaml, markdown, NormaliseDateAsWritten)
  }

  /** The frontmatter of `src` loads to a mapping whose date is a YAML `date`. */
  predicate UnquotedDate(src: Source, yaml: string -> YamlResult) {
    var split := Frontmatter.SplitFrontmatter(src.text);
    split.Some? && yaml(split.value.0).YamlMapping? && yaml(split.value.0).fields.date.DateValue?
  }

  /** `parse_markdown_file` with the unquoted-date case corrected (see
      `Dates.NormaliseDate`): it differs from the generator only on files
      whose frontmatter date is unquoted. */
  function ParsePostCorrected(src: Source, yaml: string -> YamlResult, markdown: string -> string): (r: Outcome)
    ensures !UnquotedDate(src, yaml) ==> r == ParsePost(src, yaml, markdown)
    ensures UnquotedDate(src, yaml) ==>
      var split := Frontmatter.SplitFrontmatter(src.text).value;
      var fields := yaml(split.0).fields;
      r == Loaded(BuildPost(src.slug, fields, Midnight(fields.date.d), split.1, markdown))
  {
    ParseWith(src, yaml, markdown, NormaliseDate)
  }

  /** A document assembled from frontmatter text and a body, whose frontmatter
      loads to a mapping with a quoted date, gives the post of that body and
      date: the body is the Markdown after the closing line, the reading time
      is counted on it, and the date is midnight of the written date. */
  lemma {:induction false} ComposedDocument(slug: string, fm: string, body: string, clock: PyDateTime, d: PyDate,
                         fields: FrontMatter, yaml: string -> YamlResult, markdown: string -> string)
    requires |fm| > 0 && !IsWs(fm[0]) && !Contains(fm, "\n---")
    requires |body| == 0 || !IsWs(body[0])
    requires yaml(fm) == YamlMapping(fields) && fields.date == DateText(IsoText(d))
    ensures
      var r := ParsePost(Source(slug, "---\n" + fm + "\n---\n" + body, clock), yaml, markdown);
      && r.Loaded?
      && r.post.date == Midnight(d)
      && r.post.dateFormatted == Display(d)
      && r.post.content == markdown(body)
      && r.post.readingTime == ReadingTime.ReadingTimeOf(body)
      && r.post.tags == TagsOf(fields.tags)
  {
    var src := Source(slug, "---\n" + fm + "\n---\n" + body, clock);
    Frontmatter.RoundTrip(fm, body);
    IsoRoundTrip(d);
    LoadedWhenDateReads(src, fm, body, fields, Midnight(d), yaml, markdown);
  }

  /** Past the split and the YAML load, a date that normalises gives the post
      built from the fields and the body. */
  lemma {:induction false} LoadedWhenDateReads(src: Source, fm: string, body: string, fields: FrontMatter, date: PyDateTime,
                                              yaml: string -> YamlResult, markdown: string -> string)
    requires Frontmatter.SplitFrontmatter(src.text) == Some((fm, body))
    requires yaml(fm) == YamlMapping(fields) && NormaliseDateAsWritten(fields.date, src.clock) == Ok(date)
    ensures ParsePost(src, yaml, markdown) == Loaded(BuildPost(src.slug, fields, date, body, markdown))
  {
  }

  /** A date string `strptime` rejects stops the run, whatever else the file
      holds. */
  lemma {:induction false} BadDateAborts(slug: string, fm: string, body: string, clock: PyDateTime, text: string,
                      fields: FrontMatter, yaml: string -> YamlResult, markdown: string -> string)
    requires |fm| > 0 && !IsWs(fm[0]) && !Contains(fm, "\n---")
    requires |body| == 0 || !IsWs(body[0])
    requires yaml(fm) == YamlMapping(fields) && fields.date == DateText(text)
    requires ParseIsoDate(text).Err?
    ensures ParsePost(Source(slug, "---\n" + fm + "\n---\n" + body, clock), yaml, markdown)
      == Aborted(BadDate(ParseIsoDate(text).error))
  {
    Frontmatter.RoundTrip(fm, body);
  }

  /** A document whose frontmatter date is unquoted loads with the clock
      reading as its date, while the corrected parser keeps the written date. */
  lemma {:induction false} UnquotedDateDocument(slug: string, fm: string, body: string, clock: PyDateTime, d: PyDate,
                              fields: FrontMatter, yaml: string -> YamlResult, markdown: string -> string)
    requires |fm| > 0 && !IsWs(fm[0]) && !Contains(fm, "\n---")
    requires |body| == 0 || !IsWs(body[0])
    requires yaml(fm) == YamlMapping(fields) && fields.date == DateValue(d)
    ensures
      var src := Source(slug, "---\n" + fm + "\n---\n" + body, clock);
      && ParsePost(src, yaml, markdown) == Loaded(BuildPost(slug, fields, clock, body, markdown))
      && ParsePostCorrected(src, yaml, markdown) == Loaded(BuildPost(slug, fields, Midnight(d), body, markdown))
  {
    Frontmatter.RoundTrip(fm, body);
  }

  /** The loop of `main` over the parse outcomes of the files, in order:
      skipped files are dropped, the first aborting file ends the run with its
      error. */
  function Collect(outs: seq<Outcome>): (r: Result<seq<Post>, LoadError>)
    ensures r.Ok? ==> |r.value| <= |outs|
    ensures r.Ok? ==> forall i | 0 <= i < |r.value| :: Loaded(r.value[i]) in outs
    ensures r.Err? <==> exists j | 0 <= j < |outs| :: outs[j].Aborted?
    ensures r.Err? ==> Aborted(r.error) in outs
  {
    if |outs| == 0 then Ok([])
    else
      var rest := Collect(outs[1..]);
      assert forall j | 1 <= j < |outs| :: outs[j] == outs[1..][j - 1];
      match outs[0]
      case Aborted(e) => Err(e)
      case Skipped => rest
      case Loaded(p) =>
        (match rest
         case Ok(ps) => Ok([p] + ps)
         case Err(e) => Err(e))
  }

  /** The loaded posts: exactly the `Loaded` outcomes, in order. */
  function LoadedOf(outs: seq<Outcome>): seq<Post> {
    if |outs| == 0 then []
    else if outs[0].Loaded? then [outs[0].post] + LoadedOf(outs[1..])
    else LoadedOf(outs[1..])
  }

  lemma {:induction false} CollectKeepsLoadedInOrder(outs: seq<Outcome>)
    requires Collect(outs).Ok?
    ensures Collect(outs).value == LoadedOf(outs)
  {
    if |outs| > 0 {
      CollectKeepsLoadedInOrder(outs[1..]);
    }
  }

  /** A skipped file, wherever it sits among the files, changes nothing. */
  lemma {:induction false} SkippedIgnored(outs: seq<Outcome>, i: nat)
    requires i <= |outs|
    ensures Collect(outs[..i] + [Skipped] + outs[i..]) == Collect(outs)
  {
    var g := outs[..i] + [Skipped] + outs[i..];
    if i == 0 {
      assert g[1..] == outs;
    } else {
      SkippedIgnored(outs[1..], i - 1);
      assert g[0] == outs[0];
      assert g[1..] == outs[1..][..i - 1] + [Skipped] + outs[1..][i - 1..];
    }
  }

  function Outcomes(files: seq<Source>, yaml: string -> YamlResult, markdown: string -> string): (outs: seq<Outcome>)
    ensures |outs| == |files|
    ensures forall i | 0 <= i < |files| :: outs[i] == ParsePost(files[i], yaml, markdown)
  {
    seq(|files|, i requires 0 <= i < |files| => ParsePost(files[i], yaml, markdown))
  }

  /** Posts of all the Markdown files (lines 286-292 of the generator). */
  function LoadPosts(files: seq<Source>, yaml: string -> YamlResult, markdown: string -> string): (r: Result<seq<Post>, LoadError>)
    ensures r.Ok? ==> |r.value| <= |files|
    ensures r.Ok? ==> forall i | 0 <= i < |r.value| :: WellFormed(r.value[i])
    ensures r.Err? <==> exists i | 0 <= i < |files| :: ParsePost(files[i], yaml, markdown).Aborted?
  {
    var outs := Outcomes(files, yaml, markdown);
    var r := Collect(outs);
    assert r.Err? ==> exists j | 0 <= j < |outs| :: outs[j].Aborted?;
    r
  }

  /** Inserting a file without usable frontmatter anywhere among the files does
      not change the loaded posts. */
  lemma {:induction false} SkippedFileIgnored(files: seq<Source>, i: nat, f: Source,
                           yaml: string -> YamlResult, markdown: string -> string)
    requires i <= |files|
    requires ParsePost(f, yaml, markdown).Skipped?
    ensures LoadPosts(files[..i] + [f] + files[i..], yaml, markdown) == LoadPosts(files, yaml, markdown)
  {
    var outs := Outcomes(files, yaml, markdown);
    var g := files[..i] + [f] + files[i..];
    assert Outcomes(g, yaml, markdown) == outs[..i] + [Skipped] + outs[i..];
    SkippedIgnored(outs, i);
  }
}
