# Blog generator, modelled in Dafny

This project models the core of `tools/generate_blog.py`, the script that
turns the Markdown posts under `blog/posts/` into article pages and refreshes
the cards of the `blog.html` listing page. Once the Markdown converter, the
YAML loader, the clock and the filesystem become parameters, the script is
pure string and sequence logic. The model covers that logic:

- **Frontmatter** (`Frontmatter.dfy`): the anchored, lazy delimiter pattern
  `^---\s*\n(.*?)\n---\s*\n` with `re.DOTALL`. A hand-written matcher tries
  the candidate matches in the regex engine's backtracking order. The body is
  the text after the match.
- **Reading time** (`ReadingTime.dfy`): the words of `str.split()`, and
  `max(1, round(words / 200))` with Python's round-half-to-even, done in
  integers.
- **Dates** (`Dates.dfy`):
  - `strptime(text, '%Y-%m-%d')` with the regex alternatives CPython uses for
    `%m` and `%d`, and its day-of-month check.
  - The `'%B %d, %Y'` display form.
  - The three-way date normalisation, with the clock as a parameter.
- **Posts** (`Posts.dfy`): `parse_markdown_file` as a function of the file
  text, the YAML result and the Markdown converter. A file is skipped, loaded
  or aborts the run. The loading loop of `main` is modelled too.
- **Ordering** (`Ordering.dfy`): `sorted(..., key=date, reverse=True)` as a
  stable insertion sort. The model proves it is the one newest-first order
  that keeps posts of equal date in input order.
- **Article pages** (`Navigation.dfy`, `Articles.dfy`):
  - Previous/next neighbours found by the first slug match in the sorted
    posts.
  - The tag badges and the header image.
  - The nine sequential `str.replace` steps that fill the template.
- **Listing** (`Listing.dfy`, `Pattern.dfy`, `Splice.dfy`, `Update.dfy`):
  - The blog card.
  - The cards block: the cards joined by newlines, or the "no posts"
    paragraph.
  - The `re.sub` that replaces everything between
    `<div class="blog-posts" id="blog-posts">` and the earliest following
    `</div>\s*</div>\s*</main>` with the cards block, for every match in
    turn.

Modelling choices:

- **Whitespace.** `\s` and `str.split()` use the full Unicode whitespace set
  of `str.isspace` (`Text.IsWs`), as Python's `str` patterns do.
- **Card filler.** Reading a card back only needs the characters around its
  fields. The card's fixed decoration is therefore a `Filler` parameter: SVG
  icons, indentation and fixed words. Every property of cards and of the
  listing holds for any filler. `Listing.SiteFiller` holds the generator's
  exact text, and `Listing.ListingHtml` and `Update.SiteUpdate` are the
  generator's instances.
- **Year display.** `%Y` writes years below 1000 without padding, as glibc's
  `strftime` does. CPython releases that hand `%Y` to glibc behave this way;
  releases with the change for gh-120713 pad such years to four digits (see
  `Dates.Display` under "Left out").

## Model

| member | source | states |
|---|---|---|
| Text.WsSpanRun | tools/generate_blog.py:95 | a greedy `\s*` takes only whitespace, and stops at the first non-whitespace character |
| Text.ReplaceIsJoinOfSplit | tools/generate_blog.py:175-182 | `str.replace(p, r)` replaces every leftmost non-overlapping occurrence: it equals joining the pieces of `split(p)` with `r` |
| Text.SplitJoinRoundTrip | tools/generate_blog.py:175-182 | splitting on a separator and joining with it gives the text back |
| Text.ReplaceAbsent | tools/generate_blog.py:175-182 | a text without the pattern comes back from `replace` unchanged |
| Text.ReplaceAll | tools/generate_blog.py:175-188 | `str.replace`, scanning left to right over non-overlapping occurrences; specified by Text.ReplaceIsJoinOfSplit (it is joining the `split` pieces with the replacement) and Text.ReplaceAbsent (a text without the pattern is unchanged) |
| Text.SplitJoinChar | tools/generate_blog.py:147 | lines joined by `"\n"` split back into the same lines when none holds a newline |
| Text.NatToStringRoundTrip | tools/generate_blog.py:177 | `str(n)` is a decimal numeral whose value is `n` |
| Text.Pad2 | tools/generate_blog.py:134 | the `%d` field is two digits whose value is the day |
| Frontmatter.CloseAt | tools/generate_blog.py:95 | the closing `\n---\s*\n` at a position: it matches there, and its `\s*\n` ends at the latest possible newline |
| Frontmatter.FirstClose | tools/generate_blog.py:95 | the lazy `(.*?)` stops at the earliest closing line, and none lies before it |
| Frontmatter.TryOpen | tools/generate_blog.py:95 | an opening `\s*\n` newline is tried latest first, so the match found is the first in the engine's order among those below the bound; none means there is no match there |
| Frontmatter.FirstMatchUnique | tools/generate_blog.py:95 | the engine's first match is unique |
| Frontmatter.FindMatch | tools/generate_blog.py:95-97 | `re.match` finds the first match in the engine's order, or reports that nothing matches |
| Frontmatter.FirstMatchExists | tools/generate_blog.py:95-97 | whenever any match exists, `re.match` succeeds |
| Frontmatter.SplitFrontmatter | tools/generate_blog.py:95-99 | a document has a frontmatter split exactly when the delimiter pattern matches it |
| Frontmatter.SplitAtFirstMatch | tools/generate_blog.py:95-108 | the split is group 1 of the first match and `content[match.end():]` |
| Frontmatter.RoundTrip | tools/generate_blog.py:95-108 | `"---\n" + fm + "\n---\n" + body` splits into exactly `fm` and `body` when `fm` is non-empty, does not start with whitespace and holds no `"\n---"`, and `body` is empty or starts with non-whitespace |
| Frontmatter.EmptyFrontmatterTakesRule | tools/generate_blog.py:95 | with an empty frontmatter, a body that starts with a `---` line is taken as the frontmatter |
| Frontmatter.EmptyFrontmatterTakesLaterRule | tools/generate_blog.py:95 | with an empty frontmatter, a `---` line later in the body ends the capture, and the body lines before it join the frontmatter |
| Frontmatter.NoOpeningDashes | tools/generate_blog.py:95-99 | a document that does not start with `---` yields no post |
| Frontmatter.NoClosingLine | tools/generate_blog.py:95-99 | a document with no closing `\n---\s*\n` yields no post |
| ReadingTime.Words | tools/generate_blog.py:119 | `split()` yields non-empty pieces with no whitespace in them |
| ReadingTime.WordCountIsStarts | tools/generate_blog.py:119 | the word count equals the number of maximal non-whitespace runs, counted independently as word starts |
| ReadingTime.RoundHalfEven | tools/generate_blog.py:120 | `round(n / 200)` is the nearest integer to n/200, ties to even, and it is the only one |
| ReadingTime.MinutesFor | tools/generate_blog.py:120 | the reading time is at least 1, is exactly 1 below 300 words, and otherwise is the rounded quotient |
| ReadingTime.ReadingTimeOf | tools/generate_blog.py:119-120 | the reading time of a body is at least 1, and is 1 exactly when the body has fewer than 300 words |
| ReadingTime.MinutesExamples | tools/generate_blog.py:120 | 100 words give 1 minute, 300 and 500 give 2, and 700 gives 4 |
| Dates.EarlierIsStrictTotalOrder | tools/generate_blog.py:153 | comparing datetimes is a strict total order, so sorting by date is well defined |
| Dates.MonthField | tools/generate_blog.py:125 | the `%m` field gives a month from 1 to 12 and consumes at least one character |
| Dates.DayField | tools/generate_blog.py:125 | the `%d` field gives a day from 1 to 31 and consumes at least one character |
| Dates.MonthFieldExact | tools/generate_blog.py:125 | the `%m` field reads exactly the spellings `01`-`12` and `1`-`9` of a month, and a spelling followed by the dash is read in full |
| Dates.DayFieldExact | tools/generate_blog.py:125 | the `%d` field reads exactly the spellings `01`-`31`, `1`-`9` and ` 1`-` 9` of a day, and a spelling running to the end of the text is read in full |
| Dates.ParseIsoDate | tools/generate_blog.py:124-125 | an accepted text is four year digits, a dash, a month spelling, a dash and a day spelling, and the date returned is the one they spell |
| Dates.IsoSpellingParses | tools/generate_blog.py:124-125 | every spelling of a valid date is accepted and gives that date, so `strptime` returns `d` exactly when the text spells the valid date `d` |
| Dates.IsoRoundTrip | tools/generate_blog.py:125 | the canonical `YYYY-MM-DD` text of any valid date parses back to that date |
| Dates.LenientForms | tools/generate_blog.py:125 | `strptime` also accepts single-digit and space-padded months and days |
| Dates.RejectedForms | tools/generate_blog.py:125 | a day the month lacks, extra characters and a short year are errors |
| Dates.MonthNameFacts | tools/generate_blog.py:134 | every month has a name for `%B` that reads back as that month |
| Dates.DisplayRoundTrip | tools/generate_blog.py:134 | `'%B %d, %Y'` text reads back as the date |
| Dates.DisplayInjective | tools/generate_blog.py:134 | different dates display differently |
| Dates.DisplayExamples | tools/generate_blog.py:134 | 2026-02-24 shows as "February 24, 2026" and 2026-02-04 as "February 04, 2026" |
| Dates.Display | tools/generate_blog.py:134 | `date.strftime('%B %d, %Y')`; specified by Dates.DisplayRoundTrip (the text reads back as the date), Dates.DisplayInjective and Dates.DisplayExamples |
| Dates.NormaliseDateAsWritten | tools/generate_blog.py:122-129 | as written: a string is parsed, and an unparseable one is an error; a `datetime` is kept; anything else, a YAML `date` included, becomes the clock reading |
| Dates.UnquotedDateIgnoredAsWritten | tools/generate_blog.py:122-129 | as written, an unquoted frontmatter date is replaced by the clock reading |
| Dates.NormaliseDate | tools/generate_blog.py:122-129 | corrected: a `date` becomes its midnight; the other cases are as written |
| Dates.QuotedAndUnquotedAgree | tools/generate_blog.py:122-129 | corrected: a quoted and an unquoted date give the same instant, whatever the clock says |
| Posts.Characters | tools/generate_blog.py:135 | a string `tags` value is iterated as its characters |
| Posts.TagsOf | tools/generate_blog.py:135 | a missing `tags` key gives no tags, and a string gives one tag per character |
| Posts.BuildPost | tools/generate_blog.py:131-142 | the post record: the slug is the file stem, and title, excerpt and image default to "Untitled", "" and "" |
| Posts.ParsePost | tools/generate_blog.py:90-142 | with the date handled as written: a file is skipped exactly when there is no frontmatter match or the YAML does not parse; a run-ending date error comes from `strptime` on the date string; a loaded post has the file's slug |
| Posts.ParsePostCorrected | tools/generate_blog.py:90-142 | corrected: differs from the generator only on a file whose frontmatter date is unquoted, which loads with that date at midnight |
| Posts.ComposedDocument | tools/generate_blog.py:90-142 | a well-formed document loads with the written date at midnight, its display text, and the converted body with the body's reading time and tags |
| Posts.LoadedWhenDateReads | tools/generate_blog.py:101-142 | after the split and the YAML load, a date that the generator's normalisation accepts gives the post built from the fields and the body |
| Posts.UnquotedDateDocument | tools/generate_blog.py:90-142 | a well-formed document with an unquoted date loads with the clock reading as its date; the corrected parser gives the written date at midnight |
| Posts.BadDateAborts | tools/generate_blog.py:124-125 | a date string that `strptime` rejects ends the run with its error |
| Posts.Collect | tools/generate_blog.py:287-292 | the run fails exactly when some file aborts; otherwise every post kept came from a loaded file |
| Posts.CollectKeepsLoadedInOrder | tools/generate_blog.py:287-292 | the posts are the loaded files' posts, in file order |
| Posts.SkippedIgnored | tools/generate_blog.py:290-292 | a skipped file anywhere among the outcomes changes nothing |
| Posts.Outcomes | tools/generate_blog.py:288-290 | each file is parsed on its own |
| Posts.LoadPosts | tools/generate_blog.py:286-292 | loading fails exactly when some file aborts; otherwise it gives at most one well-formed post per file |
| Posts.SkippedFileIgnored | tools/generate_blog.py:286-292 | inserting a file without usable frontmatter anywhere among the files leaves the loaded posts unchanged |
| Ordering.Insert | tools/generate_blog.py:153 | inserting a post adds exactly that post |
| Ordering.InsertKeepsNewestFirst | tools/generate_blog.py:153 | insertion keeps the newest-first order |
| Ordering.InsertKeepsDateGroups | tools/generate_blog.py:153 | insertion puts the new post after the earlier posts of its date |
| Ordering.Sort | tools/generate_blog.py:153 | the sorted posts are newest first and are a permutation of the input |
| Ordering.SortIsStable | tools/generate_blog.py:153 | the posts of each date keep their input order (`reverse=True` is stable) |
| Ordering.NewestFirstUnique | tools/generate_blog.py:153 | two newest-first orders of the same posts that agree within each date are equal |
| Ordering.SortCharacterised | tools/generate_blog.py:241 | any newest-first permutation that keeps each date's input order is the sort's result |
| Ordering.SortKeepsSorted | tools/generate_blog.py:241 | posts already newest first are left in place, so sorting is idempotent |
| Navigation.SortKeepsDistinct | tools/generate_blog.py:153 | sorting does not make two posts share a slug or a date |
| Navigation.IndexOfSlug | tools/generate_blog.py:154 | the first index whose slug matches, or -1 when no post has the slug |
| Navigation.NeighboursOf | tools/generate_blog.py:153-171 | both neighbours are among the posts |
| Navigation.PositionOfPost | tools/generate_blog.py:153-154 | with distinct slugs, the index found is the article's own position |
| Navigation.NeighboursInDateOrder | tools/generate_blog.py:153-171 | with distinct slugs, repeated dates allowed: "Previous" is another post no newer than the article, and "Next" another post no older |
| Navigation.PrevIsNewestOlder | tools/generate_blog.py:159-164 | with distinct slugs and distinct dates: "Previous" exists exactly when an older post exists, and it is the newest of the older posts |
| Navigation.NextIsOldestNewer | tools/generate_blog.py:166-171 | with distinct slugs and distinct dates: "Next" exists exactly when a newer post exists, and it is the oldest of the newer posts |
| Navigation.OlderNeighbourInSorted | tools/generate_blog.py:159-160 | with distinct dates, in newest-first order the element at i+1 is the newest post older than the element at i |
| Navigation.NewerNeighbourInSorted | tools/generate_blog.py:166-167 | with distinct dates, in newest-first order the element at i-1 is the oldest post newer than the element at i |
| Navigation.SinglePost | tools/generate_blog.py:159-171 | a single post has neither link |
| Navigation.ThreePostsMiddle | tools/generate_blog.py:153-171 | for dates D1 > D2 > D3, D2 links back to D3 and forward to D1 |
| Navigation.ThreePostsNewest | tools/generate_blog.py:153-171 | the newest of three has no "Next" and links back to the middle one |
| Navigation.ThreePostsOldest | tools/generate_blog.py:153-171 | the oldest of three has no "Previous" and links forward to the middle one |
| Navigation.AbsentSlugLinksNewest | tools/generate_blog.py:154-160 | an article whose slug is not among the posts gets index -1, so "Previous" points at the newest post and there is no "Next" |
| Navigation.LinksRoundTrip | tools/generate_blog.py:161-171 | each link names its target's slug and title, which read back from it |
| Navigation.PrevLink | tools/generate_blog.py:159-163 | the "Previous" anchor of :160-163; specified by Navigation.LinksRoundTrip (it reads back as the target's slug and title) |
| Navigation.NextLink | tools/generate_blog.py:165-170 | the "Next" anchor of :167-170; specified by Navigation.LinksRoundTrip (it reads back as the target's slug and title) |
| Navigation.NavFragments | tools/generate_blog.py:156-171 | `prev_html` and `next_html` are empty exactly when the neighbour is missing |
| Articles.Badges | tools/generate_blog.py:147 | one badge per tag, in order |
| Articles.TagsHtml | tools/generate_blog.py:145-147 | the badge text is empty exactly when there are no tags |
| Articles.ReadBadgesOfBadges | tools/generate_blog.py:147 | each badge reads back as its tag |
| Articles.TagsRoundTrip | tools/generate_blog.py:145-147 | the joined badges determine the tags, in order, when no tag holds a newline |
| Articles.HeaderImage | tools/generate_blog.py:185-187 | the header image fragment is empty exactly when the image field is empty |
| Articles.HeaderImageRoundTrip | tools/generate_blog.py:185-187 | a header image fragment reads back as the image and the title |
| Articles.ArticleValues | tools/generate_blog.py:150-188 | nine values in the template's order; the link values are empty exactly when the neighbour is missing, and the image value exactly when the image is |
| Articles.Substitute | tools/generate_blog.py:174-188 | the `str.replace` steps in order, one per placeholder; specified by Articles.NoTokensUnchanged, Articles.ReplaceStep and Articles.SequentialIsSimultaneous (on brace-free text the steps fill every placeholder at once), with Articles.TokenJoinedByLaterStep showing where that stops |
| Articles.ArticleHtml | tools/generate_blog.py:150-190 | `generate_article_html`: the nine steps with the values of Articles.ArticleValues; specified by Articles.TemplateWithoutTokens and, for a template of literal text and placeholders, Articles.WellShapedTemplate |
| Articles.NoTokensUnchanged | tools/generate_blog.py:174-188 | replace steps whose tokens do not occur leave the text unchanged |
| Articles.TemplateWithoutTokens | tools/generate_blog.py:174-190 | a template holding none of the nine tokens is the article page unchanged |
| Articles.ReplaceStep | tools/generate_blog.py:175-188 | on a template of literal text and tokens, one step turns that name's tokens into its value and changes nothing else |
| Articles.SequentialIsSimultaneous | tools/generate_blog.py:174-188 | when no literal text or value holds `{`, the sequential steps equal one simultaneous substitution of every token |
| Articles.NoBraceLeft | tools/generate_blog.py:174-188 | filling every placeholder with brace-free values leaves no `{` |
| Articles.WellShapedTemplate | tools/generate_blog.py:174-188 | with brace-free values, the page equals the simultaneous substitution, and no token of any name remains when every placeholder is one of the nine |
| Articles.FirstStepTakesWholeToken | tools/generate_blog.py:175 | a text that is exactly a token becomes the value |
| Articles.TitleHoldingDateToken | tools/generate_blog.py:175-176 | a title that holds `{{date}}` is rewritten by the later date step |
| Articles.EarlyValueRewritten | tools/generate_blog.py:174-188 | a value holding a later step's token is rewritten by that step |
| Articles.TokenJoinedByLaterStep | tools/generate_blog.py:175-176 | as written: the template `{{tit{{date}}le}}` with an empty date leaves `{{title}}` on the page, though no value holds it |
| Articles.JoinedToken | tools/generate_blog.py:174-188 | the general form: an empty later value can join two halves into an earlier step's token |
| Articles.LaterStepsKeepToken | tools/generate_blog.py:174-188 | steps for other names leave a lone token alone |
| Listing.SiteWellFormed | tools/generate_blog.py:196-231 | the generator's card frame has the shape that makes cards readable |
| Listing.ImageHtml | tools/generate_blog.py:199-210 | a card uses the placeholder exactly when the image is empty |
| Listing.TagHtml | tools/generate_blog.py:195-197 | a card has no tag span exactly when there is no tag to show |
| Listing.ReadCardPrefix | tools/generate_blog.py:212-231 | a card read at the start of a text is a card of those fields followed by the rest of the text |
| Listing.ImageReadBack | tools/generate_blog.py:199-210 | the image line reads back as the image file, or as empty for the placeholder |
| Listing.MetaReadBack | tools/generate_blog.py:215-221 | the date line and the tag span read back as the date and the tag |
| Listing.TitleReadBack | tools/generate_blog.py:222-224 | the title link reads back as the slug's page and the title |
| Listing.MoreReadBack | tools/generate_blog.py:225-229 | the excerpt and the "Read more" link read back as the excerpt |
| Listing.ReadCardOf | tools/generate_blog.py:212-231 | a card followed by any text reads back as its fields and that text |
| Listing.CardRoundTrip | tools/generate_blog.py:193-231 | a card shows its post's fields, and its tag is the first tag if there is one |
| Listing.Card | tools/generate_blog.py:193-231 | `generate_blog_card`: the generator's frame and filler around the post's fields; specified by Listing.CardRoundTrip at `X := SiteFiller` (a readable card reads back as the post's fields, with its first tag) |
| Listing.Infos | tools/generate_blog.py:245 | the cards show the posts in order |
| Listing.ReadCardsOf | tools/generate_blog.py:245 | cards joined by newlines read back as the cards' fields |
| Listing.CardsAreNotNoPosts | tools/generate_blog.py:244-247 | a block of cards is never the "no posts" paragraph |
| Listing.CardsHtmlRoundTrip | tools/generate_blog.py:241-247 | the cards block reads back as the posts' cards, newest first |
| Listing.ListingRoundTrip | tools/generate_blog.py:241-247 | the generator's cards block reads back as the posts, newest first, and as no cards exactly when there are no posts |
| Listing.CardsHtml | tools/generate_blog.py:241-247 | the cards block for a frame and filler; specified by Listing.CardsHtmlRoundTrip (it reads back as the sorted posts' cards) and Listing.CardsAreNotNoPosts |
| Listing.ListingHtml | tools/generate_blog.py:241-247 | the generator's cards block; specified by Listing.ListingRoundTrip and Listing.ListingOrder at `X := SiteFiller` |
| Listing.ListingOrder | tools/generate_blog.py:241-245 | the listing shows the posts in the one newest-first order that keeps equal dates in input order |
| Pattern.MatchSound | tools/generate_blog.py:253 | what a fragment of literals and `\s*` runs takes is that fragment spelled with whitespace runs |
| Pattern.MatchComplete | tools/generate_blog.py:253 | a fragment spelled with whitespace runs is matched whole at the start of any text that starts with it |
| Pattern.FindSpec | tools/generate_blog.py:253 | the lazy `.*?` search finds a match, and no earlier one; when it finds none, there is none |
| Pattern.FindAt | tools/generate_blog.py:253 | a match with no earlier match is the one found |
| Splice.ListOpenFacts | tools/generate_blog.py:253 | the opening group is 40 characters, with a single `<` at its start |
| Splice.CloseSpelled | tools/generate_blog.py:253 | the second group spelled with two whitespace runs is `</div>` run `</div>` run `</main>` |
| Splice.MatchCloseSound | tools/generate_blog.py:253 | what the second group takes is `</div>`, whitespace, `</div>`, whitespace, `</main>` |
| Splice.MatchCloseComplete | tools/generate_blog.py:253 | every such closing text is matched whole, whatever follows it |
| Splice.SubFromSkip | tools/generate_blog.py:255 | positions where no match starts are passed over unchanged |
| Splice.NoMatchNoFind | tools/generate_blog.py:253-255 | where no match starts, the search for the second group after the marker fails |
| Splice.SubFromAt | tools/generate_blog.py:254-255 | a match is replaced by group 1, the cards on lines of their own, the indent and group 2, and the search resumes after it |
| Splice.SubFrom | tools/generate_blog.py:253-255 | `re.sub` from a given position; specified by Splice.SubFromSkip, Splice.SubFromAt and Splice.NoMatchUnchanged |
| Splice.MatchFind | tools/generate_blog.py:253 | the second group of a match is the earliest one after its marker |
| Splice.SubFirst | tools/generate_blog.py:253-255 | the first match is replaced, and the rest of the text is substituted in turn |
| Splice.Sub | tools/generate_blog.py:253-255 | the `re.sub` of `update_blog_listing`; specified by Splice.SplicePage (a page with one block) and Splice.NoMarkerUnchanged |
| Splice.NoMatchUnchanged | tools/generate_blog.py:255 | a text with no match is returned unchanged |
| Splice.NoMarkUnchanged | tools/generate_blog.py:255 | a text without the marker is returned unchanged |
| Splice.NoMarkerUnchanged | tools/generate_blog.py:253-255 | a page without the opening `div` is left as it is |
| Splice.FirstMarkAt | tools/generate_blog.py:253 | no match starts before the first occurrence of the marker |
| Splice.PageIsMatch | tools/generate_blog.py:253 | the marker, a middle with no closing text in it, and a closing text delimit a match |
| Splice.SpliceAt | tools/generate_blog.py:253-255 | with one marker, text before the match and after the closing text is kept, both groups are kept, and the middle becomes the cards block |
| Splice.SpliceOne | tools/generate_blog.py:253-255 | the splice on a text assembled from before, marker, middle, closing text and after |
| Splice.SplicePage | tools/generate_blog.py:253-255 | on a listing page with one cards `div`, the substitution keeps everything else and puts `"\n" + cards + "\n" + 12 spaces` between the two groups |
| Update.UpdateListing | tools/generate_blog.py:236-238 | no page is written exactly when `blog.html` is missing |
| Update.UpdatePage | tools/generate_blog.py:241-255 | on a listing page with one cards `div`, the update keeps everything outside it and puts the cards of the posts, newest first, on lines of their own between the groups |
| Update.UpdateNoMarker | tools/generate_blog.py:253-258 | a page without the opening `div` is written back unchanged |
| Update.SiteUpdate | tools/generate_blog.py:234-258 | `update_blog_listing` with the generator's filler; specified by Update.UpdateListing, Update.UpdatePage and Update.UpdateNoMarker at `X := SiteFiller` |

## Left out

- Markdown conversion (tools/generate_blog.py:110-116) is a foreign library. It is a parameter `markdown: string -> string`, and the linkify extension flag is not modelled.
- YAML loading (tools/generate_blog.py:101-105) is a foreign library. It is a parameter that gives an error, a mapping of the keys the generator reads, or another value. Field values are tagged unions: a `tags` value is a list, a string or missing, and a date is text, a `date`, a naive `datetime`, another value or missing. Other YAML scalars, such as a numeric title, are not modelled.
- `datetime.now()` (tools/generate_blog.py:129) reads the clock. The reading is a field of each source file.
- File access is not modelled: the directories, globbing, reading and writing files, printing, `read_template`'s exit and `main`'s messages (tools/generate_blog.py:68-87, 250, 258-259, 262-317). Files come in as a sequence of (stem, text, clock) records. `blog.html` comes in as an optional page, and the new page goes out as an optional page. Only the loading loop of `main` (tools/generate_blog.py:286-292) is modelled.
- The pip self-installation at import time (tools/generate_blog.py:38-64) runs external processes.
- Splice.Sub: the cards are inserted verbatim. `re.sub` processes backslash escapes in its replacement template, so the model matches the source only for cards without a backslash. A title or excerpt holding a backslash is not modelled.
- `strptime` is modelled for the `%Y-%m-%d` format only. `%Y` is four ASCII digits, and the `%m` and `%d` alternatives are tried in CPython's order. Locale and Unicode digits are not modelled.
- The card text: every property of cards is proved for any `Filler`, and the generator's exact SVG and indentation text is only the instance `Listing.SiteFiller`.
- Listing.CardRoundTrip: the read-back needs fields that hold no line break, and a slug and image without `"`. The generator does not escape these, so other cards may not read back.
- Frontmatter.RoundTrip: needs a non-empty frontmatter. With an empty one, the opening whitespace run ends in two newlines and the engine tries the later one first. The capture then starts at the body's separator line and runs to the first body line that is `---` followed by optional whitespace, wherever in the body it is (a Markdown horizontal rule, say). The body text up to and including that line becomes the capture (Frontmatter.EmptyFrontmatterTakesRule for a first line, Frontmatter.EmptyFrontmatterTakesLaterRule for a later one). With an empty frontmatter, the document splits back only for a body without such a line; that positive case is not proved.
- Articles.WellShapedTemplate: "no token is left" is proved only for brace-free values and a template of literal text and tokens. Without those conditions it fails: a later step can join two halves of an earlier step's token, even though no value holds the token (Articles.TokenJoinedByLaterStep).
- Navigation.PrevIsNewestOlder: stated for posts with distinct slugs and distinct dates. `main` guarantees distinct slugs, since they are the stems of `.md` files in one directory, but not distinct dates. With repeated dates, "Previous" may have the article's own date, and which post it is depends on input order. For that case Navigation.NeighboursInDateOrder states only that it is no newer, and Ordering.SortIsStable fixes the order.
- Navigation.NextIsOldestNewer: needs distinct slugs and distinct dates for the same reason as Navigation.PrevIsNewestOlder. With repeated dates, "Next" is only known to be no older (Navigation.NeighboursInDateOrder).
- Navigation.OlderNeighbourInSorted: needs distinct dates. With a repeated date, the next element may have the same date, so it need not be strictly older.
- Navigation.NewerNeighbourInSorted: needs distinct dates, for the same reason as Navigation.OlderNeighbourInSorted.
- Timezone-aware datetimes are not modelled. A `DateTimeValue` is a naive `datetime`. A YAML timestamp with an offset (`2026-02-24T10:00:00+02:00` or a trailing `Z`) loads as an aware `datetime`. Comparing it with a naive one raises `TypeError` in the sort (tools/generate_blog.py:153, 241), and aware values compare by UTC instant. Neither is modelled.
- Dates.Display: the year is written unpadded, as glibc's `strftime` writes `%Y`. CPython releases with the change for gh-120713 write years below 1000 with four digits instead. A quoted date such as `0999-01-01` reaches this case.

## Findings

| source | as written | input that shows it | evidently intended | confidence | as-written member | corrected member |
|---|---|---|---|---|---|---|
| tools/generate_blog.py:123-129 | an unquoted `date: 2026-02-24` loads as a YAML `date`, which is not a `datetime`, so it falls to `datetime.now()` | frontmatter `date: 2026-02-24` in a run on any other day | the post keeps the written date, at midnight, as a quoted date does | high (not executed) | Dates.UnquotedDateIgnoredAsWritten | Dates.QuotedAndUnquotedAgree |

The loader keeps the generator's behaviour (`Posts.ParsePost`, used by
`Posts.LoadPosts`). `Posts.ParsePostCorrected` is the loader with the
correction, and `Posts.UnquotedDateDocument` shows the two side by side on
one document.
