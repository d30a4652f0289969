# vibera blog core, modelled in Dafny

This project models the request-handling core of the vibera multi-tenant
blog. It covers two sides.

The reader side:
- tenant resolution from the request host (main site, subdomain, custom domain);
- the post page: path clean-up, feed alias, slug, alias redirect, listing path and the token gate on drafts;
- the tag and tool filter of the listing;
- comments and "dangerous content" reports, with their soft deletion.

The studio side:
- the post editor's `key: value` header parser, with its reset block, setter table and save path;
- `unique_slug` and Django's `slugify`;
- the homepage header parser;
- nickname validation;
- the post template's combine/split;
- the template-draft parser.

The model is written as pure functions over immutable datatypes. The stored
rows are `Records.Post` and `Records.Blog`. A table is a sequence or a set of
rows. Python's string operations are restated once, in module `Text`:
`strip`, `split`, `split(sep, 1)`, `lower`, `replace`, slicing, and the
`re.sub(r'<[^>]+>', '', s)` tag stripping.

Files:
- `wrappers.dfy`: `Option` and `Result`.
- `text.dfy`: string operations.
- `records.dfy`: rows.
- `slugs.dfy`: `slugify` and `unique_slug`.
- `post_header.dfy`: the post editor.
- `homepage.dfy`: the homepage editor.
- `templates.dfy`: the post template and the template draft.
- `accounts.dfy`: nicknames.
- `address.dfy`: tenant resolution.
- `reader.dfy`: the post page and the listing.
- `moderation.dfy`: comments and reports.

Points where the code is easy to misread:
- The custom-domain lookup is exact (`domain=`) first. Only the retry is case-insensitive. The retry removes every `www.` in the host, not just a leading one.
- `unique_slug` keeps only letters, digits, `/`, `-` and `_`. So a `link: My Post!` line gives the slug `mypost`, not `my-post`.
- Header blocks are split on `\r\n`, as the browser sends them.
- `delete_report` raises `Http404` inside its own `try`, and the `except Exception` there catches it. A user with no active report therefore gets the `report_delete_failed` redirect, not a not-found page.
- The template draft is fetched or created before its header is read. A header that makes the draft parser raise still leaves a default draft row behind.

## Model

| member | source | states |
|---|---|---|
| Text.Strip | blogs/views/studio.py:122 | `strip()` removes only whitespace, from both ends, and leaves a result that neither starts nor ends with whitespace |
| Text.StripPadded | blogs/views/studio.py:122 | whitespace added on both sides of a text is removed again by `strip()` |
| Text.StripTagsNoTag | blogs/views/studio.py:351 | after tag stripping no `<…>` tag with content is left |
| Text.StripTagsIdempotent | blogs/views/studio.py:351 | stripping tags a second time changes nothing |
| Text.Find | blogs/views/studio.py:783-784 | the index found is an occurrence of the separator, and no occurrence comes before it; no index is found only when there is no occurrence |
| Text.SplitJoin | blogs/views/blog.py:18 | joining the pieces of `split(',')` with `,` gives back the text |
| Text.SplitOnJoin | blogs/views/studio.py:323 | joining the pieces of `split('\r\n')` with `\r\n` gives back the text |
| Text.SplitOnPieces | blogs/views/studio.py:323 | no piece of `split('\r\n')` contains `\r\n` |
| Text.SplitOnce | blogs/views/studio.py:352 | `split(':', 1)` gives two parts exactly when there is a colon; the parts rebuild the text around the first colon |
| Text.CleanedSpec | blogs/views/blog.py:97-101 | the cleaned terms are exactly the non-empty stripped pieces, each already stripped |
| Text.HeaderLines | blogs/views/studio.py:323 | every kept header line is non-empty; an empty header has no lines |
| Accounts.CharsCheck | blogs/views/studio.py:130 | `replace('_','').replace('-','').isalnum()` holds exactly for names made of letters, digits, `-` and `_` with at least one letter or digit |
| Accounts.SetNickname | blogs/views/studio.py:122-139 | an empty stripped input changes nothing; a nickname is set exactly when none was set and the stripped input is valid and free; a set nickname is never replaced |
| Accounts.Decide | blogs/views/studio.py:124-139 | the checks on the stripped name: locked, empty, length 2 to 30, characters, uniqueness; the length message only for a bad length |
| Accounts.NicknameSetOnce | blogs/views/studio.py:124-125 | once a nickname is set, no input sets another |
| Accounts.NicknameIgnoresPadding | blogs/views/studio.py:122 | surrounding whitespace never changes the outcome |
| Address.Single | blogs/views/blog.py:32-34 | a lookup that expects one row finds nothing exactly when no row matches; the row it finds is a matching row and every matching row equals it; it raises exactly when two or more rows match |
| Address.SubdomainRows | blogs/views/blog.py:31-34 | the rows found are the blogs whose subdomain matches ignoring case, restricted to active owners unless the passport matches |
| Address.DomainRows | blogs/views/blog.py:44 | the exact lookup finds the blogs with exactly that domain and an active owner |
| Address.DomainRowsIgnoreCase | blogs/views/blog.py:48-50 | the retry finds the blogs whose domain matches ignoring case and that have an active owner |
| Address.WwwVariantInvolution | blogs/views/blog.py:47-50 | for a host without `www.` the retry target is `www.` + host, and the retry target of that is the host again |
| Address.BlogWithDomain | blogs/views/blog.py:40-50 | an empty domain gives `False`; a tenant found has an active owner and has either that exact domain or the `www.` variant in any case; one exact match wins and several exact matches raise; with no exact match the retry decides: no row is not-found, one row is that tenant, several raise |
| Address.ResolveAddress | blogs/views/blog.py:15-37 | the platform homepage is returned exactly for a host equal to a main-site host; a tenant found is a stored blog, with an active owner unless the passport matches |
| Address.ResolveFollowsRoute | blogs/views/blog.py:24-37 | the tests run in order: equality with a main host, then containment, then the custom-domain lookup |
| Address.SubdomainTenant | blogs/views/blog.py:27-34 | a subdomain tenant matches the extracted subdomain ignoring case, and has an active owner unless the passport matches |
| Address.UnsetPassportBypasses | blogs/views/blog.py:31 | with neither the cookie nor the secret set, an inactive owner's blog is served |
| Address.BareDomainFindsWww | blogs/views/blog.py:49-50 | a bare domain reaches the blog registered under its `www.` form |
| Address.WwwDomainFindsBare | blogs/views/blog.py:47-48 | a `www.` domain reaches the blog registered without it |
| Address.WwwExampleScenario | blogs/views/blog.py:40-50 | `www.example.com` resolves to the only blog, registered as `example.com` |
| Reader.NormalisePath | blogs/views/blog.py:141-144 | NUL characters are removed; an empty path raises; one pair of enclosing slashes is removed and nothing else changes |
| Reader.NormaliseWrapped | blogs/views/blog.py:143-144 | a slug wrapped in one pair of slashes comes back as itself |
| Reader.NormaliseOnePairOnly | blogs/views/blog.py:143-144 | only one pair of slashes is removed, so the clean-up is not idempotent |
| Reader.NormaliseOneSided | blogs/views/blog.py:143-144 | a path with a slash at one end only keeps it |
| Reader.FirstBySlug | blogs/views/blog.py:156 | the post found has the slug ignoring case; no post is found only when none matches |
| Reader.FirstByAlias | blogs/views/blog.py:160 | the post found has the alias ignoring case; no post is found only when none matches |
| Reader.PostView | blogs/views/blog.py:139-182 | an empty path crashes and nothing else does; with a path, the platform's own host or an empty custom domain gives not-found, a host with no blog a 404, a host matching several blogs a crash, and every other reply belongs to a resolved tenant; the feed is served exactly for the feed alias; a post shown matches the path ignoring case and is published or its token was given; a redirect goes to the slug of the first alias match and only when no slug matched; with no slug or alias match the blog path and `blog` give the listing and any other path not-found |
| Reader.PublishedPostShown | blogs/views/blog.py:156-182 | a published post found by slug is always shown |
| Reader.DraftNeedsToken | blogs/views/blog.py:181-182 | a draft found by slug is shown exactly when the token matches, otherwise not found |
| Reader.AliasIgnoresPublication | blogs/views/blog.py:158-163 | the alias redirect is taken whether or not the aliased post is published |
| Reader.FilterTerms | blogs/views/blog.py:97-101 | the terms are the non-empty stripped comma pieces; no parameter gives no terms |
| Reader.FilterPosts | blogs/views/blog.py:103-109 | a post is listed exactly when it is published, dated no later than now, not a page, and carries every requested tag and tool |
| Reader.FilterPreservesOrder | blogs/views/blog.py:103-109 | the filter keeps the posts' order |
| Reader.NoQueryShowsAll | blogs/views/blog.py:105-115 | without tags or tools every listed post is shown |
| Reader.MoreTagsNarrow | blogs/views/blog.py:107-109 | asking for one more tag can only narrow the listing |
| Reader.ListingView | blogs/views/blog.py:94-109 | the listing holds exactly the listed posts that match the terms parsed from `q` and `tool` |
| Moderation.StatusQueryKinds | blogs/views/blog.py:274-399 | every redirect status is an `error=` status except the four successes |
| Moderation.Location | blogs/views/blog.py:274 | the redirect target starts with `/<slug>/?` and the status query is the rest |
| Moderation.StatusQueryInjective | blogs/views/blog.py:274-399 | no two statuses share a query string |
| Moderation.LocationDeterminesStatus | blogs/views/blog.py:274-399 | two redirects to the same post land on the same address only when they carry the same status |
| Moderation.CommentTextStatus | blogs/views/blog.py:281-294 | a comment passes exactly when its stripped text has 5 to 1000 characters; empty text is `missing_content` and nothing else is |
| Moderation.ReportTextStatus | blogs/views/blog.py:326-334 | a report passes exactly when its stripped text has 5 to 100 characters; empty text is `missing_report_comment` and nothing else is |
| Moderation.DisplayOption | blogs/views/blog.py:282-287 | the legacy flag always wins: with `use_email_as_name=on` the mode is `email`; a mode other than `email` is the one the form sent, and `email` results exactly from the flag, no option, or `email` sent |
| Moderation.AddComment | blogs/views/blog.py:268-313 | not found exactly for a non-POST, an unknown post, or a disabled post with a signed-in user; login is asked of anonymous users; a comment is added, stripped and 5 to 1000 characters long, exactly when every check passes; otherwise nothing is stored |
| Moderation.DeleteComment | blogs/views/blog.py:359-373 | only the author can delete; the deletion is soft and touches that comment alone |
| Moderation.LastActive | blogs/views/blog.py:384-388 | the report found is the requester's most recent active report on the post; none is found exactly when there is none |
| Moderation.ReportDangerous | blogs/views/blog.py:316-356 | not found exactly for a non-POST or unknown post; `already_reported` exactly when valid text meets an active report; a report is stored exactly when it is valid, new and the insert succeeds; otherwise nothing is stored |
| Moderation.DeleteReport | blogs/views/blog.py:376-401 | the deletion succeeds exactly when the signed-in requester has an active report on the post, and then soft-deletes the most recent one alone; every other known-post case redirects with `report_delete_failed` |
| Moderation.ReportKeepsInvariant | blogs/views/blog.py:337-350 | reporting keeps at most one active report per user and post |
| Moderation.DeleteKeepsInvariant | blogs/views/blog.py:384-394 | deleting a report keeps at most one active report per user and post |
| Moderation.DeleteLeavesNoActive | blogs/views/blog.py:384-394 | after a deletion the user has no active report on the post |
| Moderation.ReportThenDelete | blogs/views/blog.py:345-396 | a report then its withdrawal leaves the earlier reports as they were plus one deleted row |
| Moderation.DeleteNewest | blogs/views/blog.py:384-394 | a deletion right after a report takes back that report |
| Moderation.DeleteThenReport | blogs/views/blog.py:338-396 | after a withdrawal the same user can report the post again |
| Moderation.SecondReportRefused | blogs/views/blog.py:338-339 | a second report while the first is active is refused and changes nothing |
| Moderation.ReportLengthBoundaries | blogs/views/blog.py:333-334 | report text of 3 characters is refused, 100 accepted, 101 refused |
| Moderation.CommentLengthBoundaries | blogs/views/blog.py:293-294 | comment text of 4 characters is refused, 5 and 1000 accepted, 1001 refused |
| Moderation.ReportPaddingIgnored | blogs/views/blog.py:326 | surrounding whitespace does not count towards a report's length |
| Slugs.KeepWordSpaceDash | blogs/views/studio.py:432 | only lower-case letters, digits, `_`, `-` and whitespace survive, and every lower-case letter and digit does |
| Slugs.CollapseDashes | blogs/views/studio.py:432 | runs of dashes and whitespace leave only slug characters, and text without them is unchanged |
| Slugs.Slugify | blogs/views/studio.py:432 | the slug holds only lower-case letters, digits, `_` and `-`, and neither starts nor ends with `-` or `_` |
| Slugs.SlugifyDigits | blogs/views/studio.py:569 | digits survive `slugify` unchanged, so the random fallback is never empty |
| Slugs.FilterSlugChars | blogs/views/studio.py:559 | the cleaned slug holds only letters, digits, `/`, `-` and `_`, and no upper-case letter |
| Slugs.CleanSlug | blogs/views/studio.py:559-565 | the cleaned slug is the filtered text with at most one slash removed at each end |
| Slugs.CleanSlugFixed | blogs/views/studio.py:559-565 | a slug already clean comes back unchanged |
| Slugs.MyPostCleaned | blogs/views/studio.py:559-565 | the requested slug `My Post!` cleans to `mypost`: spaces and punctuation are dropped, not turned into dashes |
| Slugs.BaseSlug | blogs/views/studio.py:567-571 | the starting slug is never empty: the cleaned request, else `slugify(title)`, else the random number's digits |
| Slugs.UniqueSlug | blogs/views/studio.py:573-579 | the result is free among the blog's other posts; it is the candidate after that many retries, and every earlier candidate was taken; a free base is kept |
| Slugs.CandidateExtendsBase | blogs/views/studio.py:573-577 | every candidate starts with the base, and the `k`-th is `2k(k+1)` characters longer |
| Slugs.FirstCandidates | blogs/views/studio.py:576-577 | the retries run `base-new`, then `base-new-new-new` |
| Slugs.KeepsUncontestedSlug | blogs/views/studio.py:557-579 | a post keeps its own clean slug when no other post of the blog has it |
| Slugs.SaveKeepsSlugsDistinct | blogs/views/studio.py:575-579 | saving a slug the loop found free keeps the blog's slugs distinct |
| PostHeader.CoerceRoundTrip | blogs/views/studio.py:361-364 | coercion loses only case: the stored text of a value equals the input ignoring case and coerces back to the same value |
| PostHeader.SplitHeaderLine | blogs/views/studio.py:351-359 | tags are stripped first; a line without a colon is a name with the empty value; otherwise the name before the first colon and the coerced value after it, both stripped |
| PostHeader.DedupSpec | blogs/views/studio.py:395-399 | the list keeps each entry once, drops nothing else, and keeps the order of first appearance |
| PostHeader.TagListSpec | blogs/views/studio.py:394-407 | the tag list is exactly the non-empty stripped comma entries, once each, in order of first appearance |
| PostHeader.SetterFor | blogs/views/studio.py:366-440 | a recognised name selects the setter of that name |
| PostHeader.SetterRoundTrip | blogs/views/studio.py:366-440 | every setter is reached by its own name |
| PostHeader.UnrecognisedIffUnknownName | blogs/views/studio.py:439-440 | a name is unrecognised exactly when it names no setter |
| PostHeader.FailureMessages | blogs/views/studio.py:517-518 | the messages are one per warning followed by the header attribute error |
| PostHeader.ReadLinesAppend | blogs/views/studio.py:349-359 | each line is read on its own: reading two blocks of lines is reading each block |
| PostHeader.Apply | blogs/views/studio.py:366-440 | a setter raises exactly on a boolean reaching slicing, `split` or `json.loads`, and the failure keeps the warnings collected so far |
| PostHeader.Reset | blogs/views/studio.py:331-346 | the reset block leaves the identity, slug, title, content, publication and date columns alone |
| PostHeader.ApplyOtherFields | blogs/views/studio.py:366-440 | a setter writes its own field and no other |
| PostHeader.ApplyUntouched | blogs/views/studio.py:366-440 | no setter writes the identity, slug, title column, content or publication columns |
| PostHeader.ApplyWarnings | blogs/views/studio.py:366-440 | a setter adds at most one warning and keeps the earlier ones |
| PostHeader.EntriesFrame | blogs/views/studio.py:349-440 | a field no line selects keeps the value it had before the header |
| PostHeader.UntouchedByEntries | blogs/views/studio.py:349-440 | no header line writes the identity, slug, title column, content or publication columns |
| PostHeader.UnknownNameWarns | blogs/views/studio.py:439-440 | an unknown name adds exactly its one warning and changes nothing else |
| PostHeader.ColonlessLine | blogs/views/studio.py:355-359 | a line without a colon is a name with the empty value, and no setter raises on it |
| PostHeader.TextEntry | blogs/views/studio.py:366-440 | no setter raises on a text value |
| PostHeader.BoolFieldStrict | blogs/views/studio.py:410-430 | the boolean fields take a boolean and nothing else; any other value adds one warning and leaves the draft unchanged |
| PostHeader.ParseEntriesAppend | blogs/views/studio.py:349-440 | the lines are read in order and only a raising setter stops the reading |
| PostHeader.FirstRaising | blogs/views/studio.py:349-440 | the first line whose setter raises, and none exactly when no line raises |
| PostHeader.ParseFailsAtFirstRaising | blogs/views/studio.py:349-440 | the header fails exactly when some line makes its setter raise, and the failure names the first one |
| PostHeader.LastEntry | blogs/views/studio.py:394-407 | the last line that selects a setter, and none exactly when no line does |
| PostHeader.ListLastWins | blogs/views/studio.py:394-407 | a later `tags:` or `tools:` line replaces an earlier one |
| PostHeader.ShortDescriptionBounded | blogs/views/studio.py:368-369 | the short description never exceeds 100 characters |
| PostHeader.ResetUnlessNamed | blogs/views/studio.py:331-346 | a field no line names keeps its reset value, and the title and date keep the post's previous values |
| PostHeader.StartFields | blogs/views/studio.py:331-346 | the reset values of the title, date, tags, flags and link |
| PostHeader.TitleOr | blogs/views/studio.py:442-443 | a title is never empty: a truthy value is kept as text and a falsy one gives way to the editor's default, "New drop" here and "My blog" in the homepage editor (studio.py:264-265) |
| PostHeader.NewDraftCopy | blogs/views/studio.py:458-481 | the new draft is unsaved and unpublished, dated now, and copies the title and the listed columns of the edited post |
| PostHeader.Finish | blogs/views/studio.py:442-453 | only the title, slug, date, content and publication flag change: the title default, the slug, the header's date kept or `now` when unset, the body and the flag; every other column, alias, language and token included, is the header's |
| PostHeader.SaveParsed | blogs/views/studio.py:442-517 | a raising header or a boolean `link` saves nothing; the edited post has a non-empty title, a slug no other post has that starts with `unique_slug`'s base from `link:` or the title and is that base when it is free, the header's date or else `now`, the body, every other column (alias included) as the header left it, and is published exactly when asked; "Save as new draft" happens exactly for a published post saved with `publish=false`, and gives an unsaved draft whose free slug grows from the edited post's slug |
| PostHeader.HeaderWellFormed | blogs/views/studio.py:331-440 | a header that reads leaves the short description at 100 characters or fewer and the identity columns unchanged |
| PostHeader.SavePost | blogs/views/studio.py:294-517 | no header posted means nothing happens; a published post edited without an explicit save is refused; the post limit and the content limit refuse; otherwise the header fails exactly when a setter raises or `link` is a boolean, and a post saved or previewed has the title default, a short description within 100 characters, a free slug grown from `link:` or the title, the header's date or else `now`, the body, the requested publication flag, and every other column as the header left it |
| PostHeader.SavedKeepsHeaderColumns | blogs/views/studio.py:373-483 | a saved post stores the alias the header set, and the header's (or the prior post's) date, or `now` when there was none |
| PostHeader.LinkMyPostSaved | blogs/views/studio.py:445 | a `link: My Post!` line saves the post as `mypost` when no other post holds that slug |
| Homepage.HomeFieldFor | blogs/views/studio.py:250-262 | a known field is selected only by its own name |
| Homepage.HomeFieldRoundTrip | blogs/views/studio.py:250-262 | every known field is reached by its own name, and by no other |
| Homepage.HomeUnknownIffUnnamed | blogs/views/studio.py:250-262 | a name is ignored exactly when no field carries it |
| Homepage.ReadHomeLine | blogs/views/studio.py:242-244 | a line raises `IndexError` exactly when it has no colon |
| Homepage.ApplyHomeLine | blogs/views/studio.py:250-262 | a boolean favicon raises; a favicon is kept only when shorter than 100 characters; each line adds at most one warning |
| Homepage.FirstHalt | blogs/views/studio.py:241-262 | the first line that raises, and none exactly when no line raises |
| Homepage.HomeLinesOutcome | blogs/views/studio.py:241-262 | the header fails exactly when some line raises, with that line's exception; otherwise there is one warning per warning line |
| Homepage.FaviconBounded | blogs/views/studio.py:252-256 | the favicon stays under 100 characters whatever the header says |
| Homepage.TitleKeptUnlessNamed | blogs/views/studio.py:250-251 | without a `title:` line the title is unchanged |
| Homepage.SaveHomepage | blogs/views/studio.py:198-206 | nothing happens without a posted header; an oversized body is refused; a missing colon gives the one "invalid" message; a saved blog has the body, a non-empty title and a short favicon, and no other column changed |
| Homepage.HomepageSavedIff | blogs/views/studio.py:228-272 | the homepage is saved exactly when a header is posted, the body is within the limit and no line raises, with one warning per warning line |
| Homepage.HomepageHalts | blogs/views/studio.py:198-206 | a first raising line without a colon gives the "invalid" message and drops every warning; a boolean favicon crashes the view |
| Homepage.HomepageTitleKept | blogs/views/studio.py:250-265 | without a `title:` line the blog keeps its title unless it was empty |
| Templates.CombineTemplate | blogs/views/studio.py:736-788 | reading the stored text back gives the stripped header and body whenever a header without `___` of its own was sent; a body sent alone is stored as it is |
| Templates.FirstSeparator | blogs/views/studio.py:783-784 | in a saved template the first `___` is the one put there when the header has none |
| Templates.BothFieldsRoundTrip | blogs/views/studio.py:736-788 | header and body joined around `\n___\n` read back as the stripped fields |
| Templates.SplitAtSeparator | blogs/views/studio.py:783-786 | the display split cuts exactly around the separator the save put there |
| Templates.BodyOnlyReadsAsHeader | blogs/views/studio.py:740-788 | a template saved with a body alone reads back with that body as its header |
| Templates.ReadPairAsWritten | blogs/views/studio.py:793-798 | a line is skipped exactly when it has no colon, and fails exactly when its only colons are inside tags |
| Templates.ReadPair | blogs/views/studio.py:793-798 | the corrected reading never fails and agrees with the code wherever the code does not fail |
| Templates.Collect | blogs/views/studio.py:792-799 | the defaults fail exactly when a line fails; the keys are exactly those of the lines read |
| Templates.LastPairWins | blogs/views/studio.py:799 | a later line overwrites an earlier value of the same key |
| Templates.TemplateData | blogs/views/studio.py:790-799 | the corrected defaults equal the code's wherever the code does not fail |
| Templates.SameCollect | blogs/views/studio.py:792-799 | reading the corrected lines gives the code's result wherever the code's reading succeeds |
| Templates.TemplateDataColonInTag | blogs/views/studio.py:793-796 | as written, the line `<a:b>` makes the defaults raise; the corrected reading skips it |
| Templates.ApplyDraftPair | blogs/views/studio.py:66-79 | a line changes only the six header columns, and only the one its name selects: a non-empty title; the short description cut to 100 characters; the tag or tool list as the comma-separated non-empty entries, duplicates kept; the GitHub address as given; comments on unless the value is `false` in any case; an unknown name changes nothing |
| Templates.LastCommentsLineDecides | blogs/views/studio.py:58-79 | after all lines, the comments flag is the one set by the last `comments_enabled` line, or the starting flag when there is none |
| Templates.LastTagsLineDecides | blogs/views/studio.py:58-72 | after all lines, the tag list is the one read from the last `tags` or `all_tags` line, or the starting list when there is none |
| Templates.TemplateDraftLastLines | blogs/views/studio.py:45-79 | with a header, comments are on and the tag list is empty unless a `comments_enabled` or `tags` line says otherwise, and the last such line decides; without a header, the draft keeps both columns |
| Templates.DraftPairsKeepShape | blogs/views/studio.py:58-79 | the draft's title is never emptied and its short description never exceeds 100 characters |
| Templates.DraftPairs | blogs/views/studio.py:46-62 | the corrected reading of the draft header never fails |
| Templates.TemplateDraft | blogs/views/studio.py:26-91 | the draft always has the preview slug, the body and discoverability; a new draft is unpublished with `template-<subdomain>` as uid; its title is not empty once a header was read; its short description stays within 100 characters |
| Templates.SameDraftPairs | blogs/views/studio.py:58-64 | where no line fails, the code's reading is the corrected one |
| Templates.TemplateDraftAsWritten | blogs/views/studio.py:26-91 | as written, the draft parser raises exactly when a line's only colons are inside tags; otherwise it gives the corrected draft |
| Templates.TemplateDraftColonInTag | blogs/views/studio.py:59-62 | as written, a header line `<a:b>` crashes the template save |
| Templates.DraftListKeepsDuplicates | blogs/views/studio.py:45-72 | a header `tags:a,a` gives the template draft the tag list `["a", "a"]`: unlike the post editor's, the draft's tag list keeps duplicates |
| Templates.PostTemplate | blogs/views/studio.py:730-775 | saving stores the combined template and a draft with its body, with "saved" or "updated" as the message; deleting clears both |
| Templates.PostTemplateAsWritten | blogs/views/studio.py:745-752 | as written, the save fails exactly when the draft parser raises; the template column is then already stored and the draft is left as fetched or created; otherwise the result is the corrected save's |
| Templates.PostTemplateColonInTag | blogs/views/studio.py:745-752 | as written, saving a first template whose header holds `<a:b>` stores the template, fails, and leaves a default draft with empty content |
| Templates.SavedTemplateShown | blogs/views/studio.py:745-788 | after a save the page shows the fields as sent, up to surrounding whitespace |

## Left out

- Time, time zones and JSON are parameters, not models. `timezone.now()` is the `now` argument. The local-time `datetime.fromisoformat` conversion is `Env.parseDate`. `json.loads` on `media_urls` is `Env.parseJson`.
- `random.randint(0, 9999)` in `unique_slug` is the `rnd` argument.
- The `last_modified` stamps are not modelled. The post editor sets `post.last_modified` (studio.py:453) and the homepage save sets `blog.last_modified` (studio.py:270), both to `timezone.now()`; no modelled code reads them, so the records leave the column out.
- `tldextract`'s subdomain extraction is the `tld` argument.
- Character classes are ASCII only. `isalnum`, `lower` and `slugify`'s `\w` follow ASCII rules. Django's `slugify` also does NFKD transliteration, which is not modelled. Python's `isspace` is modelled in full.
- Rendering, templates, the render context, `Cache-Tag` headers, upvotes and the self-upvote are not modelled. They decide no stored state that the modelled code reads.
- The save's backup thread, the subscription lookup, `get_popular_tags_and_tools` and the `preview` view are not modelled. The same goes for `home`, `sitemap`, `robots`, `ping`, `public_analytics`, the feed view and the analytics. These are outside the modelled core.
- The database is a sequence or set of rows. Query ordering (`order_by('-published_date')`, `order_by('-created_at')`) is the order of that sequence.
- `DataError` from column limits is not modelled. Neither is any other database exception besides the insert failure that `storeFails` stands for.
- In the nickname form, the "An error occurred" branch for database errors other than the unique constraint is not modelled. The unique constraint is the `others` set.
- `parse_raw_homepage`'s `blog.slug = slugify(...)` for a blog without a subdomain is not modelled. It writes an attribute the `Blog` row does not store.
- `resolve_address` with `MAIN_SITE_HOSTS` unset, which raises, is not modelled. The hosts are a string argument.
- A signed-in user without a settings row who picks the nickname display makes `request.user.settings` raise inside the `try`, which gives `submission_failed`. The model folds that exception into `storeFails`; every member has a nickname, possibly empty.
- Moderation.AddComment: stores `use_nickname` as a boolean, `display == "nickname" && nickname != ""`. As written (blog.py:298), when the nickname display is picked the expression is the nickname string itself, or `''` when it is empty. Whether the column coerces that string to a boolean or rejects it, which would land in the `except` and give `submission_failed`, depends on the field type, and blogs/models.py is not part of this model.
- Moderation.ReportDangerous: the same reading of `use_nickname` (blog.py:342), for the same reason.
- Text.SplitOn: its contract states only that there is at least one piece. The properties of the pieces are the lemmas `SplitOnJoin` and `SplitOnPieces`.
- Slugs.UniqueSlug: the number of retries is a ghost out-parameter. The slug it returns is stated in full.
- The concurrent check-then-write races on slugs and reports are not modelled. Each handler is one atomic step.

## Findings

| source | as written | input that shows it | evidently intended | confidence | as-written member | corrected member |
|---|---|---|---|---|---|---|
| blogs/views/studio.py:59-62 | the template-draft parser tests the raw line for `:` and only then strips tags, then unpacks `split(':', 1)` into two names | a header line `<a:b>`: it contains a colon, tag stripping leaves the empty string, the split gives one piece and the unpack raises `ValueError`, which nothing catches | the colon test made after tag stripping, as the post editor does at studio.py:351-356, so that the line is skipped | not executed | Templates.TemplateDraftColonInTag | Templates.TemplateDraft |
| blogs/views/studio.py:793-796 | the template form-default reader tests the raw line for `:` before stripping tags, then unpacks `split(':', 1)` | a template header `<a:b>`: the unpack raises `ValueError` and the template page fails | the colon test made after tag stripping, so that the line is skipped | not executed | Templates.TemplateDataColonInTag | Templates.TemplateData |
