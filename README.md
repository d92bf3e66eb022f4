# Artimon Bike site core, modelled in Dafny

This project models the core logic of the Artimon Bike web site and of its
weekly SEO e-mail script, and proves properties of that model. The site rents,
repairs and sells bikes near the Étang de Thau. There is one Dafny module per
core source file, plus three helper modules.

- **SeoWeekly** (`scripts/send_seo_weekly_email.py`):
  - the 90-day action plan, chosen by week number;
  - the week computed from the plan's start date;
  - the `.env.seo-mail` loader, which never overrides the process environment;
  - the mail body's line layout;
  - the SMTP settings resolved from the environment, and the error each missing one raises;
  - the `main` flow, which either prints a dry run or dispatches the mail.
- **ArticleContent** (`src/pages/ArticlePage.jsx`): `renderContent`, the small markdown renderer for blog articles. It handles headings, bullet and numbered lists, and `**bold**` spans.
- **Language** (`src/i18n/LanguageContext.js`):
  - the dotted-key lookup `t`, with its French fallback and the key itself as the last resort;
  - the French/English toggle;
  - the initial language;
  - the language stored in browser storage.
- **Admin** (`src/pages/AdminPage.jsx`):
  - message ids;
  - the set of read messages and its storage;
  - the unread count and the message filter;
  - the three analytics tallies: per weekday, per time of day, top subjects;
  - the split and join of the article tag list.
- **Blog** (`src/pages/BlogPage.jsx`, `src/pages/BlogSection.jsx`):
  - the per-language article filter;
  - the blog page, which falls back to built-in articles;
  - the home-page section, which shows at most three articles and has no fallback.
- **BikePaths** (`src/pages/BikePathsPage.jsx`):
  - the route filter, a class whose field the buttons and the reset effect update;
  - `parseInt` on the filter, compared with `===` to a route id that may be a number or a string (the page reads `t.bikePaths.routes` from the language context's table, so the routes are a parameter);
  - the difficulty labels and colours.
- **Location** (`src/pages/LocationPage.jsx`): the schema.org product graph of the rental page. This covers the price normalisation `parsePrice`, the SKU derived from a bike's name, and the offer's URL and category.
- **SiteConstants** (`src/constants/index.js`, `src/App.js`):
  - the legacy-URL redirect table and the `RedirectHandler` lookup on it;
  - the choice of `API_URL`;
  - the built-in blog articles.
- **Wrappers**, **Text** and **Seqs** are the helper modules. They hold:
  - Option and Result types;
  - the JavaScript and Python string primitives the core relies on: trimming, splitting, joining, lower-casing and numerals;
  - generic sequence lemmas: filter, count, subsequence and dedup.

Stateful parts take the source's shape:
- The read-message set is the class `Admin.ReadTracker`; its `MarkAsRead` updates the set and what was stored.
- The route filter is the class `BikePaths.RouteFilter`.
- Loops in the source are methods with loop invariants, each proved equal to a specification function. These are `MessagesPerDay`, `MessagesByHour`, `TopSubjects`, `LoadEnvFromFile`, `BuildEmailBody` and the lookup `Language.T`.

The clock, the file system, the process environment, browser storage and network replies are all parameters:
- today's date is a day ordinal;
- the `.env` file is its text (`Option`);
- the environment and storage are maps;
- a fetch is a `FetchOutcome`.

## Model

| member | source | states |
|---|---|---|
| SeoWeekly.WeekActions | scripts/send_seo_weekly_email.py:26-112 | Every week, whatever the integer, gets a plan of three to five actions. |
| SeoWeekly.WeekActionsTotal | scripts/send_seo_weekly_email.py:26-112 | Every week's plan has a title "Semaine n - ..." where n is the week (1 for any week up to 1), and three to five actions. |
| SeoWeekly.WeekOneForAllLow | scripts/send_seo_weekly_email.py:27-36 | Week 1, 0 and negative weeks all get the "Fondations" plan with its four actions. |
| SeoWeekly.SingleWeeksDistinct | scripts/send_seo_weekly_email.py:27-66 | Weeks 1 to 4 have pairwise different titles and action lists, each of four actions. |
| SeoWeekly.PairWeeksShare | scripts/send_seo_weekly_email.py:67-102 | Weeks 5/6, 7/8, 9/10 and 11/12 share their three actions and one theme; only the week number in the title differs. |
| SeoWeekly.FallbackWeek | scripts/send_seo_weekly_email.py:103-112 | Every week from 13 on gets the standard monthly rhythm: its title names the week, and it has the five monthly actions. |
| SeoWeekly.PlanStartIsOrdinal | scripts/send_seo_weekly_email.py:22 | The plan's start, 25 February 2026, is day 739672 of the proleptic Gregorian calendar (Python's `toordinal`). |
| SeoWeekly.CalcWeek | scripts/send_seo_weekly_email.py:115-119 | The computed week is never below 1. |
| SeoWeekly.CalcWeekRange | scripts/send_seo_weekly_email.py:115-119 | Week k is exactly the k-th block of seven days from the start; every day before the start is week 1. |
| SeoWeekly.CalcWeekMonotone | scripts/send_seo_weekly_email.py:115-119 | A later day never gets an earlier week. |
| SeoWeekly.CalcWeekSamples | scripts/send_seo_weekly_email.py:115-119 | The day before the start and the start are week 1; days 7 and 13 are week 2; day 14 is week 3. |
| SeoWeekly.ResolveWeek | scripts/send_seo_weekly_email.py:203 | A positive `--week` is taken as is; a missing or non-positive one gives the computed week; the result is at least 1. |
| SeoWeekly.ParseEnvLine | scripts/send_seo_weekly_email.py:126-131 | A line gives no entry exactly when it is blank after stripping, starts with "#", or has no "=". |
| SeoWeekly.ParseEnvLineSplitsAtFirstEquals | scripts/send_seo_weekly_email.py:129-131 | `KEY=value` splits at the first "=", so the key is what precedes it and the value, quotes stripped, is everything after it, including further "=". |
| SeoWeekly.SingleQuotesRemoved | scripts/send_seo_weekly_email.py:131 | A value in single quotes loses them. |
| SeoWeekly.DoubleQuotesRemoved | scripts/send_seo_weekly_email.py:131 | A value in double quotes loses them. |
| SeoWeekly.MismatchedQuotesRemoved | scripts/send_seo_weekly_email.py:131 | An opening ' and a closing " both go, because the two strip calls run one after the other. |
| SeoWeekly.NestedQuotesKept | scripts/send_seo_weekly_email.py:131 | For `"'x'"` only the outer double quotes go, because single quotes are stripped first. |
| SeoWeekly.Assignment | scripts/send_seo_weekly_email.py:127-132 | A line counts as an assignment only with a non-empty key. |
| SeoWeekly.FileKeysFirstValue | scripts/send_seo_weekly_email.py:125-133 | A key is assigned in the file exactly when it has a first value there. |
| SeoWeekly.FirstValueIsFirst | scripts/send_seo_weekly_email.py:125-133 | The value a key gets is that of its first assignment in the file; a key without assignment gets none. |
| SeoWeekly.LoadEnvFromFile | scripts/send_seo_weekly_email.py:122-133 | The loop leaves exactly the loaded environment: the process environment, plus each key's first assignment in the file. |
| SeoWeekly.LoadNeverOverrides | scripts/send_seo_weekly_email.py:132-133 | A variable already in the process environment keeps its value. |
| SeoWeekly.OverlayAt | scripts/send_seo_weekly_email.py:132-133 | A new key is set exactly when the file assigns it, to its first assigned value; the empty key is never set. |
| SeoWeekly.NumberedActions | scripts/send_seo_weekly_email.py:145-146 | One numbered line per action. |
| SeoWeekly.EmailBody | scripts/send_seo_weekly_email.py:136-161 | The body opens with the greeting line "Bonjour Sebastien,". |
| SeoWeekly.BuildEmailBody | scripts/send_seo_weekly_email.py:136-161 | The loop builds exactly the body's lines joined by newlines. |
| SeoWeekly.BodyShape | scripts/send_seo_weekly_email.py:137-160 | The body has 16 + n lines. Line 3 names the week and line 4 the theme. Action i is line 7 + i, numbered from 1. The KPI reminders, the plan's path and the signature sit at fixed places after the actions. |
| SeoWeekly.BodySplitsIntoLines | scripts/send_seo_weekly_email.py:161 | With newline-free title, actions and path, splitting the body at newlines gives its lines back. |
| SeoWeekly.RequiredEnv | scripts/send_seo_weekly_email.py:164-168 | A variable is given exactly when it is set and not blank after stripping, and the stripped value is returned. Otherwise the result is the "missing variable" error for that name. |
| SeoWeekly.ParsePyIntOfIntToString | scripts/send_seo_weekly_email.py:173 | `int()` reads back every decimal numeral, negative ones included. |
| SeoWeekly.DefaultPortParses | scripts/send_seo_weekly_email.py:173 | The default port text "587" parses to 587. |
| SeoWeekly.ParsePort | scripts/send_seo_weekly_email.py:173 | The port is the value `int()` reads from the text as an ASCII numeral (blanks around it, an optional sign, single underscores between digits). Any other text is the invalid-port error naming that text. |
| SeoWeekly.ResolveMailConfig | scripts/send_seo_weekly_email.py:171-178 | Resolved settings always have a non-empty host, user, password and recipient. An error is a missing variable, or the invalid port naming the port text read. |
| SeoWeekly.ResolveSteps | scripts/send_seo_weekly_email.py:172-178 | Settings come out only when host, user, password and recipient all succeeded, and then they carry exactly those values. |
| SeoWeekly.MailConfigResolves | scripts/send_seo_weekly_email.py:171-178 | The settings resolve exactly when host, user, password and recipient are non-blank and the port parses. Each field is then the stripped variable; the port defaults to 587; the sender defaults to the user; TLS is on when unset. |
| SeoWeekly.MissingVariableIsBlank | scripts/send_seo_weekly_email.py:164-177 | A missing-variable error names one of the four required variables, and that variable is blank. |
| SeoWeekly.MissingVariableIsFirst | scripts/send_seo_weekly_email.py:172-177 | The error names the first failing step in the source's order: host, port, user, password, recipient. |
| SeoWeekly.FirstFailingStep | scripts/send_seo_weekly_email.py:172-177 | The resolution fails exactly when some step fails, and then with the first failing step's error. |
| SeoWeekly.NothingSetNamesHost | scripts/send_seo_weekly_email.py:172 | Without `SEO_SMTP_HOST` the error names that variable, whatever else is set. |
| SeoWeekly.DefaultTlsIsOn | scripts/send_seo_weekly_email.py:178 | The default "true" switches TLS on. |
| SeoWeekly.TlsCaseInsensitive | scripts/send_seo_weekly_email.py:178 | The TLS test ignores the case of the value. |
| SeoWeekly.Subject | scripts/send_seo_weekly_email.py:207-208 | The subject is the prefix, " - semaine ", then a numeral that `int()` reads back as the week. |
| SeoWeekly.RunWeekly | scripts/send_seo_weekly_email.py:193-219 | A dry run prints the subject and the body of the resolved week. Otherwise the mail goes out with the resolved settings, or the run fails with the first configuration error. The subject is the configured (or default) prefix followed by " - semaine n". |
| ArticleContent.RenderContent | src/pages/ArticlePage.jsx:63-95 | One block per "\n\n"-separated chunk, in order, each classified on its own. |
| ArticleContent.ChunksCoverContent | src/pages/ArticlePage.jsx:65 | Joining the chunks with "\n\n" gives the article back, so no text is lost. |
| ArticleContent.SingleChunk | src/pages/ArticlePage.jsx:65 | Text without "\n\n" is one block. |
| ArticleContent.Classify | src/pages/ArticlePage.jsx:66-94 | A heading has level 1, 2 or 3. A bullet or numbered list has at least one item. |
| ArticleContent.HeadingLevels | src/pages/ArticlePage.jsx:67-75 | A chunk is a heading exactly when it starts with "# ", "## " or "### ". Its level is the number of "#", and its text is the rest after the marker. |
| ArticleContent.BulletListItems | src/pages/ArticlePage.jsx:76-83 | A chunk is a bullet list exactly when it starts with "- ". Item k is the k-th "- " line of the chunk without its marker, so the items keep the lines' order and there is one per such line, at least one. Other lines are dropped. |
| ArticleContent.BulletItemsFromLines | src/pages/ArticlePage.jsx:76-83 | Every item of a bullet list is one of the chunk's "- " lines without its marker. |
| ArticleContent.NumberedListItems | src/pages/ArticlePage.jsx:84-91 | A chunk is a numbered list exactly when it starts with digits and a dot (and no earlier test matched). Item k is the k-th numbered line of the chunk without its number, dot and following blanks, so the items keep the lines' order and there is one per such line, at least one. |
| ArticleContent.ParagraphOtherwise | src/pages/ArticlePage.jsx:67-94 | Every other chunk is a paragraph, whose HTML is the chunk with its bold spans replaced. |
| Text.LeadingDigits | src/pages/ArticlePage.jsx:84-85 | The `^\d+` match: the longest run of digits at the start of the line. |
| ArticleContent.FindClose | src/pages/ArticlePage.jsx:93 | The lazy group ends at the first "**" without a line terminator before it. No such "**" means no match. |
| ArticleContent.FormatBold | src/pages/ArticlePage.jsx:93 | Replacing the bold spans never shortens the text. |
| ArticleContent.FormatBoldSpan | src/pages/ArticlePage.jsx:93 | `**x**` becomes `<strong>x</strong>` when the text before it holds no "**" and does not end in a star, and x is on one line, holds no "**" and does not end in a star (single stars inside x are allowed). The rest is processed in the same way. |
| ArticleContent.FindCloseAfterSpan | src/pages/ArticlePage.jsx:93 | For such an x, the closing "**" is found right after x. |
| ArticleContent.FormatBoldWithoutMarkers | src/pages/ArticlePage.jsx:93 | Text without "**" is left unchanged. |
| ArticleContent.FormatBoldWithoutPairs | src/pages/ArticlePage.jsx:93 | Text where no "**" has a closing "**" on the same line is left unchanged. |
| ArticleContent.UnmatchedMarkerKept | src/pages/ArticlePage.jsx:93 | A lone "**" is left as it is. |
| ArticleContent.MarkerAcrossLinesKept | src/pages/ArticlePage.jsx:93 | Two "**" on different lines are not paired. |
| ArticleContent.StarInsideSpan | src/pages/ArticlePage.jsx:93 | `**a*b**` becomes `<strong>a*b</strong>`. |
| Language.Lookup | src/i18n/LanguageContext.js:22-44 | `t(key)` is the entry found along the dotted path in the current language, or the one found in French, or the key itself; nothing else. |
| Language.Child | src/i18n/LanguageContext.js:27-28 | One step of the walk: a child exists exactly when the value is a dictionary holding the key. |
| Language.WalkAppend | src/i18n/LanguageContext.js:26-29 | Walking a path in two parts is walking it at once. |
| Language.WalkFromNone | src/i18n/LanguageContext.js:27 | Once the walk has failed, it stays failed. |
| Language.WalkFailsAfterPrefix | src/i18n/LanguageContext.js:26-29 | A path whose prefix fails fails too. |
| Language.T | src/i18n/LanguageContext.js:22-44 | The loop with its inner French loop and early `return key` computes exactly the specification `Lookup`. |
| Language.CurrentLanguageHit | src/i18n/LanguageContext.js:23-29 | A key found in the current language gives that entry. |
| Language.FrenchFallback | src/i18n/LanguageContext.js:30-38 | A key missing in the current language gives the French entry, or else the key itself. |
| Language.WalkLastSegment | src/i18n/LanguageContext.js:26-28 | A dictionary reached by the walk hands its entry to the next key. |
| Language.UnknownLanguageIsFrench | src/i18n/LanguageContext.js:24-37 | A language without a table looks everything up in French. |
| Language.MissingKeyIsItself | src/i18n/LanguageContext.js:36 | Without a French table and without a table for the language, `t` returns the key itself. |
| Language.ToggleLanguage | src/i18n/LanguageContext.js:46-48 | The toggle gives English exactly from French and French from anything else, so it always gives one of the two. |
| Language.ToggleInvolution | src/i18n/LanguageContext.js:46-48 | Toggling twice from French or English gives the language back, and a single toggle always changes it. |
| Language.InitialLanguage | src/i18n/LanguageContext.js:7-15 | The first language is never empty: it is the saved one, "en" or "fr". |
| Language.InitialLanguageFromBrowser | src/i18n/LanguageContext.js:12-14 | Without a saved language the choice is English exactly for browser languages "en" and "en-..."; otherwise French. |
| Language.SavedLanguageWins | src/i18n/LanguageContext.js:9-10 | A non-empty saved language is used whatever the browser says. |
| Language.Persist | src/i18n/LanguageContext.js:17-18 | Storing the language sets the "language" entry to that language. No other entry changes, and no other key is added. |
| Language.PersistRoundTrip | src/i18n/LanguageContext.js:7-18 | The language stored is the one chosen on the next start. |
| Admin.MessageId | src/pages/AdminPage.jsx:664 | The id is the e-mail, "_", then the creation time. When the creation time holds no "_", it is exactly the run after the last "_" of the id. |
| Admin.MessageIdInjective | src/pages/AdminPage.jsx:664 | Two messages share an id exactly when they share e-mail and creation time, when creation times hold no "_". |
| Admin.LoadedIds | src/pages/AdminPage.jsx:685-694 | Loading gives the stored ids without repeats, nothing more and nothing less; when nothing readable is stored, the set is empty. |
| Admin.ReloadRestoresReadSet | src/pages/AdminPage.jsx:685-705 | Storing the read set and loading it again gives the same set, in the same order. |
| Admin.ReadTracker.constructor | src/pages/AdminPage.jsx:679-694 | On mount the read set is what was stored, loaded. |
| Admin.ReadTracker.MarkAsRead | src/pages/AdminPage.jsx:697-705 | An id already read changes nothing and stores nothing. A new id is appended and the whole set is stored. Afterwards the message is read, and the read set has grown by exactly its id. |
| Admin.UnreadCount | src/pages/AdminPage.jsx:708-710 | Unread and read messages together are all messages. |
| Admin.MarkingReadLowersUnreadCount | src/pages/AdminPage.jsx:697-710 | Marking a message read never raises the unread count. It lowers the count when the message is listed and was unread. |
| Admin.FilterMessages | src/pages/AdminPage.jsx:520-524 | The filtered list keeps the messages' order. |
| Admin.MessageFilterCases | src/pages/AdminPage.jsx:520-524 | "all" keeps every message. "unread" keeps exactly the unread ones, as many as the unread count. Any other value keeps exactly the messages with that status. |
| Admin.MarkedMessageLeavesUnreadList | src/pages/AdminPage.jsx:520-524 | A message just marked read is not in the unread list. |
| Admin.ReadSetOf | src/pages/AdminPage.jsx:697-705 | The stored list of ids and the read set hold the same ids. |
| Admin.MarkAsReadEffect | src/pages/AdminPage.jsx:697-710 | Given the read sets before and after `MarkAsRead`, the unread count does not rise, drops when the message was listed and unread, and the message leaves the unread list. |
| Admin.DayIndexIsBijective | src/pages/AdminPage.jsx:210 | Monday-first reindexing maps the seven weekdays one-to-one into 0..6. |
| Admin.DayIndexIsOnto | src/pages/AdminPage.jsx:210 | Each chart column 0..6 is the index of some weekday. |
| Admin.MessagesPerDay | src/pages/AdminPage.jsx:205-214 | The loop computes exactly the seven day counts. |
| Admin.DayCounts | src/pages/AdminPage.jsx:205-214 | There are seven counters, one per chart column. |
| Admin.DayCountsTotal | src/pages/AdminPage.jsx:205-214 | The day counts add up to the number of messages with a readable date. |
| Admin.DayCountsCoverAll | src/pages/AdminPage.jsx:205-214 | With readable dates only, every message is counted once. |
| Admin.HourBucket | src/pages/AdminPage.jsx:233-236 | Hours 8-11, 12-13, 14-17 and 18-21 fall into the four buckets in that order; every other hour falls into none. |
| Admin.HourCounts | src/pages/AdminPage.jsx:229-239 | Four tallies, labelled in the source's order. |
| Admin.MessagesByHour | src/pages/AdminPage.jsx:229-239 | The loop computes exactly the four hour tallies. |
| Admin.HourCountsTotal | src/pages/AdminPage.jsx:229-239 | The four tallies add up to the number of messages sent between 8h and 22h, which is at most the number of messages. |
| Admin.SubjectTallies | src/pages/AdminPage.jsx:218-223 | Every tally names the subject of some message. |
| Admin.SubjectTalliesAreCounts | src/pages/AdminPage.jsx:218-223 | One tally per distinct subject, each holding that subject's number of messages (at least 1); every subject is tallied. |
| Admin.SortByValue | src/pages/AdminPage.jsx:224 | The sort is a permutation of the tallies. |
| Admin.SortByValueSorted | src/pages/AdminPage.jsx:224 | The sort orders tallies by decreasing count. |
| Admin.SortByValueStable | src/pages/AdminPage.jsx:224 | The sort is stable: tallies with equal counts keep their order. |
| Admin.InsertKeepsOrderOfEquals | src/pages/AdminPage.jsx:224 | Inserting a tally puts it behind every tally with the same count. |
| Admin.TopSubjectsOf | src/pages/AdminPage.jsx:217-226 | The top list holds the first five tallies after sorting, or all of them when there are fewer, each one a tally of the messages. |
| Admin.TopSubjects | src/pages/AdminPage.jsx:217-226 | The tallying loop followed by sort and slice computes exactly the specification's top list. |
| Admin.TopSubjectsAreTheLargest | src/pages/AdminPage.jsx:217-226 | The top list has at most five entries, in decreasing order, all drawn from the tallies, and none smaller than a tally left out. |
| Admin.SplitTags | src/pages/AdminPage.jsx:355 | Every tag the split produces is non-empty, trimmed and comma-free. |
| Admin.CleanTagsAreClean | src/pages/AdminPage.jsx:355 | Trimming and dropping empty parts of a comma split leaves clean tags only. |
| Admin.JoinTags | src/pages/AdminPage.jsx:410 | Missing or empty tags give the empty field; a single tag is shown as is. |
| Admin.TagsRoundTrip | src/pages/AdminPage.jsx:355-410 | Joining clean tags with ", " for the edit form and splitting them on save gives the same tags back. |
| Admin.SplitTagsIdempotent | src/pages/AdminPage.jsx:355-410 | Saving an article's tags twice is the same as saving them once. |
| Blog.FilterByLanguage | src/pages/BlogPage.jsx:22-27 | The filtered articles keep their order. |
| Blog.LanguagePartition | src/pages/BlogPage.jsx:22-27 | Each article is in exactly one of the English and the French lists; every language other than "en" sees the French list. |
| Blog.BlogPageArticles | src/pages/BlogPage.jsx:29-43 | Every article the page shows is in the current language. |
| Blog.BlogPageAfterFetch | src/pages/BlogPage.jsx:41-43 | Loading is over whatever the request came to. |
| Blog.BlogPageFallback | src/pages/BlogPage.jsx:29-40 | Fetched articles are shown exactly when some are in the language. Otherwise the fallback articles in that language are shown, whether the list was empty, the response not ok or the request failed. Everything shown is in the language. |
| Blog.BlogPageNeverEmpty | src/pages/BlogPage.jsx:33-40 | When the fallback holds an article in the language, the page always shows some article. |
| Blog.SectionAfterFetch | src/pages/BlogSection.jsx:12-32 | After the request, loading is over, and the section holds at most three articles or its previous ones. |
| Blog.SectionShowsFirstThree | src/pages/BlogSection.jsx:17-25 | A fetched list shows its first three articles in the language, in order. |
| Blog.SectionHasNoFallback | src/pages/BlogSection.jsx:15-36 | After a failed or not-ok first request the section stays empty and renders nothing. |
| Blog.SectionRendersAfterFetch | src/pages/BlogSection.jsx:17-36 | After a fetched list the section renders exactly when some article is in the language. It never renders while loading. |
| BikePaths.ParseIntJs | src/pages/BikePathsPage.jsx:21 | `parseInt` gives a number exactly when a digit follows the leading blanks and optional sign. |
| BikePaths.ParseIntOfToString | src/pages/BikePathsPage.jsx:21-78 | A route's `id.toString()` parses back to the id. |
| BikePaths.AllIsNaN | src/pages/BikePathsPage.jsx:21 | "all" parses to NaN. |
| BikePaths.IdText | src/pages/BikePathsPage.jsx:78 | A number id's text parses back to the number; a string id is its own text. |
| BikePaths.FilteredRoutes | src/pages/BikePathsPage.jsx:39-41 | "all" shows every route; any other filter shows, in order, exactly the routes with a number id equal to what the filter parses to. A string id never matches, since `===` does not equate a string with a number. |
| BikePaths.KeepFilterValid | src/pages/BikePathsPage.jsx:19-24 | The effect keeps the filter exactly when it is "all" or names a route; otherwise it resets it to "all". |
| BikePaths.KeepFilterValidIdempotent | src/pages/BikePathsPage.jsx:19-24 | Running the effect again changes nothing. |
| BikePaths.KeptFilterShowsRoutes | src/pages/BikePathsPage.jsx:19-41 | After the effect, a page with routes never lists none. |
| BikePaths.SelectRouteShowsIt | src/pages/BikePathsPage.jsx:21-78 | For a route with a number id, its button sets a filter the effect keeps. The page then shows that route, and only routes with its id. |
| BikePaths.SelectTextRouteResets | src/pages/BikePathsPage.jsx:19-41 | For a route with a string id that does not parse as a number, its button's filter matches no route, so the effect resets it to "all" and every route is shown. |
| BikePaths.SlugIdResets | src/pages/BikePathsPage.jsx:19-78 | A slug id such as "tour-etang-thau" can never be selected: the effect resets the filter to "all". |
| BikePaths.RouteFilter.constructor | src/pages/BikePathsPage.jsx:16 | The filter starts as "all". |
| BikePaths.RouteFilter.ShowAll | src/pages/BikePathsPage.jsx:65 | The "all" button sets the filter to "all". |
| BikePaths.RouteFilter.Select | src/pages/BikePathsPage.jsx:78 | A route's button sets the filter to its id as text. |
| BikePaths.RouteFilter.KeepValid | src/pages/BikePathsPage.jsx:19-24 | The effect updates the field to the specification's kept filter, which is "all" or names a route. |
| BikePaths.RouteFilter.Shown | src/pages/BikePathsPage.jsx:39-41 | The routes listed keep their order. |
| BikePaths.DifficultyLabel | src/pages/BikePathsPage.jsx:26-28 | The label is the translated text when there is a non-empty one, otherwise the difficulty itself. |
| BikePaths.DifficultyLabelNonEmpty | src/pages/BikePathsPage.jsx:26-28 | A non-empty difficulty never gets an empty label. |
| BikePaths.DifficultyColor | src/pages/BikePathsPage.jsx:30-37 | Gray exactly for unknown difficulties; every colour is one of the four. |
| BikePaths.DifficultyColorsDiffer | src/pages/BikePathsPage.jsx:30-37 | The three known difficulties get three different colours. |
| Location.ReplaceFirst | src/pages/LocationPage.jsx:32 | `.replace(",", ".")` changes at most the comma positions and keeps the length. |
| Location.FirstDigit | src/pages/LocationPage.jsx:32 | The match starts at the first digit; there is none exactly when the text has no digit. |
| Location.NumberAt | src/pages/LocationPage.jsx:32 | The greedy `[0-9]+(?:\.[0-9]+)?` match: a decimal numeral at the start that cannot be extended. |
| Location.ParsePrice | src/pages/LocationPage.jsx:31-34 | Every price is a decimal numeral, with digits and at most one dot between digits. |
| Location.ParsePriceWithoutDigits | src/pages/LocationPage.jsx:31-34 | A missing price, or one without digits, gives "0". |
| Location.ParsePriceOfWholeNumber | src/pages/LocationPage.jsx:31-34 | The only number in a text is the price, wherever the currency sign stands ("10€" and "€10" alike). |
| Location.ParsePriceDecimalComma | src/pages/LocationPage.jsx:32 | A decimal comma is read as a decimal point: "12,50€" gives "12.50". |
| Location.ParsePriceSecondComma | src/pages/LocationPage.jsx:32 | Only the first comma is replaced: "1,2,3" gives "1.2". |
| Location.ReplaceRuns | src/pages/LocationPage.jsx:48 | `.replace(/\s+/g, "-")` leaves no blank and adds only dashes. |
| Location.ReplaceRunsAppend | src/pages/LocationPage.jsx:48 | The replacement works piece by piece at a non-blank boundary. |
| Location.Sku | src/pages/LocationPage.jsx:48 | A SKU has no blanks and is in lower case. |
| Location.SkuOfWords | src/pages/LocationPage.jsx:48 | Words separated by any run of blanks are joined by a single "-". |
| Location.SkuOfOneWord | src/pages/LocationPage.jsx:48 | A name without blanks is only lower-cased. |
| Location.SkuIdempotent | src/pages/LocationPage.jsx:48 | Deriving the SKU of a SKU changes nothing. |
| Location.ProductOf | src/pages/LocationPage.jsx:38-53 | A bike's product carries its name, its SKU, its parsed price (a decimal numeral) and the language's page URL. It has an image exactly when the key is a known bike kind, and a description exactly when the bike lists features; the description is the features joined with ", ". Its category is the language's rental category. |
| Location.ProductGraph | src/pages/LocationPage.jsx:17-53 | One product per bike, in order. Each carries the bike's name, its SKU, its normalised price (a decimal numeral) and the language's page URL. It has an image exactly when its key is one of the six known bike kinds. It has the language's category, and a description exactly when the bike lists features, namely the features joined with ", ". |
| Location.ProductGraphSnoc | src/pages/LocationPage.jsx:38-53 | The graph is built bike by bike: one more bike adds exactly its product at the end. |
| SiteConstants.RedirectTableShape | src/constants/index.js:9-24 | Every old path and every target is a rooted lower-case path, and no target is itself an old path. |
| SiteConstants.Redirect | src/App.js:34-43 | A path redirects exactly when its lower-cased form is an old path, to that path's (non-empty) target. |
| SiteConstants.RedirectIgnoresCase | src/App.js:36 | Paths equal up to case redirect alike. |
| SiteConstants.RedirectOfKey | src/App.js:36 | Each old path redirects to its target. |
| SiteConstants.RedirectIsSingleHop | src/App.js:34-43 | A redirect's target never redirects again, so there are no chains and no loops. |
| SiteConstants.UnknownPathStays | src/App.js:36-43 | A path that is no old path in any case stays where it is. |
| SiteConstants.ApiUrl | src/constants/index.js:1-7 | The URL is empty (the development proxy) exactly in development. |
| SiteConstants.ApiUrlCases | src/constants/index.js:1-7 | Outside development the URL is the configured backend when it is set and non-empty, and the production fallback otherwise. |
| SiteConstants.OneEnglishFallback | src/constants/index.js:45-72 | Of the two built-in articles exactly one, the second, is English. |
| SiteConstants.OneFallbackPerLanguage | src/constants/index.js:45-72 | Each language gets exactly one built-in article: the English one for "en", the French one for every other language. |
| SiteConstants.BlogPageAlwaysShowsArticles | src/pages/BlogPage.jsx:29-43 | With the built-in articles as fallback, the blog page is never empty after a request. |

## Left out

- Sending mail: SMTP, STARTTLS, login and `send_message` are not modelled. `RunWeekly` ends in a `Dispatch` outcome that carries the resolved settings, the subject and the body.
- Printing: the dry run's output and the success message are not modelled. The dry run is the `Printed` outcome.
- The file system and `argparse`: the `.env.seo-mail` file is its text, or None when it does not exist. The repository root and the plan's path are a given string. The arguments are a record.
- Dates: `dt.date.today()` is a day ordinal given as a parameter. The admin messages' `getDay()` and `getHours()` are given integers, where an out-of-range value stands for an unreadable date. Time zones are not modelled.
- `splitlines` is modelled as a split at every line-break character, so "\r\n" gives an extra empty line, which the loader skips as blank.
- Lower-casing:
  - The redirect lookup and the TLS test use ASCII lower-casing. For these inputs it agrees with JavaScript and Python, since only non-ASCII letters lower differently and no key or truthy word contains one.
  - The SKU uses Latin-1 lower-casing. Letters of other scripts are not lowered.
- `JSON.parse` and `JSON.stringify` of the read list are not modelled. Text that does not parse is the same None as a missing entry.
- The DOM: `document.documentElement.lang` is not modelled.
- Language.T: a string reached in the middle of a key path has no children in the model. JavaScript would index it by character or read a prototype property such as `length`.
- Language.Lookup: only a table's own keys are found. JavaScript's `value[k] !== undefined` is also true for inherited properties, so `t("constructor")` gives the `Object` function where the model gives the key "constructor".
- Admin.TopSubjects: subjects are tallied in order of first appearance. JavaScript moves integer-like object keys ("1", "42") to the front; that is not modelled.
- Admin.SortByValue: the engine's sort is modelled as a stable insertion sort. ECMAScript 2019 requires `Array.prototype.sort` to be stable, so the order is the same.
- Concurrency: the order of `fetch` promises is not modelled. Each listing sees one outcome per request, and a request that finishes after a language change is not modelled.
- Blog.SectionAfterFetch: a failed refetch keeps the previous list, as the source's state does. No fallback is modelled because the section has none.
- SeoWeekly.ParsePort: `int()` is modelled on ASCII digits only, and so is `ParsePyInt`. Python also accepts every other Unicode decimal digit, so "５８７" gives the port 587 where the model gives the invalid-port error.
- BikePaths.ParseIntJs: `parseInt` is exact on integers. The loss of precision of very long numerals as doubles is not modelled.
- Location.ParsePrice: prices are strings or missing. A numeric price passed through `String()` is not modelled.
- Location.ProductGraph: the brand, the offer's constant fields and the image URLs are data only. Only whether an image exists is stated.
- `src/contexts/translations` is not part of this model: no modelled file defines it. `src/contexts/LanguageContext.jsx` imports it as its table, and the pages take `t` from that context. BikePathsPage reads `t.bikePaths.routes` and LocationPage reads `t.rentalPage.bikes`, so routes, difficulty labels, bikes and translation tables are parameters.
- `src/contexts/LanguageContext.jsx` is not part of this model.
- `PRICING_DATA`, `BUSINESS_INFO` and the other display constants of `src/constants/index.js` are not modelled; no logic reads them in the core.
- `scripts/precompress.js`, the Google Places service, Google Analytics and `useSEO` are not modelled. They are I/O and page metadata.
- The admin page's charts, its floating-point week trend, login and the article editor's network calls are not modelled.
