# CinemaBot query resolution in Dafny

This project models the query-resolution core of CinemaBot, a Telegram bot
that finds where a film can be watched online. All of that logic is in
`cinemabot/movie_handler.py`, and the model covers these parts of it:

- **`MovieMetadata.__init__`**: builds a record from five optional fields.
  - The description is reflowed sentence by sentence.
  - A rating that is missing or below 1 is dropped.
  - The record gets an integer completeness score, `priority`.
- **`MovieHandler._parse_string`**: cuts title, description, country, year
  and rating out of a page's plain text.
  - Each field starts at a fixed offset from the first occurrence of a
    fixed Russian marker.
  - The function raises on some inputs.
- **`MovieHandler._parse_info`**: reduced to the choice of page region and
  the conversion of every failure into `None`.
- **`MovieHandler.get_links_by_query`**, after the search request:
  - filters the result links;
  - walks the candidates in order under a one-second timeout each;
  - keeps the record with the strictly highest score and collects the
    links that gave something;
  - stops right after a success that leaves exactly three links in the
    set (timed-out `anime` links are added without that check, so the set
    can grow past three);
  - substitutes a canned record for timed-out `anime` links;
  - falls back to the first candidate when nothing was collected.

The modules follow that structure:

| file | module | contents |
|---|---|---|
| `wrappers.dfy` | `Wrappers` | `Option` and `Result` |
| `text.dfy` | `Text` | the Python `str` operations the handler uses: `index`, `in`, `startswith`, clamped slicing, `strip()`, `capitalize()`, and `re.split("(?<=[.])", …)` |
| `metadata.dfy` | `Metadata` | the record, the description reflow, and the score |
| `parser.dfy` | `Parser` | the marker positions, the fields, `float()` on the rating window, `_parse_string`, and `_parse_info` over an abstract page |
| `resolver.dfy` | `Resolver` | the candidate filter and the loop |

The loop is modelled twice:

- **As a method.** `CollectLinks` is the loop. `Visit` is its body, with
  the source's branches.
- **As a fold.** `Step` and `Run` fold the loop over the candidates, and
  `Visited` gives the point where the `break` stops it.

`CollectLinks` is proved to compute exactly what `Run` gives at `Visited`.
The properties of the loop are then proved about `Run`, against two
reference definitions that do not follow the loop:

- `MaxOffer` is the largest score offered so far.
- `EarliestBest` picks the first candidate that offered it.

The network is an input:

- the search is a `Search` value (failed, or the list of `href`s);
- the k-th candidate's fetch is `fetch(k)`, an `Outcome`: timed out, or the
  value `_parse_info` returned.

`PageOutcome` links an `Outcome` to `_parse_info` over a `Page`. The loop
lemmas assume, as `AllFromParser`, only what `ParseInfo` is proved to
guarantee: returned records carry a title and score 4 to 6.

Behaviour of the code as written, kept in the model:

- **Score range.** The lowest possible score is 0, not −1. A record with
  nothing in it loses 1+2+1+1 for the missing fields and 1 for the
  rating, from 6.
  - `Metadata.PriorityExtremes` proves the range.
- **Scores of the three kinds of record.**
  - The initial record scores 1 (title only, `Resolver.InitialRecord`).
  - The canned anime record scores 3 (title and description,
    `Resolver.BlockedRecord`), but the loop records 2 as the running
    maximum when it adopts it.
  - Records from `_parse_string` score 4 to 6: title, description and
    country are never `None` there (`Parser.ParseString`).
- **`_parse_string("")` raises.** With no title marker and no `это` after
  position 0, `name` is `None` and `None + 9` raises (`Parser.EmptyPageRaises`).
  - `_parse_info` turns the exception into `None`.
- **The English title marker keeps its tail.** The title offset 9 is also
  applied after the 15-character `'Название (Eng):'`, so such a title
  starts with `"(Eng):"` (`Parser.EngTitleKeepsMarkerTail`).
- **The description is not stripped.** The `description.strip()` on line
  28 discards its result, so a reflowed description keeps its leading
  space and, after a final dot, a trailing space (`Metadata.ReflowExample`:
  `"a.b."` becomes `" A. B. "`).
- **The title patch does not rescore.** An adopted record without a title
  gets the capitalised query, and its score is not recomputed
  (`Metadata.TitlePatchUnderstates`). Records from `_parse_string` always
  have a title, so the patch never fires for them (`Resolver.PatchNeverFires`).
- **The set can pass three links.** The timeout branch never checks the
  size of the set, so anime timeouts can push it past three
  (`Resolver.AnimeTimeoutsOverflow`).

## Model

| member | source | states |
|---|---|---|
| Text.IndexOf | cinemabot/movie_handler.py:59-88 | `str.index`: the result is an occurrence with none before it, and it is `None` (Python's `ValueError`) exactly when there is no occurrence anywhere |
| Text.IndexFrom | cinemabot/movie_handler.py:59-88 | the first occurrence at or after a start position, or none after it |
| Text.SliceBound | cinemabot/movie_handler.py:91 | Python's bound normalisation: a bound inside the string is kept, one past the end is clamped to the length, a negative one counts from the end, and one before the start is clamped to 0 |
| Text.Slice | cinemabot/movie_handler.py:89-102 | Python slicing never fails and never grows the string; an in-range window is the Dafny subsequence, a window running past the end stops at the end, and an inverted window or one starting past the end is empty |
| Text.SliceDropLast | cinemabot/movie_handler.py:91 | `s[:-1]` drops the last character, and is empty on the empty string |
| Text.SliceFromEnd | cinemabot/movie_handler.py:102 | a negative start `-k` counts from the end, so the window is `s[len(s) - k:j]`, and empty when `j` lies before that point |
| Text.TrimStartDropsSpace | cinemabot/movie_handler.py:89-100 | `lstrip()` keeps a suffix and drops only white space |
| Text.TrimEnd | cinemabot/movie_handler.py:89-100 | `rstrip()` never grows the string and leaves no trailing white space |
| Text.TrimEndKeepsPrefix | cinemabot/movie_handler.py:89-100 | `rstrip()` keeps a prefix and drops only white space |
| Text.Strip | cinemabot/movie_handler.py:89-100 | the result of `strip()` neither starts nor ends with white space |
| Text.StripAllSpace | cinemabot/movie_handler.py:89-100 | a string of white space strips to the empty string |
| Text.StripIsTrimmedSlice | cinemabot/movie_handler.py:89-100 | `strip()` gives a contiguous slice of its input with only white space on both sides |
| Text.LowerAll | cinemabot/movie_handler.py:27 | lower-casing keeps the length and maps each character in place |
| Text.Capitalize | cinemabot/movie_handler.py:27 | `capitalize()` keeps the length |
| Text.UpperLowerFixed | cinemabot/movie_handler.py:27 | case mapping is idempotent and leaves dots and white space alone |
| Text.CapitalizeIdempotent | cinemabot/movie_handler.py:98-99 | capitalising an already capitalised string changes nothing |
| Text.CapitalizeKeepsPunctuation | cinemabot/movie_handler.py:27 | capitalising leaves every dot and white-space character where it was |
| Text.SplitAfterDots | cinemabot/movie_handler.py:27 | splitting after each `.` gives one piece more than there are dots |
| Text.SplitAfterDotsConcat | cinemabot/movie_handler.py:27 | the pieces of the split put back together give the input |
| Text.SplitAfterDotsSentences | cinemabot/movie_handler.py:27 | every piece but the last ends with its only dot |
| Text.SplitAfterDotsLast | cinemabot/movie_handler.py:27 | the last piece holds no dot |
| Metadata.NewMetadata | cinemabot/movie_handler.py:21-38 | title, country and year are stored as given; a description is present iff one was given, and then it is the reflowed text; the rating is kept iff it is present and at least 1; the score counts the fields present (two for the description) and lies in 0..6 |
| Metadata.Priority | cinemabot/movie_handler.py:25-38 | 6 minus the penalties for missing fields and an invalid rating equals one point per present field, two for the description, plus one for a valid rating |
| Metadata.PriorityExtremes | cinemabot/movie_handler.py:35-38 | a full record with a rating of at least 1 scores 6; an empty record scores 0 |
| Metadata.RatingPenalty | cinemabot/movie_handler.py:36-38 | a missing rating or one below 1 is dropped and costs exactly one point against the same record with a valid rating |
| Metadata.PriorityMonotone | cinemabot/movie_handler.py:35-38 | supplying more fields never lowers the score |
| Metadata.TitlePatchUnderstates | cinemabot/movie_handler.py:172-173 | filling a missing title after construction leaves the score one point below the record's completeness |
| Metadata.ReduceAdd | cinemabot/movie_handler.py:27 | `reduce(add, xs)`, a left fold over a non-empty list, equals the right-nested concatenation of `xs` |
| Metadata.Reflow | cinemabot/movie_handler.py:27 | the reflowed description is the concatenation of `' ' + s.strip().capitalize()` over the pieces of the split after each dot |
| Metadata.ReflowOfEmpty | cinemabot/movie_handler.py:27 | an empty description reflows to a single space |
| Metadata.ReflowLeadingSpace | cinemabot/movie_handler.py:27-28 | a reflowed description is non-empty and starts with a space |
| Metadata.ReflowKeepsSentences | cinemabot/movie_handler.py:27 | reflowing keeps every dot of the input, so no sentence is lost or added |
| Metadata.ReflowTrailingSpace | cinemabot/movie_handler.py:27-28 | a description ending in a dot reflows to a text ending in a space |
| Metadata.ReflowTwoSentences | cinemabot/movie_handler.py:27 | two one-letter sentences `x.y.` reflow to ` X. Y. ` |
| Metadata.ReflowExample | cinemabot/movie_handler.py:27-28 | `"a.b."` reflows to `" A. B. "` |
| Parser.ParseFloat | cinemabot/movie_handler.py:102 | `float()` fails on an all-white-space argument |
| Parser.ParseFloatRating | cinemabot/movie_handler.py:102 | the rating window `"d.e"` reads as `d + e/10` |
| Parser.TitleAnchor | cinemabot/movie_handler.py:62-68 | `name` is the first `'Название:'` when there is one, else the first `'Название (Eng):'`, else 0 when `это` occurs after position 0; it is `None` exactly when neither title marker occurs and `это` is absent or at position 0 |
| Parser.IntroAt | cinemabot/movie_handler.py:58-61 | `description` is the position of the first `'это'` when it occurs (an occurrence with none before it); it lies within the text, and is 0 exactly when the marker is absent or starts the text |
| Parser.CountryAt | cinemabot/movie_handler.py:69-73 | `country` is the position of the first `'Страна:'` when it occurs (an occurrence with none before it); it lies within the text, and is 0 exactly when the marker is absent or starts the text |
| Parser.DirectorAt | cinemabot/movie_handler.py:74-78 | `end_country` is the position of the first `'Режиссер:'` when it occurs (an occurrence with none before it); it lies within the text, and is 0 exactly when the marker is absent or starts the text |
| Parser.RatingAt | cinemabot/movie_handler.py:84-88 | `raiting` is three before the first `'Актеры:'` when it occurs, so it may be negative; it is 0 exactly when `'Актеры:'` is absent or at position 3 |
| Parser.RawTitle | cinemabot/movie_handler.py:89-92 | `try_name`: with a year marker, the stripped text from `name + 9` to it; without one and `name != 0`, the stripped text from `name + 9` to `country`; without one and `name == 0`, the stripped intro prefix with its last character dropped; an inverted window gives the empty string |
| Parser.CutFilmWord | cinemabot/movie_handler.py:93-94 | with anchor 0 and a `Фильм` in the title, the title up to its first `Фильм`, which then holds none; otherwise the title unchanged |
| Parser.Title | cinemabot/movie_handler.py:89-94 | the title is a prefix of `try_name`, free of `Фильм` when anchored at 0, and `try_name` itself for any other anchor |
| Parser.Description | cinemabot/movie_handler.py:98-99 | the capitalised, stripped text from the intro to the title marker, or to `country` when the anchor is 0; empty when that end comes before the intro |
| Parser.Country | cinemabot/movie_handler.py:100 | the stripped text from 7 past `'Страна:'` to `'Режиссер:'`, empty when that window is inverted, in particular when `'Режиссер:'` is absent |
| Parser.Year | cinemabot/movie_handler.py:101 | a year is present exactly when `'Год выхода:'` occurs; it is the stripped text from 11 past it to `'Страна:'`, and empty when `'Страна:'` is absent |
| Parser.Rating | cinemabot/movie_handler.py:102 | no rating is read exactly when `'Актеры:'` is absent or at position 3; with `'Актеры:'` at 0, 1 or 2, `float()` of the empty window raises; past position 3 the rating is `float()` of the three characters before the marker, and it raises exactly when that window does not parse |
| Parser.ParseString | cinemabot/movie_handler.py:56-103 | it raises on `None + 9` exactly when there is no title anchor, and on `float()` exactly when the rating window does not parse; otherwise title, description and country are present, a year is present iff its marker occurs, and the score is 6 less one for a missing year and one for a missing rating, so it lies in 4..6 |
| Parser.EmptyPageRaises | cinemabot/movie_handler.py:58-68 | `_parse_string("")` raises for lack of a title anchor |
| Parser.TitleBetweenMarkers | cinemabot/movie_handler.py:89 | with `'Название:'` after position 0 and a year marker, the title is the stripped text between marker + 9 and the year marker, and empty when the year marker comes first |
| Parser.TitleUpToCountry | cinemabot/movie_handler.py:90 | without a year marker, the title runs from marker + 9 to the country marker, and is empty when the country marker comes first |
| Parser.NoCountryEmptyTitle | cinemabot/movie_handler.py:90 | with neither a year nor a country marker, `country` is 0 and the title is the empty string |
| Parser.EngTitleBetweenMarkers | cinemabot/movie_handler.py:89 | after `'Название (Eng):'` with a year marker, the title is the stripped text from marker + 9 to the year marker, empty when the year marker comes first |
| Parser.EngTitleUpToCountry | cinemabot/movie_handler.py:90 | after `'Название (Eng):'` without a year marker, the title runs from marker + 9 to `'Страна:'`, empty when that comes first |
| Parser.EngTitleKeepsMarkerTail | cinemabot/movie_handler.py:66 | a title found after `'Название (Eng):'` starts with `"(Eng):"`, because the offset stays 9 |
| Parser.IntroTitleHasNoFilmWord | cinemabot/movie_handler.py:91-94 | a title taken from the intro is the stripped intro with its last character dropped, cut just before its first `Фильм` if it has one, so it holds no `Фильм` |
| Parser.IntroAnchorTitleUpToYear | cinemabot/movie_handler.py:89-94 | anchored at 0 with a year marker, the title is the stripped text from 9 to the year marker, cut just before its first `Фильм` |
| Parser.DescriptionUpToTitle | cinemabot/movie_handler.py:98-99 | with a title marker, the description is the intro up to it, stripped, capitalised and reflowed; an intro after the marker gives `" "` |
| Parser.IntroAnchorDescription | cinemabot/movie_handler.py:98-99 | anchored at 0, the description is the intro up to `'Страна:'`, stripped, capitalised and reflowed, and empty before the reflow when `country` comes first |
| Parser.YearOnParse | cinemabot/movie_handler.py:101 | with a year marker, the parsed year is the stripped text from 11 past it to `'Страна:'`, empty when that window is inverted |
| Parser.CountryBetweenMarkers | cinemabot/movie_handler.py:100 | the parsed country is the stripped text between the two markers, and an empty string, still present, without `'Режиссер:'` |
| Parser.YearWithoutCountry | cinemabot/movie_handler.py:101 | with a year marker and no `'Страна:'`, the year is the empty string and still earns its point in the score |
| Parser.RatingNotRead | cinemabot/movie_handler.py:84-88 | with `'Актеры:'` absent or at position 3 no rating is read, and the score loses the rating point |
| Parser.ActorsNearStartRaises | cinemabot/movie_handler.py:102 | with `'Актеры:'` at position 0, 1 or 2, an anchored page raises on its rating |
| Parser.RatingWindow | cinemabot/movie_handler.py:102 | the window `"d.e"` before `'Актеры:'` parses to `d + e/10`, which is kept when it is at least 1 |
| Parser.RatingOfWindow | cinemabot/movie_handler.py:102 | the rating argument read from the window `"d.e"` is `d + e/10` |
| Parser.ParseInfo | cinemabot/movie_handler.py:106-132 | a record is returned exactly when the page answered 200, has one of the two regions, and `_parse_string` does not raise on the first region present; that record is `_parse_string`'s, so it has a title and scores 4..6 |
| Resolver.PageOutcomeFromParser | cinemabot/movie_handler.py:170 | what `_parse_info` returns always satisfies what the loop lemmas assume of an outcome |
| Resolver.PatchNeverFires | cinemabot/movie_handler.py:172-173 | a record returned by `_parse_info` is never changed by the title patch |
| Resolver.Filter | cinemabot/movie_handler.py:154-158 | the comprehension keeps only accepted elements and never grows the list |
| Resolver.FilterMembers | cinemabot/movie_handler.py:154-158 | an element is kept iff it is in the input and accepted |
| Resolver.FilterAppend | cinemabot/movie_handler.py:154-158 | filtering distributes over concatenation, so document order is kept |
| Resolver.Candidates | cinemabot/movie_handler.py:154-158 | every candidate starts with `http` and contains `lordfilm` |
| Resolver.Patched | cinemabot/movie_handler.py:172-173 | the patch gives the record a title, the capitalised query when it had none, and changes nothing else, the score included |
| Resolver.InitialRecord | cinemabot/movie_handler.py:161-167 | the record before the loop has the raw query as its title, no description and no rating, and scores 1 |
| Resolver.InitialRecordIsNew | cinemabot/movie_handler.py:161-167 | it is the record the constructor builds from the query alone |
| Resolver.BlockedRecord | cinemabot/movie_handler.py:181-189 | the canned record has the capitalised query as its title and the reflowed notice as its description, and scores 3 |
| Resolver.BlockedRecordIsNew | cinemabot/movie_handler.py:181-189 | it is the record the constructor builds from the capitalised query and the notice |
| Resolver.Step | cinemabot/movie_handler.py:168-193 | one pass of the loop body adds the link exactly when it succeeded or was an anime timeout, and raises the running maximum to its offer when that is larger |
| Resolver.Run | cinemabot/movie_handler.py:160-193 | the loop variables after the first `n` candidates, ignoring the `break`; the running maximum never drops below its initial −5 (what the fold holds is stated by `RunLinks`, `RunMaxPriority` and `RunBest`) |
| Resolver.Breaks | cinemabot/movie_handler.py:176-178 | the loop breaks after candidate `k` only once its link is in the set, which held two or three links before it |
| Resolver.VisitedFrom | cinemabot/movie_handler.py:168-178 | the loop visits candidates up to the first `break`, and visits all of them when no `break` happens |
| Resolver.Visit | cinemabot/movie_handler.py:169-193 | one pass of the loop body updates the three loop variables as one fold step does, and asks for a `break` exactly when the candidate succeeded and the set then holds three links; that includes a success on a link already collected once anime timeouts have filled the set to three |
| Resolver.CollectLinks | cinemabot/movie_handler.py:159-193 | the loop ends with the link set and record of the fold at the `break` point |
| Resolver.GetLinksByQuery | cinemabot/movie_handler.py:139-199 | the method returns what `Resolve` specifies |
| Resolver.Resolve | cinemabot/movie_handler.py:139-199 | a failed search gives `([], None)`; every returned link is a candidate; there is no record exactly when the search failed or there are no candidates, and then there are no links; otherwise at least one link is returned |
| Resolver.MaxOffer | cinemabot/movie_handler.py:160 | the reference maximum is at least −5 and bounds every offer seen |
| Resolver.MaxOfferAttained | cinemabot/movie_handler.py:171-174 | a maximum above −5 is some candidate's offer |
| Resolver.OfferCollected | cinemabot/movie_handler.py:170-190 | a link offers more than −5 iff it is collected, and a success offers 4..6 |
| Resolver.RunLinks | cinemabot/movie_handler.py:176-190 | `link_set` holds exactly the candidates seen so far that succeeded or were anime timeouts |
| Resolver.RunMaxPriority | cinemabot/movie_handler.py:160-192 | `max_prioity` is the largest offer seen so far |
| Resolver.StepBest | cinemabot/movie_handler.py:171-193 | one step adopts the candidate's record iff its offer beats the running maximum, and otherwise keeps the old record |
| Resolver.RunStepBest | cinemabot/movie_handler.py:171-193 | a candidate that beats every earlier offer is adopted; otherwise `main_meta` is unchanged |
| Resolver.RunBestInitial | cinemabot/movie_handler.py:161-167 | while nothing is offered, `main_meta` stays the initial record |
| Resolver.RunBest | cinemabot/movie_handler.py:168-193 | `main_meta` is the record of the earliest candidate with the largest offer, so a later candidate with an equal score never replaces it |
| Resolver.RunBestKept | cinemabot/movie_handler.py:171 | a candidate that does not beat the maximum leaves the earlier choice |
| Resolver.RunBestRaised | cinemabot/movie_handler.py:171-175 | a candidate that beats the maximum is the earliest best one and is adopted |
| Resolver.EarliestBestShrinks | cinemabot/movie_handler.py:171 | when the last offer does not beat the maximum, the earliest best candidate lies before it |
| Resolver.BestIndex | cinemabot/movie_handler.py:168-175 | an earliest best candidate exists whenever something was offered |
| Resolver.NothingOffered | cinemabot/movie_handler.py:168-193 | the maximum stays at −5 iff no candidate was collected |
| Resolver.SuccessOutranksBlocked | cinemabot/movie_handler.py:171-193 | after a parsed page, the adopted record is a parsed one with a title and a score of 4..6, never the canned anime record |
| Resolver.StepLinks | cinemabot/movie_handler.py:176-190 | one step adds the link iff it is collected, so the set never shrinks and grows by at most one |
| Resolver.ThreeSuccessesStop | cinemabot/movie_handler.py:176-178 | three distinct successes at the front stop the loop after the third, holding exactly those three links |
| Resolver.BelowThreeBeforeBreak | cinemabot/movie_handler.py:177-178 | without anime timeouts, the set holds fewer than three links before the `break` |
| Resolver.AtMostThreeLinks | cinemabot/movie_handler.py:177-178 | without anime timeouts, the answer holds at most three links |
| Resolver.AnimeTimeoutsOverflow | cinemabot/movie_handler.py:179-193 | four distinct anime links that all time out are all visited and all collected, so four links are returned |
| Resolver.ResolveFallback | cinemabot/movie_handler.py:195 | with candidates but nothing collected, the answer is the first candidate with the initial record |
| Resolver.ResolveChoosesEarliestBest | cinemabot/movie_handler.py:168-195 | otherwise the answer is the collected set with the record of the earliest candidate that made the best offer |

## Left out

- The search request and the page fetches (aiohttp, headers, status
  checks of the search) are network I/O. They are inputs: a `Search` value
  and an outcome per candidate.
- The BeautifulSoup lookups are a foreign HTML library.
  - `#search`, the `<a href>` tags and the two `div` regions of a page are
    given as already-extracted text.
  - `get_text(strip=True)` is not modelled.
- `asyncio.wait_for` and the async plumbing are timing and cancellation.
  A timeout is an outcome value.
- `MovieMetadata.__str__` is presentation through aiogram's `html`
  helpers. `html.spoiler` is written out as the `<tg-spoiler>` tag it
  produces.
- `print` logging is left out.
- `cinemabot/movie_bot.py` (the Telegram handlers, bot start-up and the
  random emoji shuffle) is not part of this model.
- Resolver.GetLinksByQuery: returns the links as a set, because
  `list(link_set)` has no defined order; the order of the returned list is
  not modelled.
- Parser.ParseFloat: accepts only an optional sign, decimal digits and at
  most one dot. Exponents, `inf`, `nan`, underscores and non-ASCII digits
  are treated as failures, and a float is an exact `real` rather than an
  IEEE double.
- Text.Capitalize: maps the case of ASCII and Cyrillic (U+0400 to U+045F)
  letters only. Every other character is left as it is, rather than
  following the full Unicode tables.
- Text.IsSpace: is the fixed set of code points Python's `str.isspace()`
  accepts, not looked up in a Unicode database.
- Parser.ParseInfo: any exception raised inside `_parse_info` other than
  those of `_parse_string` (network, HTML parsing) is folded into the
  `Unreachable` page.
- Resolver.Resolve: an exception raised by a fetch other than a timeout is
  caught by the outer `except` in the source and gives `([], None)`. The
  model assumes `_parse_info` does not raise, since it catches every
  exception itself.
