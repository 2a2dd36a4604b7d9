# Smart-Hiring-Bot core in Dafny

Smart-Hiring-Bot turns a job description into a sourcing plan. It has four parts:

- a keyword extractor (`fallback_keyword_extractor`);
- a Boolean search string (`generate_boolean_string`);
- three site-restricted "X-Ray" queries that embed that string (`generate_xray_templates`);
- a ranked list of candidates from a fixed mock pool (`score_candidate`, `fetch_mock_candidates`).

This project models those deterministic parts and proves what each one promises.

- `text.dfy` (module `Text`) holds the shared helpers. These are Python's `None`, truthiness of optional strings, `str.lower()` on ASCII, and the substring test `a in b`. The substring test is proved to mean "occurs at some position".
- `extraction.dfy` (module `Extraction`) models the heuristic extractor.
  - The tokeniser is an explicit left-to-right scan equivalent to `re.findall(r"[A-Za-z\+\#\.\-]{2,}", text)`. It is proved sound (every token is a maximal run of two or more class characters) and complete (every such run is a token).
  - The stop-word filter is a function, like the list comprehension it models.
  - The retention loop, the case-insensitive de-duplication loop and the alias loop are methods. Each is proved against a specification function.
  - The composition is proved to meet the extractor's promises:
    - keywords are tokens, not stop words, and retained;
    - keywords are pairwise distinct up to case;
    - each keyword is the first spelling of its class, in order of first occurrence;
    - the alias map holds exactly "spring boot" for a "spring" keyword and "j2ee" for a "java" keyword, so it has at most two entries.
  - The job description of the demo in `main.py` is proved to tokenise into its fourteen words. Its alias map is proved to be exactly "Java" ↦ ["j2ee"] and "Spring" ↦ ["spring boot"].
- `query.dfy` (module `Query`) models the Boolean string and the X-Ray templates.
  - The Boolean string is empty exactly when there are no keywords.
  - The OR block uses the first six keywords and quotes exactly those that hold a space.
  - The role, location and experience clauses follow in a fixed order, and only for truthy arguments.
  - Every template is its site's fixed prefix followed by the Boolean string verbatim.
- `mock_data.dfy` (module `MockData`) models `SAMPLE_POOL`, the scoring formula and the fetch pipeline.
  - The random noise of each score and the draws of `random.shuffle` are parameters.
  - `random.shuffle` is CPython's Fisher–Yates pass, as a method on an `array`.
  - The sort by score (`reverse=True`, stable) is an insertion sort. It is proved sorted and a permutation that keeps ties in order. It is also proved to be the only list with those properties, so it equals Python's sort.

Three facts about the extractor's code show in the demo:

- The token pattern has no digits, so "3-5" yields no token.
- The pattern includes `.`, so "Bangalore." keeps its period.
- Stop words are compared in lower case, so "Skills" is dropped even when capitalised (`Extraction.MainTokens`, `Extraction.MainStopWords`).

## Model

| member | source | states |
|---|---|---|
| Text.Lower | utils.py:24 | lower-casing keeps the length and maps each character, leaving no upper-case ASCII letter |
| Text.IsSubstringIff | mock_data.py:31 | Python's `a in b` on strings holds exactly when `a` occurs in `b` at some position |
| Extraction.RunEnd | utils.py:17 | the scan at a position takes the whole run of class characters that starts there, up to the first character outside the class |
| Extraction.TokensFrom | utils.py:17 | every token the scan returns has at least two characters |
| Extraction.Tokenize | utils.py:17 | every token of the text has at least two characters |
| Extraction.TokenizeSound | utils.py:17 | every token is a maximal run of at least two characters from `[A-Za-z+#.-]` in the text, so it holds no digit or white space |
| Extraction.TokenizeComplete | utils.py:17 | every maximal run of at least two class characters in the text is a token |
| Extraction.TokenizeConcat | utils.py:17 | when no run crosses the seam, the tokens of `a + b` are the tokens of `a` followed by those of `b` |
| Extraction.TokenizeRun | utils.py:17 | a text that is one run of two or more class characters is exactly one token |
| Extraction.TokenizeNoPair | utils.py:17 | a text with no two adjacent class characters, such as "3-5", yields no token |
| Extraction.TokenizeSpell | utils.py:17 | words joined by gaps that start and end outside the class and hold no token are exactly the tokens, in order |
| Extraction.DropStops | utils.py:18-19 | the filter never lengthens the list and leaves no token whose lower-case form is a stop word |
| Extraction.DropStopsFilters | utils.py:18-19 | the comprehension keeps exactly the tokens whose lower-case form is not a stop word |
| Extraction.DropStopsAppend | utils.py:19 | the stop-word comprehension distributes over concatenation |
| Extraction.Retain | utils.py:22-26 | the retained tokens are exactly the tokens with an upper-case first character, a known skill as lower-case form, or more than three characters |
| Extraction.RetainTokens | utils.py:22-26 | the retention loop's `out` is the retained tokens in order |
| Extraction.FirstIndex | utils.py:30-34 | the first position whose lower-case form is the given one, or the length when there is none |
| Extraction.Dedup | utils.py:28-34 | de-duplication never lengthens the list |
| Extraction.DedupKeepsClasses | utils.py:28-34 | de-duplication keeps only input entries and loses no case-insensitive class |
| Extraction.DedupFirstOccurrence | utils.py:28-34 | each kept entry is the first spelling of its class, and entries follow the order of first occurrence |
| Extraction.DedupNoCaseDuplicates | utils.py:28-34 | no two kept entries are equal up to case |
| Extraction.DedupIgnoringCase | utils.py:28-34 | the `seen`/`result` loop computes the de-duplication, and its result has no case duplicates |
| Extraction.Synonyms | utils.py:36-42 | every key of the alias map is a keyword |
| Extraction.SynonymsAreAliases | utils.py:36-42 | on keywords without case duplicates, the alias map holds exactly the keywords whose lower-case form is "spring" (with ["spring boot"]) or "java" (with ["j2ee"]) |
| Extraction.AtMostTwoSynonyms | utils.py:36-42 | the alias map has at most two entries |
| Extraction.BuildSynonyms | utils.py:36-42 | the `setdefault(...).append` loop builds the alias map |
| Extraction.FallbackKeywords | utils.py:17-34 | every keyword is a token of the text, not a stop word, and passes the retention test |
| Extraction.FallbackKeywordsProperties | utils.py:11-46 | for every text, the keywords and aliases meet all of the extractor's promises listed above |
| Extraction.FallbackKeywordsAreRuns | utils.py:17-34 | every keyword is a maximal run of class characters of the text |
| Extraction.FallbackKeywordExtractor | utils.py:11-46 | the extractor's loops return the specified keywords and aliases, which meet the extractor's promises |
| Extraction.MainTokens | main.py:55 | the demo job description tokenises into its fourteen words: "3-5" gives nothing and "Bangalore." keeps its period |
| Extraction.MainStopWords | utils.py:18 | "with", "yrs", "experience", "in" and the capitalised "Skills" of the demo are stop words |
| Extraction.MainAliasWords | main.py:55 | among the demo's words, only "Java" lower-cases to "java" and only "Spring" to "spring" |
| Extraction.MainAliasNotStops | utils.py:18-25 | "Java" and "Spring" are demo words that are not stop words and pass the retention test |
| Extraction.KeywordsOfTokens | utils.py:17-34 | the keywords are tokens of the text, hold no case duplicates, and represent every retained token that is not a stop word |
| Extraction.KeywordRepresented | utils.py:17-34 | a retained token that is not a stop word and is the only spelling of its class among the tokens is itself a keyword |
| Extraction.MainKeywordFacts | utils.py:17-34 | the demo's keywords are among its words, include "Java" and "Spring", and hold no case duplicates |
| Extraction.MainAliasMap | utils.py:36-42 | a keyword list drawn from the demo's words that holds "Java" and "Spring" maps exactly those two to their aliases |
| Extraction.MainExampleSynonyms | utils.py:36-42 | the demo's alias map is exactly "Java" ↦ ["j2ee"] and "Spring" ↦ ["spring boot"], under the keywords' own spelling |
| Query.Join | utils.py:98 | `sep.join(xs)` starts with the first item |
| Query.JoinSnoc | utils.py:99-106 | appending a part and joining adds the separator and the part at the end |
| Query.JoinContains | utils.py:106 | every part occurs in the joined string |
| Query.Quote | utils.py:98 | a keyword is left unchanged exactly when it holds no space, and quoting adds two characters |
| Query.QuoteIff | utils.py:98 | a keyword is wrapped in double quotes exactly when it holds a space, and it is otherwise unchanged |
| Query.Leading | utils.py:98 | the OR block takes the first `min(6, len(keywords))` keywords, in order |
| Query.OrBlock | utils.py:98 | the OR block starts with the first keyword as quoted |
| Query.RoleClause | utils.py:101 | the role clause holds the role twice, plus eight characters, inside parentheses |
| Query.ExperienceClause | utils.py:105 | the experience clause holds the experience three times, plus 24 characters, inside parentheses |
| Query.Parts | utils.py:99-105 | the parts are the parenthesised OR block first, then one clause per truthy argument |
| Query.RoleClauseExample | utils.py:101 | the role "Java Developer" gives the clause `("Java Developer" OR Java Developer)` |
| Query.ExperienceClauseExample | utils.py:105 | the experience "3-5" gives the clause `("3-5 years" OR "3-5 yrs" OR 3-5)` |
| Query.BooleanString | utils.py:94-99 | the string is empty exactly when there are no keywords, and otherwise starts with `(` |
| Query.BooleanLayout | utils.py:99-106 | the string is the keyword block, then the role, location and experience clauses in this order, each only when its argument is truthy, joined by " AND " |
| Query.EmptyArgumentIsAbsent | utils.py:100-105 | an empty role, location or experience gives the same string as an absent one |
| Query.LaterKeywordsIgnored | utils.py:98 | keywords after the sixth never affect the string |
| Query.BooleanMentions | utils.py:98-106 | each of the first six keywords and each clause of a truthy argument occurs in the string |
| Query.QueryExample | utils.py:98-106 | for Java, Spring Boot and Docker with every argument present, only "Spring Boot" is quoted and the clauses follow in order |
| Query.XRayTemplates | utils.py:114-119 | the templates have exactly the keys Naukri, LinkedIn and Google |
| Query.XRayVerbatim | utils.py:115-117 | each template is its site's fixed prefix followed by the Boolean string, verbatim, even when that string is empty |
| Query.XRayRoundTrip | utils.py:115-117 | dropping a site's prefix recovers the Boolean string, so different strings give different templates |
| MockData.MatchCount | mock_data.py:28 | the per-match count is at most the number of keywords, and positive exactly when the any-match bonus applies |
| MockData.MatchCountAppend | mock_data.py:28 | the count adds up over a split keyword list, so a repeated keyword counts again |
| MockData.AnyHit | mock_data.py:25 | there is no hit without a keyword and a skill |
| MockData.AnyHitIff | mock_data.py:25 | the any-match test holds exactly when some lower-cased keyword is in the skill set |
| MockData.HitIffEqualIgnoringCase | mock_data.py:22-26 | the +30 bonus applies exactly when some keyword equals some skill up to case, by whole-string equality, not substring |
| MockData.JavaIsNotJavaScript | mock_data.py:22-26 | the keyword "Java" earns no bonus from the pool's "JavaScript" candidate |
| MockData.LocationHit | mock_data.py:31 | the location bonus applies exactly when a non-empty location is asked for, the candidate's location is non-empty, and the asked-for location occurs in it in lower case; the asked-for location is then no longer than the candidate's |
| MockData.RawScore | mock_data.py:21-37 | for non-negative experience, the unclamped score lies between the noise and the noise plus 105 |
| MockData.Clamp | mock_data.py:38 | the clamp lies in [0, 100], is the identity inside it, and gives 0 below and 100 above |
| MockData.Score | mock_data.py:12-38 | every score lies in [0, 100] |
| MockData.RawScoreRange | mock_data.py:21-37 | before clamping, the score of a candidate with non-negative experience lies in [-3, 108] |
| MockData.ScoreCapsAtHundred | mock_data.py:21-38 | four hits, a location hit and five years reach 100 whatever the noise |
| MockData.ScoreFloorsAtZero | mock_data.py:21-38 | no hit, no location hit, no experience and negative noise give 0 |
| MockData.ScoreParts | mock_data.py:21-38 | the score is 30 for any hit, plus 10 per hit up to 40, plus 10 for the location, plus 5 per year up to 25, plus the noise, clamped to [0, 100] |
| MockData.RoleHasNoEffect | mock_data.py:12-38 | the `role` argument never changes the score |
| MockData.Insert | mock_data.py:56 | inserting a record adds exactly one entry |
| MockData.SortByMatch | mock_data.py:56 | sorting keeps the number of records |
| MockData.SortByMatchIsStableSort | mock_data.py:56 | the sort orders by score, highest first, keeps every record, and keeps the order of equal scores |
| MockData.SortedUnique | mock_data.py:56 | two sorted lists with the same records of each score, in the same order, are equal |
| MockData.StableSortCharacterized | mock_data.py:56 | any list sorted by score that keeps each score's records in input order is the model's sort, so the model agrees with Python's stable sort |
| MockData.SortKeepsCandidates | mock_data.py:56 | sorting neither adds nor loses pool records |
| MockData.ScoreEach | mock_data.py:46-54 | one result record per chosen record |
| MockData.ScoreEachKeepsRecords | mock_data.py:46-54 | each result copies its record's name, skills, experience and location unchanged, and its score lies in [0, 100] |
| MockData.ScoreAll | mock_data.py:45-54 | the scoring loop appends one scored copy of each chosen record, in order |
| MockData.ShuffleDown | mock_data.py:43 | the shuffle pass keeps the length of the list |
| MockData.ShuffleDownPermutes | mock_data.py:43 | the shuffle pass only moves records around |
| MockData.Shuffled | mock_data.py:43 | the shuffled list is a permutation of the pool copy |
| MockData.Shuffle | mock_data.py:43 | the in-place shuffle leaves the array as the Fisher–Yates pass with the given draws |
| MockData.SliceEnd | mock_data.py:44 | `[:n]` keeps `min(n, len)` records for non-negative `n`, and counts from the end for negative `n` |
| MockData.KeywordsOrEmpty | mock_data.py:47 | the keyword list is empty exactly when it is missing or empty |
| MockData.Chosen | mock_data.py:42-44 | the chosen records are `[:n]` of the shuffled copy, drawn without repetition from the pool |
| MockData.FetchMockCandidates | mock_data.py:40-57 | the results are the stable sort of the scored chosen records; they have `[:n]` length, are sorted by score highest first, come from the pool without repetition, and score in [0, 100] |

## Left out

- `extract_keywords` (utils.py:48-88) is not part of this model. It calls an external language model and parses its reply as JSON. Only the heuristic extractor it falls back to is modelled.
- Loading the environment (utils.py:1-9) is not part of this model. It is process configuration.
- app.py is not part of this model. It is the Streamlit user interface.
- `pipeline_run` and `workflow_invoke` in main.py only call the modelled operations in sequence, so they are not modelled. Ranking gets `n=6` and no experience there (main.py:30).
- The demo in main.py is evaluated for its tokens, its stop words and its alias map. Its full keyword list is not evaluated as one term. It is proved only to be drawn from the demo's words, to include "Java" and "Spring" and to hold no case duplicates. The general properties of `Extraction.FallbackKeywordsProperties` also apply to it.
- Randomness is not modelled as a distribution.
  - `random.randint(-3, 3)` becomes one noise argument in [-3, 3] per scored record.
  - `random.shuffle` becomes its list of draws, each draw in [0, i].
  - Whether every permutation is reachable is not proved.
- Text.Lower: lower-cases ASCII letters only. Tokens are ASCII, but skills and locations with other letters would be lower-cased differently by Python.
- `t.strip()` in the stop-word comprehension is not a separate step. Tokens hold no white space, so it leaves them unchanged.
- Python dicts are Dafny maps, so the insertion order of the alias map and of the templates is not modelled.
- MockData.FetchMockCandidates: models `results.sort` on values. It is specified as the unique stable sort, not as Timsort in place.
- MockData.FetchMockCandidates: takes the pool as an argument; the source always passes `SAMPLE_POOL`. A copy is shuffled, so the pool is never changed.
- Records always carry all four fields, so the `.get` defaults of `candidate.get(...)` are not modelled.
- Query.BooleanString: takes the keywords as a list. Python's `None` for keywords behaves like the empty list, and that case is not modelled separately.
- Query.BooleanString: takes the experience as a string. Python would also format an integer here.
