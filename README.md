# Marketing document library: indexing, categorisation, fusion and search history in Dafny

This project models the core of a marketing-document library. The library reads office
documents from a folder, extracts their text, tags each one with topics, a team and a project,
indexes it for keyword search, fuses keyword hits with semantic (vector) hits, and keeps a short
search history in the browser. The model covers these parts:

- `Indexer` covers `DocumentIndexer` (`server/services/documentIndexer.js`):
  - which files are indexed;
  - keyword extraction (the ten most frequent words longer than three characters);
  - the 200-character preview;
  - `search`: the guard for an index that is not built, then the cascade of structured filters
    (extension, category, project, team, date range).
- `Fusion` covers `VectorSearchService.hybridSearch` (`server/services/vectorSearch.js`):
  reciprocal-rank fusion of the lexical and semantic result lists through an insertion-ordered
  `Map`, then a stable sort by fused score and a cut to `limit`.
- `Categorizer` covers `DocumentCategorizer` (`server/services/documentCategorizer.js`):
  - topic scoring against the eleven keyword groups, keeping the three best;
  - the team with the strictly highest score, or `General`;
  - the project folder taken from the path.
- `Parser` covers `DocumentParser` (`server/services/documentParser.js`): the choice of
  extractor by extension, and the tag stripping and whitespace normalisation of `parseHTML`.
- `History` covers `searchHistory` (`components/services/searchHistory.js`): a
  `localStorage`-backed list of at most ten recent queries, the most recent first. Adding a
  query drops the earlier entries equal to it up to letter case, then stores the trimmed query
  on top. The comparison uses the query as typed, so a query typed with surrounding whitespace
  can leave two entries for the same text (see Findings); the model states both this behaviour
  and the corrected one.

Supporting modules:

- `Text` holds JavaScript's `\s`, `\w`, `toLowerCase`, `trim`, `replace(/\s+/g, ' ')` and `split`.
- `NodePath` holds posix `path.extname`.
- `Sequences` holds distinctness, counting, deduplication, `slice(0, n)` and subsequences.
- `StableSort` holds the stable descending sort that `Array.prototype.sort` performs with a
  `(a, b) => b.x - a.x` comparator.
- `Wrappers` holds `Option`.

Loops in the source become methods with loop invariants. Each method is proved equal to a
specification function, and the lemmas state what that function promises. The objects whose
fields change become classes:

- `DocumentIndexer` and its `index`;
- `VectorSearchService` and its `initialized` flag;
- `SearchHistory` and its stored value.

## Model

| member | source | states |
|---|---|---|
| `Text.CollapseWhitespace` | server/services/documentIndexer.js:126 | `replace(/\s+/g, ' ').trim()` leaves no whitespace at either end and no two whitespace characters in a row, and keeps every other character in order |
| `Text.CollapseJoinsFields` | server/services/documentIndexer.js:126 | the collapsed text is the maximal whitespace-free runs of the input joined by single spaces: each whitespace run between two of them becomes exactly one space, and leading and trailing runs disappear |
| `Text.Split` | server/services/documentCategorizer.js:88 | `split('/')` yields at least one part, no part contains the separator, and joining the parts with the separator gives the path back |
| `NodePath.Extname` | server/services/documentIndexer.js:61 | `path.extname` is either empty or starts with its only `.`, and never holds a `/` |
| `NodePath.ExtnameOfName` | server/services/documentIndexer.js:61 | `path.extname` of `stem.ext` is `.ext` when the stem is non-empty and the extension has no further dot |
| `NodePath.ExtnameOfHiddenName` | server/services/documentIndexer.js:61 | a dot-file such as `.pdf` has no extension |
| `Indexer.IsSupportedFile` | server/services/documentIndexer.js:59-63 | a file is indexed only when its name has an extension made of a dot and at least two more characters, as every listed extension is |
| `Indexer.SupportedFileByExtension` | server/services/documentIndexer.js:59-63 | a file `stem.ext` is indexed exactly when the extension, lower-cased, is one of the seven listed |
| `Indexer.HiddenFileNotSupported` | server/services/documentIndexer.js:59-63 | a name made only of a dot and an extension (`.pdf`) is never indexed |
| `Indexer.Words` | server/services/documentIndexer.js:109-112 | every word kept is longer than three characters and is made of lower-case `\w` characters only |
| `Indexer.Tally` | server/services/documentIndexer.js:114-117 | reference tally: one entry per distinct word, in order of first occurrence, holding that word's number of occurrences |
| `Indexer.CountedStep` | server/services/documentIndexer.js:115-117 | one increment of `frequency[word]`, starting from 0 for a new word, keeps the map equal to the occurrence counts, and the key order equal to the order of first occurrence |
| `Indexer.CountWords` | server/services/documentIndexer.js:114-117 | the counting loop leaves one key per distinct word, in order of first occurrence, holding that word's number of occurrences |
| `Indexer.ExtractKeywords` | server/services/documentIndexer.js:108-123 | the method returns the specification `Keywords(content)`: the entries sorted by descending count, cut to ten, mapped to words |
| `Indexer.Keywords` | server/services/documentIndexer.js:119-122 | there are ten keywords, or as many as the text has distinct counted words when it has fewer |
| `Indexer.SortedTally` | server/services/documentIndexer.js:119-120 | the sorted entries are distinct and ordered by non-increasing count, and each entry's word occurs in the text exactly that many times |
| `Indexer.KeywordsAreCountedWords` | server/services/documentIndexer.js:108-123 | at most ten keywords, no keyword twice, and each is a word of the text longer than three `\w` characters |
| `Indexer.KeywordsByFrequency` | server/services/documentIndexer.js:119-122 | an earlier keyword occurs at least as often in the text as a later one |
| `Indexer.KeywordsAreTopTen` | server/services/documentIndexer.js:119-121 | a word of the text left out of the keywords means there are ten keywords and each occurs at least as often as that word |
| `Indexer.TallyAsWritten` | server/services/documentIndexer.js:114-120 | as written, every key of the plain-object tally is a word of the text, and `__proto__` never is one |
| `Indexer.ProtoWordNeverCounted` | server/services/documentIndexer.js:114-117 | the word `__proto__` survives word extraction, yet the plain-object tally as written records nothing for it; the corrected tally counts it once |
| `Indexer.ConstructorCountGarbled` | server/services/documentIndexer.js:114-117 | as written, the word `constructor` gets no number in the plain-object tally: its value becomes the string `"function Object() { [native code] }1"`, and the `b[1] - a[1]` comparator turns it into NaN; the corrected tally counts it once |
| `Indexer.GeneratePreview` | server/services/documentIndexer.js:125-130 | a preview is at most 203 characters long |
| `Indexer.PreviewOfShortText` | server/services/documentIndexer.js:126-129 | a text of at most 200 characters after whitespace collapsing is its own preview, and keeps all its non-space characters |
| `Indexer.PreviewOfLongText` | server/services/documentIndexer.js:126-128 | a longer text gives a preview of exactly 203 characters ending in `...`, whose first 200 characters start the text's own non-space characters |
| `Indexer.PreviewSpacing` | server/services/documentIndexer.js:126-129 | a preview never starts with whitespace and never holds two whitespace characters in a row |
| `Indexer.SelectNoFilters` | server/services/documentIndexer.js:180-216 | when no filter is given, or only empty strings are, every result is kept |
| `Indexer.SelectSound` | server/services/documentIndexer.js:180-216 | every result kept came from the input and meets every filter given: equal extension, project and team, category among the document's categories, and modified inside the inclusive date range |
| `Indexer.SelectComplete` | server/services/documentIndexer.js:180-216 | every input result that meets every filter given is kept |
| `Indexer.SelectKeepsOrder` | server/services/documentIndexer.js:180-216 | the kept results are a subsequence of the input, so relative order is unchanged |
| `Indexer.DocumentIndexer.constructor` | server/services/documentIndexer.js:10-20 | a new indexer has no index |
| `Indexer.DocumentIndexer.BuildIndex` | server/services/documentIndexer.js:132-160 | after building, the index exists |
| `Indexer.DocumentIndexer.Search` | server/services/documentIndexer.js:162-219 | with no index the result is empty; otherwise it is the lunr hits, resolved to documents, that meet every filter given, in lunr's order (the six `filter` steps equal one pass with all conditions) |
| `Fusion.RrfDecreasing` | server/services/vectorSearch.js:160 | the reciprocal-rank score `1 / (index + 1)` strictly decreases with the index |
| `Fusion.MergeDescribed` | server/services/vectorSearch.js:155-182 | the fused map holds one entry per distinct id, in first-seen order with lexical hits first, and each entry equals the reference entry of its id |
| `Fusion.RankingEntries` | server/services/vectorSearch.js:155-187 | each ranked entry is the reference entry of its id: the last lexical position's score plus the sum of its semantic scores, with the last rank seen in each list |
| `Fusion.HybridRanking` | server/services/vectorSearch.js:185-187 | every ranked entry is one of the fused entries, and the ranking is no longer than the fused map |
| `Fusion.RankingShape` | server/services/vectorSearch.js:185-187 | the ranking names each document once, is sorted by non-increasing fused score, and holds at most `limit` entries |
| `Fusion.RankingTiesKeepFirstSeenOrder` | server/services/vectorSearch.js:185-186 | entries with equal fused scores keep the order in which their ids were first seen |
| `Fusion.RankingKeepsTheBest` | server/services/vectorSearch.js:185-187 | a document found by either search but missing from the ranking was cut by the limit: the ranking is full and every entry scores at least as high |
| `Fusion.BothListsScore` | server/services/vectorSearch.js:158-174 | a document at lexical index `i` and semantic index `j` scores `1/(i+1) + 1/(j+1)` |
| `Fusion.RankingWithoutSemanticHits` | server/services/vectorSearch.js:158-187 | with no semantic hits and no repeated ids, the ranking is the lexical list in its own order, cut to `limit` |
| `Fusion.LexicalPass` | server/services/vectorSearch.js:158-165 | the lexical `forEach` builds exactly the reference lexical map |
| `Fusion.SemanticPass` | server/services/vectorSearch.js:168-182 | the semantic `forEach` boosts known ids and appends new ones, building exactly the reference fused map |
| `Fusion.VectorSearchService.constructor` | server/services/vectorSearch.js:4-10 | a new service is not initialised |
| `Fusion.VectorSearchService.Initialize` | server/services/vectorSearch.js:12-48 | the service is initialised exactly when the vector store and the embedding model both came up |
| `Fusion.VectorSearchService.HybridSearch` | server/services/vectorSearch.js:147-192 | an uninitialised service, or an exception thrown during fusion, returns the lexical results unchanged; a failing semantic search yields `[]`, so the result is the fused ranking of the lexical list alone; otherwise the result is the fused ranking |
| `Categorizer.MatchCountZero` | server/services/documentCategorizer.js:49-51 | a group scores zero exactly when none of its keywords is contained in, or contains, some token |
| `Categorizer.MatchCount` | server/services/documentCategorizer.js:49-51 | a group's score never exceeds its number of keywords |
| `Categorizer.MatchCountOfSameTokens` | server/services/documentCategorizer.js:49-51 | the score depends only on the set of tokens, not on their order or repetition |
| `Categorizer.MatchGroups` | server/services/documentCategorizer.js:48-59 | the loop collects every group with a positive score, in declaration order |
| `Categorizer.CategorizeByTopic` | server/services/documentCategorizer.js:44-66 | the method returns the names of the three best-scoring matched topics |
| `Categorizer.TopicsShape` | server/services/documentCategorizer.js:62-65 | at most three topics, by non-increasing score, each a declared category with a positive score |
| `Categorizer.TopicsKeepTheBest` | server/services/documentCategorizer.js:62-65 | a matched category left out means three topics were kept and each scores at least as high |
| `Categorizer.TopicTiesInDeclarationOrder` | server/services/documentCategorizer.js:62-63 | topics with equal scores appear in the order the categories are declared |
| `Categorizer.NoTopicsIffNoMatch` | server/services/documentCategorizer.js:44-66 | there are no topics exactly when no category's keywords match any token |
| `Categorizer.FirstBestGroup` | server/services/documentCategorizer.js:69-83 | the loop with its strict `>` returns the first group reaching the highest score, or `General` |
| `Categorizer.CategorizeByTeam` | server/services/documentCategorizer.js:68-84 | the method returns the team that the specification function `BestTeam` picks |
| `Categorizer.BestTeamChoice` | server/services/documentCategorizer.js:68-84 | the team is `General` exactly when every team scores zero; otherwise it is a team with the highest, positive score, and every earlier team scores strictly less |
| `Categorizer.ExtractProject` | server/services/documentCategorizer.js:86-103 | the method returns the specification function `ProjectOf(filePath)` |
| `Categorizer.ProjectOf` | server/services/documentCategorizer.js:86-103 | a project never contains `/`; it is empty only for an absolute path with no indicator folder |
| `Categorizer.ProjectOfTopLevelFile` | server/services/documentCategorizer.js:102 | a file outside any folder is `Uncategorized` |
| `Categorizer.ProjectOfFileInProjectFolder` | server/services/documentCategorizer.js:93-99 | a file directly inside a folder named like a project, campaign or client folder takes the file name as its project, because the part after the folder is taken |
| `Categorizer.Categorize` | server/services/documentCategorizer.js:33-42 | topics and team come from the tokens of the lower-cased content, file name and path; the project comes from the path |
| `Parser.ExtractorFor` | server/services/documentParser.js:8-23 | every file given a dedicated extractor (PDF, Word or HTML) is also a file the indexer accepts |
| `Parser.ExtractorOf` | server/services/documentParser.js:10-23 | every extension with a dedicated `case` is on the indexer's list |
| `Parser.ExtractorByExtension` | server/services/documentParser.js:8 | the extractor depends only on the extension, in any letter case |
| `Parser.PresentationReadAsPlainText` | server/services/documentParser.js:21-22 | a `.pptx` file is indexed, yet `parse` has no case for it and reads it as plain text |
| `Parser.ReplaceTags` | server/services/documentParser.js:62 | the tag replacement never lengthens the text: a tag of at least two characters becomes one space |
| `Parser.ReplaceTagsTagFree` | server/services/documentParser.js:62 | after `replace(/<[^>]*>/g, ' ')` no `<` is followed by a `>` |
| `Parser.ReplaceTagsOfTagFree` | server/services/documentParser.js:62 | text without tags is left unchanged by the tag replacement |
| `Parser.ReplaceTagsAtTag` | server/services/documentParser.js:62 | the text before the first tag is kept, the tag becomes one space, and the rest is processed on its own |
| `Parser.ParseHtml` | server/services/documentParser.js:58-67 | the result holds no tag, no whitespace at either end and no two whitespace characters in a row, and keeps every other non-space character of the tag-stripped text |
| `Parser.ParseHtmlJoinsFields` | server/services/documentParser.js:62 | `parseHTML` returns the maximal whitespace-free runs of the tag-stripped text joined by single spaces |
| `Parser.ParseHtmlOfTagFree` | server/services/documentParser.js:62 | for text without tags, `parseHTML` only normalises whitespace |
| `Parser.Parse` | server/services/documentParser.js:7-67 | a failing extractor gives `''`; otherwise the extractor's text, passed through `parseHTML`'s cleaning for `.html` only |
| `History.AddedToAsWrittenShape` | components/services/searchHistory.js:18-36 | as written, after adding: between one and ten entries; the trimmed query with the current time is first; no later entry equals the query as typed, up to letter case; the rest keep their earlier order; every other earlier entry is kept unless the list is full |
| `History.AddedToAsWrittenOfTrimmed` | components/services/searchHistory.js:25-29 | for a query typed without surrounding whitespace, the code as written and the corrected filter store the same list |
| `History.AddedToAsWrittenNoCaseDuplicates` | components/services/searchHistory.js:25-34 | as written, adding a query typed without surrounding whitespace keeps the history free of queries equal up to letter case |
| `History.AddedToShape` | components/services/searchHistory.js:18-36 | with the corrected filter (comparing with the trimmed query), after adding: between one and ten entries; the trimmed query with the current time is first; no later entry equals it up to letter case; the rest keep their earlier order; every other earlier entry is kept unless the list is full |
| `History.AddedToNoCaseDuplicates` | components/services/searchHistory.js:25-34 | with the corrected filter, adding any query keeps the history free of queries equal up to letter case |
| `History.AddedToTwice` | components/services/searchHistory.js:25-34 | with the corrected filter, adding the same query twice at the same moment equals adding it once |
| `History.RemovedFromShape` | components/services/searchHistory.js:55 | removing drops exactly the entries whose query equals the given one, case-sensitively, and keeps the others in order |
| `History.PaddedRepeatDuplicated` | components/services/searchHistory.js:25-31 | as written, searching ` word` right after `word` stores `word` twice |
| `History.UntrimmedRepeatDuplicated` | components/services/searchHistory.js:25-31 | as written, any query that trimming shortens, added right after an entry for its trimmed form, leaves that text stored twice |
| `History.PaddedRepeatMoved` | components/services/searchHistory.js:25-31 | with the comparison on the trimmed query, the same search moves `word` to the top and leaves no duplicate |
| `History.SearchHistory.constructor` | components/services/searchHistory.js:3 | the history starts from what the storage key holds |
| `History.SearchHistory.GetHistory` | components/services/searchHistory.js:7-15 | a saved list is returned as it is; a missing or unreadable entry gives `[]` |
| `History.SearchHistory.AddToHistory` | components/services/searchHistory.js:18-40 | a query shorter than two characters after trimming changes nothing; otherwise the stored list becomes the loaded list without the entries equal, in any letter case, to the query as typed, with the trimmed query and the current time on top, cut to ten |
| `History.SearchHistory.ClearHistory` | components/services/searchHistory.js:43-49 | the storage key is removed |
| `History.SearchHistory.RemoveItem` | components/services/searchHistory.js:52-60 | the stored list becomes the loaded list without the entries of that exact query |

## Left out

- Foreign code is outside the model:
  - the `lunr` index and its scoring: its hits are an input to `Search`, and `BuildIndex` only records that an index exists;
  - the SQLite document store (`getDocumentById` is a function parameter);
  - the `natural` word tokenizer (a function parameter of `Categorize`);
  - Qdrant and the embedding model (the semantic outcome is an input of `HybridSearch`);
  - `pdf-parse`, `mammoth` and file reads (each extractor's outcome is a parameter of `Parse`).
- File-system I/O is not modelled: `indexDocument`, `indexAll`, `getAllFiles` and the file watcher.
  `path.relative` is not part of this model.
- `Fusion.VectorSearchService.HybridSearch`:
  - the query text and the `limit * 2` semantic request are not modelled, since the semantic list arrives as an input;
  - `semanticSearch` catches its own errors and returns `[]`, which the model covers as `Returned([])`; `Threw` stands for any other exception.
- Fusion scores are exact reals. Floating-point rounding of `1 / (index + 1)` and of its sums is
  not modelled, so ties that rounding would break or create are not captured.
- `Text.Lower` covers only ASCII: `toLowerCase` outside `A`–`Z` (accented and other scripts)
  is not modelled. A `char` stands for one code point, so UTF-16 lengths of astral characters
  differ from JavaScript's `length`.
- `Indexer.ExtractKeywords`: the model's result `Keywords(content)` counts with an
  insertion-ordered map, while the source counts in a plain object `{}`. The two differ in two ways:
  - keys inherited from `Object.prototype`: the source never counts `__proto__` and gives
    `constructor` a string instead of a count, while the model counts both like any other word
    (`TallyAsWritten` and the Findings table state the source's behaviour);
  - integer-like keys: `Object.entries` lists them (such as `2024`) first, in ascending order,
    and the other keys in insertion order. This changes the order among equal counts and which
    words survive the cut to ten. For ten words seen once each and then `2024` once, the source
    returns `2024` first, while the model drops it.
- `Indexer.CountWords`: the tally is a `map` with a separate key order, not a plain object, so
  `__proto__` and `constructor` are counted like other words and integer-like keys keep
  insertion order.
- `Indexer.DocumentIndexer.Search`: filter dates arrive already parsed as timestamps. `new Date(...)`
  of an unparsable string (an Invalid Date rejects every document) is not modelled. The source skips an empty
  `dateFrom` or `dateTo` string, and the model represents it as `None`.
- `NodePath`: only posix paths with `/` are modelled.
- `History.SearchHistory.AddToHistory`:
  - a failing `localStorage.setItem` (quota) is not modelled;
  - a non-string query is not modelled, because queries are strings;
  - the timestamp `new Date().toISOString()` is the parameter `now`;
  - stored JSON that parses to something other than an array of entries is not modelled.

## Findings

| source | as written | input that shows it | evidently intended | confidence | as-written member | corrected member |
|---|---|---|---|---|---|---|
| components/services/searchHistory.js:25 | existing entries are removed by comparing with the untrimmed `query.toLowerCase()`, but the trimmed query is stored | history `[{query: "react"}]`, then `addToHistory(" react")` stores `react` twice | compare with the trimmed query, so a repeated search moves to the top without a duplicate | not executed | `History.PaddedRepeatDuplicated` | `History.PaddedRepeatMoved` |
| server/services/documentIndexer.js:114-117 | word counts live in a plain object `{}`, so keys inherited from `Object.prototype` misbehave | content `__proto__` yields no keyword at all; content `constructor` gets the string `"function Object() { [native code] }1"` as its count, which the sort comparator turns into NaN | count every word, as a `Map` or `Object.create(null)` would | not executed | `Indexer.ConstructorCountGarbled` | `Indexer.KeywordsAreTopTen` |
