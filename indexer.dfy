/**
 * The ingestion helpers and the search post-filter of the document indexer
 * (server/services/documentIndexer.js): which files are indexed, the keywords and the preview
 * stored with a document, and the filter cascade that `search` runs over the lexical hits.
 * The lunr index itself is a foreign library: its hits for a query are an input here, and the
 * database's `getDocumentById` is a given lookup function.
 */
module Indexer {
  import opened Wrappers
  import opened Text
  import opened NodePath
  import opened Sequences
  import opened StableSort

  // ---------------------------------------------------------------- isSupportedFile

  const SupportedExtensions: seq<string> := [".pdf", ".docx", ".doc", ".txt", ".md", ".html", ".pptx"]

  /** `isSupportedFile`: the lower-cased `path.extname` of the name is on the whitelist. */
  predicate IsSupportedFile(filename: string)
    ensures IsSupportedFile(filename) ==> |Extname(filename)| >= 3 && Extname(filename)[0] == '.'
  {
    var ext := Extname(filename);
    assert Lower(ext) in SupportedExtensions ==> |Lower(ext)| >= 3 && Lower(ext)[0] == '.';
    Lower(ext) in SupportedExtensions
  }

  /** A name `stem.ext` is indexed exactly when its extension, in any letter case, is listed. */
  lemma SupportedFileByExtension(stem: string, ext: string)
    requires stem != [] && '/' !in stem && '/' !in ext
    requires |ext| >= 2 && ext[0] == '.' && '.' !in ext[1..]
    ensures IsSupportedFile(stem + ext) <==> Lower(ext) in SupportedExtensions
  {
    ExtnameOfName(stem, ext);
  }

  /** A hidden file whose whole name looks like an extension (`.pdf`) has no extension and is skipped. */
  lemma HiddenFileNotSupported(name: string)
    requires |name| >= 2 && name[0] == '.' && '.' !in name[1..] && '/' !in name
    ensures !IsSupportedFile(name)
  {
    ExtnameOfHiddenName(name);
    assert Lower("") == "";
  }

  // ---------------------------------------------------------------- extractKeywords

  const MaxKeywords: nat := 10

  /** `content.toLowerCase().replace(/[^\w\s]/g, ' ')`. */
  function KeywordText(content: string): (r: string)
    ensures |r| == |content|
    ensures forall i :: 0 <= i < |r| ==> (IsWordChar(r[i]) || IsSpace(r[i])) && !('A' <= r[i] <= 'Z')
  {
    seq(|content|, i requires 0 <= i < |content| =>
      var c := LowerChar(content[i]);
      if IsWordChar(c) || IsSpace(c) then c else ' ')
  }

  /** `.filter(word => word.length > 3)`. */
  function LongWords(ws: seq<string>): (r: seq<string>)
    ensures forall i :: 0 <= i < |r| ==> r[i] in ws && |r[i]| > 3
  {
    if ws == [] then []
    else if |ws[0]| > 3 then [ws[0]] + LongWords(ws[1..])
    else LongWords(ws[1..])
  }

  /** The words `extractKeywords` counts. Each is longer than three characters and made of
      lower-case word characters only: everything else became a separator. */
  function Words(content: string): (r: seq<string>)
    ensures forall i :: 0 <= i < |r| ==> |r[i]| > 3
    ensures forall i, k :: 0 <= i < |r| && 0 <= k < |r[i]| ==> IsWordChar(r[i][k]) && !('A' <= r[i][k] <= 'Z')
  {
    var text := KeywordText(content);
    var pieces := Fields(text);
    var r := LongWords(pieces);
    assert forall i, k :: 0 <= i < |r| && 0 <= k < |r[i]| ==> r[i][k] in text && !IsSpace(r[i][k]) by {
      forall i, k | 0 <= i < |r| && 0 <= k < |r[i]|
        ensures r[i][k] in text && !IsSpace(r[i][k])
      {
        var j :| 0 <= j < |pieces| && pieces[j] == r[i];
        assert pieces[j][k] == r[i][k];
      }
    }
    r
  }

  /** A distinct word with its number of occurrences. */
  datatype WordCount = WordCount(word: string, count: nat)

  function CountKey(e: WordCount): real {
    e.count as real
  }

  /** The entries of the `frequency` object: one per distinct word, in order of first
      occurrence, each with its number of occurrences. */
  function Tally(words: seq<string>): (r: seq<WordCount>)
    ensures |r| == |Dedup(words)|
    ensures forall k :: 0 <= k < |r| ==> r[k] == WordCount(Dedup(words)[k], Count(words, Dedup(words)[k]))
  {
    var d := Dedup(words);
    seq(|d|, k requires 0 <= k < |d| => WordCount(d[k], Count(words, d[k])))
  }

  function WordsOf(entries: seq<WordCount>): (r: seq<string>)
    ensures |r| == |entries|
    ensures forall k :: 0 <= k < |r| ==> r[k] == entries[k].word
  {
    seq(|entries|, k requires 0 <= k < |entries| => entries[k].word)
  }

  /** What `extractKeywords(content)` returns: the tally sorted by count, the first ten words. */
  function Keywords(content: string): (r: seq<string>)
    ensures var distinct := |Dedup(Words(content))|;
      |r| == if distinct < MaxKeywords then distinct else MaxKeywords
  {
    var sorted := SortDesc(Tally(Words(content)), CountKey);
    assert |sorted| == |multiset(sorted)|;
    WordsOf(SlicePrefix(sorted, MaxKeywords))
  }

  /** `frequency` and its key order `order` record the words seen so far. */
  ghost predicate Counted(frequency: map<string, nat>, order: seq<string>, seen: seq<string>) {
    && order == Dedup(seen)
    && (forall w :: w in frequency <==> w in order)
    && (forall w :: w in frequency ==> frequency[w] == Count(seen, w))
  }

  /** One `frequency[word] = (frequency[word] || 0) + 1` keeps the record exact. */
  lemma CountedStep(frequency: map<string, nat>, order: seq<string>, seen: seq<string>, word: string,
                    frequency': map<string, nat>, order': seq<string>)
    requires Counted(frequency, order, seen)
    requires word in frequency ==> frequency' == frequency[word := frequency[word] + 1] && order' == order
    requires word !in frequency ==> frequency' == frequency[word := 1] && order' == order + [word]
    ensures Counted(frequency', order', seen + [word])
  {
    DedupAppend(seen, word);
    assert order' == Dedup(seen + [word]);
    forall w | w in frequency' ensures frequency'[w] == Count(seen + [word], w) {
      CountAppend(seen, word, w);
    }
    forall w ensures w in frequency' <==> w in order' {
      assert w in frequency' <==> w in frequency || w == word;
    }
  }

  lemma CountedTally(frequency: map<string, nat>, order: seq<string>, words: seq<string>)
    requires Counted(frequency, order, words)
    ensures seq(|order|, k requires 0 <= k < |order| => WordCount(order[k], frequency[order[k]])) == Tally(words)
  {
  }

  /** The `forEach` of `extractKeywords`: fills the `frequency` dictionary, whose keys keep
      their insertion order in `order`. */
  method CountWords(words: seq<string>) returns (frequency: map<string, nat>, order: seq<string>)
    ensures Counted(frequency, order, words)
  {
    frequency, order := map[], [];
    var i := 0;
    while i < |words|
      invariant 0 <= i <= |words|
      invariant Counted(frequency, order, words[..i])
    {
      var word := words[i];
      assert words[..i + 1] == words[..i] + [word];
      ghost var before, beforeOrder := frequency, order;
      if word in frequency {
        frequency := frequency[word := frequency[word] + 1];
      } else {
        frequency := frequency[word := 1];
        order := order + [word];
      }
      CountedStep(before, beforeOrder, words[..i], word, frequency, order);
      i := i + 1;
    }
    assert words[..i] == words;
  }

  /** `extractKeywords`: counts the words, sorts the dictionary's entries by count and keeps
      the first ten words. */
  method ExtractKeywords(content: string) returns (keywords: seq<string>)
    ensures keywords == Keywords(content)
  {
    var words := Words(content);
    var frequency, order := CountWords(words);
    var entries := seq(|order|, k requires 0 <= k < |order| => WordCount(order[k], frequency[order[k]]));
    CountedTally(frequency, order, words);
    keywords := WordsOf(SlicePrefix(SortDesc(entries, CountKey), MaxKeywords));
  }

  lemma TallyEntry(words: seq<string>, e: WordCount)
    requires e in Tally(words)
    ensures e.word in words && e.count == Count(words, e.word)
  {
    var k :| 0 <= k < |Tally(words)| && Tally(words)[k] == e;
  }

  lemma TallyHasWord(words: seq<string>, w: string)
    requires w in words
    ensures WordCount(w, Count(words, w)) in Tally(words)
  {
    var d := Dedup(words);
    var j :| 0 <= j < |words| && words[j] == w;
    var k :| 0 <= k < |d| && d[k] == w;
    assert Tally(words)[k] == WordCount(w, Count(words, w));
  }

  lemma TallyDistinct(words: seq<string>)
    ensures Distinct(Tally(words))
  {
    var t, d := Tally(words), Dedup(words);
    forall i, j | 0 <= i < j < |t| ensures t[i] != t[j] {
      assert t[i].word == d[i] && t[j].word == d[j];
    }
  }

  /** The sorted tally, before truncation: the tally's entries, each once, by non-increasing count. */
  lemma SortedTally(words: seq<string>)
    ensures var s := SortDesc(Tally(words), CountKey);
      && Distinct(s)
      && (forall i :: 0 <= i < |s| ==> s[i].word in words && s[i].count == Count(words, s[i].word))
      && (forall i, j :: 0 <= i < j < |s| ==> s[i].count >= s[j].count)
  {
    var t := Tally(words);
    var s := SortDesc(t, CountKey);
    TallyDistinct(words);
    SortDescDistinct(t, CountKey);
    forall i | 0 <= i < |s| ensures s[i].word in words && s[i].count == Count(words, s[i].word) {
      assert s[i] in multiset(s);
      TallyEntry(words, s[i]);
    }
    forall i, j | 0 <= i < j < |s| ensures s[i].count >= s[j].count {
      assert CountKey(s[i]) >= CountKey(s[j]);
    }
  }

  /** At most ten keywords, no word twice, each one a counted word (longer than three
      characters, lower-case word characters only). */
  lemma KeywordsAreCountedWords(content: string)
    ensures |Keywords(content)| <= MaxKeywords
    ensures Distinct(Keywords(content))
    ensures forall i :: 0 <= i < |Keywords(content)| ==> Keywords(content)[i] in Words(content)
    ensures forall i, k :: 0 <= i < |Keywords(content)| && 0 <= k < |Keywords(content)[i]| ==>
      |Keywords(content)[i]| > 3 && IsWordChar(Keywords(content)[i][k])
  {
    var words := Words(content);
    var s := SortDesc(Tally(words), CountKey);
    var top := SlicePrefix(s, MaxKeywords);
    var ks := Keywords(content);
    SortedTally(words);
    forall i, j | 0 <= i < j < |ks| ensures ks[i] != ks[j] {
      assert top[i] == s[i] && top[j] == s[j];
    }
    forall i | 0 <= i < |ks| ensures ks[i] in words {
      assert top[i] == s[i];
    }
    forall i, k | 0 <= i < |ks| && 0 <= k < |ks[i]| ensures |ks[i]| > 3 && IsWordChar(ks[i][k]) {
      var j :| 0 <= j < |words| && words[j] == ks[i];
    }
  }

  /** Keywords come in non-increasing order of their number of occurrences. */
  lemma KeywordsByFrequency(content: string)
    ensures forall i, j :: 0 <= i < j < |Keywords(content)| ==>
      Count(Words(content), Keywords(content)[i]) >= Count(Words(content), Keywords(content)[j])
  {
    var words := Words(content);
    var s := SortDesc(Tally(words), CountKey);
    var top := SlicePrefix(s, MaxKeywords);
    SortedTally(words);
    forall i, j | 0 <= i < j < |top| ensures Count(words, top[i].word) >= Count(words, top[j].word) {
      assert top[i] == s[i] && top[j] == s[j];
    }
  }

  /** A counted word is left out only when ten keywords were kept, each occurring at least as often. */
  lemma KeywordsAreTopTen(content: string, w: string)
    requires w in Words(content) && w !in Keywords(content)
    ensures |Keywords(content)| == MaxKeywords
    ensures forall i :: 0 <= i < |Keywords(content)| ==> Count(Words(content), Keywords(content)[i]) >= Count(Words(content), w)
  {
    TopOfTally(Words(content), w);
  }

  /** `KeywordsAreTopTen` for any word list. */
  lemma TopOfTally(words: seq<string>, w: string)
    requires w in words && w !in WordsOf(SlicePrefix(SortDesc(Tally(words), CountKey), MaxKeywords))
    ensures var kept := WordsOf(SlicePrefix(SortDesc(Tally(words), CountKey), MaxKeywords));
      && |kept| == MaxKeywords
      && forall i :: 0 <= i < |kept| ==> Count(words, kept[i]) >= Count(words, w)
  {
    var t := Tally(words);
    var s := SortDesc(t, CountKey);
    var top := SlicePrefix(s, MaxKeywords);
    var x := WordCount(w, Count(words, w));
    TallyHasWord(words, w);
    assert x !in top by {
      forall i | 0 <= i < |top| ensures top[i] != x {
        assert WordsOf(top)[i] == top[i].word;
      }
    }
    TopSelection(t, CountKey, MaxKeywords, x);
    SortedTally(words);
    forall i | 0 <= i < |top| ensures Count(words, top[i].word) >= Count(words, w) {
      assert top[i] in top;
      assert top[i] == s[i];
    }
  }


  // -------------------------------------- the frequency object as the source writes it

  /** A value `frequency[word]` can hold: a number, or the string that `+ 1` makes of an
      inherited `Object.prototype` member. */
  datatype JsCount = Number(n: nat) | NotANumber

  /** `frequency[word] = (frequency[word] || 0) + 1` on a plain object. `frequency.__proto__` is
      the inherited prototype, and assigning a string to it is ignored, so that word is never
      stored; `frequency.constructor` starts as the inherited `Object` function, so its
      "count" becomes the string `"function Object() { [native code] }1"`. */
  function BumpAsWritten(entries: seq<(string, JsCount)>, w: string): (r: seq<(string, JsCount)>)
    ensures |entries| <= |r| <= |entries| + 1
    ensures forall k :: 0 <= k < |entries| ==> r[k].0 == entries[k].0
    ensures |r| > |entries| ==> r[|entries|].0 == w && w != "__proto__"
  {
    if w == "__proto__" then entries
    else match OwnKey(entries, w)
      case Some(k) =>
        entries[k := (w, match entries[k].1 case Number(n) => Number(n + 1) case NotANumber => NotANumber)]
      case None => entries + [(w, if w == "constructor" then NotANumber else Number(1))]
  }

  function OwnKey(entries: seq<(string, JsCount)>, w: string): (r: Option<nat>)
    ensures r.Some? ==> r.value < |entries| && entries[r.value].0 == w
  {
    if entries == [] then None
    else if entries[0].0 == w then Some(0)
    else match OwnKey(entries[1..], w)
      case Some(k) => Some(k + 1)
      case None => None
  }

  /** `Object.entries(frequency)` after the `forEach`, as the source computes it: every key is a
      word of the input, but never `__proto__`. */
  function TallyAsWritten(words: seq<string>): (r: seq<(string, JsCount)>)
    ensures forall k :: 0 <= k < |r| ==> r[k].0 in words && r[k].0 != "__proto__"
  {
    if words == [] then []
    else
      var init := words[..|words| - 1];
      assert forall w :: w in init ==> w in words;
      BumpAsWritten(TallyAsWritten(init), words[|words| - 1])
  }

  /** A text that is one long run of lower-case word characters is one counted word. */
  lemma WordsOfOneWord(s: string)
    requires |s| > 3
    requires forall i :: 0 <= i < |s| ==> IsWordChar(s[i]) && !('A' <= s[i] <= 'Z')
    ensures Words(s) == [s]
  {
    var text := KeywordText(s);
    assert forall i :: 0 <= i < |s| ==> LowerChar(s[i]) == s[i];
    assert text == s;
    assert !IsSpace(s[0]);
    assert RunLength(s) == |s|;
    assert s[..|s|] == s && s[|s|..] == [];
    assert Fields(s) == [s];
    assert LongWords([s]) == [s] + LongWords([]);
  }

  /** The content `__proto__` is one counted word, yet the object never records it. */
  lemma ProtoWordNeverCounted()
    ensures Words("__proto__") == ["__proto__"]
    ensures TallyAsWritten(["__proto__"]) == []
    ensures Tally(["__proto__"]) == [WordCount("__proto__", 1)]
  {
    WordsOfOneWord("__proto__");
    assert ["__proto__"][..0] == [];
    assert Dedup(["__proto__"]) == ["__proto__"];
    assert Count(["__proto__"], "__proto__") == 1;
  }

  /** The content `constructor` is one counted word whose count is not a number; the
      `b[1] - a[1]` comparator then yields NaN, so where it lands in the ranking is up to the
      sort implementation. */
  lemma ConstructorCountGarbled()
    ensures Words("constructor") == ["constructor"]
    ensures TallyAsWritten(["constructor"]) == [("constructor", NotANumber)]
    ensures Tally(["constructor"]) == [WordCount("constructor", 1)]
  {
    WordsOfOneWord("constructor");
    assert ["constructor"][..0] == [];
    assert Dedup(["constructor"]) == ["constructor"];
    assert Count(["constructor"], "constructor") == 1;
  }

  // ---------------------------------------------------------------- generatePreview

  const PreviewLength: nat := 200

  /** `cleaned.length > length ? cleaned.substring(0, length) + '...' : cleaned`. */
  function Truncate(cleaned: string): (r: string)
    ensures |r| <= PreviewLength + 3
  {
    if |cleaned| > PreviewLength then cleaned[..PreviewLength] + "..." else cleaned
  }

  /** `generatePreview(content)`: the single-spaced text, cut at 200 characters plus `...`. */
  function GeneratePreview(content: string): (r: string)
    ensures |r| <= PreviewLength + 3
  {
    Truncate(CollapseWhitespace(content))
  }

  /** A cleaned text of at most 200 characters is the preview, and it keeps all of the content's words. */
  lemma PreviewOfShortText(content: string)
    requires |CollapseWhitespace(content)| <= PreviewLength
    ensures GeneratePreview(content) == CollapseWhitespace(content)
    ensures NonSpace(GeneratePreview(content)) == NonSpace(content)
  {
  }

  lemma TruncateLong(cleaned: string)
    requires |cleaned| > PreviewLength
    ensures |Truncate(cleaned)| == PreviewLength + 3
    ensures Truncate(cleaned)[PreviewLength..] == "..."
    ensures IsPrefix(NonSpace(Truncate(cleaned)[..PreviewLength]), NonSpace(cleaned))
  {
    var head := cleaned[..PreviewLength];
    assert cleaned == head + cleaned[PreviewLength..];
    NonSpaceAppend(head, cleaned[PreviewLength..]);
    assert Truncate(cleaned)[..PreviewLength] == head;
  }

  /** A longer one gives exactly 203 characters: its first 200, whose words are the content's
      words from the start, in order, then `...`. */
  lemma PreviewOfLongText(content: string)
    requires |CollapseWhitespace(content)| > PreviewLength
    ensures |GeneratePreview(content)| == PreviewLength + 3
    ensures GeneratePreview(content)[PreviewLength..] == "..."
    ensures IsPrefix(NonSpace(GeneratePreview(content)[..PreviewLength]), NonSpace(content))
  {
    TruncateLong(CollapseWhitespace(content));
  }

  lemma TruncateSpacing(cleaned: string)
    requires SingleSpaced(cleaned)
    ensures SingleSpaced(Truncate(cleaned))
    ensures |cleaned| > PreviewLength ==> Truncate(cleaned)[0] == cleaned[0]
  {
    if |cleaned| > PreviewLength {
      var head := cleaned[..PreviewLength];
      SingleSpacedTake(cleaned, PreviewLength);
      var dots := "...";
      assert !IsSpace('.');
      assert SingleSpaced(dots);
      SingleSpacedAppend(head, dots);
      assert Truncate(cleaned) == head + dots;
    }
  }

  /** The preview never starts with whitespace, and its whitespace is single plain spaces. */
  lemma PreviewSpacing(content: string)
    ensures GeneratePreview(content) == [] || !IsSpace(GeneratePreview(content)[0])
    ensures SingleSpaced(GeneratePreview(content))
  {
    TruncateSpacing(CollapseWhitespace(content));
  }

  // ---------------------------------------------------------------- search

  /** A stored document record (the columns the search filters read, plus its text fields). */
  datatype Document = Document(
    id: string, filename: string, path: string, content: string, extension: string,
    size: nat, created: int, modified: int, categories: seq<string>, project: string,
    team: string, keywords: seq<string>, preview: string)

  /** One lunr hit: the document id and its relevance score. */
  datatype LunrHit = LunrHit(ref: string, score: real)

  /** A search result: `{ ...doc, score }`. */
  datatype Match = Match(doc: Document, score: real)

  /** The filters object; dates are the instants `new Date(...)` parses them to. */
  datatype Filters = Filters(
    extension: Option<string>, category: Option<string>, project: Option<string>,
    team: Option<string>, dateFrom: Option<int>, dateTo: Option<int>)

  const NoFilters := Filters(None, None, None, None, None, None)

  /** A string filter is applied only when it is truthy: present and not empty. */
  predicate Given(v: Option<string>) {
    v.Some? && v.value != ""
  }

  /** The condition of each `documents.filter(...)` step of the cascade. */
  datatype Criterion =
    | ExtensionIs(extension: string)
    | InCategory(category: string)
    | ProjectIs(project: string)
    | TeamIs(team: string)
    | ModifiedFrom(from: int)
    | ModifiedTo(to: int)

  predicate Satisfies(m: Match, c: Criterion) {
    match c
    case ExtensionIs(e) => m.doc.extension == e
    case InCategory(cat) => cat in m.doc.categories
    case ProjectIs(p) => m.doc.project == p
    case TeamIs(t) => m.doc.team == t
    case ModifiedFrom(t) => m.doc.modified >= t
    case ModifiedTo(t) => m.doc.modified <= t
  }

  /** `documents.filter(doc => ...)`. */
  function Where(ms: seq<Match>, c: Criterion): seq<Match> {
    if ms == [] then []
    else if Satisfies(ms[0], c) then [ms[0]] + Where(ms[1..], c)
    else Where(ms[1..], c)
  }

  /** The reference meaning of the filters: a result passes when it meets every filter given. */
  predicate Passes(m: Match, f: Filters) {
    && (Given(f.extension) ==> m.doc.extension == f.extension.value)
    && (Given(f.category) ==> f.category.value in m.doc.categories)
    && (Given(f.project) ==> m.doc.project == f.project.value)
    && (Given(f.team) ==> m.doc.team == f.team.value)
    && (f.dateFrom.Some? ==> m.doc.modified >= f.dateFrom.value)
    && (f.dateTo.Some? ==> m.doc.modified <= f.dateTo.value)
  }

  /** The results that pass, in their original order (one pass over the list). */
  function Select(ms: seq<Match>, f: Filters): seq<Match> {
    if ms == [] then []
    else if Passes(ms[0], f) then [ms[0]] + Select(ms[1..], f)
    else Select(ms[1..], f)
  }

  /** `results.map(result => ({ ...getDocumentById(result.ref), score: result.score }))`. */
  function Resolve(hits: seq<LunrHit>, lookup: string -> Document): (r: seq<Match>)
    ensures |r| == |hits|
  {
    seq(|hits|, k requires 0 <= k < |hits| => Match(lookup(hits[k].ref), hits[k].score))
  }

  lemma {:induction false} WhereSelect(ms: seq<Match>, f: Filters, g: Filters, c: Criterion)
    requires forall m :: Passes(m, g) == (Passes(m, f) && Satisfies(m, c))
    ensures Where(Select(ms, f), c) == Select(ms, g)
  {
    if ms != [] {
      WhereSelect(ms[1..], f, g, c);
    }
  }

  lemma {:induction false} SelectSame(ms: seq<Match>, f: Filters, g: Filters)
    requires forall m :: Passes(m, g) == Passes(m, f)
    ensures Select(ms, f) == Select(ms, g)
  {
    if ms != [] {
      SelectSame(ms[1..], f, g);
    }
  }

  /** With no filter given, `search` returns the looked-up hits unchanged. */
  lemma {:induction false} SelectNoFilters(ms: seq<Match>, f: Filters)
    requires !Given(f.extension) && !Given(f.category) && !Given(f.project) && !Given(f.team)
    requires f.dateFrom.None? && f.dateTo.None?
    ensures Select(ms, f) == ms
  {
    if ms != [] {
      SelectNoFilters(ms[1..], f);
    }
  }

  /** Every result kept meets each filter that is given; the date range is inclusive. */
  lemma {:induction false} SelectSound(ms: seq<Match>, f: Filters, m: Match)
    requires m in Select(ms, f)
    ensures m in ms
    ensures Given(f.extension) ==> m.doc.extension == f.extension.value
    ensures Given(f.category) ==> f.category.value in m.doc.categories
    ensures Given(f.project) ==> m.doc.project == f.project.value
    ensures Given(f.team) ==> m.doc.team == f.team.value
    ensures f.dateFrom.Some? ==> f.dateFrom.value <= m.doc.modified
    ensures f.dateTo.Some? ==> m.doc.modified <= f.dateTo.value
  {
    if ms[0] != m || !Passes(ms[0], f) {
      SelectSound(ms[1..], f, m);
    }
  }

  /** No result that meets every given filter is dropped. */
  lemma {:induction false} SelectComplete(ms: seq<Match>, f: Filters, m: Match)
    requires m in ms && Passes(m, f)
    ensures m in Select(ms, f)
  {
    if ms[0] != m {
      SelectComplete(ms[1..], f, m);
    }
  }

  /** The kept results are a subsequence of the hits: the filters never reorder. */
  lemma {:induction false} SelectKeepsOrder(ms: seq<Match>, f: Filters)
    ensures IsSubsequence(Select(ms, f), ms)
  {
    if ms != [] {
      SelectKeepsOrder(ms[1..], f);
      if !Passes(ms[0], f) {
        SubsequenceSkip(Select(ms[1..], f), ms);
      }
    }
  }

  /** The search service: `index` is null until `buildIndex` has run. */
  class DocumentIndexer {
    var indexBuilt: bool

    constructor ()
      ensures !indexBuilt
    {
      indexBuilt := false;
    }

    /** `buildIndex`: the lunr index over the stored documents now exists. */
    method BuildIndex()
      modifies this
      ensures indexBuilt
    {
      indexBuilt := true;
    }

    /** `search(query, filters)` given lunr's hits for the query: nothing before an index exists,
        otherwise the looked-up hits narrowed by each given filter in turn. */
    method Search(hits: seq<LunrHit>, lookup: string -> Document, filters: Filters)
      returns (documents: seq<Match>)
      ensures !indexBuilt ==> documents == []
      ensures indexBuilt ==> documents == Select(Resolve(hits, lookup), filters)
    {
      if !indexBuilt {
        return [];
      }
      var all := Resolve(hits, lookup);
      documents := all;
      ghost var applied := NoFilters;
      SelectNoFilters(all, applied);

      var next := applied.(extension := filters.extension);
      if Given(filters.extension) {
        WhereSelect(all, applied, next, ExtensionIs(filters.extension.value));
        documents := Where(documents, ExtensionIs(filters.extension.value));
      } else {
        SelectSame(all, applied, next);
      }
      applied := next;
      assert documents == Select(all, applied);

      next := applied.(category := filters.category);
      if Given(filters.category) {
        WhereSelect(all, applied, next, InCategory(filters.category.value));
        documents := Where(documents, InCategory(filters.category.value));
      } else {
        SelectSame(all, applied, next);
      }
      applied := next;
      assert documents == Select(all, applied);

      next := applied.(project := filters.project);
      if Given(filters.project) {
        WhereSelect(all, applied, next, ProjectIs(filters.project.value));
        documents := Where(documents, ProjectIs(filters.project.value));
      } else {
        SelectSame(all, applied, next);
      }
      applied := next;
      assert documents == Select(all, applied);

      next := applied.(team := filters.team);
      if Given(filters.team) {
        WhereSelect(all, applied, next, TeamIs(filters.team.value));
        documents := Where(documents, TeamIs(filters.team.value));
      } else {
        SelectSame(all, applied, next);
      }
      applied := next;
      assert documents == Select(all, applied);

      next := applied.(dateFrom := filters.dateFrom);
      if filters.dateFrom.Some? {
        WhereSelect(all, applied, next, ModifiedFrom(filters.dateFrom.value));
        documents := Where(documents, ModifiedFrom(filters.dateFrom.value));
      }
      applied := next;
      assert documents == Select(all, applied);

      next := applied.(dateTo := filters.dateTo);
      if filters.dateTo.Some? {
        WhereSelect(all, applied, next, ModifiedTo(filters.dateTo.value));
        documents := Where(documents, ModifiedTo(filters.dateTo.value));
      }
      applied := next;
      assert documents == Select(all, applied);
      assert applied == filters;
    }
  }
}
