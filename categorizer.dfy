/** `DocumentCategorizer`: topics, team and project of a document, from keyword tables and the
    document's relative path. */
module Categorizer {
  import opened Text
  import opened Sequences
  import opened StableSort

  /** One row of a keyword table: a topic or team name and the keywords that vote for it. */
  datatype Group = Group(name: string, keywords: seq<string>)

  /** `categoryKeywords`, in declaration order. */
  const CategoryKeywords: seq<Group> := [
    Group("Brand Strategy", ["brand", "branding", "identity", "positioning", "brand guide", "style guide"]),
    Group("Social Media", ["social", "facebook", "twitter", "instagram", "linkedin", "post", "hashtag", "engagement"]),
    Group("Content Marketing", ["blog", "article", "content", "seo", "editorial", "copywriting"]),
    Group("Email Marketing", ["email", "newsletter", "campaign", "mailchimp", "subscriber", "drip"]),
    Group("Analytics", ["analytics", "metrics", "kpi", "data", "report", "dashboard", "performance"]),
    Group("Advertising", ["ad", "advertising", "ppc", "campaign", "google ads", "facebook ads", "banner"]),
    Group("Product Launch", ["launch", "product", "release", "announcement", "rollout"]),
    Group("Public Relations", ["pr", "press", "media", "release", "public relations", "publicity"]),
    Group("Design", ["design", "graphic", "visual", "mockup", "prototype", "figma", "photoshop"]),
    Group("Video Marketing", ["video", "youtube", "vimeo", "animation", "multimedia"]),
    Group("Market Research", ["research", "survey", "market", "competitor", "analysis", "insights"])
  ]

  /** `teamKeywords`, in declaration order. */
  const TeamKeywords: seq<Group> := [
    Group("Creative Team", ["design", "creative", "art", "visual", "graphic"]),
    Group("Content Team", ["content", "writing", "editorial", "blog", "article"]),
    Group("Social Media Team", ["social", "community", "engagement", "post"]),
    Group("Analytics Team", ["analytics", "data", "metrics", "report", "insights"]),
    Group("Product Marketing", ["product", "launch", "feature", "roadmap"]),
    Group("Growth Team", ["growth", "acquisition", "conversion", "funnel"])
  ]

  const DefaultTeam := "General"
  const MaxTopics := 3

  function Names(groups: seq<Group>): (r: seq<string>)
    ensures |r| == |groups| && forall k :: 0 <= k < |r| ==> r[k] == groups[k].name
  {
    seq(|groups|, k requires 0 <= k < |groups| => groups[k].name)
  }

  /** `tokens.some(token => token.includes(keyword) || keyword.includes(token))`. */
  predicate Mentioned(tokens: seq<string>, keyword: string) {
    exists i :: 0 <= i < |tokens| && (Contains(tokens[i], keyword) || Contains(keyword, tokens[i]))
  }

  /** `keywords.filter(keyword => ...).length`: how many of the keywords the tokens mention. */
  function MatchCount(tokens: seq<string>, keywords: seq<string>): (n: nat)
    ensures n <= |keywords|
  {
    if keywords == [] then 0
    else
      var init := keywords[..|keywords| - 1];
      MatchCount(tokens, init) + (if Mentioned(tokens, keywords[|keywords| - 1]) then 1 else 0)
  }

  /** A table row scores nothing exactly when none of its keywords is mentioned. */
  lemma {:induction false} MatchCountZero(tokens: seq<string>, keywords: seq<string>)
    ensures MatchCount(tokens, keywords) == 0 <==> forall k :: 0 <= k < |keywords| ==> !Mentioned(tokens, keywords[k])
  {
    if keywords != [] {
      var init := keywords[..|keywords| - 1];
      MatchCountZero(tokens, init);
      assert forall k :: 0 <= k < |init| ==> init[k] == keywords[k];
    }
  }

  /** The counts see only which tokens occur: order and repetition do not matter (the unused
      `tokenSet` of `categorizeByTopic` would give the same counts). */
  lemma {:induction false} MatchCountOfSameTokens(a: seq<string>, b: seq<string>, keywords: seq<string>)
    requires forall t :: t in a <==> t in b
    ensures MatchCount(a, keywords) == MatchCount(b, keywords)
  {
    if keywords != [] {
      var kw := keywords[|keywords| - 1];
      MatchCountOfSameTokens(a, b, keywords[..|keywords| - 1]);
      if Mentioned(a, kw) {
        var i :| 0 <= i < |a| && (Contains(a[i], kw) || Contains(kw, a[i]));
        assert a[i] in b;
        var j :| 0 <= j < |b| && b[j] == a[i];
      }
      if Mentioned(b, kw) {
        var j :| 0 <= j < |b| && (Contains(b[j], kw) || Contains(kw, b[j]));
        assert b[j] in a;
        var i :| 0 <= i < |a| && a[i] == b[j];
      }
    }
  }

  /** `{ name: category, score: matchCount }`. */
  datatype Scored = Scored(name: string, score: nat)

  function ScoreKey(c: Scored): real { c.score as real }

  function Score(tokens: seq<string>, g: Group): Scored {
    Scored(g.name, MatchCount(tokens, g.keywords))
  }

  /** The groups the tokens mention at all, scored, in declaration order: what the topic loop
      pushes onto `categories`. */
  function Matched(tokens: seq<string>, groups: seq<Group>): (r: seq<Scored>)
    ensures |r| <= |groups|
    ensures forall k :: 0 <= k < |r| ==> r[k].score > 0
  {
    if groups == [] then []
    else
      var init, g := groups[..|groups| - 1], groups[|groups| - 1];
      Matched(tokens, init) + (if Score(tokens, g).score > 0 then [Score(tokens, g)] else [])
  }

  /** Every matched entry is the score of one of the groups. */
  lemma {:induction false} MatchedEntry(tokens: seq<string>, groups: seq<Group>, e: Scored)
    requires e in Matched(tokens, groups)
    ensures exists k :: 0 <= k < |groups| && e == Score(tokens, groups[k])
  {
    var init, g := groups[..|groups| - 1], groups[|groups| - 1];
    if e in Matched(tokens, init) {
      MatchedEntry(tokens, init, e);
      var k :| 0 <= k < |init| && e == Score(tokens, init[k]);
      assert groups[k] == init[k];
    } else {
      assert e == Score(tokens, groups[|groups| - 1]);
    }
  }

  lemma MatchedAppend(tokens: seq<string>, groups: seq<Group>, g: Group)
    ensures Matched(tokens, groups + [g])
         == Matched(tokens, groups) + (if Score(tokens, g).score > 0 then [Score(tokens, g)] else [])
  {
    assert (groups + [g])[..|groups|] == groups;
  }

  lemma {:induction false} MatchedHas(tokens: seq<string>, groups: seq<Group>, k: nat)
    requires k < |groups| && Score(tokens, groups[k]).score > 0
    ensures Score(tokens, groups[k]) in Matched(tokens, groups)
  {
    var init := groups[..|groups| - 1];
    if k < |groups| - 1 {
      assert init[k] == groups[k];
      MatchedHas(tokens, init, k);
    }
  }

  /** Two matched entries in order come from groups declared in that order. */
  lemma {:induction false} MatchedInDeclarationOrder(tokens: seq<string>, groups: seq<Group>, a: Scored, b: Scored)
    requires Precedes(Matched(tokens, groups), a, b)
    ensures Precedes(Names(groups), a.name, b.name)
  {
    var m := Matched(tokens, groups);
    var i, j :| 0 <= i < j < |m| && m[i] == a && m[j] == b;
    var init, g := groups[..|groups| - 1], groups[|groups| - 1];
    assert groups == init + [g];
    MatchedAppend(tokens, init, g);
    var mi := Matched(tokens, init);
    if j < |mi| {
      assert mi[i] == a && mi[j] == b;
      MatchedInDeclarationOrder(tokens, init, a, b);
      var p, q :| 0 <= p < q < |Names(init)| && Names(init)[p] == a.name && Names(init)[q] == b.name;
      assert Names(groups)[p] == init[p].name && Names(groups)[q] == init[q].name;
    } else {
      assert b == Score(tokens, g) && a == mi[i];
      EarlierMatchBeforeLast(tokens, init, g, a);
    }
  }

  /** A group matched among the earlier ones is named before the last group. */
  lemma EarlierMatchBeforeLast(tokens: seq<string>, init: seq<Group>, g: Group, a: Scored)
    requires a in Matched(tokens, init)
    ensures Precedes(Names(init + [g]), a.name, g.name)
  {
    MatchedEntry(tokens, init, a);
    var p :| 0 <= p < |init| && a == Score(tokens, init[p]);
    var names := Names(init + [g]);
    assert names[p] == a.name && names[|init|] == g.name;
  }


  /** The matched groups sorted by score (stably) and cut to `n`. */
  function Ranking(tokens: seq<string>, groups: seq<Group>, n: nat): seq<Scored> {
    SlicePrefix(SortDesc(Matched(tokens, groups), ScoreKey), n)
  }

  /** The sorted entries `categorizeByTopic` keeps: at most three, highest score first. */
  function TopicRanking(tokens: seq<string>): seq<Scored> {
    Ranking(tokens, CategoryKeywords, MaxTopics)
  }

  function EntryNames(entries: seq<Scored>): (r: seq<string>)
    ensures |r| == |entries| && forall k :: 0 <= k < |r| ==> r[k] == entries[k].name
  {
    seq(|entries|, k requires 0 <= k < |entries| => entries[k].name)
  }

  /** What `categorizeByTopic(tokens)` returns. */
  function TopTopics(tokens: seq<string>): seq<string> {
    EntryNames(TopicRanking(tokens))
  }

  /** `categorizeByTopic`: the loop pushes every category with a match, then the list is sorted
      by score, cut to three and mapped to names. */
  method CategorizeByTopic(tokens: seq<string>) returns (topics: seq<string>)
    ensures topics == TopTopics(tokens)
  {
    var categories := MatchGroups(tokens, CategoryKeywords);
    topics := EntryNames(SlicePrefix(SortDesc(categories, ScoreKey), MaxTopics));
  }

  /** The loop of `categorizeByTopic` over a keyword table: each group the tokens mention is
      pushed with its match count, in table order. */
  method MatchGroups(tokens: seq<string>, groups: seq<Group>) returns (categories: seq<Scored>)
    ensures categories == Matched(tokens, groups)
  {
    categories := [];
    for i := 0 to |groups|
      invariant categories == Matched(tokens, groups[..i])
    {
      var group := groups[i];
      var matchCount := MatchCount(tokens, group.keywords);
      assert groups[..i + 1] == groups[..i] + [group];
      MatchedAppend(tokens, groups[..i], group);
      if matchCount > 0 {
        categories := categories + [Scored(group.name, matchCount)];
      }
    }
    assert groups[..|groups|] == groups;
  }


  lemma RankingFromMatched(tokens: seq<string>, groups: seq<Group>, n: nat, e: Scored)
    requires e in Ranking(tokens, groups, n)
    ensures e in Matched(tokens, groups)
  {
    var m := Matched(tokens, groups);
    var sorted := SortDesc(m, ScoreKey);
    var r := Ranking(tokens, groups, n);
    var t :| 0 <= t < |r| && r[t] == e;
    assert sorted[t] == e;
    assert e in multiset(sorted);
  }

  lemma RankingShape(tokens: seq<string>, groups: seq<Group>, n: nat)
    ensures |Ranking(tokens, groups, n)| <= n
    ensures NonIncreasing(Ranking(tokens, groups, n), ScoreKey)
    ensures forall e :: e in Ranking(tokens, groups, n) ==>
              e.score > 0 && exists k :: 0 <= k < |groups| && e == Score(tokens, groups[k])
  {
    var sorted := SortDesc(Matched(tokens, groups), ScoreKey);
    var r := Ranking(tokens, groups, n);
    assert r == sorted[..|r|];
    forall e | e in r ensures e.score > 0 && exists k :: 0 <= k < |groups| && e == Score(tokens, groups[k]) {
      RankingFromMatched(tokens, groups, n, e);
      MatchedEntry(tokens, groups, e);
    }
  }

  /** At most three topics, each one a category the tokens mention, highest score first. */
  lemma TopicsShape(tokens: seq<string>)
    ensures |TopicRanking(tokens)| <= MaxTopics
    ensures NonIncreasing(TopicRanking(tokens), ScoreKey)
    ensures forall e :: e in TopicRanking(tokens) ==>
              e.score > 0 && exists k :: 0 <= k < |CategoryKeywords| && e == Score(tokens, CategoryKeywords[k])
  {
    RankingShape(tokens, CategoryKeywords, MaxTopics);
  }

  /** A category the tokens mention that is not among the topics lost to three others that
      score at least as high. */
  lemma TopicsKeepTheBest(tokens: seq<string>, k: nat)
    requires k < |CategoryKeywords| && MatchCount(tokens, CategoryKeywords[k].keywords) > 0
    requires Score(tokens, CategoryKeywords[k]) !in TopicRanking(tokens)
    ensures |TopicRanking(tokens)| == MaxTopics
    ensures forall e :: e in TopicRanking(tokens) ==> e.score >= MatchCount(tokens, CategoryKeywords[k].keywords)
  {
    MatchedHas(tokens, CategoryKeywords, k);
    TopSelection(Matched(tokens, CategoryKeywords), ScoreKey, MaxTopics, Score(tokens, CategoryKeywords[k]));
  }

  lemma RankingTies(tokens: seq<string>, groups: seq<Group>, n: nat, i: nat, j: nat)
    requires i < j < |Ranking(tokens, groups, n)|
    requires Ranking(tokens, groups, n)[i].score == Ranking(tokens, groups, n)[j].score
    ensures Precedes(Names(groups), Ranking(tokens, groups, n)[i].name, Ranking(tokens, groups, n)[j].name)
  {
    var m := Matched(tokens, groups);
    var sorted := SortDesc(m, ScoreKey);
    var r := Ranking(tokens, groups, n);
    assert r[i] == sorted[i] && r[j] == sorted[j];
    SortDescTiesKeepOrder(m, ScoreKey, i, j);
    MatchedInDeclarationOrder(tokens, groups, r[i], r[j]);
  }

  /** Topics with equal scores keep the order in which the categories are declared. */
  lemma TopicTiesInDeclarationOrder(tokens: seq<string>, i: nat, j: nat)
    requires i < j < |TopicRanking(tokens)|
    requires TopicRanking(tokens)[i].score == TopicRanking(tokens)[j].score
    ensures Precedes(Names(CategoryKeywords), TopicRanking(tokens)[i].name, TopicRanking(tokens)[j].name)
  {
    RankingTies(tokens, CategoryKeywords, MaxTopics, i, j);
  }

  lemma RankingEmpty(tokens: seq<string>, groups: seq<Group>, n: nat)
    requires n > 0
    ensures Ranking(tokens, groups, n) == [] <==>
            forall k :: 0 <= k < |groups| ==> MatchCount(tokens, groups[k].keywords) == 0
  {
    var m := Matched(tokens, groups);
    if Ranking(tokens, groups, n) == [] {
      assert |SortDesc(m, ScoreKey)| == |m| by {
        assert |multiset(SortDesc(m, ScoreKey))| == |multiset(m)|;
      }
      forall k | 0 <= k < |groups| ensures MatchCount(tokens, groups[k].keywords) == 0 {
        if MatchCount(tokens, groups[k].keywords) > 0 {
          MatchedHas(tokens, groups, k);
        }
      }
    } else {
      var e := Ranking(tokens, groups, n)[0];
      RankingShape(tokens, groups, n);
      assert e in Ranking(tokens, groups, n);
    }
  }

  /** No topic at all exactly when no category keyword is mentioned. */
  lemma NoTopicsIffNoMatch(tokens: seq<string>)
    ensures TopTopics(tokens) == [] <==>
            forall k :: 0 <= k < |CategoryKeywords| ==> MatchCount(tokens, CategoryKeywords[k].keywords) == 0
  {
    RankingEmpty(tokens, CategoryKeywords, MaxTopics);
  }

  /** The highest count among `scores`, 0 when there are none. */
  function MaxScore(scores: seq<Scored>): (m: nat)
    ensures forall k :: 0 <= k < |scores| ==> scores[k].score <= m
    ensures m > 0 ==> exists k :: 0 <= k < |scores| && scores[k].score == m
  {
    if scores == [] then 0
    else
      var init, last := scores[..|scores| - 1], scores[|scores| - 1];
      var m := MaxScore(init);
      assert forall k :: 0 <= k < |init| ==> init[k] == scores[k];
      if last.score > m then last.score else m
  }

  /** The position of the first entry scoring at least `m`. */
  function FirstReaching(scores: seq<Scored>, m: nat): (i: nat)
    ensures i <= |scores|
    ensures i < |scores| ==> scores[i].score >= m
    ensures forall k :: 0 <= k < i ==> scores[k].score < m
  {
    if scores == [] then 0
    else if scores[0].score >= m then 0
    else 1 + FirstReaching(scores[1..], m)
  }

  function Scores(tokens: seq<string>, groups: seq<Group>): (r: seq<Scored>)
    ensures |r| == |groups| && forall k :: 0 <= k < |r| ==> r[k] == Score(tokens, groups[k])
  {
    seq(|groups|, k requires 0 <= k < |groups| => Score(tokens, groups[k]))
  }

  /** The first entry reaching the highest count, or `'General'` when every count is 0. */
  function BestSoFar(scores: seq<Scored>): string {
    var m := MaxScore(scores);
    if m == 0 then DefaultTeam else scores[FirstReaching(scores, m)].name
  }

  /** What `categorizeByTeam(tokens)` returns. */
  function BestTeam(tokens: seq<string>): string {
    BestSoFar(Scores(tokens, TeamKeywords))
  }

  lemma BestSoFarStep(scores: seq<Scored>, s: Scored)
    ensures MaxScore(scores + [s]) == if s.score > MaxScore(scores) then s.score else MaxScore(scores)
    ensures BestSoFar(scores + [s]) == if s.score > MaxScore(scores) then s.name else BestSoFar(scores)
  {
    var t := scores + [s];
    assert t[..|scores|] == scores;
    var m := MaxScore(scores);
    if s.score > m {
      assert t[|scores|].score == s.score;
      assert forall k :: 0 <= k < |scores| ==> t[k].score < s.score;
      assert FirstReaching(t, s.score) == |scores|;
    } else if m > 0 {
      var k :| 0 <= k < |scores| && scores[k].score == m;
      assert t[k].score == m;
      FirstReachingPrefix(scores, s, m);
    }
  }

  lemma {:induction false} FirstReachingPrefix(scores: seq<Scored>, s: Scored, m: nat)
    requires FirstReaching(scores, m) < |scores|
    ensures FirstReaching(scores + [s], m) == FirstReaching(scores, m)
  {
    if scores[0].score < m {
      assert (scores + [s])[1..] == scores[1..] + [s];
      FirstReachingPrefix(scores[1..], s, m);
    }
  }

  /** `BestSoFarStep` for the prefixes the loop of `categorizeByTeam` walks through. */
  lemma BestSoFarPrefixStep(scores: seq<Scored>, i: nat)
    requires i < |scores|
    ensures MaxScore(scores[..i + 1])
         == if scores[i].score > MaxScore(scores[..i]) then scores[i].score else MaxScore(scores[..i])
    ensures BestSoFar(scores[..i + 1])
         == if scores[i].score > MaxScore(scores[..i]) then scores[i].name else BestSoFar(scores[..i])
  {
    assert scores[..i + 1] == scores[..i] + [scores[i]];
    BestSoFarStep(scores[..i], scores[i]);
  }

  /** `categorizeByTeam`: keeps the team with the highest count so far; only a strictly higher
      count replaces it. */
  method CategorizeByTeam(tokens: seq<string>) returns (bestTeam: string)
    ensures bestTeam == BestTeam(tokens)
  {
    bestTeam := FirstBestGroup(tokens, TeamKeywords);
  }

  /** The loop of `categorizeByTeam` over a keyword table: a group replaces the current choice
      only when its match count is strictly higher. */
  method FirstBestGroup(tokens: seq<string>, groups: seq<Group>) returns (bestTeam: string)
    ensures bestTeam == BestSoFar(Scores(tokens, groups))
  {
    var maxScore := 0;
    bestTeam := DefaultTeam;
    ghost var scores := Scores(tokens, groups);
    for i := 0 to |groups|
      invariant maxScore == MaxScore(scores[..i])
      invariant bestTeam == BestSoFar(scores[..i])
    {
      var team := groups[i];
      var matchCount := MatchCount(tokens, team.keywords);
      assert scores[i] == Scored(team.name, matchCount);
      BestSoFarPrefixStep(scores, i);
      if matchCount > maxScore {
        maxScore := matchCount;
        bestTeam := team.name;
      }
    }
    assert scores[..|groups|] == scores;
  }


  lemma {:induction false} BestSoFarChoice(scores: seq<Scored>)
    requires forall k :: 0 <= k < |scores| ==> scores[k].name != DefaultTeam
    ensures BestSoFar(scores) == DefaultTeam <==> forall k :: 0 <= k < |scores| ==> scores[k].score == 0
    ensures BestSoFar(scores) != DefaultTeam ==>
            exists k :: 0 <= k < |scores| && BestSoFar(scores) == scores[k].name && scores[k].score > 0
              && (forall j :: 0 <= j < |scores| ==> scores[j].score <= scores[k].score)
              && (forall j :: 0 <= j < k ==> scores[j].score < scores[k].score)
  {
    var m := MaxScore(scores);
    if m > 0 {
      var k := FirstReaching(scores, m);
      var w :| 0 <= w < |scores| && scores[w].score == m;
      assert k <= w;
    }
  }

  /** `'General'` exactly when no team keyword is mentioned; otherwise a team with the highest
      count, and every team declared before it has a lower one. */
  lemma BestTeamChoice(tokens: seq<string>)
    ensures var scores := Scores(tokens, TeamKeywords);
      && (BestTeam(tokens) == DefaultTeam <==> forall k :: 0 <= k < |scores| ==> scores[k].score == 0)
      && (BestTeam(tokens) != DefaultTeam ==>
            exists k :: 0 <= k < |scores| && BestTeam(tokens) == scores[k].name && scores[k].score > 0
              && (forall j :: 0 <= j < |scores| ==> scores[j].score <= scores[k].score)
              && (forall j :: 0 <= j < k ==> scores[j].score < scores[k].score))
  {
    var scores := Scores(tokens, TeamKeywords);
    assert forall k :: 0 <= k < |TeamKeywords| ==> |TeamKeywords[k].name| > |DefaultTeam|;
    assert forall k :: 0 <= k < |scores| ==> scores[k].name == TeamKeywords[k].name;
    BestSoFarChoice(scores);
  }



  const ProjectIndicators: seq<string> := ["project", "campaign", "client"]

  /** `projectIndicators.some(indicator => part.includes(indicator))`. */
  predicate HasIndicator(part: string) {
    exists k :: 0 <= k < |ProjectIndicators| && Contains(part, ProjectIndicators[k])
  }

  /** The first directory part (every part but the last) whose lower-cased name holds an
      indicator, searching from `i`. */
  function FirstIndicator(parts: seq<string>, i: nat): (r: nat)
    requires |parts| >= 1 && i <= |parts| - 1
    ensures i <= r <= |parts| - 1
    ensures r < |parts| - 1 ==> HasIndicator(Lower(parts[r]))
    ensures forall k :: i <= k < r ==> !HasIndicator(Lower(parts[k]))
    decreases |parts| - i
  {
    if i == |parts| - 1 then i
    else if HasIndicator(Lower(parts[i])) then i
    else FirstIndicator(parts, i + 1)
  }

  /** What `extractProject(filePath)` returns, with `/` as `path.sep`. The project never spans
      directories; it is empty only when the path starts with an empty first part (an
      absolute path) and names no project folder. */
  function ProjectOf(filePath: string): (project: string)
    ensures '/' !in project
    ensures project == "" ==>
              |Split(filePath, '/')| > 1 && Split(filePath, '/')[0] == ""
              && FirstIndicator(Split(filePath, '/'), 0) == |Split(filePath, '/')| - 1
  {
    var parts := Split(filePath, '/');
    var i := FirstIndicator(parts, 0);
    if i < |parts| - 1 then (if parts[i + 1] != "" then parts[i + 1] else parts[i])
    else if |parts| > 1 then parts[0]
    else "Uncategorized"
  }

  /** `extractProject`: the part after the first directory named like a project, campaign or
      client folder; else the first directory; else `'Uncategorized'`. */
  method ExtractProject(filePath: string) returns (project: string)
    ensures project == ProjectOf(filePath)
  {
    var parts := Split(filePath, '/');
    var i := 0;
    while i < |parts| - 1
      invariant i <= |parts| - 1
      invariant FirstIndicator(parts, 0) == FirstIndicator(parts, i)
    {
      var part := Lower(parts[i]);
      if HasIndicator(part) {
        return if parts[i + 1] != "" then parts[i + 1] else parts[i];
      }
      i := i + 1;
    }
    return if |parts| > 1 then parts[0] else "Uncategorized";
  }

  lemma SplitOfPlainName(s: string)
    requires '/' !in s
    ensures Split(s, '/') == [s]
  {
  }

  lemma SplitOfPath(dir: string, rest: string)
    requires '/' !in dir
    ensures Split(dir + "/" + rest, '/') == [dir] + Split(rest, '/')
  {
    var s := dir + "/" + rest;
    assert s[..|dir|] == dir && s[|dir|] == '/';
    assert IndexOf(s, '/') == |dir| by {
      assert '/' !in s[..|dir|];
    }
    assert s[|dir| + 1..] == rest;
  }

  /** A file directly inside the root has no project folder and no directory to fall back on. */
  lemma ProjectOfTopLevelFile(name: string)
    requires '/' !in name
    ensures ProjectOf(name) == "Uncategorized"
  {
    SplitOfPlainName(name);
  }

  /** A file directly inside a project folder takes its own file name as the project. */
  lemma ProjectOfFileInProjectFolder(folder: string, name: string)
    requires '/' !in folder && '/' !in name && name != ""
    requires HasIndicator(Lower(folder))
    ensures ProjectOf(folder + "/" + name) == name
  {
    SplitOfPath(folder, name);
    SplitOfPlainName(name);
  }

  /** `categorize`'s result. */
  datatype Categorization = Categorization(topics: seq<string>, team: string, project: string)

  /** `categorize(content, filename, filePath)`; `tokenize` stands for `natural`'s
      `WordTokenizer`. */
  method Categorize(content: string, filename: string, filePath: string, tokenize: string -> seq<string>)
    returns (r: Categorization)
    ensures var tokens := tokenize(Lower(content + " " + filename + " " + filePath));
            r == Categorization(TopTopics(tokens), BestTeam(tokens), ProjectOf(filePath))
  {
    var text := Lower(content + " " + filename + " " + filePath);
    var tokens := tokenize(text);
    var topics := CategorizeByTopic(tokens);
    var team := CategorizeByTeam(tokens);
    var project := ExtractProject(filePath);
    r := Categorization(topics, team, project);
  }
}
