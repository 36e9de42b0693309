/** Reciprocal-rank fusion of a lexical and a semantic result list
  * (`VectorSearchService.hybridSearch`). */
module Fusion {
  import opened Wrappers
  import opened Sequences
  import opened StableSort

  /** A search result: the document id and whatever else the engine reported. */
  datatype Hit = Hit(id: string, score: real)

  /** `{ ...doc, fusionScore, lexicalRank, semanticRank }`; an absent rank is `None`. */
  datatype FusedHit = FusedHit(hit: Hit, fusionScore: real, lexicalRank: Option<nat>, semanticRank: Option<nat>)

  /** The reciprocal-rank contribution `1 / (index + 1)` of the hit at `index`. */
  function Rrf(index: nat): (r: real)
    ensures 0.0 < r <= 1.0
  {
    1.0 / ((index + 1) as real)
  }

  lemma RrfDecreasing(i: nat, j: nat)
    requires i < j
    ensures Rrf(i) > Rrf(j)
  {
    var a, b := (i + 1) as real, (j + 1) as real;
    var x, y := Rrf(i), Rrf(j);
    assert x * a == 1.0 && y * b == 1.0;
    assert y * a < y * b;
    assert (x - y) * a > 0.0;
  }

  function FusionKey(e: FusedHit): real { e.fusionScore }

  function HitIds(hits: seq<Hit>): (r: seq<string>)
    ensures |r| == |hits| && forall k :: 0 <= k < |r| ==> r[k] == hits[k].id
  {
    seq(|hits|, k requires 0 <= k < |hits| => hits[k].id)
  }

  function Ids(m: seq<FusedHit>): (r: seq<string>)
    ensures |r| == |m| && forall k :: 0 <= k < |r| ==> r[k] == m[k].hit.id
  {
    seq(|m|, k requires 0 <= k < |m| => m[k].hit.id)
  }

  lemma HitIdsAppend(hits: seq<Hit>, h: Hit)
    ensures HitIds(hits + [h]) == HitIds(hits) + [h.id]
  {
  }

  lemma IdsUpdate(m: seq<FusedHit>, k: nat, e: FusedHit)
    requires k < |m| && e.hit.id == m[k].hit.id
    ensures Ids(m[k := e]) == Ids(m)
  {
  }

  lemma IdsAppend(m: seq<FusedHit>, e: FusedHit)
    ensures Ids(m + [e]) == Ids(m) + [e.hit.id]
  {
  }

  /** `merged.get(id)`: the slot of the entry for `id` in the insertion-ordered map. */
  function Find(m: seq<FusedHit>, id: string): (r: Option<nat>)
    ensures r.None? ==> id !in Ids(m)
    ensures r.Some? ==> r.value < |m| && m[r.value].hit.id == id
    ensures r.Some? ==> forall k :: 0 <= k < r.value ==> m[k].hit.id != id
  {
    if m == [] then None
    else if m[0].hit.id == id then Some(0)
    else
      match Find(m[1..], id)
      case None =>
        assert Ids(m) == [m[0].hit.id] + Ids(m[1..]);
        None
      case Some(k) => Some(k + 1)
  }

  /** `merged.set(e.hit.id, e)`: a present key keeps its slot and takes the new
    * value; a new key goes last. */
  function Put(m: seq<FusedHit>, e: FusedHit): seq<FusedHit> {
    match Find(m, e.hit.id)
    case Some(k) => m[k := e]
    case None => m + [e]
  }

  /** One step of the semantic pass: an entry already present gains `Rrf(j)`
    * and semantic rank `j + 1`; otherwise a semantic-only entry goes last. */
  function Boost(m: seq<FusedHit>, doc: Hit, j: nat): seq<FusedHit> {
    match Find(m, doc.id)
    case Some(k) => m[k := m[k].(fusionScore := m[k].fusionScore + Rrf(j), semanticRank := Some(j + 1))]
    case None => m + [FusedHit(doc, Rrf(j), None, Some(j + 1))]
  }

  /** The map after the lexical `forEach`. */
  function MergeLexical(lex: seq<Hit>): seq<FusedHit> {
    if lex == [] then []
    else
      var i := |lex| - 1;
      Put(MergeLexical(lex[..i]), FusedHit(lex[i], Rrf(i), Some(i + 1), None))
  }

  /** The map after the semantic `forEach`, starting from `m`. */
  function MergeSemantic(m: seq<FusedHit>, sem: seq<Hit>): seq<FusedHit> {
    if sem == [] then m
    else
      var j := |sem| - 1;
      Boost(MergeSemantic(m, sem[..j]), sem[j], j)
  }

  /** `Array.from(merged.values())`, in insertion order. */
  function Merge(lex: seq<Hit>, sem: seq<Hit>): seq<FusedHit> {
    MergeSemantic(MergeLexical(lex), sem)
  }

  /** The fused list sorted by descending fusion score (stably) and cut to `limit`. */
  function HybridRanking(lex: seq<Hit>, sem: seq<Hit>, limit: int): (r: seq<FusedHit>)
    ensures |r| <= |Merge(lex, sem)|
    ensures forall k :: 0 <= k < |r| ==> r[k] in Merge(lex, sem)
  {
    var m := Merge(lex, sem);
    var sorted := SortDesc(m, FusionKey);
    var r := SlicePrefix(sorted, limit);
    assert |sorted| == |multiset(sorted)|;
    assert forall k :: 0 <= k < |r| ==> r[k] in m by {
      forall k | 0 <= k < |r| ensures r[k] in m {
        assert r[k] == sorted[k] && sorted[k] in multiset(sorted);
      }
    }
    r
  }

  // Reference definition: what the fused entry for one id should be, read off
  // the two lists directly.

  function Rank(index: Option<nat>): Option<nat> {
    match index
    case Some(i) => Some(i + 1)
    case None => None
  }

  /** A repeated lexical id keeps only its last position. */
  function LexicalShare(lex: seq<Hit>, id: string): real {
    match LastIndex(HitIds(lex), id)
    case Some(i) => Rrf(i)
    case None => 0.0
  }

  /** Every semantic occurrence of `id` adds its reciprocal rank. */
  function SemanticShare(sem: seq<Hit>, id: string): real {
    if sem == [] then 0.0
    else
      var j := |sem| - 1;
      SemanticShare(sem[..j], id) + (if sem[j].id == id then Rrf(j) else 0.0)
  }

  /** The fused entry of `id`: the last lexical hit for it, else its first
    * semantic hit, with the summed score and the last rank seen in each list. */
  function Expected(lex: seq<Hit>, sem: seq<Hit>, id: string): FusedHit
    requires id in HitIds(lex) + HitIds(sem)
  {
    var source :=
      match LastIndex(HitIds(lex), id)
      case Some(i) => lex[i]
      case None => sem[IndexOf(HitIds(sem), id)];
    FusedHit(source, LexicalShare(lex, id) + SemanticShare(sem, id),
             Rank(LastIndex(HitIds(lex), id)), Rank(LastIndex(HitIds(sem), id)))
  }

  /** Every entry of `m` is the reference definition's entry for its id. */
  ghost predicate EntriesMatch(m: seq<FusedHit>, lex: seq<Hit>, sem: seq<Hit>) {
    forall k :: 0 <= k < |m| ==>
      m[k].hit.id in HitIds(lex) + HitIds(sem) && m[k] == Expected(lex, sem, m[k].hit.id)
  }

  /** `m` holds one entry per id of the two lists, in first-seen order, each as
    * the reference definition says. */
  ghost predicate Describes(m: seq<FusedHit>, lex: seq<Hit>, sem: seq<Hit>) {
    Ids(m) == Dedup(HitIds(lex) + HitIds(sem)) && EntriesMatch(m, lex, sem)
  }

  lemma SemanticShareAbsent(sem: seq<Hit>, id: string)
    requires id !in HitIds(sem)
    ensures SemanticShare(sem, id) == 0.0
  {
    if sem != [] {
      var j := |sem| - 1;
      HitIdsAppend(sem[..j], sem[j]);
      assert sem[..j] + [sem[j]] == sem;
      SemanticShareAbsent(sem[..j], id);
    }
  }

  /** With distinct ids, the slot `Find` reports is the only one holding `id`. */
  lemma FindUnique(m: seq<FusedHit>, id: string, k: nat)
    requires Distinct(Ids(m)) && k < |m| && m[k].hit.id == id
    ensures Find(m, id) == Some(k)
  {
    var r := Find(m, id);
    assert r.Some?;
    assert Ids(m)[r.value] == id == Ids(m)[k];
  }

  lemma LexicalStepOthers(init: seq<Hit>, h: Hit, id: string)
    requires id != h.id && id in HitIds(init) + HitIds([])
    ensures id in HitIds(init + [h]) + HitIds([])
    ensures Expected(init + [h], [], id) == Expected(init, [], id)
  {
    HitIdsAppend(init, h);
    LastIndexAppend(HitIds(init), h.id, id);
  }

  lemma LexicalStepOwn(init: seq<Hit>, h: Hit)
    ensures h.id in HitIds(init + [h]) + HitIds([])
    ensures Expected(init + [h], [], h.id) == FusedHit(h, Rrf(|init|), Some(|init| + 1), None)
  {
    HitIdsAppend(init, h);
    LastIndexAppend(HitIds(init), h.id, h.id);
    assert HitIds([]) == [];
  }

  /** The id order after a lexical step: a known id keeps its slot, a new one goes last. */
  lemma LexicalStepIds(m: seq<FusedHit>, init: seq<Hit>, h: Hit)
    requires Ids(m) == Dedup(HitIds(init) + HitIds([]))
    ensures Ids(Put(m, FusedHit(h, Rrf(|init|), Some(|init| + 1), None))) == Dedup(HitIds(init + [h]) + HitIds([]))
  {
    HitIdsAppend(init, h);
    assert HitIds([]) == [];
    assert HitIds(init + [h]) + HitIds([]) == (HitIds(init) + HitIds([])) + [h.id];
    DedupAppend(HitIds(init) + HitIds([]), h.id);
    var e := FusedHit(h, Rrf(|init|), Some(|init| + 1), None);
    match Find(m, h.id)
    case Some(s) =>
      IdsUpdate(m, s, e);
    case None =>
      IdsAppend(m, e);
  }

  lemma {:induction false} LexicalStepEntries(m: seq<FusedHit>, init: seq<Hit>, h: Hit)
    requires Describes(m, init, [])
    ensures EntriesMatch(Put(m, FusedHit(h, Rrf(|init|), Some(|init| + 1), None)), init + [h], [])
  {
    var lex := init + [h];
    var e := FusedHit(h, Rrf(|init|), Some(|init| + 1), None);
    var m' := Put(m, e);
    LexicalStepOwn(init, h);
    forall k | 0 <= k < |m'|
      ensures m'[k].hit.id in HitIds(lex) + HitIds([]) && m'[k] == Expected(lex, [], m'[k].hit.id)
    {
      if m'[k].hit.id != h.id {
        assert k < |m| && m'[k] == m[k];
        LexicalStepOthers(init, h, m[k].hit.id);
      } else if k < |m| {
        FindUnique(m, h.id, k);
      }
    }
  }

  lemma LexicalStep(m: seq<FusedHit>, init: seq<Hit>, h: Hit)
    requires Describes(m, init, [])
    ensures Describes(Put(m, FusedHit(h, Rrf(|init|), Some(|init| + 1), None)), init + [h], [])
  {
    LexicalStepIds(m, init, h);
    LexicalStepEntries(m, init, h);
  }

  lemma {:induction false} MergeLexicalDescribed(lex: seq<Hit>)
    ensures Describes(MergeLexical(lex), lex, [])
  {
    if lex == [] {
      assert HitIds([]) == [];
      assert Dedup<string>([]) == [];
    } else {
      var i := |lex| - 1;
      assert lex[..i] + [lex[i]] == lex;
      MergeLexicalDescribed(lex[..i]);
      LexicalStep(MergeLexical(lex[..i]), lex[..i], lex[i]);
    }
  }

  lemma SemanticStepOthers(lex: seq<Hit>, init: seq<Hit>, h: Hit, id: string)
    requires id != h.id && id in HitIds(lex) + HitIds(init)
    ensures id in HitIds(lex) + HitIds(init + [h])
    ensures Expected(lex, init + [h], id) == Expected(lex, init, id)
  {
    HitIdsAppend(init, h);
    LastIndexAppend(HitIds(init), h.id, id);
    if id !in HitIds(lex) {
      IndexOfAppend(HitIds(init), h.id, id);
    }
  }

  lemma SemanticStepBoosted(lex: seq<Hit>, init: seq<Hit>, h: Hit, old_: FusedHit)
    requires h.id in HitIds(lex) + HitIds(init) && old_ == Expected(lex, init, h.id)
    ensures h.id in HitIds(lex) + HitIds(init + [h])
    ensures Expected(lex, init + [h], h.id)
         == old_.(fusionScore := old_.fusionScore + Rrf(|init|), semanticRank := Some(|init| + 1))
  {
    HitIdsAppend(init, h);
    LastIndexAppend(HitIds(init), h.id, h.id);
    if h.id !in HitIds(lex) {
      IndexOfAppend(HitIds(init), h.id, h.id);
    }
  }

  lemma SemanticStepNew(lex: seq<Hit>, init: seq<Hit>, h: Hit)
    requires h.id !in HitIds(lex) + HitIds(init)
    ensures h.id in HitIds(lex) + HitIds(init + [h])
    ensures Expected(lex, init + [h], h.id) == FusedHit(h, Rrf(|init|), None, Some(|init| + 1))
  {
    HitIdsAppend(init, h);
    LastIndexAppend(HitIds(init), h.id, h.id);
    IndexOfAppend(HitIds(init), h.id, h.id);
    SemanticShareAbsent(init, h.id);
  }

  /** The id order after a semantic step. */
  lemma SemanticStepIds(m: seq<FusedHit>, lex: seq<Hit>, init: seq<Hit>, h: Hit)
    requires Ids(m) == Dedup(HitIds(lex) + HitIds(init))
    ensures Ids(Boost(m, h, |init|)) == Dedup(HitIds(lex) + HitIds(init + [h]))
  {
    HitIdsAppend(init, h);
    assert HitIds(lex) + HitIds(init + [h]) == (HitIds(lex) + HitIds(init)) + [h.id];
    DedupAppend(HitIds(lex) + HitIds(init), h.id);
    var j := |init|;
    match Find(m, h.id)
    case Some(s) =>
      IdsUpdate(m, s, m[s].(fusionScore := m[s].fusionScore + Rrf(j), semanticRank := Some(j + 1)));
    case None =>
      IdsAppend(m, FusedHit(h, Rrf(j), None, Some(j + 1)));
  }

  lemma {:induction false} SemanticStepEntries(m: seq<FusedHit>, lex: seq<Hit>, init: seq<Hit>, h: Hit)
    requires Describes(m, lex, init)
    ensures EntriesMatch(Boost(m, h, |init|), lex, init + [h])
  {
    var sem := init + [h];
    var m' := Boost(m, h, |init|);
    forall k | 0 <= k < |m'|
      ensures m'[k].hit.id in HitIds(lex) + HitIds(sem) && m'[k] == Expected(lex, sem, m'[k].hit.id)
    {
      if k < |m| && m[k].hit.id != h.id {
        assert m'[k] == m[k];
        SemanticStepOthers(lex, init, h, m[k].hit.id);
      } else if k < |m| {
        FindUnique(m, h.id, k);
        SemanticStepBoosted(lex, init, h, m[k]);
      } else {
        assert Find(m, h.id).None?;
        assert h.id !in Dedup(HitIds(lex) + HitIds(init));
        SemanticStepNew(lex, init, h);
      }
    }
  }

  lemma SemanticStep(m: seq<FusedHit>, lex: seq<Hit>, init: seq<Hit>, h: Hit)
    requires Describes(m, lex, init)
    ensures Describes(Boost(m, h, |init|), lex, init + [h])
  {
    SemanticStepIds(m, lex, init, h);
    SemanticStepEntries(m, lex, init, h);
  }

  lemma {:induction false} MergeSemanticDescribed(lex: seq<Hit>, sem: seq<Hit>)
    ensures Describes(MergeSemantic(MergeLexical(lex), sem), lex, sem)
  {
    if sem == [] {
      MergeLexicalDescribed(lex);
    } else {
      var j := |sem| - 1;
      assert sem[..j] + [sem[j]] == sem;
      MergeSemanticDescribed(lex, sem[..j]);
      SemanticStep(MergeSemantic(MergeLexical(lex), sem[..j]), lex, sem[..j], sem[j]);
    }
  }

  /** The fused map holds one entry per distinct id, in first-seen order, and
    * each entry is the reference definition's. */
  lemma MergeDescribed(lex: seq<Hit>, sem: seq<Hit>)
    ensures Describes(Merge(lex, sem), lex, sem)
  {
    MergeSemanticDescribed(lex, sem);
  }

  /** Every ranked entry is the reference entry of its id. */
  lemma RankingEntries(lex: seq<Hit>, sem: seq<Hit>, limit: int, k: nat)
    requires k < |HybridRanking(lex, sem, limit)|
    ensures HybridRanking(lex, sem, limit)[k].hit.id in HitIds(lex) + HitIds(sem)
    ensures HybridRanking(lex, sem, limit)[k]
         == Expected(lex, sem, HybridRanking(lex, sem, limit)[k].hit.id)
  {
    var m := Merge(lex, sem);
    var sorted := SortDesc(m, FusionKey);
    var e := HybridRanking(lex, sem, limit)[k];
    assert e == sorted[k];
    assert e in multiset(sorted);
    assert e in multiset(m);
    var p :| 0 <= p < |m| && m[p] == e;
    MergeDescribed(lex, sem);
  }

  lemma DistinctIdsDistinct(m: seq<FusedHit>)
    requires Distinct(Ids(m))
    ensures Distinct(m)
  {
    forall i, j | 0 <= i < j < |m| ensures m[i] != m[j] {
      assert Ids(m)[i] != Ids(m)[j];
    }
  }

  /** Sorting a list with distinct ids keeps the ids distinct. */
  lemma SortedIdsDistinct(m: seq<FusedHit>)
    requires Distinct(Ids(m))
    ensures Distinct(Ids(SortDesc(m, FusionKey)))
  {
    var sorted := SortDesc(m, FusionKey);
    DistinctIdsDistinct(m);
    SortDescDistinct(m, FusionKey);
    forall i, j | 0 <= i < j < |sorted| ensures Ids(sorted)[i] != Ids(sorted)[j] {
      assert sorted[i] in multiset(m) && sorted[j] in multiset(m);
      var p :| 0 <= p < |m| && m[p] == sorted[i];
      var q :| 0 <= q < |m| && m[q] == sorted[j];
      assert Ids(m)[p] == sorted[i].hit.id && Ids(m)[q] == sorted[j].hit.id;
    }
  }

  /** The ranking names each document at most once, is sorted by descending
    * fusion score and holds at most `limit` entries. */
  lemma RankingShape(lex: seq<Hit>, sem: seq<Hit>, limit: int)
    ensures Distinct(Ids(HybridRanking(lex, sem, limit)))
    ensures NonIncreasing(HybridRanking(lex, sem, limit), FusionKey)
    ensures limit >= 0 ==> |HybridRanking(lex, sem, limit)| <= limit
  {
    var m := Merge(lex, sem);
    var sorted := SortDesc(m, FusionKey);
    var r := HybridRanking(lex, sem, limit);
    MergeDescribed(lex, sem);
    SortedIdsDistinct(m);
    assert r == sorted[..|r|];
    forall i, j | 0 <= i < j < |r| ensures Ids(r)[i] != Ids(r)[j] {
      assert Ids(r)[i] == Ids(sorted)[i] && Ids(r)[j] == Ids(sorted)[j];
    }
  }

  /** Entries with equal fusion scores keep the order in which their ids were
    * first seen, lexical list first. */
  lemma RankingTiesKeepFirstSeenOrder(lex: seq<Hit>, sem: seq<Hit>, limit: int, i: nat, j: nat)
    requires i < j < |HybridRanking(lex, sem, limit)|
    requires HybridRanking(lex, sem, limit)[i].fusionScore == HybridRanking(lex, sem, limit)[j].fusionScore
    ensures Precedes(Dedup(HitIds(lex) + HitIds(sem)),
                     HybridRanking(lex, sem, limit)[i].hit.id, HybridRanking(lex, sem, limit)[j].hit.id)
  {
    var m := Merge(lex, sem);
    var sorted := SortDesc(m, FusionKey);
    var r := HybridRanking(lex, sem, limit);
    assert r[i] == sorted[i] && r[j] == sorted[j];
    SortDescTiesKeepOrder(m, FusionKey, i, j);
    var p, q :| 0 <= p < q < |m| && m[p] == r[i] && m[q] == r[j];
    MergeDescribed(lex, sem);
    assert Ids(m)[p] == r[i].hit.id && Ids(m)[q] == r[j].hit.id;
  }

  /** A document left out of the ranking was cut by the limit: the ranking is
    * full and every entry in it scores at least as high. */
  lemma RankingKeepsTheBest(lex: seq<Hit>, sem: seq<Hit>, limit: int, id: string)
    requires limit >= 0
    requires id in HitIds(lex) + HitIds(sem) && id !in Ids(HybridRanking(lex, sem, limit))
    ensures |HybridRanking(lex, sem, limit)| == limit
    ensures forall e :: e in HybridRanking(lex, sem, limit) ==>
              e.fusionScore >= LexicalShare(lex, id) + SemanticShare(sem, id)
  {
    var m := Merge(lex, sem);
    var r := HybridRanking(lex, sem, limit);
    MergeDescribed(lex, sem);
    var all := HitIds(lex) + HitIds(sem);
    var a :| 0 <= a < |all| && all[a] == id;
    assert id in Ids(m);
    var p :| 0 <= p < |m| && Ids(m)[p] == id;
    var x := m[p];
    forall t | 0 <= t < |r| ensures r[t] != x {
      assert Ids(r)[t] == r[t].hit.id;
    }
    TopSelection(m, FusionKey, limit, x);
  }

  /** The share of a lexical hit whose id occurs once in the lexical list. */
  lemma LexicalShareOfDistinct(lex: seq<Hit>, i: nat)
    requires Distinct(HitIds(lex)) && i < |lex|
    ensures LexicalShare(lex, lex[i].id) == Rrf(i)
  {
    LastIndexOfDistinct(HitIds(lex), i);
  }

  /** The share of a semantic hit whose id occurs once in the semantic list. */
  lemma {:induction false} SemanticShareOfDistinct(sem: seq<Hit>, j: nat)
    requires Distinct(HitIds(sem)) && j < |sem|
    ensures SemanticShare(sem, sem[j].id) == Rrf(j)
  {
    var n := |sem| - 1;
    var init := sem[..n];
    HitIdsAppend(init, sem[n]);
    assert init + [sem[n]] == sem;
    assert HitIds(init) == HitIds(sem)[..n];
    if j == n {
      assert sem[j].id !in HitIds(init) by {
        forall k | 0 <= k < n ensures HitIds(init)[k] != sem[j].id {
          assert HitIds(sem)[k] != HitIds(sem)[n];
        }
      }
      SemanticShareAbsent(init, sem[j].id);
    } else {
      assert HitIds(sem)[j] != HitIds(sem)[n];
      SemanticShareOfDistinct(init, j);
    }
  }

  /** With no repeated ids, a document found by both searches scores the sum
    * of its two reciprocal ranks. */
  lemma BothListsScore(lex: seq<Hit>, sem: seq<Hit>, i: nat, j: nat)
    requires Distinct(HitIds(lex)) && Distinct(HitIds(sem))
    requires i < |lex| && j < |sem| && lex[i].id == sem[j].id
    ensures LexicalShare(lex, lex[i].id) + SemanticShare(sem, lex[i].id) == Rrf(i) + Rrf(j)
  {
    LexicalShareOfDistinct(lex, i);
    SemanticShareOfDistinct(sem, j);
  }

  /** The lexical list alone, as the fusion annotates it. */
  function LexicalOnly(lex: seq<Hit>): (r: seq<FusedHit>)
    ensures |r| == |lex|
    ensures forall k: nat :: k < |r| ==> r[k] == FusedHit(lex[k], Rrf(k), Some(k + 1), None)
  {
    seq(|lex|, (k: nat) requires k < |lex| => FusedHit(lex[k], Rrf(k), Some(k + 1), None))
  }

  lemma ExpectedLexicalOnly(lex: seq<Hit>, k: nat)
    requires Distinct(HitIds(lex)) && k < |lex|
    ensures lex[k].id in HitIds(lex) + HitIds([])
    ensures Expected(lex, [], lex[k].id) == FusedHit(lex[k], Rrf(k), Some(k + 1), None)
  {
    assert HitIds(lex)[k] == lex[k].id;
    LastIndexOfDistinct(HitIds(lex), k);
    assert HitIds([]) == [];
  }

  lemma MergeLexicalOnly(lex: seq<Hit>)
    requires Distinct(HitIds(lex))
    ensures Merge(lex, []) == LexicalOnly(lex)
  {
    var m := Merge(lex, []);
    MergeDescribed(lex, []);
    assert HitIds([]) == [];
    assert HitIds(lex) + HitIds([]) == HitIds(lex);
    DedupOfDistinct(HitIds(lex));
    assert |m| == |lex| && forall k :: 0 <= k < |m| ==> m[k].hit.id == lex[k].id by {
      assert |Ids(m)| == |lex|;
      assert forall k :: 0 <= k < |m| ==> Ids(m)[k] == HitIds(lex)[k];
    }
    forall k | 0 <= k < |m| ensures m[k] == LexicalOnly(lex)[k] {
      ExpectedLexicalOnly(lex, k);
      assert m[k].hit.id in HitIds(lex) + HitIds([]) && m[k] == Expected(lex, [], m[k].hit.id);
      assert m[k].hit.id == lex[k].id;
      assert LexicalOnly(lex)[k] == FusedHit(lex[k], Rrf(k), Some(k + 1), None);
    }
  }

  /** With nothing from the semantic side and no repeated ids, the ranking is
    * the lexical order unchanged, cut to `limit`. */
  lemma RankingWithoutSemanticHits(lex: seq<Hit>, limit: int)
    requires Distinct(HitIds(lex))
    ensures HybridRanking(lex, [], limit) == SlicePrefix(LexicalOnly(lex), limit)
  {
    var m := LexicalOnly(lex);
    MergeLexicalOnly(lex);
    forall a, b | 0 <= a < b < |m| ensures FusionKey(m[a]) >= FusionKey(m[b]) {
      RrfDecreasing(a, b);
    }
    SortDescOfSorted(m, FusionKey);
  }

  /** What the semantic side produced: its hits, or a failure inside the
    * `try` block. */
  datatype SemanticOutcome = Returned(hits: seq<Hit>) | Threw

  /** `hybridSearch` hands back either the lexical list untouched or the fused
    * ranking. */
  datatype HybridResult = Unfused(hits: seq<Hit>) | Fused(ranked: seq<FusedHit>)

  /** The fused map's id-to-slot index: every slot it names holds that id, and
    * every id in the map has a slot. */
  ghost predicate Slots(m: seq<FusedHit>, slot: map<string, nat>) {
    && (forall id :: id in slot ==> slot[id] < |m| && m[slot[id]].hit.id == id)
    && (forall k :: 0 <= k < |m| ==> m[k].hit.id in slot)
  }

  lemma SlotsFind(m: seq<FusedHit>, slot: map<string, nat>, id: string)
    requires Slots(m, slot) && Distinct(Ids(m))
    ensures Find(m, id) == if id in slot then Some(slot[id]) else None
  {
    if id in slot {
      FindUnique(m, id, slot[id]);
    }
  }

  lemma MergeLexicalDistinct(lex: seq<Hit>)
    ensures Distinct(Ids(MergeLexical(lex)))
  {
    MergeLexicalDescribed(lex);
  }

  lemma MergeSemanticDistinct(lex: seq<Hit>, sem: seq<Hit>)
    ensures Distinct(Ids(MergeSemantic(MergeLexical(lex), sem)))
  {
    MergeSemanticDescribed(lex, sem);
  }

  /** One `merged.set` through the slot index. */
  lemma SlotsPut(m: seq<FusedHit>, slot: map<string, nat>, e: FusedHit)
    requires Slots(m, slot) && Distinct(Ids(m))
    ensures e.hit.id in slot ==> Put(m, e) == m[slot[e.hit.id] := e] && Slots(Put(m, e), slot)
    ensures e.hit.id !in slot ==> Put(m, e) == m + [e] && Slots(Put(m, e), slot[e.hit.id := |m|])
  {
    SlotsFind(m, slot, e.hit.id);
  }

  /** One semantic boost through the slot index. */
  lemma SlotsBoost(m: seq<FusedHit>, slot: map<string, nat>, doc: Hit, j: nat)
    requires Slots(m, slot) && Distinct(Ids(m))
    ensures doc.id in slot ==>
      var s := slot[doc.id];
      Boost(m, doc, j) == m[s := m[s].(fusionScore := m[s].fusionScore + Rrf(j), semanticRank := Some(j + 1))]
      && Slots(Boost(m, doc, j), slot)
    ensures doc.id !in slot ==>
      Boost(m, doc, j) == m + [FusedHit(doc, Rrf(j), None, Some(j + 1))]
      && Slots(Boost(m, doc, j), slot[doc.id := |m|])
  {
    SlotsFind(m, slot, doc.id);
    var m' := Boost(m, doc, j);
    if doc.id in slot {
      var s := slot[doc.id];
      assert |m'| == |m| && forall k :: 0 <= k < |m| ==> m'[k].hit.id == m[k].hit.id;
    } else {
      assert forall k :: 0 <= k < |m| ==> m'[k] == m[k];
    }
  }

  /** `merged.set(e.hit.id, e)` on the map held as entries plus slot index. */
  method SetEntry(merged: seq<FusedHit>, slot: map<string, nat>, e: FusedHit)
    returns (merged': seq<FusedHit>, slot': map<string, nat>)
    requires Slots(merged, slot) && Distinct(Ids(merged))
    ensures merged' == Put(merged, e) && Slots(merged', slot')
  {
    SlotsPut(merged, slot, e);
    if e.hit.id in slot {
      merged', slot' := merged[slot[e.hit.id] := e], slot;
    } else {
      merged', slot' := merged + [e], slot[e.hit.id := |merged|];
    }
  }

  /** The semantic callback: add to the entry already there, or set a new one. */
  method BoostEntry(merged: seq<FusedHit>, slot: map<string, nat>, doc: Hit, j: nat)
    returns (merged': seq<FusedHit>, slot': map<string, nat>)
    requires Slots(merged, slot) && Distinct(Ids(merged))
    ensures merged' == Boost(merged, doc, j) && Slots(merged', slot')
  {
    SlotsBoost(merged, slot, doc, j);
    if doc.id in slot {
      var s := slot[doc.id];
      var existing := merged[s];
      merged' := merged[s := existing.(fusionScore := existing.fusionScore + Rrf(j), semanticRank := Some(j + 1))];
      slot' := slot;
    } else {
      merged', slot' := merged + [FusedHit(doc, Rrf(j), None, Some(j + 1))], slot[doc.id := |merged|];
    }
  }

  /** The lexical `forEach`: each hit enters the map with score `Rrf(i)` and
    * lexical rank `i + 1`, a repeated id overwriting its earlier entry in place. */
  method LexicalPass(lexical: seq<Hit>) returns (merged: seq<FusedHit>, slot: map<string, nat>)
    ensures merged == MergeLexical(lexical)
    ensures Slots(merged, slot)
  {
    merged, slot := [], map[];
    var i := 0;
    while i < |lexical|
      invariant i <= |lexical|
      invariant merged == MergeLexical(lexical[..i])
      invariant Slots(merged, slot)
    {
      var doc := lexical[i];
      var e := FusedHit(doc, Rrf(i), Some(i + 1), None);
      assert lexical[..i + 1][..i] == lexical[..i];
      assert MergeLexical(lexical[..i + 1]) == Put(merged, e);
      MergeLexicalDistinct(lexical[..i]);
      merged, slot := SetEntry(merged, slot, e);
      i := i + 1;
    }
    assert lexical[..i] == lexical;
  }

  /** The semantic `forEach`: a known id gains `Rrf(j)` and semantic rank
    * `j + 1`, a new one is appended with only a semantic rank. */
  method SemanticPass(start: seq<FusedHit>, startSlot: map<string, nat>, lexical: seq<Hit>, sem: seq<Hit>)
    returns (merged: seq<FusedHit>)
    requires start == MergeLexical(lexical) && Slots(start, startSlot)
    ensures merged == MergeSemantic(start, sem)
  {
    merged := start;
    var slot: map<string, nat> := startSlot;
    var j := 0;
    while j < |sem|
      invariant j <= |sem|
      invariant merged == MergeSemantic(start, sem[..j])
      invariant Slots(merged, slot)
    {
      var doc := sem[j];
      assert sem[..j + 1][..j] == sem[..j];
      assert MergeSemantic(start, sem[..j + 1]) == Boost(merged, doc, j);
      MergeSemanticDistinct(lexical, sem[..j]);
      merged, slot := BoostEntry(merged, slot, doc, j);
      j := j + 1;
    }
    assert sem[..j] == sem;
  }

  class VectorSearchService {
    var initialized: bool

    constructor()
      ensures !initialized
    {
      initialized := false;
    }

    /** `initialize`: `ready` says whether the vector store and the embedding
      * model both came up. */
    method Initialize(ready: bool)
      modifies this
      ensures initialized == ready
    {
      initialized := ready;
    }

    /** Reciprocal-rank fusion of the lexical hits with the semantic hits. */
    method HybridSearch(lexical: seq<Hit>, semantic: SemanticOutcome, limit: int) returns (r: HybridResult)
      ensures !initialized ==> r == Unfused(lexical)
      ensures initialized && semantic.Threw? ==> r == Unfused(lexical)
      ensures initialized && semantic.Returned? ==> r == Fused(HybridRanking(lexical, semantic.hits, limit))
    {
      if !initialized || semantic.Threw? {
        return Unfused(lexical);
      }
      var sem := semantic.hits;
      var merged, slot := LexicalPass(lexical);
      merged := SemanticPass(merged, slot, lexical, sem);
      return Fused(SlicePrefix(SortDesc(merged, FusionKey), limit));
    }
  }
}
