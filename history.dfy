/** The browser-side search history: the most recent queries, newest first, kept as a JSON
    list under one `localStorage` key. */
module History {
  import opened Text
  import opened Sequences

  const MaxHistoryItems: nat := 10

  /** One remembered search; the timestamp is the ISO string of the moment it was made. */
  datatype Entry = Entry(query: string, timestamp: string)

  /** What `localStorage` holds under the history key: nothing, something that does not parse
      as JSON (or the empty string), or a list of entries. */
  datatype Stored = Absent | Unreadable | Saved(entries: seq<Entry>)

  /** `getHistory`: the stored list, or `[]` when there is none or it cannot be read. */
  function Loaded(stored: Stored): seq<Entry> {
    if stored.Saved? then stored.entries else []
  }

  /** `addToHistory` ignores a query whose trimmed form is shorter than two characters. */
  predicate Accepted(query: string) {
    |Trim(query)| >= 2
  }

  /** Two queries that `toLowerCase` makes equal. */
  predicate SameIgnoringCase(a: string, b: string) {
    Lower(a) == Lower(b)
  }

  /** `history.filter(item => item.query.toLowerCase() !== query.toLowerCase())`. */
  function Without(history: seq<Entry>, query: string): (r: seq<Entry>)
    ensures |r| <= |history|
    ensures forall k :: 0 <= k < |r| ==> !SameIgnoringCase(r[k].query, query)
  {
    if history == [] then []
    else if SameIgnoringCase(history[0].query, query) then Without(history[1..], query)
    else [history[0]] + Without(history[1..], query)
  }

  /** `history.filter(item => item.query !== query)`. */
  function RemovedFrom(history: seq<Entry>, query: string): (r: seq<Entry>)
    ensures |r| <= |history|
    ensures forall k :: 0 <= k < |r| ==> r[k].query != query
  {
    if history == [] then []
    else if history[0].query == query then RemovedFrom(history[1..], query)
    else [history[0]] + RemovedFrom(history[1..], query)
  }

  /** The trimmed query `top` put on top of `history` with the current time, after the filter
      has removed every entry matching `key` in any letter case; cut to ten entries. */
  function Placed(history: seq<Entry>, top: string, key: string, now: string): seq<Entry> {
    SlicePrefix([Entry(top, now)] + Without(history, key), MaxHistoryItems)
  }

  /** The list `addToHistory` writes back: the filter compares the query as given, untrimmed,
      while the entry put on top holds the trimmed query. */
  function AddedToAsWritten(history: seq<Entry>, query: string, now: string): seq<Entry> {
    Placed(history, Trim(query), query, now)
  }

  /** The evidently intended list: the filter compares the trimmed query, the one stored. */
  function AddedTo(history: seq<Entry>, query: string, now: string): seq<Entry> {
    Placed(history, Trim(query), Trim(query), now)
  }

  /** No two entries are the same query up to letter case. */
  ghost predicate NoCaseDuplicates(history: seq<Entry>) {
    forall i, j :: 0 <= i < j < |history| ==> !SameIgnoringCase(history[i].query, history[j].query)
  }

  /** The filter keeps earlier entries only, and every entry for another query. */
  lemma {:induction false} WithoutMembers(history: seq<Entry>, query: string)
    ensures forall e :: e in Without(history, query) ==> e in history
    ensures forall e :: e in history && !SameIgnoringCase(e.query, query) ==> e in Without(history, query)
  {
    if history != [] {
      WithoutMembers(history[1..], query);
    }
  }

  lemma {:induction false} RemovedFromMembers(history: seq<Entry>, query: string)
    ensures forall e :: e in RemovedFrom(history, query) ==> e in history
    ensures forall e :: e in history && e.query != query ==> e in RemovedFrom(history, query)
  {
    if history != [] {
      RemovedFromMembers(history[1..], query);
    }
  }

  lemma {:induction false} WithoutIsSubsequence(history: seq<Entry>, query: string)
    ensures IsSubsequence(Without(history, query), history)
  {
    if history != [] {
      WithoutIsSubsequence(history[1..], query);
      var rest := Without(history[1..], query);
      if SameIgnoringCase(history[0].query, query) {
        if rest != [] {
          SubsequenceSkip(rest, history);
        }
      } else {
        assert ([history[0]] + rest)[1..] == rest;
      }
    }
  }

  lemma {:induction false} RemovedFromIsSubsequence(history: seq<Entry>, query: string)
    ensures IsSubsequence(RemovedFrom(history, query), history)
  {
    if history != [] {
      RemovedFromIsSubsequence(history[1..], query);
      var rest := RemovedFrom(history[1..], query);
      if history[0].query == query {
        if rest != [] {
          SubsequenceSkip(rest, history);
        }
      } else {
        assert ([history[0]] + rest)[1..] == rest;
      }
    }
  }

  /** A filter keeps a list free of case-duplicates. */
  lemma {:induction false} WithoutNoCaseDuplicates(history: seq<Entry>, query: string)
    requires NoCaseDuplicates(history)
    ensures NoCaseDuplicates(Without(history, query))
  {
    if history != [] {
      assert NoCaseDuplicates(history[1..]) by {
        forall i, j | 0 <= i < j < |history[1..]|
          ensures !SameIgnoringCase(history[1..][i].query, history[1..][j].query)
        {
          assert history[1..][i] == history[i + 1] && history[1..][j] == history[j + 1];
        }
      }
      WithoutNoCaseDuplicates(history[1..], query);
      var rest := Without(history[1..], query);
      if !SameIgnoringCase(history[0].query, query) {
        var r := [history[0]] + rest;
        forall i, j | 0 <= i < j < |r| ensures !SameIgnoringCase(r[i].query, r[j].query) {
          if i == 0 {
            WithoutMembers(history[1..], query);
            assert r[j] in history[1..];
            var k :| 1 <= k < |history| && history[k] == r[j];
            assert history[0] == r[0];
          } else {
            assert r[i] == rest[i - 1] && r[j] == rest[j - 1];
          }
        }
      }
    }
  }

  /** Without any entry for `query`, the filter leaves the list as it is. */
  lemma {:induction false} WithoutNoMatch(history: seq<Entry>, query: string)
    requires forall k :: 0 <= k < |history| ==> !SameIgnoringCase(history[k].query, query)
    ensures Without(history, query) == history
  {
    if history != [] {
      WithoutNoMatch(history[1..], query);
      assert history == [history[0]] + history[1..];
    }
  }

  /** One leading space is trimmed away. */
  lemma TrimPadded(word: string)
    requires word != [] && !IsSpace(word[0]) && !IsSpace(word[|word| - 1])
    ensures Trim(" " + word) == word
  {
    var p := " " + word;
    assert p[1..] == word;
    assert SkipSpaces(p) == SkipSpaces(word) == word;
  }

  /** Cutting the new list to ten keeps the top entry and nine earlier ones. */
  lemma PlacedSplit(history: seq<Entry>, top: string, key: string, now: string)
    ensures Placed(history, top, key, now)
      == [Entry(top, now)] + SlicePrefix(Without(history, key), MaxHistoryItems - 1)
  {
    var w := Without(history, key);
    var full := [Entry(top, now)] + w;
    if |w| < MaxHistoryItems {
      assert SlicePrefix(full, MaxHistoryItems) == full;
      assert SlicePrefix(w, MaxHistoryItems - 1) == w;
    } else {
      assert SlicePrefix(full, MaxHistoryItems) == full[..MaxHistoryItems];
      assert full[..MaxHistoryItems] == [Entry(top, now)] + w[..MaxHistoryItems - 1];
    }
  }

  /** The new list is never longer than ten; `top` is on top with the current time; every
      other entry is an earlier entry that does not match `key` in any letter case, in the
      order it had; and an earlier entry that does not match is dropped only when the list is
      full. */
  lemma PlacedShape(history: seq<Entry>, top: string, key: string, now: string)
    ensures var r := Placed(history, top, key, now);
      && 1 <= |r| <= MaxHistoryItems
      && r[0] == Entry(top, now)
      && (forall k :: 1 <= k < |r| ==> !SameIgnoringCase(r[k].query, key))
      && IsSubsequence(r[1..], history)
      && (forall e :: e in history && !SameIgnoringCase(e.query, key) ==>
            e in r || |r| == MaxHistoryItems)
  {
    var w := Without(history, key);
    var kept := SlicePrefix(w, MaxHistoryItems - 1);
    var r := Placed(history, top, key, now);
    PlacedSplit(history, top, key, now);
    assert r[1..] == kept;
    forall k | 1 <= k < |r| ensures !SameIgnoringCase(r[k].query, key) {
      assert r[k] == kept[k - 1];
      assert kept[k - 1] == w[k - 1];
    }
    WithoutIsSubsequence(history, key);
    SubsequencePrefix(w, |kept|);
    SubsequenceTransitive(kept, w, history);
    forall e | e in history && !SameIgnoringCase(e.query, key) && |r| < MaxHistoryItems
      ensures e in r
    {
      assert kept == w;
      WithoutMembers(history, key);
    }
  }

  /** What `addToHistory` writes: at most ten entries, the trimmed query on top with the
      current time, then earlier entries in the order they had, none of them equal to the
      query AS GIVEN in any letter case; an earlier entry for another query is dropped only
      when the list is full. */
  lemma AddedToAsWrittenShape(history: seq<Entry>, query: string, now: string)
    ensures var r := AddedToAsWritten(history, query, now);
      && 1 <= |r| <= MaxHistoryItems
      && r[0] == Entry(Trim(query), now)
      && (forall k :: 1 <= k < |r| ==> !SameIgnoringCase(r[k].query, query))
      && IsSubsequence(r[1..], history)
      && (forall e :: e in history && !SameIgnoringCase(e.query, query) ==>
            e in r || |r| == MaxHistoryItems)
  {
    PlacedShape(history, Trim(query), query, now);
  }

  /** For a query without surrounding whitespace the code as written and the corrected filter
      agree. */
  lemma AddedToAsWrittenOfTrimmed(history: seq<Entry>, query: string, now: string)
    requires Trim(query) == query
    ensures AddedToAsWritten(history, query, now) == AddedTo(history, query, now)
  {
  }

  /** As written, a query typed without surrounding whitespace keeps the list free of
      case-duplicates. */
  lemma AddedToAsWrittenNoCaseDuplicates(history: seq<Entry>, query: string, now: string)
    requires NoCaseDuplicates(history) && Trim(query) == query
    ensures NoCaseDuplicates(AddedToAsWritten(history, query, now))
  {
    AddedToAsWrittenOfTrimmed(history, query, now);
    PlacedNoCaseDuplicates(history, query, now);
  }

  /** With the corrected filter: the trimmed query on top, no entry for it in any letter case
      below, the rest in the order they had. */
  lemma AddedToShape(history: seq<Entry>, query: string, now: string)
    ensures var r := AddedTo(history, query, now);
      && 1 <= |r| <= MaxHistoryItems
      && r[0] == Entry(Trim(query), now)
      && (forall k :: 1 <= k < |r| ==> !SameIgnoringCase(r[k].query, Trim(query)))
      && IsSubsequence(r[1..], history)
      && (forall e :: e in history && !SameIgnoringCase(e.query, Trim(query)) ==>
            e in r || |r| == MaxHistoryItems)
  {
    PlacedShape(history, Trim(query), Trim(query), now);
  }

  /** With the corrected filter, adding keeps a list free of case-duplicates. */
  lemma AddedToNoCaseDuplicates(history: seq<Entry>, query: string, now: string)
    requires NoCaseDuplicates(history)
    ensures NoCaseDuplicates(AddedTo(history, query, now))
  {
    PlacedNoCaseDuplicates(history, Trim(query), now);
  }

  lemma PlacedNoCaseDuplicates(history: seq<Entry>, q: string, now: string)
    requires NoCaseDuplicates(history)
    ensures NoCaseDuplicates(Placed(history, q, q, now))
  {
    var w := Without(history, q);
    var r := Placed(history, q, q, now);
    var full := [Entry(q, now)] + w;
    WithoutNoCaseDuplicates(history, q);
    assert r == full[..|r|];
    forall i, j | 0 <= i < j < |r| ensures !SameIgnoringCase(r[i].query, r[j].query) {
      assert r[j] == w[j - 1];
      if i > 0 {
        assert r[i] == w[i - 1];
      }
    }
  }

  /** With the corrected filter, searching for the same query twice at the same moment leaves
      the list as one search did. */
  lemma AddedToTwice(history: seq<Entry>, query: string, now: string)
    ensures AddedTo(AddedTo(history, query, now), query, now) == AddedTo(history, query, now)
  {
    PlacedTwice(history, Trim(query), now);
  }

  lemma PlacedTwice(history: seq<Entry>, q: string, now: string)
    ensures Placed(Placed(history, q, q, now), q, q, now) == Placed(history, q, q, now)
  {
    var w := Without(history, q);
    var kept := SlicePrefix(w, MaxHistoryItems - 1);
    var r := Placed(history, q, q, now);
    PlacedSplit(history, q, q, now);
    PlacedSplit(r, q, q, now);
    assert r[1..] == kept;
    forall k | 0 <= k < |kept| ensures !SameIgnoringCase(kept[k].query, q) {
      assert kept[k] == w[k];
    }
    WithoutNoMatch(kept, q);
    assert SameIgnoringCase(r[0].query, q);
    assert Without(r, q) == kept;
    assert SlicePrefix(kept, MaxHistoryItems - 1) == kept;
  }

  /** The removed query no longer occurs, exactly as written; every entry for another query,
      even one differing only in letter case, stays, in the order it had. */
  lemma RemovedFromShape(history: seq<Entry>, query: string)
    ensures var r := RemovedFrom(history, query);
      && (forall k :: 0 <= k < |r| ==> r[k].query != query)
      && (forall e :: e in history && e.query != query ==> e in r)
      && IsSubsequence(r, history)
  {
    RemovedFromIsSubsequence(history, query);
    RemovedFromMembers(history, query);
  }

  /** The untrimmed comparison lets a padded repeat of the latest search produce a duplicate. */
  lemma PaddedRepeatDuplicated(history: seq<Entry>, word: string, now: string)
    requires history != [] && history[0].query == word
    requires |word| >= 2 && !IsSpace(word[0]) && !IsSpace(word[|word| - 1])
    ensures Accepted(" " + word)
    ensures var r := AddedToAsWritten(history, " " + word, now);
      |r| >= 2 && r[0].query == word && r[1].query == word && !NoCaseDuplicates(r)
  {
    TrimPadded(word);
    UntrimmedRepeatDuplicated(history, " " + word, now);
  }

  /** The same for any query that trimming shortens. */
  lemma UntrimmedRepeatDuplicated(history: seq<Entry>, query: string, now: string)
    requires history != [] && history[0].query == Trim(query) && |Trim(query)| != |query|
    ensures var r := AddedToAsWritten(history, query, now);
      |r| >= 2 && r[0].query == Trim(query) && r[1].query == Trim(query) && !NoCaseDuplicates(r)
  {
    var word := Trim(query);
    assert !SameIgnoringCase(history[0].query, query) by {
      assert |Lower(word)| != |Lower(query)|;
    }
    KeptBelow(history, word, query, now);
    var r := AddedToAsWritten(history, query, now);
    assert SameIgnoringCase(r[0].query, r[1].query);
  }

  /** An entry the filter does not match stays right below the new top entry. */
  lemma KeptBelow(history: seq<Entry>, top: string, key: string, now: string)
    requires history != [] && !SameIgnoringCase(history[0].query, key)
    ensures var r := Placed(history, top, key, now);
      |r| >= 2 && r[0] == Entry(top, now) && r[1] == history[0]
  {
    var w := Without(history, key);
    assert w[0] == history[0];
    var full := [Entry(top, now)] + w;
    assert full[1] == history[0];
  }

  /** With the corrected filter the same repeat just moves the entry to the top. */
  lemma PaddedRepeatMoved(history: seq<Entry>, word: string, now: string)
    requires NoCaseDuplicates(history)
    requires history != [] && history[0].query == word
    requires |word| >= 2 && !IsSpace(word[0]) && !IsSpace(word[|word| - 1])
    ensures var r := AddedTo(history, " " + word, now);
      r[0] == Entry(word, now) && NoCaseDuplicates(r)
      && forall k :: 1 <= k < |r| ==> r[k] != history[0]
  {
    TrimPadded(word);
    AddedToShape(history, " " + word, now);
    AddedToNoCaseDuplicates(history, " " + word, now);
  }

  /** The history store; `stored` is what `localStorage` holds under the history key. */
  class SearchHistory {
    var stored: Stored

    constructor(initial: Stored)
      ensures stored == initial
    {
      stored := initial;
    }

    /** `getHistory`. */
    method GetHistory() returns (history: seq<Entry>)
      ensures stored.Saved? ==> history == stored.entries
      ensures !stored.Saved? ==> history == []
    {
      if stored.Saved? {
        history := stored.entries;
      } else {
        history := [];
      }
    }

    /** `addToHistory(query)` at time `now`: a too-short query changes nothing; otherwise the
        entries matching the query as given, in any letter case, are filtered out, the trimmed
        query goes on top, and at most ten entries are written back. */
    method AddToHistory(query: string, now: string)
      modifies this
      ensures !Accepted(query) ==> stored == old(stored)
      ensures Accepted(query) ==> stored == Saved(AddedToAsWritten(Loaded(old(stored)), query, now))
    {
      if |Trim(query)| < 2 {
        return;
      }
      var history := GetHistory();
      history := Without(history, query);
      history := [Entry(Trim(query), now)] + history;
      history := SlicePrefix(history, MaxHistoryItems);
      stored := Saved(history);
    }

    /** `clearHistory`: the key is removed. */
    method ClearHistory()
      modifies this
      ensures stored == Absent
    {
      stored := Absent;
    }

    /** `removeItem(query)`: every entry whose query is exactly `query` goes; an unreadable or
        missing list is written back as `[]`. */
    method RemoveItem(query: string)
      modifies this
      ensures stored == Saved(RemovedFrom(Loaded(old(stored)), query))
    {
      var history := GetHistory();
      history := RemovedFrom(history, query);
      stored := Saved(history);
    }
  }
}
