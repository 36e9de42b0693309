/**
 * Character classes and string transforms of JavaScript that the services rely on:
 * the `\s` and `\w` regular-expression classes, `toLowerCase`, `includes`,
 * `String.prototype.trim` and the `replace(/\s+/g, ' ').trim()` idiom.
 */
module Text {
  import opened Sequences

  /** JavaScript's `\s`: the ECMAScript WhiteSpace and LineTerminator code points.
      `String.prototype.trim` strips exactly the same set. */
  predicate IsSpace(c: char) {
    var n := c as int;
    n == 0x09 || n == 0x0A || n == 0x0B || n == 0x0C || n == 0x0D || n == 0x20 ||
    n == 0xA0 || n == 0x1680 || (0x2000 <= n <= 0x200A) || n == 0x2028 || n == 0x2029 ||
    n == 0x202F || n == 0x205F || n == 0x3000 || n == 0xFEFF
  }

  /** JavaScript's `\w` without the `u` flag: `[A-Za-z0-9_]`. */
  predicate IsWordChar(c: char) {
    'a' <= c <= 'z' || 'A' <= c <= 'Z' || '0' <= c <= '9' || c == '_'
  }

  /** `toLowerCase` on one character, for the ASCII range. */
  function LowerChar(c: char): (r: char)
    ensures IsWordChar(r) <==> IsWordChar(c)
    ensures IsSpace(r) <==> IsSpace(c)
    ensures !('A' <= r <= 'Z')
  {
    if 'A' <= c <= 'Z' then (c as int + 32) as char else c
  }

  function Lower(s: string): (r: string)
    ensures |r| == |s|
    ensures forall i :: 0 <= i < |s| ==> r[i] == LowerChar(s[i])
  {
    seq(|s|, i requires 0 <= i < |s| => LowerChar(s[i]))
  }

  predicate IsPrefix(p: string, s: string) {
    |p| <= |s| && s[..|p|] == p
  }

  /** `s.includes(sub)`: `sub` occurs in `s` at some position (the empty string occurs everywhere). */
  predicate Contains(s: string, sub: string)
    decreases |s|
  {
    IsPrefix(sub, s) || (s != [] && Contains(s[1..], sub))
  }

  /** The characters of `s` that are not whitespace, in order. */
  function NonSpace(s: string): (r: string)
    ensures |r| <= |s|
    ensures forall i :: 0 <= i < |r| ==> !IsSpace(r[i])
  {
    if s == [] then []
    else if IsSpace(s[0]) then NonSpace(s[1..])
    else [s[0]] + NonSpace(s[1..])
  }

  lemma {:induction false} NonSpaceAppend(a: string, b: string)
    ensures NonSpace(a + b) == NonSpace(a) + NonSpace(b)
  {
    if a == [] {
      assert a + b == b;
    } else {
      assert (a + b)[1..] == a[1..] + b;
      NonSpaceAppend(a[1..], b);
    }
  }

  lemma NonSpaceMember(s: string, c: char)
    requires !IsSpace(c)
    ensures c in NonSpace(s) <==> c in s
  {
    if s != [] {
      NonSpaceMember(s[1..], c);
      assert s == [s[0]] + s[1..];
    }
  }

  /** No whitespace at either end. */
  predicate Trimmed(s: string) {
    s == [] || (!IsSpace(s[0]) && !IsSpace(s[|s| - 1]))
  }

  /** Every whitespace character is a plain space and no two whitespace characters are adjacent. */
  ghost predicate SingleSpaced(s: string) {
    && (forall i :: 0 <= i < |s| && IsSpace(s[i]) ==> s[i] == ' ')
    && (forall i :: 0 <= i < |s| - 1 ==> !SpacePair(s, i))
  }

  /** Whitespace at both `i` and `i + 1`. */
  predicate SpacePair(s: string, i: nat)
    requires i + 1 < |s|
  {
    IsSpace(s[i]) && IsSpace(s[i + 1])
  }

  lemma SingleSpacedTake(s: string, n: nat)
    requires n <= |s| && SingleSpaced(s)
    ensures SingleSpaced(s[..n])
  {
    var r := s[..n];
    forall i | 0 <= i < |r| - 1 ensures !SpacePair(r, i) {
      assert !SpacePair(s, i);
    }
  }

  lemma SingleSpacedDrop(s: string, n: nat)
    requires n <= |s| && SingleSpaced(s)
    ensures SingleSpaced(s[n..])
  {
    var r := s[n..];
    assert forall i :: 0 <= i < |r| ==> r[i] == s[n + i];
    forall i | 0 <= i < |r| - 1 ensures !SpacePair(r, i) {
      assert !SpacePair(s, n + i);
    }
  }

  lemma SingleSpacedAppend(a: string, b: string)
    requires SingleSpaced(a) && SingleSpaced(b) && (b == [] || !IsSpace(b[0]))
    ensures SingleSpaced(a + b)
  {
    var r := a + b;
    forall i | 0 <= i < |r| ensures IsSpace(r[i]) ==> r[i] == ' ' {
      if i < |a| { assert r[i] == a[i]; } else { assert r[i] == b[i - |a|]; }
    }
    forall i | 0 <= i < |r| - 1 ensures !SpacePair(r, i) {
      if i + 1 < |a| {
        assert r[i] == a[i] && r[i + 1] == a[i + 1];
        assert !SpacePair(a, i);
      } else if i + 1 == |a| {
        assert r[i + 1] == b[0];
      } else {
        assert r[i] == b[i - |a|] && r[i + 1] == b[i + 1 - |a|];
        assert !SpacePair(b, i - |a|);
      }
    }
  }

  lemma SingleSpacedCons(c: char, rest: string)
    requires SingleSpaced(rest)
    requires IsSpace(c) ==> c == ' ' && (rest == [] || !IsSpace(rest[0]))
    ensures SingleSpaced([c] + rest)
  {
    var r := [c] + rest;
    forall i | 0 <= i < |r| ensures IsSpace(r[i]) ==> r[i] == ' ' {
      if i > 0 { assert r[i] == rest[i - 1]; }
    }
    forall i | 0 <= i < |r| - 1 ensures !SpacePair(r, i) {
      if i > 0 {
        assert r[i] == rest[i - 1] && r[i + 1] == rest[i];
        assert !SpacePair(rest, i - 1);
      }
    }
  }

  /** Drops the leading run of whitespace. */
  function SkipSpaces(s: string): (r: string)
    ensures |r| <= |s| && r == s[|s| - |r|..]
    ensures r == [] || !IsSpace(r[0])
    ensures NonSpace(r) == NonSpace(s)
  {
    if s != [] && IsSpace(s[0]) then SkipSpaces(s[1..]) else s
  }

  /** `s.replace(/\s+/g, ' ')`: every maximal whitespace run becomes one space. */
  function Squash(s: string): string {
    if s == [] then []
    else if IsSpace(s[0]) then [' '] + Squash(SkipSpaces(s))
    else [s[0]] + Squash(s[1..])
  }

  /** Squashing leaves single plain spaces and keeps every other character. */
  lemma {:induction false} SquashShape(s: string)
    ensures SingleSpaced(Squash(s))
    ensures NonSpace(Squash(s)) == NonSpace(s)
    ensures s == [] <==> Squash(s) == []
    ensures s != [] ==> Squash(s)[0] == (if IsSpace(s[0]) then ' ' else s[0])
    decreases |s|
  {
    if s != [] {
      var t := if IsSpace(s[0]) then SkipSpaces(s) else s[1..];
      SquashShape(t);
      SingleSpacedCons(if IsSpace(s[0]) then ' ' else s[0], Squash(t));
    }
  }

  /** The leading-whitespace half of `trim`. */
  function TrimStart(s: string): (r: string)
    ensures |r| <= |s| && r == s[|s| - |r|..]
    ensures r == [] || !IsSpace(r[0])
    ensures NonSpace(r) == NonSpace(s)
  {
    SkipSpaces(s)
  }

  /** The trailing-whitespace half of `trim`. */
  function TrimEnd(s: string): (r: string)
    ensures |r| <= |s| && r == s[..|r|]
    ensures r == [] || !IsSpace(r[|r| - 1])
    ensures NonSpace(r) == NonSpace(s)
  {
    if s != [] && IsSpace(s[|s| - 1]) then
      var init := s[..|s| - 1];
      assert s == init + [s[|s| - 1]];
      NonSpaceAppend(init, [s[|s| - 1]]);
      TrimEnd(init)
    else s
  }

  /** `s.trim()`. */
  function Trim(s: string): (r: string)
    ensures |r| <= |s|
    ensures Trimmed(r)
    ensures NonSpace(r) == NonSpace(s)
  {
    TrimEnd(TrimStart(s))
  }

  /** Trimming keeps a single-spaced string single-spaced. */
  lemma TrimSingleSpaced(s: string)
    requires SingleSpaced(s)
    ensures SingleSpaced(Trim(s))
  {
    var t := TrimStart(s);
    var r := TrimEnd(t);
    SingleSpacedDrop(s, |s| - |t|);
    SingleSpacedTake(t, |r|);
  }

  /** The length of the leading run of non-whitespace characters. */
  function RunLength(s: string): (n: nat)
    ensures n <= |s|
    ensures forall k :: 0 <= k < n ==> !IsSpace(s[k])
    ensures n < |s| ==> IsSpace(s[n])
  {
    if s == [] || IsSpace(s[0]) then 0 else 1 + RunLength(s[1..])
  }

  /** The maximal runs of non-whitespace characters of `s`, in order: the non-empty pieces of
      `s.split(/\s+/)`. */
  function Fields(s: string): (r: seq<string>)
    ensures forall i :: 0 <= i < |r| ==> r[i] != []
    ensures forall i, k :: 0 <= i < |r| && 0 <= k < |r[i]| ==> r[i][k] in s && !IsSpace(r[i][k])
    decreases |s|
  {
    if s == [] then []
    else if IsSpace(s[0]) then Fields(s[1..])
    else
      var n := RunLength(s);
      assert forall k :: 0 <= k < n ==> s[..n][k] == s[k];
      [s[..n]] + Fields(s[n..])
  }

  /** `parts.join(sep)`. */
  function Join(parts: seq<string>, sep: string): string {
    if parts == [] then []
    else if |parts| == 1 then parts[0]
    else parts[0] + sep + Join(parts[1..], sep)
  }

  lemma JoinCons(w: string, rest: seq<string>, sep: string)
    requires rest != []
    ensures Join([w] + rest, sep) == w + sep + Join(rest, sep)
  {
    assert ([w] + rest)[1..] == rest;
  }

  lemma {:induction false} FieldsSkipSpaces(s: string)
    ensures Fields(SkipSpaces(s)) == Fields(s)
  {
    if s != [] && IsSpace(s[0]) {
      FieldsSkipSpaces(s[1..]);
    }
  }

  /** Squashing copies a run of non-whitespace characters unchanged. */
  lemma {:induction false} SquashRun(w: string, rest: string)
    requires forall k :: 0 <= k < |w| ==> !IsSpace(w[k])
    ensures Squash(w + rest) == w + Squash(rest)
  {
    if w == [] {
      assert w + rest == rest;
    } else {
      var s := w + rest;
      assert s[0] == w[0] && s[1..] == w[1..] + rest;
      SquashRun(w[1..], rest);
      assert w == [w[0]] + w[1..];
    }
  }

  /** Trailing whitespace is stripped from the end of the second part only. */
  lemma {:induction false} TrimEndAppend(a: string, b: string)
    requires b != [] && !IsSpace(b[0])
    ensures TrimEnd(a + b) == a + TrimEnd(b)
    decreases |b|
  {
    var s := a + b;
    if IsSpace(b[|b| - 1]) {
      var init := b[..|b| - 1];
      assert s[..|s| - 1] == a + init;
      TrimEndAppend(a, init);
    }
  }

  /** A leading whitespace run changes neither the squashed text after its first character
      nor the fields. */
  lemma SquashLeadingSpace(s: string)
    requires s != [] && IsSpace(s[0])
    ensures SkipSpaces(Squash(s)) == SkipSpaces(Squash(SkipSpaces(s)))
    ensures Fields(s) == Fields(SkipSpaces(s))
  {
    var p := [' '] + Squash(SkipSpaces(s));
    assert p[1..] == Squash(SkipSpaces(s));
    FieldsSkipSpaces(s);
  }

  /** A run with or without one trailing space loses nothing but that space. */
  lemma TrimEndRun(w: string)
    requires w != [] && forall k :: 0 <= k < |w| ==> !IsSpace(w[k])
    ensures TrimEnd(w) == w && TrimEnd(w + " ") == w
  {
    var p := w + " ";
    assert p[..|p| - 1] == w;
  }

  /** Text made of whitespace only squashes to one space, or to nothing when empty. */
  lemma SquashOfSpaces(rest: string)
    requires SkipSpaces(rest) == []
    ensures Squash(rest) == if rest == [] then [] else " "
  {
    if rest != [] {
      assert IsSpace(rest[0]);
      assert Squash(rest) == [' '] + Squash([]);
    }
  }

  /** A run followed by whitespace only: the run is all that is left. */
  lemma TrimEndSquashLastRun(w: string, rest: string)
    requires w != [] && forall k :: 0 <= k < |w| ==> !IsSpace(w[k])
    requires SkipSpaces(rest) == []
    ensures Squash(w + rest)[0] == w[0]
    ensures TrimEnd(Squash(w + rest)) == w
  {
    SquashRun(w, rest);
    SquashOfSpaces(rest);
    TrimEndRun(w);
    if rest == [] {
      assert Squash(w + rest) == w;
    } else {
      assert Squash(w + rest) == w + " ";
    }
  }

  /** A run, whitespace, then more text: the run, one space, and the rest trimmed at the end. */
  lemma TrimEndSquashMoreRuns(w: string, rest: string)
    requires w != [] && forall k :: 0 <= k < |w| ==> !IsSpace(w[k])
    requires rest != [] && IsSpace(rest[0]) && SkipSpaces(rest) != []
    ensures Squash(w + rest)[0] == w[0]
    ensures TrimEnd(Squash(w + rest)) == w + " " + TrimEnd(Squash(SkipSpaces(rest)))
    ensures Squash(SkipSpaces(rest))[0] == SkipSpaces(rest)[0]
  {
    SquashRun(w, rest);
    var t := SkipSpaces(rest);
    var z := Squash(t);
    assert Squash(rest) == [' '] + z;
    assert z[0] == t[0];
    assert (w + Squash(rest)) == (w + " ") + z;
    TrimEndAppend(w + " ", z);
  }

  /** Trimming the squashed text leaves the fields joined by single spaces (for text that does
      not start with whitespace, trimming the end is enough). */
  lemma {:induction false} TrimEndSquash(s: string)
    requires s != [] && !IsSpace(s[0])
    ensures Squash(s)[0] == s[0]
    ensures TrimEnd(Squash(s)) == Join(Fields(s), " ")
    decreases |s|
  {
    var n := RunLength(s);
    var w, rest := s[..n], s[n..];
    assert s == w + rest;
    var t := SkipSpaces(rest);
    assert Fields(s) == [w] + Fields(t) by {
      assert Fields(s) == [w] + Fields(rest);
      FieldsSkipSpaces(rest);
    }
    if t == [] {
      TrimEndSquashLastRun(w, rest);
    } else {
      assert TrimEnd(Squash(s)) == w + " " + TrimEnd(Squash(t)) && Squash(s)[0] == s[0] by {
        TrimEndSquashMoreRuns(w, rest);
      }
      assert TrimEnd(Squash(t)) == Join(Fields(t), " ") by {
        TrimEndSquash(t);
      }
      JoinCons(w, Fields(t), " ");
    }
  }

  lemma TrimSquash(s: string)
    ensures Trim(Squash(s)) == Join(Fields(s), " ")
  {
    var t := SkipSpaces(s);
    if s != [] && IsSpace(s[0]) {
      SquashLeadingSpace(s);
    } else {
      FieldsSkipSpaces(s);
    }
    if t != [] {
      TrimEndSquash(t);
      assert SkipSpaces(Squash(t)) == Squash(t);
    }
  }

  /** Trimming a squashed string keeps it single-spaced and keeps its other characters. */
  lemma TrimSquashShape(s: string)
    ensures SingleSpaced(Trim(Squash(s)))
    ensures NonSpace(Trim(Squash(s))) == NonSpace(s)
  {
    SquashShape(s);
    TrimSingleSpaced(Squash(s));
  }

  /** `s.replace(/\s+/g, ' ').trim()`: the one-line, single-spaced form of `s`. */
  function CollapseWhitespace(s: string): (r: string)
    ensures Trimmed(r)
    ensures SingleSpaced(r)
    ensures NonSpace(r) == NonSpace(s)
  {
    TrimSquashShape(s);
    Trim(Squash(s))
  }

  /** Collapsing joins the maximal runs of non-whitespace characters with single spaces: each
      whitespace run between two of them becomes one space, and the runs themselves are kept. */
  lemma CollapseJoinsFields(s: string)
    ensures CollapseWhitespace(s) == Join(Fields(s), " ")
  {
    TrimSquash(s);
  }

  /** `s.split(sep)` for a one-character separator: the pieces between separators, empty ones
      included, so there is always at least one piece; joined again they give back `s`. */
  function Split(s: string, sep: char): (r: seq<string>)
    ensures |r| >= 1
    ensures forall i :: 0 <= i < |r| ==> sep !in r[i]
    ensures Join(r, [sep]) == s
    decreases |s|
  {
    var i := IndexOf(s, sep);
    if i == |s| then [s]
    else
      var rest := Split(s[i + 1..], sep);
      JoinCons(s[..i], rest, [sep]);
      assert s == s[..i] + [sep] + s[i + 1..];
      [s[..i]] + rest
  }
}
