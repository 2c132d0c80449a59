/** Extraction of `[[Title]]` references from note content
    (`extractBacklinks`). The source runs the global regular expression
    `/\[\[([^\]]+)\]\]/g` with `exec` in a loop and collects the trimmed
    first group of every match; here the same leftmost, non-overlapping
    scan is written out character by character. */
module Backlinks {
  import Seqs
  import Text

  /** End of the longest run of characters other than `]` that starts at `i`. */
  function RunEnd(s: string, i: nat): (j: nat)
    requires i <= |s|
    ensures i <= j <= |s|
    ensures forall k :: i <= k < j ==> s[k] != ']'
    ensures j == |s| || s[j] == ']'
    decreases |s| - i
  {
    if i == |s| || s[i] == ']' then i else RunEnd(s, i + 1)
  }

  /** The regular expression, with backtracking, can match at `i` and end
      its group at `j`: `[[`, a non-empty run of non-`]` characters up to
      `j`, then `]]`. */
  predicate MatchSplit(s: string, i: nat, j: nat) {
    i + 2 < j && j + 2 <= |s| && s[i] == '[' && s[i + 1] == '[' && s[j] == ']' && s[j + 1] == ']'
    && forall k :: i + 2 <= k < j ==> s[k] != ']'
  }

  /** The match attempt at `i` succeeds. The greedy group runs to `RunEnd`;
      a shorter group would be followed by a character other than `]`, so
      backtracking cannot help. */
  predicate MatchesAt(s: string, i: nat) {
    i + 2 <= |s| && s[i] == '[' && s[i + 1] == '['
    && var j := RunEnd(s, i + 2); i + 2 < j && j + 2 <= |s| && s[j + 1] == ']'
  }

  /** `MatchesAt` is exactly the regular expression's acceptance at `i`, and
      the split it takes is the only one. */
  lemma MatchesAtIsRegexMatch(s: string, i: nat, j: nat)
    requires i + 2 <= |s|
    ensures MatchSplit(s, i, j) ==> MatchesAt(s, i) && j == RunEnd(s, i + 2)
    ensures MatchesAt(s, i) ==> MatchSplit(s, i, RunEnd(s, i + 2))
  {
  }

  /** The untrimmed first groups of the matches found by scanning from
      position `i` onwards: the leftmost match, then the scan resumes after
      its closing `]]`. */
  function GroupsFrom(s: string, i: nat): seq<string>
    requires i <= |s|
    decreases |s| - i
  {
    if i == |s| then []
    else if MatchesAt(s, i) then
      var j := RunEnd(s, i + 2);
      [s[i + 2..j]] + GroupsFrom(s, j + 2)
    else GroupsFrom(s, i + 1)
  }

  /** The references of a whole text, left to right, duplicates kept:
      every group, trimmed. */
  function Extract(s: string): seq<string> {
    Seqs.Map(Text.Trim, GroupsFrom(s, 0))
  }

  lemma MatchGroup(s: string, i: nat)
    requires i < |s| && MatchesAt(s, i)
    ensures GroupsFrom(s, i) == [s[i + 2..RunEnd(s, i + 2)]] + GroupsFrom(s, RunEnd(s, i + 2) + 2)
  {
  }

  lemma SkipGroup(s: string, i: nat)
    requires i < |s| && !MatchesAt(s, i)
    ensures GroupsFrom(s, i) == GroupsFrom(s, i + 1)
  {
  }

  /** `extractBacklinks(content)`: the exec loop. Each round finds the
      leftmost match at or after `lastIndex`, records its trimmed group and
      continues right after the closing `]]`. */
  method ExtractBacklinks(content: string) returns (matches: seq<string>)
    ensures matches == Extract(content)
  {
    matches := [];
    var lastIndex := 0;
    ghost var passed: seq<string> := [];
    while lastIndex < |content|
      invariant lastIndex <= |content|
      invariant GroupsFrom(content, 0) == passed + GroupsFrom(content, lastIndex)
      invariant matches == Seqs.Map(Text.Trim, passed)
      decreases |content| - lastIndex
    {
      if MatchesAt(content, lastIndex) {
        var j := RunEnd(content, lastIndex + 2);
        var group := content[lastIndex + 2..j];
        MatchGroup(content, lastIndex);
        assert passed + ([group] + GroupsFrom(content, j + 2)) == (passed + [group]) + GroupsFrom(content, j + 2);
        Seqs.MapSnoc(Text.Trim, passed, group);
        matches := matches + [Text.Trim(group)];
        passed := passed + [group];
        lastIndex := j + 2;
      } else {
        lastIndex := lastIndex + 1;
      }
    }
    assert passed + [] == passed;
  }

  /** Trimming cannot introduce a character. */
  lemma TrimKeepsAbsent(inner: string, c: char)
    requires c !in inner
    ensures c !in Text.Trim(inner)
  {
    var t := Text.Trim(inner);
    Text.TrimSpec(inner);
    var a :| Text.SliceBetweenSpaces(inner, t, a);
    assert t == inner[a..a + |t|];
  }

  lemma {:induction false} GroupsNoCloseBracket(s: string, i: nat)
    requires i <= |s|
    ensures forall g :: g in GroupsFrom(s, i) ==> ']' !in g
    decreases |s| - i
  {
    if i < |s| {
      if MatchesAt(s, i) {
        var j := RunEnd(s, i + 2);
        var inner := s[i + 2..j];
        assert forall k :: 0 <= k < |inner| ==> inner[k] == s[i + 2 + k];
        GroupsNoCloseBracket(s, j + 2);
      } else {
        GroupsNoCloseBracket(s, i + 1);
      }
    }
  }

  /** No extracted title contains `]`: the group's class excludes it and
      trimming only cuts characters off. */
  lemma NoCloseBracket(s: string)
    ensures forall t :: t in Extract(s) ==> ']' !in t
  {
    var gs := GroupsFrom(s, 0);
    GroupsNoCloseBracket(s, 0);
    Seqs.MapIndex(Text.Trim, gs);
    forall k | 0 <= k < |gs| ensures ']' !in Text.Trim(gs[k]) {
      TrimKeepsAbsent(gs[k], ']');
    }
  }

  /** `[[` opens a marker at `i`. */
  predicate OpensAt(s: string, i: int) {
    0 <= i && i + 1 < |s| && s[i] == '[' && s[i + 1] == '['
  }

  lemma {:induction false} GroupsFromNoOpener(s: string, i: nat)
    requires i <= |s|
    requires forall k :: i <= k ==> !OpensAt(s, k)
    ensures GroupsFrom(s, i) == []
    decreases |s| - i
  {
    if i < |s| {
      assert !OpensAt(s, i);
      GroupsFromNoOpener(s, i + 1);
    }
  }

  /** A text without `[[` has no references. */
  lemma NoOpenerNoReferences(s: string)
    requires forall k :: !OpensAt(s, k)
    ensures Extract(s) == []
  {
    GroupsFromNoOpener(s, 0);
  }

  /** The scan from `i` collects nothing exactly when the regular
      expression matches at no position from `i` on. */
  lemma {:induction false} GroupsFromEmpty(s: string, i: nat)
    requires i <= |s|
    ensures GroupsFrom(s, i) == [] <==> forall k, j :: i <= k ==> !MatchSplit(s, k, j)
    decreases |s| - i
  {
    if i < |s| {
      if MatchesAt(s, i) {
        MatchesAtIsRegexMatch(s, i, RunEnd(s, i + 2));
        MatchGroup(s, i);
      } else {
        SkipGroup(s, i);
        GroupsFromEmpty(s, i + 1);
        forall j ensures !MatchSplit(s, i, j) {
          if i + 2 <= |s| {
            MatchesAtIsRegexMatch(s, i, j);
          }
        }
      }
    }
  }

  /** A text has references exactly when the regular expression matches
      somewhere in it. */
  lemma ReferencesIffMatch(s: string)
    ensures Extract(s) == [] <==> forall i, j :: !MatchSplit(s, i, j)
  {
    GroupsFromEmpty(s, 0);
  }

  lemma {:induction false} RunEndShift(a: string, b: string, i: nat)
    requires i <= |b|
    ensures RunEnd(a + b, |a| + i) == |a| + RunEnd(b, i)
    decreases |b| - i
  {
    if i < |b| {
      assert (a + b)[|a| + i] == b[i];
      if b[i] != ']' {
        RunEndShift(a, b, i + 1);
      }
    }
  }

  lemma MatchesAtShift(a: string, b: string, i: nat)
    requires i < |b|
    ensures MatchesAt(a + b, |a| + i) == MatchesAt(b, i)
    ensures MatchesAt(b, i) ==>
      RunEnd(a + b, |a| + i + 2) == |a| + RunEnd(b, i + 2)
      && (a + b)[|a| + i + 2..|a| + RunEnd(b, i + 2)] == b[i + 2..RunEnd(b, i + 2)]
  {
    var s := a + b;
    assert s[|a| + i] == b[i];
    if i + 2 <= |b| {
      assert s[|a| + i + 1] == b[i + 1];
      RunEndShift(a, b, i + 2);
      var j := RunEnd(b, i + 2);
      if j + 1 < |b| {
        assert s[|a| + j + 1] == b[j + 1];
      }
      assert s[|a| + i + 2..|a| + j] == b[i + 2..j];
    }
  }

  /** The scan only looks forward: what it finds after a prefix does not
      depend on the prefix. */
  lemma {:induction false} GroupsFromShift(a: string, b: string, i: nat)
    requires i <= |b|
    ensures GroupsFrom(a + b, |a| + i) == GroupsFrom(b, i)
    decreases |b| - i
  {
    if i < |b| {
      MatchesAtShift(a, b, i);
      if MatchesAt(b, i) {
        var j := RunEnd(b, i + 2);
        MatchGroup(b, i);
        MatchGroup(a + b, |a| + i);
        GroupsFromShift(a, b, j + 2);
      } else {
        SkipGroup(b, i);
        SkipGroup(a + b, |a| + i);
        GroupsFromShift(a, b, i + 1);
      }
    }
  }

  /** The scan passes over characters that cannot open a marker. */
  lemma {:induction false} SkipPlain(s: string, i: nat, k: nat)
    requires i <= k <= |s|
    requires forall m :: i <= m < k ==> s[m] != '['
    ensures GroupsFrom(s, i) == GroupsFrom(s, k)
    decreases k - i
  {
    if i < k {
      SkipPlain(s, i + 1, k);
    }
  }

  /** A text whose first `[` opens a marker with group `[i + 2, j)` yields
      that group before whatever follows the marker. */
  lemma FirstMarker(s: string, i: nat, j: nat)
    requires MatchSplit(s, i, j)
    requires forall m :: 0 <= m < i ==> s[m] != '['
    ensures GroupsFrom(s, 0) == [s[i + 2..j]] + GroupsFrom(s, j + 2)
  {
    SkipPlain(s, 0, i);
    MatchesAtIsRegexMatch(s, i, j);
  }

  /** The characters of `pre [[x]] post`, position by position. */
  lemma MarkerLayout(pre: string, x: string, post: string, s: string)
    requires s == pre + "[[" + x + "]]" + post
    requires '[' !in pre
    requires x != [] && ']' !in x
    ensures MatchSplit(s, |pre|, |pre| + 2 + |x|)
    ensures forall m :: 0 <= m < |pre| ==> s[m] != '['
    ensures s[|pre| + 2..|pre| + 2 + |x|] == x
  {
    var i := |pre|;
    var j := i + 2 + |x|;
    assert forall m :: 0 <= m < i ==> s[m] == pre[m];
    assert s[i + 2..j] == x;
    forall m | i + 2 <= m < j ensures s[m] != ']' {
      assert s[m] == x[m - i - 2];
    }
  }

  /** The groups of `pre [[x]] post` are `x` followed by those of `post`. */
  lemma MarkerGroups(pre: string, x: string, post: string, s: string)
    requires s == pre + "[[" + x + "]]" + post
    requires '[' !in pre
    requires x != [] && ']' !in x
    ensures GroupsFrom(s, 0) == [x] + GroupsFrom(post, 0)
  {
    var j := |pre| + 2 + |x|;
    MarkerLayout(pre, x, post, s);
    FirstMarker(s, |pre|, j);
    var head := pre + "[[" + x + "]]";
    assert s == head + post;
    GroupsFromShift(head, post, 0);
  }

  /** A marker after plain text: `pre [[x]] post` yields the trimmed `x`
      followed by the references of `post`. This is the round trip between
      writing a reference and extracting it. */
  lemma MarkerExtracted(pre: string, x: string, post: string, s: string)
    requires s == pre + "[[" + x + "]]" + post
    requires '[' !in pre
    requires x != [] && ']' !in x
    ensures Extract(s) == [Text.Trim(x)] + Extract(post)
  {
    MarkerGroups(pre, x, post, s);
    Seqs.MapCons(Text.Trim, x, GroupsFrom(post, 0));
  }

  /** A text with a single reference to a title that has no surrounding
      white space extracts exactly that title. */
  lemma SingleReference(pre: string, title: string, post: string)
    requires '[' !in pre && '[' !in post
    requires title != [] && ']' !in title
    requires !Text.IsSpace(title[0]) && !Text.IsSpace(title[|title| - 1])
    ensures Extract(pre + "[[" + title + "]]" + post) == [title]
  {
    var s := pre + "[[" + title + "]]" + post;
    MarkerGroups(pre, title, post, s);
    SkipPlain(post, 0, |post|);
    Text.TrimIs(title, 0, |title|);
    assert title[0..|title|] == title;
  }
}
