/** Properties of `clean_text` and of each of its three steps. */
module CleanTextProperties {
  import opened Subsequences
  import opened CleanText

  /* ================================================================ step 1 */

  /* Lowercasing commutes with concatenation. */
  lemma LowerConcat(a: string, b: string)
    ensures Lower(a + b) == Lower(a) + Lower(b)
  {
  }

  /* Lowercasing leaves text without uppercase letters alone; in particular
     it is idempotent. */
  lemma LowerUnchangedIff(s: string)
    ensures Lower(s) == s <==> forall i :: 0 <= i < |s| ==> !IsUpper(s[i])
    ensures Lower(Lower(s)) == Lower(s)
  {
    if Lower(s) == s {
      forall i | 0 <= i < |s| ensures !IsUpper(s[i]) {
        assert !IsUpper(Lower(s)[i]);
      }
    }
  }

  /* Lowercasing keeps the number of occurrences of every character that is
     neither an uppercase nor a lowercase ASCII letter. */
  lemma {:induction false} LowerKeepsCount(s: string, c: char)
    requires !IsUpper(c) && !IsLower(c)
    ensures multiset(Lower(s))[c] == multiset(s)[c]
    decreases |s|
  {
    if |s| > 0 {
      LowerKeepsCount(s[1..], c);
      LowerConcat([s[0]], s[1..]);
      assert s == [s[0]] + s[1..];
      assert Lower([s[0]]) == [LowerChar(s[0])];
      assert LowerChar(s[0]) == c <==> s[0] == c;
    }
  }

  /* Lowercasing moves no `<`, `>` or newline, so it neither creates nor
     destroys a match of `<.*?>`. */
  lemma LowerKeepsTags(s: string)
    ensures forall i, j :: TagAt(Lower(s), i, j) <==> TagAt(s, i, j)
    ensures NoTag(Lower(s)) <==> NoTag(s)
  {
  }

  /* ================================================================ step 2 */

  /* A match inside a suffix is a match in the whole text, shifted. */
  lemma TagAtSuffix(s: string, k: nat, i: int, j: int)
    requires k <= |s| && 0 <= i
    ensures TagAt(s[k..], i, j) <==> TagAt(s, i + k, j + k)
  {
    if 0 <= i < j < |s| - k {
      assert forall m :: i < m < j ==> s[k..][m] == s[m + k];
      if TagAt(s, i + k, j + k) {
        forall m | i < m < j ensures s[k..][m] != '\n' {
          assert s[m + k] != '\n';
        }
      }
      if TagAt(s[k..], i, j) {
        forall m | i + k < m < j + k ensures s[m] != '\n' {
          assert s[k..][m - k] != '\n';
        }
      }
    }
  }

  /* The substitution deletes characters and never inserts or reorders them. */
  lemma {:induction false} StripTagsSubsequence(s: string)
    ensures IsSubsequence(StripTags(s), s)
    decreases |s|
  {
    if |s| > 0 {
      match TagFrom(s, 0)
      case Some(j) =>
        StripTagsSubsequence(s[j + 1..]);
        SubsequenceOfSuffix(StripTags(s[j + 1..]), s[..j + 1], s[j + 1..]);
        assert s[..j + 1] + s[j + 1..] == s;
      case None =>
        StripTagsSubsequence(s[1..]);
        SubsequenceCons(s[0], StripTags(s[1..]), s[1..]);
        assert [s[0]] + s[1..] == s;
    }
  }

  /* Text before the first `<` passes through untouched: there is no
     trimming and no collapsing of whitespace. */
  lemma {:induction false} StripTagsPlainPrefix(a: string, b: string)
    requires '<' !in a
    ensures StripTags(a + b) == a + StripTags(b)
    decreases |a|
  {
    if |a| == 0 {
      assert a + b == b;
    } else {
      var s := a + b;
      assert s[0] == a[0] && a[0] != '<';
      assert TagFrom(s, 0) == None;
      assert s[1..] == a[1..] + b;
      StripTagsPlainPrefix(a[1..], b);
      assert a == [a[0]] + a[1..];
    }
  }

  /* When the scan stands on a `<`, the shortest match starting there is
     deleted as one piece: all of `<a<b>` goes, and whatever follows its `>`
     is scanned afresh. */
  lemma StripTagsDeletesShortestTag(s: string, j: nat)
    requires TagAt(s, 0, j)
    requires forall k :: 0 < k < j ==> !TagAt(s, 0, k)
    ensures StripTags(s) == StripTags(s[j + 1..])
    ensures forall k :: 0 < k < j ==> s[k] != '>'
  {
  }

  /* A `<` with no `>` after it before the next newline (or the end of the
     text) is no match: it is copied and the scan moves on by one. */
  lemma StripTagsKeepsUnclosed(s: string)
    requires |s| > 0 && s[0] == '<'
    requires forall j :: 0 < j < |s| && s[j] == '>' ==> '\n' in s[1..j]
    ensures StripTags(s) == [s[0]] + StripTags(s[1..])
  {
  }

  /* A newline is never part of a match, so the text on either side of it
     is cleaned of tags independently and the newline itself survives. */
  lemma {:induction false} StripTagsSplitsAtNewline(a: string, b: string)
    ensures StripTags(a + ['\n'] + b) == StripTags(a) + ['\n'] + StripTags(b)
    decreases |a|
  {
    var s := a + ['\n'] + b;
    if |a| == 0 {
      assert s[0] == '\n';
      assert TagFrom(s, 0) == None;
      assert s[1..] == b;
    } else {
      TagFromBeforeNewline(a, b);
      match TagFrom(a, 0)
      case Some(j) =>
        assert s[j + 1..] == a[j + 1..] + ['\n'] + b;
        StripTagsSplitsAtNewline(a[j + 1..], b);
      case None =>
        assert s[1..] == a[1..] + ['\n'] + b;
        StripTagsSplitsAtNewline(a[1..], b);
    }
  }

  /* What the scan finds at the start of `a` does not depend on what follows
     a newline after `a`. */
  lemma TagFromBeforeNewline(a: string, b: string)
    requires |a| > 0
    ensures TagFrom(a + ['\n'] + b, 0) == TagFrom(a, 0)
  {
    var s := a + ['\n'] + b;
    if a[0] == '<' {
      var q := StopIndex(a, 1);
      if q < |a| {
        StopIndexUnique(s, 1, q);
      } else {
        assert s[|a|] == '\n';
        StopIndexUnique(s, 1, |a|);
      }
    }
  }

  /* The substitution leaves a text unchanged exactly when the text holds no
     match of `<.*?>`. */
  lemma {:induction false} StripTagsUnchangedIff(s: string)
    ensures StripTags(s) == s <==> NoTag(s)
    decreases |s|
  {
    if |s| > 0 {
      match TagFrom(s, 0)
      case Some(j) =>
        assert |StripTags(s[j + 1..])| < |s|;
        assert !NoTag(s);
      case None =>
        StripTagsUnchangedIff(s[1..]);
        assert s == [s[0]] + s[1..];
        assert StripTags(s) == s <==> StripTags(s[1..]) == s[1..];
        NoTagCons(s);
    }
  }

  /* When no match starts at the first position, the text holds a match
     exactly when the rest of it does. */
  lemma NoTagCons(s: string)
    requires |s| > 0
    requires forall j :: !TagAt(s, 0, j)
    ensures NoTag(s) <==> NoTag(s[1..])
  {
    if NoTag(s) {
      forall i, j | 0 <= i < j < |s[1..]| ensures !TagAt(s[1..], i, j) {
        TagAtSuffix(s, 1, i, j);
      }
    }
    if NoTag(s[1..]) {
      forall i, j | 0 <= i < j < |s| ensures !TagAt(s, i, j) {
        if i > 0 {
          TagAtSuffix(s, 1, i - 1, j - 1);
        }
      }
    }
  }

  /** No `>` occurs in `u` before its first newline: the first `>` or
      newline of `u` is a newline, or there is neither. */
  predicate Unclosed(u: string) {
    var k := StopIndex(u, 0);
    k == |u| || u[k] == '\n'
  }

  /* Looking for the end of a tag from the second position of `s` is looking
     from the start of `s[1..]`. */
  lemma StopIndexShift(s: string)
    requires |s| > 0
    ensures StopIndex(s, 1) == StopIndex(s[1..], 0) + 1
  {
    var t := s[1..];
    var q := StopIndex(t, 0);
    assert forall m :: 1 <= m < q + 1 ==> s[m] == t[m - 1];
    StopIndexUnique(s, 1, q + 1);
  }

  /* A `<` starts no match exactly when the text after it is `Unclosed`. */
  lemma NoTagAtStartIff(s: string)
    requires |s| > 0 && s[0] == '<'
    ensures TagFrom(s, 0) == None <==> Unclosed(s[1..])
  {
    StopIndexShift(s);
  }

  /* The substitution keeps a text `Unclosed`. */
  lemma StripTagsPreservesUnclosed(u: string)
    requires Unclosed(u)
    ensures Unclosed(StripTags(u))
  {
    var k := StopIndex(u, 0);
    var r := StripTags(u);
    StripTagsSubsequence(u);
    SubsequenceElements(r, u);
    if k == |u| {
      assert '>' !in u && '\n' !in u;
      StopIndexUnique(r, 0, |r|);
    } else {
      assert u == u[..k] + ['\n'] + u[k + 1..];
      StripTagsSplitsAtNewline(u[..k], u[k + 1..]);
      var left := StripTags(u[..k]);
      StripTagsSubsequence(u[..k]);
      SubsequenceElements(left, u[..k]);
      assert '>' !in u[..k] && '\n' !in u[..k];
      assert r == left + ['\n'] + StripTags(u[k + 1..]);
      StopIndexUnique(r, 0, |left|);
    }
  }

  /* The output of the substitution holds no match of `<.*?>`. */
  lemma {:induction false} StripTagsLeavesNoTag(s: string)
    ensures NoTag(StripTags(s))
    decreases |s|
  {
    if |s| > 0 {
      match TagFrom(s, 0)
      case Some(j) =>
        StripTagsLeavesNoTag(s[j + 1..]);
      case None =>
        StripTagsLeavesNoTag(s[1..]);
        var rest := StripTags(s[1..]);
        var r := [s[0]] + rest;
        assert r[1..] == rest;
        if s[0] == '<' {
          NoTagAtStartIff(s);
          StripTagsPreservesUnclosed(s[1..]);
          NoTagAtStartIff(r);
        }
        assert forall j :: !TagAt(r, 0, j);
        NoTagCons(r);
    }
  }

  /* Deleting tags twice deletes nothing more. */
  lemma StripTagsIdempotent(s: string)
    ensures StripTags(StripTags(s)) == StripTags(s)
  {
    StripTagsLeavesNoTag(s);
    StripTagsUnchangedIff(StripTags(s));
  }

  /* ================================================================ step 3 */

  /* The character filter commutes with concatenation. */
  lemma {:induction false} DropOthersConcat(a: string, b: string)
    ensures DropOthers(a + b) == DropOthers(a) + DropOthers(b)
    decreases |a|
  {
    if |a| == 0 {
      assert a + b == b;
    } else {
      assert (a + b)[0] == a[0];
      assert (a + b)[1..] == a[1..] + b;
      DropOthersConcat(a[1..], b);
    }
  }

  /* The character filter deletes characters and never inserts or reorders them. */
  lemma {:induction false} DropOthersSubsequence(s: string)
    ensures IsSubsequence(DropOthers(s), s)
    decreases |s|
  {
    if |s| > 0 {
      DropOthersSubsequence(s[1..]);
      assert [s[0]] + s[1..] == s;
      if Kept(s[0]) {
        SubsequenceCons(s[0], DropOthers(s[1..]), s[1..]);
      } else {
        SubsequenceExtend(DropOthers(s[1..]), s[1..], s[0]);
      }
    }
  }

  /* The character filter keeps every character of `[a-z\s]`, as often as
     it occurs. */
  lemma {:induction false} DropOthersCounts(s: string)
    ensures forall c :: Kept(c) ==> multiset(DropOthers(s))[c] == multiset(s)[c]
    decreases |s|
  {
    if |s| > 0 {
      DropOthersCounts(s[1..]);
      assert s == [s[0]] + s[1..];
    }
  }

  /* The character filter leaves a text unchanged exactly when every
     character of it is in `[a-z\s]`. */
  lemma {:induction false} DropOthersUnchangedIff(s: string)
    ensures DropOthers(s) == s <==> forall i :: 0 <= i < |s| ==> Kept(s[i])
    decreases |s|
  {
    if |s| > 0 && forall i :: 0 <= i < |s| ==> Kept(s[i]) {
      assert Kept(s[0]);
      DropOthersUnchangedIff(s[1..]);
      assert s == [s[0]] + s[1..];
    }
  }

  /* ================================================================ clean_text */

  /* `clean_text` only deletes: its output is a subsequence of `text.lower()`. */
  lemma CleanSubsequence(text: string)
    ensures IsSubsequence(Clean(text), Lower(text))
  {
    var l := Lower(text);
    StripTagsSubsequence(l);
    DropOthersSubsequence(StripTags(l));
    SubsequenceTransitive(Clean(text), StripTags(l), l);
  }

  /* `clean_text` is idempotent: its output has no uppercase letter, no `<`
     and nothing outside `[a-z\s]`, so every step leaves it alone. */
  lemma CleanIdempotent(text: string)
    ensures Clean(Clean(text)) == Clean(text)
  {
    var c := Clean(text);
    LowerUnchangedIff(c);
    assert Lower(c) == c;
    assert '<' !in c;
    StripTagsPlainPrefix(c, []);
    assert c + [] == c;
    DropOthersUnchangedIff(c);
  }

  /* A newline is never inside a deleted tag, so the lines on either side of
     it are cleaned independently and the newline itself is kept. */
  lemma CleanSplitsAtNewline(a: string, b: string)
    ensures Clean(a + ['\n'] + b) == Clean(a) + ['\n'] + Clean(b)
  {
    LowerConcat(a + ['\n'], b);
    LowerConcat(a, ['\n']);
    assert Lower(['\n']) == ['\n'];
    StripTagsSplitsAtNewline(Lower(a), Lower(b));
    DropOthersConcat(StripTags(Lower(a)) + ['\n'], StripTags(Lower(b)));
    DropOthersConcat(StripTags(Lower(a)), ['\n']);
    assert DropOthers(['\n']) == ['\n'];
  }

  /* Everything before the first `<` is only lowercased and filtered:
     whitespace there is neither trimmed nor collapsed. */
  lemma CleanPlainPrefix(a: string, b: string)
    requires '<' !in a
    ensures Clean(a + b) == DropOthers(Lower(a)) + Clean(b)
  {
    LowerConcat(a, b);
    assert '<' !in Lower(a) by {
      forall i | 0 <= i < |a| ensures Lower(a)[i] != '<' {
        assert a[i] != '<';
      }
    }
    StripTagsPlainPrefix(Lower(a), Lower(b));
    DropOthersConcat(Lower(a), StripTags(Lower(b)));
  }

  /* A tag at the very start (a `<`, then characters that are neither `>`
     nor a newline, then `>`) is deleted whole, whatever its case, and the
     rest is cleaned as if it were not there. */
  lemma CleanDeletesLeadingTag(t: string, b: string)
    requires |t| >= 2 && t[0] == '<' && t[|t| - 1] == '>'
    requires forall m :: 0 < m < |t| - 1 ==> t[m] != '>' && t[m] != '\n'
    ensures Clean(t + b) == Clean(b)
  {
    var l := Lower(t + b);
    LowerConcat(t, b);
    var j := |t| - 1;
    assert TagAt(l, 0, j);
    assert forall k :: 0 < k < j ==> !TagAt(l, 0, k);
    StripTagsDeletesShortestTag(l, j);
    assert l[j + 1..] == Lower(b);
  }

  /* In a text without tags, nothing is deleted but the characters outside
     `[a-z\s]`: every whitespace character survives, as often as it occurs. */
  lemma CleanWithoutTags(text: string)
    requires NoTag(text)
    ensures Clean(text) == DropOthers(Lower(text))
    ensures forall c :: IsSpace(c) ==> multiset(Clean(text))[c] == multiset(text)[c]
  {
    LowerKeepsTags(text);
    StripTagsUnchangedIff(Lower(text));
    DropOthersCounts(Lower(text));
    forall c | IsSpace(c) ensures multiset(Clean(text))[c] == multiset(text)[c] {
      LowerKeepsCount(text, c);
    }
  }
}
