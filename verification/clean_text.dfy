/** The review normaliser `clean_text` of app.py: lowercase the text, delete
    every match of the regular expression `<.*?>` (HTML-like tags), then
    delete every character outside the class `[a-z\s]`. The regular
    expression semantics are written out by hand: a left-to-right scan for
    non-overlapping matches, the lazy `.*?` stopping at the first `>`, and
    `.` refusing a newline because no DOTALL flag is given. */
module CleanText {

  datatype Option<T> = None | Some(value: T)

  /** Python's `\s` in a `str` pattern: the characters `str.isspace` accepts. */
  predicate IsSpace(c: char) {
    || '\t' <= c <= '\r'
    || '\U{1C}' <= c <= '\U{1F}'
    || c == ' '
    || c == '\U{85}'
    || c == '\U{A0}'
    || c == '\U{1680}'
    || '\U{2000}' <= c <= '\U{200A}'
    || c == '\U{2028}'
    || c == '\U{2029}'
    || c == '\U{202F}'
    || c == '\U{205F}'
    || c == '\U{3000}'
  }

  predicate IsUpper(c: char) { 'A' <= c <= 'Z' }

  predicate IsLower(c: char) { 'a' <= c <= 'z' }

  /** Membership in the class `[a-z\s]`: the characters the last step keeps. */
  predicate Kept(c: char) { IsLower(c) || IsSpace(c) }

  /* ---------------------------------------------------------------- step 1 */

  /** `str.lower` on one character, restricted to ASCII: `A`-`Z` become
      `a`-`z` and every other character is left alone. */
  function LowerChar(c: char): (r: char)
    ensures !IsUpper(r)
    ensures IsUpper(c) ==> IsLower(r) && r as int - 'a' as int == c as int - 'A' as int
    ensures !IsUpper(c) ==> r == c
  {
    if IsUpper(c) then (c as int - 'A' as int + 'a' as int) as char else c
  }

  /** `text.lower()`: lowercases position by position, never changing the length. */
  function Lower(s: string): (r: string)
    ensures |r| == |s|
    ensures forall i :: 0 <= i < |r| ==> !IsUpper(r[i])
    ensures forall i :: 0 <= i < |s| && !IsUpper(s[i]) ==> r[i] == s[i]
    ensures forall i :: 0 <= i < |s| && IsUpper(s[i]) ==>
              IsLower(r[i]) && r[i] as int - 'a' as int == s[i] as int - 'A' as int
  {
    seq(|s|, i requires 0 <= i < |s| => LowerChar(s[i]))
  }

  /* ---------------------------------------------------------------- step 2 */

  /** `s[i..j+1]` is a match of `<.*?>`: a `<`, a run of characters none of
      which is a newline (what `.` accepts without DOTALL), and a `>`. */
  predicate TagAt(s: string, i: int, j: int) {
    && 0 <= i < j < |s|
    && s[i] == '<'
    && s[j] == '>'
    && forall m :: i < m < j ==> s[m] != '\n'
  }

  /** No match of `<.*?>` anywhere in `s`. */
  predicate NoTag(s: string) {
    forall i, j :: 0 <= i < j < |s| ==> !TagAt(s, i, j)
  }

  /** The first index at or after `k` that holds `>` or a newline, or `|s|`
      when there is none: where the lazy `.*?` either completes a match or
      gives up. */
  function StopIndex(s: string, k: nat): (r: nat)
    requires k <= |s|
    ensures k <= r <= |s|
    ensures forall m :: k <= m < r ==> s[m] != '>' && s[m] != '\n'
    ensures r < |s| ==> s[r] == '>' || s[r] == '\n'
    decreases |s| - k
  {
    if k == |s| || s[k] == '>' || s[k] == '\n' then k else StopIndex(s, k + 1)
  }

  /** The match of `<.*?>` that the regular expression engine takes when it
      tries position `i`: the shortest one, ending at the first `>` after `i`,
      or none when a newline or the end of the text comes first. */
  function TagFrom(s: string, i: nat): (r: Option<nat>)
    requires i < |s|
    ensures r.Some? ==> TagAt(s, i, r.value)
    ensures r.Some? ==> forall j :: i < j < r.value ==> !TagAt(s, i, j)
    ensures r.None? ==> forall j :: !TagAt(s, i, j)
  {
    if s[i] != '<' then None
    else
      var j := StopIndex(s, i + 1);
      if j < |s| && s[j] == '>' then Some(j) else None
  }

  /** `re.sub(r'<.*?>', '', s)`: scans left to right; where a match starts it
      is deleted and the scan resumes after its `>`, otherwise the character
      is copied and the scan moves on by one. */
  function StripTags(s: string): (r: string)
    ensures |r| <= |s|
    decreases |s|
  {
    if |s| == 0 then []
    else
      match TagFrom(s, 0)
      case Some(j) => StripTags(s[j + 1..])
      case None => [s[0]] + StripTags(s[1..])
  }

  /** The same substitution as an index-based scan over the text, the way the
      regular expression engine walks it. */
  method StripTagsScan(s: string) returns (out: string)
    ensures out == StripTags(s)
  {
    out := [];
    var i := 0;
    assert s[i..] == s;
    while i < |s|
      invariant 0 <= i <= |s|
      invariant out + StripTags(s[i..]) == StripTags(s)
      decreases |s| - i
    {
      out, i := ScanStep(s, out, i);
    }
    assert s[i..] == [];
  }

  /** One step of the scan from position `i`: delete the match starting
      there, or copy the character and move on by one. */
  method ScanStep(s: string, out: string, i: nat) returns (out': string, i': nat)
    requires i < |s|
    ensures i < i' <= |s|
    ensures out' + StripTags(s[i'..]) == out + StripTags(s[i..])
  {
    if s[i] != '<' {
      ScanCopiesChar(s, out, i, i + 1);
      out', i' := out + [s[i]], i + 1;
    } else {
      var j := ScanToStop(s, i + 1);
      if j < |s| && s[j] == '>' {
        ScanDeletesTag(s, i, j);
        out', i' := out, j + 1;
      } else {
        ScanCopiesChar(s, out, i, j);
        out', i' := out + [s[i]], i + 1;
      }
    }
  }

  /** Walks from `k` to the first `>` or newline, or to the end of the text:
      the lazy `.*?` extending its match one character at a time. */
  method ScanToStop(s: string, k: nat) returns (j: nat)
    requires k <= |s|
    ensures j == StopIndex(s, k)
  {
    j := k;
    while j < |s| && s[j] != '>' && s[j] != '\n'
      invariant k <= j <= |s|
      invariant forall m :: k <= m < j ==> s[m] != '>' && s[m] != '\n'
    {
      j := j + 1;
    }
    StopIndexUnique(s, k, j);
  }

  /* The first stop character is determined by the three facts `StopIndex` promises. */
  lemma StopIndexUnique(t: string, k: nat, r: nat)
    requires k <= r <= |t|
    requires forall m :: k <= m < r ==> t[m] != '>' && t[m] != '\n'
    requires r < |t| ==> t[r] == '>' || t[r] == '\n'
    ensures StopIndex(t, k) == r
  {
  }

  /* One step of the scan that deletes the tag `s[i..j+1]`. */
  lemma ScanDeletesTag(s: string, i: nat, j: nat)
    requires i < j < |s| && s[i] == '<' && s[j] == '>'
    requires j == StopIndex(s, i + 1)
    ensures StripTags(s[i..]) == StripTags(s[j + 1..])
  {
    var t := s[i..];
    assert forall m :: 1 <= m < j - i ==> t[m] == s[i + m];
    StopIndexUnique(t, 1, j - i);
    assert TagFrom(t, 0) == Some(j - i);
    assert t[j - i + 1..] == s[j + 1..];
  }

  /* One step of the scan that copies `s[i]`: either it is no `<`, or a
     newline or the end of the text comes before any `>`. */
  lemma ScanCopiesChar(s: string, out: string, i: nat, j: nat)
    requires i < j <= |s|
    requires s[i] == '<' ==> j == StopIndex(s, i + 1) && (j == |s| || s[j] != '>')
    ensures (out + [s[i]]) + StripTags(s[i + 1..]) == out + StripTags(s[i..])
  {
    var t := s[i..];
    if s[i] == '<' {
      assert forall m :: 1 <= m < j - i ==> t[m] == s[i + m];
      StopIndexUnique(t, 1, j - i);
    }
    assert TagFrom(t, 0) == None;
    assert t[1..] == s[i + 1..];
    assert StripTags(t) == [s[i]] + StripTags(s[i + 1..]);
  }

  /* ---------------------------------------------------------------- step 3 */

  /** `re.sub(r'[^a-z\s]', '', s)`: deletes every character outside
      `[a-z\s]`; every character inside it survives, as often as it occurs. */
  function DropOthers(s: string): (r: string)
    ensures |r| <= |s|
    ensures forall i :: 0 <= i < |r| ==> Kept(r[i])
    decreases |s|
  {
    if |s| == 0 then []
    else if Kept(s[0]) then [s[0]] + DropOthers(s[1..]) else DropOthers(s[1..])
  }

  /* ---------------------------------------------------------------- clean_text */

  /** `clean_text(text)`: the three steps in order. Its result holds only
      lowercase ASCII letters and whitespace. */
  function Clean(text: string): (r: string)
    ensures forall i :: 0 <= i < |r| ==> Kept(r[i])
    ensures forall i :: 0 <= i < |r| ==> !IsUpper(r[i]) && r[i] != '<' && r[i] != '>'
  {
    DropOthers(StripTags(Lower(text)))
  }
}
