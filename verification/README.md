# Movie review sentiment demo: review cleaning and outcome decision

The repository is a one-page Streamlit app. A user pastes a movie review.
The app normalises the text with `clean_text`, runs it through a pretrained
vectorizer and classifier, and shows "Positive Review" or "Negative Review"
with a confidence. This project models the two pieces of that app that have
real logic:

- `clean_text` (`app.py` lines 14-18) applies three steps in order:
  1. lowercase the text;
  2. delete every match of the regular expression `<.*?>` (HTML-like tags);
  3. delete every character outside `[a-z\s]`.

  The regular expression semantics are written by hand (module `CleanText`).
  - `TagAt` says what a match is: a `<`, then characters other than a newline
    (no DOTALL flag is set), then a `>`.
  - `TagFrom` picks the match that the lazy `.*?` takes at a position: the
    shortest one.
  - `StripTags` is the left-to-right scan for non-overlapping matches that
    `re.sub` performs.
  - `StripTagsScan` is the same scan written as a loop over indices.
- The button handler (`app.py` lines 29-43) is modelled by `Sentiment.Analyze`.
  Empty input gives a warning. Otherwise the cleaned text goes to the
  vectorizer, and the page reports `Positive` when the predicted label is
  exactly `"positive"` and `Negative` for any other label. The confidence is
  the largest entry of the probability row. The vectorizer and the two
  classifier calls are opaque fitted objects, so they are function parameters.

Module layout:

- `subsequences.dfy` holds `Subsequences`, the "obtained by deleting elements" relation.
- `clean_text.dfy` holds `CleanText`, the three steps and `clean_text`.
- `clean_text_properties.dfy` holds `CleanTextProperties`, the lemmas about the steps.
- `clean_text_examples.dfy` holds `CleanTextExamples`, worked inputs.
- `sentiment.dfy` holds `Sentiment`, the outcome decision.

Two facts about `app.py` shape the decision model:

- The guard `if user_input:` (app.py:30) is plain truthiness, so text made only of whitespace is classified.
- The label comes from `model.predict` and the confidence from a separate `model.predict_proba(...)[0].max()` (app.py:34-35); nothing links the two.

## Model

| member | source | states |
|---|---|---|
| CleanText.LowerChar | app.py:15 | `A`-`Z` map to the matching `a`-`z` letter; every other character is unchanged; the result is never an uppercase letter |
| CleanText.Lower | app.py:15 | `text.lower()` keeps the length, leaves no uppercase letter, maps each `A`-`Z` to its lowercase letter and leaves every other character in place |
| CleanText.StopIndex | app.py:16 | the lazy `.*?` stops at the first `>` or newline at or after the position, or at the end of the text, and passes over nothing else |
| CleanText.TagFrom | app.py:16 | the match taken at a position is a `<`, a newline-free run and a `>`, and no shorter one exists there; when there is no match at all, the result says so |
| CleanText.StripTags | app.py:16 | deleting the matches of `<.*?>` never makes the text longer |
| CleanText.StripTagsScan | app.py:16 | the index-based left-to-right scan computes exactly the substitution `StripTags` defines |
| CleanText.DropOthers | app.py:17 | after `re.sub(r'[^a-z\s]', '', s)` every character is a lowercase ASCII letter or whitespace, and the text is no longer than before |
| CleanText.Clean | app.py:14-18 | every character `clean_text` returns is in `[a-z\s]`, so none is uppercase, `<` or `>` |
| CleanTextProperties.LowerUnchangedIff | app.py:15 | lowercasing leaves a text unchanged exactly when it has no uppercase letter, and lowercasing twice equals lowercasing once |
| CleanTextProperties.LowerKeepsCount | app.py:15 | lowercasing keeps the number of occurrences of every character that is not an ASCII letter, whitespace included |
| CleanTextProperties.LowerKeepsTags | app.py:15-16 | lowercasing creates and destroys no match of `<.*?>`, because it moves no `<`, `>` or newline |
| CleanTextProperties.StripTagsSubsequence | app.py:16 | tag deletion only deletes: its output is a subsequence of its input |
| CleanTextProperties.StripTagsPlainPrefix | app.py:16 | text before the first `<` passes through tag deletion unchanged, with no trimming or collapsing |
| CleanTextProperties.StripTagsDeletesShortestTag | app.py:16 | a shortest match at the start is deleted as one piece, so all of `<a<b>` goes, and scanning resumes after its `>` |
| CleanTextProperties.StripTagsKeepsUnclosed | app.py:16 | a `<` with no `>` after it before the next newline is kept, and the scan moves on by one character |
| CleanTextProperties.StripTagsSplitsAtNewline | app.py:16 | no match spans a newline: the text on each side of a newline is stripped independently, and the newline survives |
| CleanTextProperties.StripTagsUnchangedIff | app.py:16 | tag deletion leaves a text unchanged exactly when the text holds no match of `<.*?>` |
| CleanTextProperties.StripTagsLeavesNoTag | app.py:16 | the output of tag deletion holds no match of `<.*?>` |
| CleanTextProperties.StripTagsIdempotent | app.py:16 | deleting tags a second time deletes nothing more |
| CleanTextProperties.DropOthersConcat | app.py:17 | the character filter works character by character: filtering a concatenation is concatenating the filtered parts |
| CleanTextProperties.DropOthersSubsequence | app.py:17 | the character filter only deletes: its output is a subsequence of its input |
| CleanTextProperties.DropOthersCounts | app.py:17 | every character of `[a-z\s]` survives the filter as many times as it occurs |
| CleanTextProperties.DropOthersUnchangedIff | app.py:17 | the filter leaves a text unchanged exactly when all of its characters are in `[a-z\s]` |
| CleanTextProperties.CleanSubsequence | app.py:15-17 | `clean_text` never inserts or reorders characters: its output is a subsequence of `text.lower()` |
| CleanTextProperties.CleanIdempotent | app.py:14-18 | `clean_text(clean_text(x)) == clean_text(x)` for every text |
| CleanTextProperties.CleanSplitsAtNewline | app.py:16-17 | the lines on each side of a newline are cleaned independently, and the newline is kept |
| CleanTextProperties.CleanPlainPrefix | app.py:15-17 | text before the first `<` is only lowercased and filtered, so its whitespace is neither trimmed nor collapsed |
| CleanTextProperties.CleanDeletesLeadingTag | app.py:15-17 | a one-line tag at the start, in any case, is deleted whole, and the rest is cleaned as if it were absent |
| CleanTextProperties.CleanWithoutTags | app.py:15-17 | in a text with no match of `<.*?>`, only characters outside `[a-z\s]` are deleted, and every whitespace character survives as often as it occurs |
| CleanTextExamples.ExampleSeparateTags | app.py:14-18 | `clean_text("<b>GREAT</b> movie!!")` is `"great movie"`: each tag is deleted on its own |
| CleanTextExamples.ExampleNestedAngle | app.py:16 | a second `<` before the `>` is part of the match: `<a<b>ok` cleans to `ok` |
| CleanTextExamples.ExampleNewlineInsideTag | app.py:16-17 | `<a` newline `B>` is not a tag: only `<` and `>` disappear, and the letters and the newline stay |
| CleanTextExamples.ExampleUnclosedAngle | app.py:16-17 | in `I <3 it` the `<` opens no tag: the result is `i  it`, with both spaces kept |
| CleanTextExamples.ExampleWhitespaceOnly | app.py:14-18 | three spaces clean to three spaces: nothing is trimmed |
| Sentiment.MaxProbability | app.py:35 | `.max()` of a non-empty probability row is one of its entries and is at least every entry |
| Sentiment.Analyze | app.py:29-43 | warning exactly when the input is empty; otherwise `Positive` exactly when the label predicted from the cleaned text is `"positive"` and `Negative` for every other label, with the row maximum as the confidence |
| Sentiment.WhitespaceOnlyIsClassified | app.py:30 | whitespace-only input is not a warning: it is classified, and cleaning hands it to the vectorizer unchanged |
| Sentiment.ConfidenceIgnoresLabel | app.py:34-35 | the reported confidence depends only on the probability row, whatever label the classifier predicts |
| Sentiment.OutcomeDependsOnCleanText | app.py:31-35 | cleaning an input before submitting it does not change the outcome, as long as the cleaned text is non-empty |
| Sentiment.ExamplePositive | app.py:34-39 | label `"positive"` with probabilities 0.08/0.92 is reported as `Positive(0.92)` |
| Sentiment.ExampleCapitalisedLabel | app.py:37-41 | label `"Positive"` with probabilities 0.3/0.7 is reported as `Negative(0.7)`: the comparison is case-sensitive |

## Left out

- CleanText.LowerChar, CleanText.Lower: lowercase ASCII `A`-`Z` only and leave every other character alone. Python's `str.lower` also lowers non-ASCII letters. Some of them change length (U+0130 becomes two characters) and some become ASCII letters (U+212A KELVIN SIGN becomes `k`), which then survive the last step. The model agrees with Python on every text whose non-ASCII characters have no lowercase mapping.
- CleanText.IsSpace is Python's `\s` for `str` patterns, written out as a fixed character list. It follows the Unicode version of current CPython releases.
- Sentiment.MaxProbability: the row must be non-empty. NumPy's `max` raises on an empty row, and a fitted classifier always returns one entry per class. Floating point is not modelled: probabilities are reals, so NaN propagation is out.
- Loading `vectorizer.pkl` and `model.pkl` with `joblib.load`, and the `FileNotFoundError` branch that shows an error and calls `st.stop()` (app.py:6-11), are left out. This is file I/O and process control.
- The internals of `vectorizer.transform`, `model.predict` and `model.predict_proba` are left out. They are opaque fitted scikit-learn objects and are parameters of `Sentiment.Analyze`.
- Streamlit page setup, the text area, the button, the success/error/warning rendering, the balloons and the `:.1%` formatting (app.py:20-26, 38-43) are left out. They are presentation.
