# Text pipeline of the TDT4117 assignment-3 retrieval engine

This project models the text-handling pipeline of the paragraph retrieval
engine in `assignment_3/`, and proves properties of that model. The pipeline is:

- **Paragraph segmentation and boilerplate filtering.** The raw text is split
  on `"\n\n"`. Segments that are exactly empty are dropped, and so are segments
  that contain `"gutenberg"`.
  - `assignment3.py` tests each raw segment in lower case.
  - `queries.py` first lower-cases the whole text and deletes its punctuation,
    then splits and filters.
- **Tokenisation.** Lower-case, delete ASCII punctuation (`string.punctuation`)
  and split. Paragraphs are split on runs of whitespace. The query is split on
  single spaces. Every token is then replaced by its stem.
- **Stopword-id selection.** The stopword file is split on commas, with entries
  kept verbatim. The loop then collects the id of every dictionary term that is
  one of those entries.
- **Ranking.** `sorted(enumerate(scores), key=-score)[:3]` picks the top three
  paragraphs. The sort is stable, so equal scores keep ascending index order.
  Each result is shown as paragraph number index + 1.
- **Display.** The display prints at most five lines of a paragraph and stops at
  its last line.

Modules:

- `PyText` (`py_text.dfy`) models the Python string built-ins the code uses, on
  ASCII text: `lower`, `translate` with the punctuation table, `split(sep)`,
  `split()` and `in`. It also defines `Join` (`sep.join`), which the code never
  calls; it is there to state the round trips of the two splits.
- `Lists` (`lists.dfy`) holds `Filter`, which is the list an append-in-a-loop
  builds, and `Map`, which is a list comprehension.
- `PySorted` (`py_sorted.dfy`) models the stable descending sort of indices by
  score.
- `Assignment3` (`assignment3.dfy`) and `Queries` (`queries.dfy`) follow the two
  source files.
- `Contrast` (`contrast.dfy`) proves where the two versions of `process_text`
  give different results.

How the model stands in for the rest of the program:

- The Porter stemmer is a function parameter `stem: string -> string`.
- A gensim `Dictionary` is the sequence of its distinct terms, indexed by id.
- Similarity scores are a `seq<real>`; only their order matters.
- File contents are string parameters.
- `print` output is returned as values. The display loop returns the printed
  lines, and the result loop returns a `Shown(number, lines)` per result.
- The loops of `process_text`, of the stopword selection and of the display are
  methods with loops. The preallocated `tokenize` list is an array that the
  methods overwrite by index.

Two details of the code shape the results:

- The code drops a segment only when it is exactly `""`, with no trimming. So a
  segment of spaces or punctuation survives in `assignment3.py`
  (`Assignment3.BlankSegmentKept`).
- Query tokens come from `split(' ')`. Adjacent spaces therefore give empty
  tokens (`Assignment3.PreProcessingShape`).

## Model

| member | source | states |
|---|---|---|
| `PyText.LowerChar` | assignment_3/assignment3.py:38 | an ASCII capital becomes the letter 32 code points up; every other character is unchanged; the result is never a capital |
| `PyText.StripPunctuation` | assignment_3/assignment3.py:38-39 | deleting `string.punctuation` never lengthens the text; a character is in the result exactly when it is in the input and is not punctuation |
| `PyText.Lower` | assignment_3/assignment3.py:32 | `lower()` keeps the length and lowers each character in place, so no capital is left |
| `PyText.LowerIdempotent` | assignment_3/assignment3.py:32 | lower-casing twice is lower-casing once |
| `PyText.PunctuationTable` | assignment_3/assignment3.py:39 | the table `string.punctuation` has 32 distinct characters, and `IsPunctuation` holds of a character exactly when it is one of them |
| `PyText.Clean` | assignment_3/queries.py:20 | lower-casing and then deleting punctuation leaves no capital and no punctuation character |
| `PyText.StripPunctuationOfPunctuation` | assignment_3/queries.py:20 | text made only of punctuation becomes empty |
| `PyText.StripPunctuationAppend` | assignment_3/queries.py:20 | deleting punctuation distributes over concatenation |
| `PyText.FindFrom` | assignment_3/assignment3.py:32 | the result is the first occurrence of the separator at or after `from`, or none when there is no occurrence |
| `PyText.Contains` | assignment_3/assignment3.py:32 | `sub in s` is false when `sub` is longer than `s`; the empty string is in every string |
| `PyText.ContainsIff` | assignment_3/assignment3.py:32 | `sub in s` holds exactly when `sub` occurs somewhere in `s` |
| `PyText.Split` | assignment_3/assignment3.py:25-26 | `split(sep)` always yields at least one piece |
| `PyText.SplitLeftmost` | assignment_3/assignment3.py:25-26 | every cut is the leftmost one: no piece but the last, followed by all but the last character of `sep`, contains `sep`; with `SplitJoin` and `SplitPartsLackSeparator` this fixes the pieces uniquely (`"a\n\n\nb"` gives `["a", "\nb"]`) |
| `PyText.SplitJoin` | assignment_3/assignment3.py:25-26 | joining the pieces of `split(sep)` with `sep` gives back the original text |
| `PyText.SplitPartsLackSeparator` | assignment_3/assignment3.py:25-26 | no piece of `split(sep)` contains `sep` |
| `PyText.SplitPartsChars` | assignment_3/queries.py:20-21 | every character of every piece is a character of the split text |
| `PyText.SplitOfTextWithoutSeparator` | assignment_3/assignment3.py:25-26 | text that does not contain the separator splits into exactly itself |
| `PyText.SplitWithoutSeparator` | assignment_3/assignment3.py:25-26 | text without the separator's first character splits into exactly itself |
| `PyText.SplitCharCount` | assignment_3/assignment3.py:110 | splitting on one character gives one piece more than that character's count, empty pieces included |
| `PyText.WordLength` | assignment_3/assignment3.py:39 | the leading word ends at the first whitespace character or at the end of the text |
| `PyText.Words` | assignment_3/assignment3.py:39 | `split()` of a text of `L` characters has at most `(L + 1) / 2` words, since words are separated by whitespace |
| `PyText.WordsSpaceAppend` | assignment_3/queries.py:33 | any whitespace character, newline and tab included, separates words: the words of `a + [c] + b` are the words of `a` followed by those of `b` |
| `PyText.WordsOfJoin` | assignment_3/queries.py:33 | non-empty words without whitespace, joined by single spaces, split back into exactly those words |
| `PyText.WordsShape` | assignment_3/assignment3.py:39 | every word of `split()` is non-empty, has no whitespace and uses only characters of the text |
| `PyText.WordsConcat` | assignment_3/assignment3.py:39 | the words of `split()` concatenated equal the text with all whitespace removed |
| `PyText.WordsOfCleanText` | assignment_3/assignment3.py:38-39 | in text without capitals and punctuation, every word is non-empty, with no whitespace, punctuation or capital |
| `PyText.WordsOfWhitespace` | assignment_3/assignment3.py:39 | text made only of whitespace has no words |
| `Lists.Filter` | assignment_3/assignment3.py:29-33 | the appended list is no longer than its input and holds exactly the elements that pass the test |
| `Lists.FilterConcat` | assignment_3/assignment3.py:29-33 | filtering preserves order: it distributes over concatenation |
| `Lists.Map` | assignment_3/assignment3.py:46 | the comprehension keeps the count; the element at each position is the stem of the input element at that position |
| `PySorted.Insert` | assignment_3/assignment3.py:141 | inserting an index into an ordered list keeps it ordered (higher score first, ties by ascending index) and adds exactly that index |
| `PySorted.SortIndices` | assignment_3/assignment3.py:141 | indices `0..n-1` sorted: length `n`, each index once, in output order |
| `PySorted.SortedIndices` | assignment_3/assignment3.py:141 | `sorted(enumerate(scores), key=-score)` is a permutation of all indices, by descending score, with ties in ascending index order |
| `PySorted.SortedUnique` | assignment_3/assignment3.py:141 | two sequences of the same indices that are both in output order are equal |
| `PySorted.SortedIndicesIsTheStableOrder` | assignment_3/assignment3.py:141 | any stable descending sort of the indices equals the model's sort |
| `Assignment3.ProcessText` | assignment_3/assignment3.py:14-48 | returns the surviving paragraphs, in order, and one token list for each; each list holds the stems of that paragraph's tokens |
| `Assignment3.RemoveHeaderAndFooter` | assignment_3/assignment3.py:29-33 | the loop appends exactly the segments that are non-empty and whose lower-case form lacks `gutenberg`, in order |
| `Assignment3.TokenizeParagraphs` | assignment_3/assignment3.py:36-46 | after both index loops over the preallocated list, entry `i` is the stemmed token list of paragraph `i` |
| `Assignment3.SegmentsJoin` | assignment_3/assignment3.py:25-26 | joining the raw segments with `"\n\n"` reproduces the text |
| `Assignment3.IsKept` | assignment_3/assignment3.py:31-32 | a segment is kept exactly when it is non-empty and no position of its lower-case form spells `gutenberg`; a segment holding `gutenberg` verbatim is dropped |
| `Assignment3.IsKeptIgnoresCase` | assignment_3/assignment3.py:32 | a segment and its lower-case form are kept or dropped together |
| `Assignment3.KeptParagraphsShape` | assignment_3/assignment3.py:29-33 | a paragraph is kept exactly when it is a non-empty segment lacking the marker in any letter case; no kept paragraph contains `"\n\n"` |
| `Assignment3.BlankSegmentKept` | assignment_3/assignment3.py:29-39 | a non-empty segment of only whitespace and punctuation is kept and has no tokens |
| `Assignment3.TokensAreCleanWords` | assignment_3/assignment3.py:38-39 | every token before stemming is non-empty, with no whitespace, punctuation or capital |
| `Assignment3.StemmedTokens` | assignment_3/assignment3.py:44-46 | stemming keeps the token count; the stemmed token at each position is the stem of the clean token there |
| `Assignment3.TokenToId` | assignment_3/assignment3.py:72 | `token2id` gives the id at which the term is stored, and no smaller id holds it |
| `Assignment3.StopWords` | assignment_3/assignment3.py:66 | the file gives one entry more than it has commas; no entry contains a comma; the entries joined with `,` give back the file |
| `Assignment3.StopWordIds` | assignment_3/assignment3.py:66-72 | the ids are valid and strictly ascending; an id is collected exactly when its term is verbatim one of the comma-separated entries |
| `Assignment3.PreProcessing` | assignment_3/assignment3.py:108-112 | the query gives one token more than the cleaned query has spaces, and each token is the stem of the pre-stem token at that position |
| `Assignment3.PreProcessingShape` | assignment_3/assignment3.py:108-112 | the query gives one token more than the cleaned query has spaces; each token is the stem of the pre-stem token there; the pre-stem tokens joined with `' '` give back the cleaned query, and none holds a space, capital or punctuation |
| `Assignment3.Ranking` | assignment_3/assignment3.py:141 | the top of the sort holds `min(3, n)` indices, all valid |
| `Assignment3.RankingIsTopK` | assignment_3/assignment3.py:140-143 | the ranking holds `min(3, n)` distinct valid indices, with non-increasing scores and ties in ascending index order; every index left out comes after every chosen one |
| `Assignment3.DisplayedLines` | assignment_3/assignment3.py:142-148 | exactly the first `min(5, L)` lines are shown (between one and five), each the line of the paragraph at that position; a paragraph of at most five lines is shown in full |
| `Assignment3.ShowParagraph` | assignment_3/assignment3.py:142-148 | prints exactly the first `min(5, L)` lines, where the line count `L` is at least 1; it never indexes past the last line |
| `Assignment3.DisplayedLinesShape` | assignment_3/assignment3.py:142-148 | printed lines contain no line break; a paragraph of at most five lines is printed in full |
| `Assignment3.ShowResults` | assignment_3/assignment3.py:140-149 | one result per ranked index, in ranking order; each is paragraph number index + 1 (between 1 and the paragraph count) with that paragraph's displayed lines |
| `Queries.ProcessText` | assignment_3/queries.py:9-39 | one token list per paragraph kept after whole-text cleaning, in order; each list holds the stems of that paragraph's words |
| `Queries.RemoveHeaderAndFooter` | assignment_3/queries.py:24-28 | the loop appends exactly the cleaned segments that are non-empty and lack `gutenberg`, in order |
| `Queries.TokenizeParagraphs` | assignment_3/queries.py:31-37 | after both index loops, entry `i` is the stemmed word list of paragraph `i` |
| `Queries.CleanSegmentsJoin` | assignment_3/queries.py:20-21 | joining the segments with `"\n\n"` gives back the cleaned text |
| `Queries.IsKept` | assignment_3/queries.py:26-27 | a cleaned segment is kept exactly when it is non-empty and no position of it spells `gutenberg` |
| `Queries.KeptParagraphsShape` | assignment_3/queries.py:20-28 | a paragraph is kept exactly when it is a non-empty cleaned segment lacking the marker; kept paragraphs have no capital or punctuation |
| `Queries.TokensAreCleanWords` | assignment_3/queries.py:20-37 | every word before stemming is non-empty, with no whitespace, punctuation or capital; stemming keeps each paragraph's word count |
| `Contrast.PunctuationOnlyText` | assignment_3/queries.py:20-28 | a non-empty punctuation-only text is one tokenless paragraph in `assignment3.py` and no paragraph in `queries.py` |
| `Contrast.InterruptedMarker` | assignment_3/queries.py:20-27 | `Guten-berg` is kept by `assignment3.py` and dropped by `queries.py`, whose marker test runs after punctuation is deleted |
| `Contrast.PunctuationMakesBreak` | assignment_3/queries.py:20-21 | deleting punctuation can create a paragraph break: `a\n.\nb` is one paragraph in `assignment3.py` and two in `queries.py` |

## Left out

- Reading the corpus and the stopword file with `codecs.open` is I/O. The model
  takes the file contents as string parameters.
- The Porter stemmer (nltk) is a foreign library. It is the parameter `stem`,
  and nothing is assumed about it.
- The `bags_of_words` loop of `build_dictionary` only calls `doc2bow` on each
  paragraph's tokens, so it goes with `doc2bow` below.
- gensim's `Dictionary` construction, `filter_tokens` and `doc2bow` (including
  `process_query`) are library code that is not part of this model. The
  dictionary is an input: its terms, distinct, indexed by id.
- `TfidfModel`, `LsiModel` (with `show_topics`) and `MatrixSimilarity`, and so the
  `tf_idf` and `lsi` functions, are floating-point numerics in a foreign
  library. Their similarity vectors are the abstract input `scores`.
- In the model, the TF-IDF and LSI result loops of `custom_queries` are one
  `ShowResults`, applied to either score vector. The fixed query text of
  `custom_queries` is not evaluated.
- Output formatting (`"[paragraph: N]"`, the blank line after each result),
  `printProgressBar`, `print_query_weight_result` and `random.seed` are cosmetic.
  Printed output is returned as values.
- PyText.LowerChar: models `str.lower` on ASCII letters only, because Unicode
  case mapping is not modelled.
- PyText.IsSpace: holds for the ASCII whitespace of `str.isspace` only, because
  Unicode whitespace is not modelled.
- PySorted.Before: assumes scores are ordinary numbers. NaN similarities, for
  which Python's comparison-based sort has no meaningful order, are not modelled.
