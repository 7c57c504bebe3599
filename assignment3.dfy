/** The text pipeline of `assignment_3/assignment3.py`: paragraph
    segmentation with boilerplate filtering and tokenisation
    (`process_text`), stopword-id selection (`build_dictionary`), query
    preprocessing (`pre_processing`), and the top-3 ranking and five-line
    display of `custom_queries`. The Porter stemmer is the parameter `stem`;
    a gensim dictionary is the sequence of its terms, indexed by id. */
module Assignment3 {
  import opened PyText
  import opened Lists
  import opened PySorted

  const ParagraphSeparator: string := "\n\n"
  const BoilerplateMarker: string := "gutenberg"
  const StopWordSeparator: string := ","
  const QuerySeparator: string := " "
  const LineSeparator: string := "\n"
  const TopK: nat := 3
  const MaxDisplayLines: nat := 5

  function Min(a: nat, b: nat): nat {
    if a <= b then a else b
  }

  // ---------------------------------------------------------------------
  // process_text

  /** The raw segments of the text, before any filtering. */
  function Segments(text: string): seq<string> {
    Split(text, ParagraphSeparator)
  }

  /** A raw segment survives when it is not exactly empty and its lower-case
      form does not contain the boilerplate marker. No trimming is done. */
  predicate IsKept(segment: string)
    ensures IsKept(segment) <==>
      segment != "" && forall j :: !OccursAt(Lower(segment), BoilerplateMarker, j)
    ensures Contains(segment, BoilerplateMarker) ==> !IsKept(segment)
  {
    MarkerSurvivesLower(segment);
    segment != "" && !Contains(Lower(segment), BoilerplateMarker)
  }

  /** The marker has no capital, so an occurrence of it stays one after
      lower-casing. */
  lemma MarkerSurvivesLower(segment: string)
    ensures Contains(segment, BoilerplateMarker) ==> Contains(Lower(segment), BoilerplateMarker)
  {
    ContainsIff(segment, BoilerplateMarker);
    ContainsIff(Lower(segment), BoilerplateMarker);
    if Contains(segment, BoilerplateMarker) {
      var j: nat :| OccursAt(segment, BoilerplateMarker, j);
      var m := |BoilerplateMarker|;
      forall k | 0 <= k < m ensures Lower(segment)[j..j + m][k] == BoilerplateMarker[k] {
        assert segment[j + k] == segment[j..j + m][k];
      }
      assert OccursAt(Lower(segment), BoilerplateMarker, j);
    }
  }

  /** The marker test ignores letter case: a segment and its lower-case
      form are kept or dropped together. */
  lemma IsKeptIgnoresCase(segment: string)
    ensures IsKept(Lower(segment)) == IsKept(segment)
  {
    LowerIdempotent(segment);
  }

  /** The second result of `process_text`: the surviving raw segments. */
  function KeptParagraphs(text: string): seq<string> {
    Filter(Segments(text), IsKept)
  }

  /** The tokens of one paragraph before stemming. */
  function Tokenize(paragraph: string): seq<string> {
    Words(Clean(paragraph))
  }

  /** `process_text`: reads the segments, keeps the surviving ones and
      tokenises and stems each of them. */
  method ProcessText(text: string, stem: string -> string)
    returns (tokens: seq<seq<string>>, paragraphs: seq<string>)
    ensures paragraphs == KeptParagraphs(text)
    ensures |tokens| == |paragraphs|
    ensures forall i :: 0 <= i < |paragraphs| ==> tokens[i] == Map(stem, Tokenize(paragraphs[i]))
  {
    var segments := Split(text, ParagraphSeparator);
    paragraphs := RemoveHeaderAndFooter(segments);
    tokens := TokenizeParagraphs(paragraphs, stem);
  }

  /** The filtering loop of `process_text`: appends every segment that is
      non-empty and whose lower-case form lacks the marker. */
  method RemoveHeaderAndFooter(segments: seq<string>) returns (paragraphs: seq<string>)
    ensures paragraphs == Filter(segments, IsKept)
  {
    paragraphs := [];
    for k := 0 to |segments|
      invariant paragraphs == Filter(segments[..k], IsKept)
    {
      var segment := segments[k];
      ghost var prefix := segments[..k + 1];
      assert prefix[..k] == segments[..k] && prefix[k] == segment;
      assert Filter(prefix, IsKept) == paragraphs + (if IsKept(segment) then [segment] else []);
      if segment != "" {
        if !Contains(Lower(segment), BoilerplateMarker) {
          paragraphs := paragraphs + [segment];
        }
      }
    }
    assert segments[..|segments|] == segments;
  }

  /** The two loops of `process_text` over a preallocated list: the first
      stores each paragraph's tokens, the second overwrites each entry with
      the stems of those tokens. */
  method TokenizeParagraphs(paragraphs: seq<string>, stem: string -> string)
    returns (tokens: seq<seq<string>>)
    ensures |tokens| == |paragraphs|
    ensures forall i :: 0 <= i < |paragraphs| ==> tokens[i] == Map(stem, Tokenize(paragraphs[i]))
  {
    var tokenize := new seq<string>[|paragraphs|];
    for i := 0 to |paragraphs|
      invariant forall j :: 0 <= j < i ==> tokenize[j] == Tokenize(paragraphs[j])
    {
      tokenize[i] := Words(Clean(paragraphs[i]));
    }
    ghost var words := tokenize[..];
    assert forall j :: 0 <= j < |paragraphs| ==> words[j] == Tokenize(paragraphs[j]);
    for i := 0 to |paragraphs|
      invariant forall j :: 0 <= j < i ==> tokenize[j] == Map(stem, words[j])
      invariant forall j :: i <= j < |paragraphs| ==> tokenize[j] == words[j]
    {
      tokenize[i] := Map(stem, tokenize[i]);
    }
    tokens := tokenize[..];
  }

  /** Joining the raw segments with the separator gives the text back. */
  lemma SegmentsJoin(text: string)
    ensures Join(Segments(text), ParagraphSeparator) == text
  {
    SplitJoin(text, ParagraphSeparator);
  }

  /** The surviving paragraphs are, in order, the segments that pass
      `IsKept`, and each of them is a segment, non-empty, free of the
      marker in any letter case and free of the separator. */
  lemma KeptParagraphsShape(text: string)
    ensures forall p :: p in KeptParagraphs(text) <==> p in Segments(text) && IsKept(p)
    ensures forall p :: p in KeptParagraphs(text) ==>
      p != "" && !Contains(Lower(p), BoilerplateMarker) && !Contains(p, ParagraphSeparator)
  {
    SplitPartsLackSeparator(text, ParagraphSeparator);
  }

  /** A non-empty segment made only of punctuation and whitespace
      survives, with no tokens. */
  lemma BlankSegmentKept(segment: string)
    requires segment != ""
    requires forall c :: c in segment ==> IsPunctuation(c) || IsSpace(c)
    ensures IsKept(segment)
    ensures Tokenize(segment) == []
  {
    var l := Lower(segment);
    forall c | c in l ensures IsPunctuation(c) || IsSpace(c) {
      var k :| 0 <= k < |l| && l[k] == c;
      assert segment[k] in segment;
    }
    forall j: nat | j + |BoilerplateMarker| <= |l|
      ensures !OccursAt(l, BoilerplateMarker, j)
    {
      assert l[j] in l;
      assert l[j..j + |BoilerplateMarker|][0] == l[j];
    }
    ContainsIff(l, BoilerplateMarker);
    WordsOfWhitespace(Clean(segment));
  }

  /** Every token before stemming is a clean word. */
  lemma TokensAreCleanWords(paragraph: string)
    ensures forall w :: w in Tokenize(paragraph) ==> IsCleanWord(w)
  {
    WordsOfCleanText(Clean(paragraph));
  }

  /** The stemmed tokens correspond one to one and in order with the
      pre-stem tokens, and each pre-stem token is a clean word. */
  lemma StemmedTokens(paragraph: string, stem: string -> string)
    ensures |Map(stem, Tokenize(paragraph))| == |Tokenize(paragraph)|
    ensures forall j :: 0 <= j < |Tokenize(paragraph)| ==>
      Map(stem, Tokenize(paragraph))[j] == stem(Tokenize(paragraph)[j]) &&
      IsCleanWord(Tokenize(paragraph)[j])
  {
    TokensAreCleanWords(paragraph);
  }

  // ---------------------------------------------------------------------
  // build_dictionary: the stopword ids

  /** The terms of a gensim dictionary are distinct: ids and terms are in
      one-to-one correspondence. */
  predicate Distinct(terms: seq<string>) {
    forall i, j :: 0 <= i < j < |terms| ==> terms[i] != terms[j]
  }

  /** `dictionary.token2id[term]`: the id of a term of the dictionary. */
  function TokenToId(dictionary: seq<string>, term: string): (id: nat)
    requires term in dictionary
    ensures id < |dictionary| && dictionary[id] == term
    ensures forall j :: 0 <= j < id ==> dictionary[j] != term
  {
    if dictionary[0] == term then 0 else 1 + TokenToId(dictionary[1..], term)
  }

  /** The stop words: the file contents split on commas, entries kept
      verbatim (no stripping, no lower-casing). */
  function StopWords(stopWordFile: string): (r: seq<string>)
    ensures |r| == CountChar(stopWordFile, ',') + 1
    ensures forall w :: w in r ==> !Contains(w, StopWordSeparator)
    ensures Join(r, StopWordSeparator) == stopWordFile
  {
    SplitCharCount(stopWordFile, ',');
    SplitPartsLackSeparator(stopWordFile, StopWordSeparator);
    SplitJoin(stopWordFile, StopWordSeparator);
    Split(stopWordFile, StopWordSeparator)
  }

  /** The loop of `build_dictionary` that gathers the ids of the dictionary
      terms that are stop words. */
  method StopWordIds(dictionary: seq<string>, stopWordFile: string) returns (ids: seq<nat>)
    requires Distinct(dictionary)
    ensures forall k :: 0 <= k < |ids| ==> ids[k] < |dictionary|
    ensures forall k, l :: 0 <= k < l < |ids| ==> ids[k] < ids[l]
    ensures forall i :: 0 <= i < |dictionary| ==>
      (i in ids <==> dictionary[i] in StopWords(stopWordFile))
  {
    var stopWords := Split(stopWordFile, StopWordSeparator);
    ids := [];
    for i := 0 to |dictionary|
      invariant forall k :: 0 <= k < |ids| ==> ids[k] < i
      invariant forall k, l :: 0 <= k < l < |ids| ==> ids[k] < ids[l]
      invariant forall j :: 0 <= j < i ==> (j in ids <==> dictionary[j] in stopWords)
    {
      if dictionary[i] in stopWords {
        var id := TokenToId(dictionary, dictionary[i]);
        ids := ids + [id];
      }
    }
  }

  // ---------------------------------------------------------------------
  // pre_processing

  /** The query tokens before stemming: the cleaned query split on single
      spaces, so empty tokens appear where spaces are adjacent. */
  function QueryWords(query: string): seq<string> {
    Split(Clean(query), QuerySeparator)
  }

  /** `pre_processing`. */
  function PreProcessing(query: string, stem: string -> string): (r: seq<string>)
    ensures |r| == CountChar(Clean(query), ' ') + 1
    ensures |r| == |QueryWords(query)|
    ensures forall j :: 0 <= j < |r| ==> r[j] == stem(QueryWords(query)[j])
  {
    SplitCharCount(Clean(query), ' ');
    Map(stem, QueryWords(query))
  }

  /** The query yields one token more than the cleaned query has spaces,
      each token is the stem of the pre-stem token at the same position, and
      the pre-stem tokens joined with single spaces give the cleaned query;
      no pre-stem token holds a space, a capital or punctuation. */
  lemma PreProcessingShape(query: string, stem: string -> string)
    ensures |PreProcessing(query, stem)| == CountChar(Clean(query), ' ') + 1
    ensures forall j :: 0 <= j < |QueryWords(query)| ==>
      PreProcessing(query, stem)[j] == stem(QueryWords(query)[j])
    ensures Join(QueryWords(query), QuerySeparator) == Clean(query)
    ensures forall w :: w in QueryWords(query) ==>
      !Contains(w, QuerySeparator) && forall c :: c in w ==> !IsUpper(c) && !IsPunctuation(c)
  {
    SplitJoin(Clean(query), QuerySeparator);
    SplitPartsLackSeparator(Clean(query), QuerySeparator);
    SplitPartsChars(Clean(query), QuerySeparator);
  }

  // ---------------------------------------------------------------------
  // custom_queries: ranking and display

  /** `sorted(enumerate(similarities), key=lambda kv: -kv[1])[:3]`, as the
      indices of the chosen paragraphs. */
  function Ranking(scores: seq<real>): (r: seq<nat>)
    ensures |r| == Min(TopK, |scores|)
    ensures forall k :: 0 <= k < |r| ==> r[k] < |scores|
  {
    assert forall k :: 0 <= k < |scores| ==> SortedIndices(scores)[k] in SortedIndices(scores);
    SortedIndices(scores)[..Min(TopK, |scores|)]
  }

  /** The ranking holds min(3, n) distinct valid indices, scores never
      increase along it, equal scores appear in ascending index order, and
      every index left out scores no higher than any index chosen (on a tie
      it comes after it). */
  lemma RankingIsTopK(scores: seq<real>)
    ensures |Ranking(scores)| == Min(TopK, |scores|)
    ensures forall k :: 0 <= k < |Ranking(scores)| ==> Ranking(scores)[k] < |scores|
    ensures forall k, l :: 0 <= k < l < |Ranking(scores)| ==>
      Ranking(scores)[k] != Ranking(scores)[l] &&
      scores[Ranking(scores)[k]] >= scores[Ranking(scores)[l]] &&
      (scores[Ranking(scores)[k]] == scores[Ranking(scores)[l]] ==> Ranking(scores)[k] < Ranking(scores)[l])
    ensures forall k, x :: 0 <= k < |Ranking(scores)| && 0 <= x < |scores| && x !in Ranking(scores) ==>
      Before(scores, Ranking(scores)[k], x)
  {
    var all := SortedIndices(scores);
    var top := Ranking(scores);
    forall k | 0 <= k < |top| ensures top[k] < |scores| {
      assert top[k] == all[k];
      assert all[k] in all;
    }
    forall k, l | 0 <= k < l < |top|
      ensures Before(scores, top[k], top[l])
    {
      assert top[k] == all[k] && top[l] == all[l];
    }
    forall k, x | 0 <= k < |top| && 0 <= x < |scores| && x !in top
      ensures Before(scores, top[k], x)
    {
      assert x in all;
      var m :| 0 <= m < |all| && all[m] == x;
      forall i | 0 <= i < |top| ensures all[i] != x {
        assert top[i] == all[i] && top[i] in top;
      }
      assert top[k] == all[k];
    }
  }

  /** The lines a paragraph is displayed with: its first five lines, or all
      of them when it has fewer. */
  function DisplayedLines(paragraph: string): (r: seq<string>)
    ensures 1 <= |r| <= MaxDisplayLines
    ensures |r| == Min(MaxDisplayLines, |Split(paragraph, LineSeparator)|)
    ensures |Split(paragraph, LineSeparator)| <= MaxDisplayLines ==> r == Split(paragraph, LineSeparator)
    ensures forall k :: 0 <= k < |r| ==> r[k] == Split(paragraph, LineSeparator)[k]
  {
    var lines := Split(paragraph, LineSeparator);
    lines[..Min(MaxDisplayLines, |lines|)]
  }

  /** The display loop: prints `paragraph[i]` for i in range(5) and stops
      after the last line. */
  method ShowParagraph(paragraph: string) returns (shown: seq<string>)
    ensures shown == DisplayedLines(paragraph)
    ensures 1 <= |shown| <= MaxDisplayLines
  {
    var lines := Split(paragraph, LineSeparator);
    shown := [];
    for i := 0 to MaxDisplayLines
      invariant i < |lines|
      invariant shown == lines[..i]
    {
      shown := shown + [lines[i]];
      if i + 1 == |lines| {
        break;
      }
    }
  }

  /** Displayed lines contain no line break; a paragraph of at most five
      lines is displayed in full. */
  lemma DisplayedLinesShape(paragraph: string)
    ensures forall line :: line in DisplayedLines(paragraph) ==> !Contains(line, LineSeparator)
    ensures |Split(paragraph, LineSeparator)| <= MaxDisplayLines ==>
      Join(DisplayedLines(paragraph), LineSeparator) == paragraph
  {
    var lines := Split(paragraph, LineSeparator);
    SplitPartsLackSeparator(paragraph, LineSeparator);
    SplitJoin(paragraph, LineSeparator);
    forall line | line in DisplayedLines(paragraph) ensures line in lines {
      var k :| 0 <= k < |DisplayedLines(paragraph)| && DisplayedLines(paragraph)[k] == line;
      assert lines[k] == line;
    }
    if |lines| <= MaxDisplayLines {
      assert lines[..|lines|] == lines;
    }
  }

  /** One displayed result: the 1-based paragraph number and its lines. */
  datatype Shown = Shown(number: nat, lines: seq<string>)

  /** The result loop of `custom_queries`: for each ranked index, the
      paragraph number index + 1 and the first lines of that paragraph. */
  method ShowResults(scores: seq<real>, paragraphs: seq<string>) returns (results: seq<Shown>)
    requires |scores| == |paragraphs|
    ensures |results| == Min(TopK, |scores|)
    ensures forall k :: 0 <= k < |results| ==>
      1 <= results[k].number <= |paragraphs| &&
      results[k].number == Ranking(scores)[k] + 1 &&
      results[k].lines == DisplayedLines(paragraphs[Ranking(scores)[k]])
  {
    var top := Ranking(scores);
    RankingIsTopK(scores);
    results := [];
    for k := 0 to |top|
      invariant |results| == k
      invariant forall j :: 0 <= j < k ==>
        results[j] == Shown(top[j] + 1, DisplayedLines(paragraphs[top[j]]))
    {
      var index := top[k];
      var lines := ShowParagraph(paragraphs[index]);
      results := results + [Shown(index + 1, lines)];
    }
  }
}
