/** The paragraph preprocessing of `assignment_3/queries.py`: unlike
    `assignment3.py`, the whole text is lower-cased and stripped of
    punctuation before it is split into paragraphs and filtered, and only
    the stemmed tokens are returned. The Porter stemmer is the parameter
    `stem`. */
module Queries {
  import opened PyText
  import opened Lists

  const ParagraphSeparator: string := "\n\n"
  const BoilerplateMarker: string := "gutenberg"

  /** The segments of the cleaned text. */
  function CleanSegments(text: string): seq<string> {
    Split(Clean(text), ParagraphSeparator)
  }

  /** A cleaned segment survives when it is not empty and does not contain
      the marker. */
  predicate IsKept(segment: string)
    ensures IsKept(segment) <==>
      segment != "" && forall j :: !OccursAt(segment, BoilerplateMarker, j)
  {
    segment != "" && !Contains(segment, BoilerplateMarker)
  }

  /** The paragraphs `process_text` goes on to tokenise. */
  function KeptParagraphs(text: string): seq<string> {
    Filter(CleanSegments(text), IsKept)
  }

  /** `process_text`. */
  method ProcessText(text: string, stem: string -> string) returns (tokens: seq<seq<string>>)
    ensures |tokens| == |KeptParagraphs(text)|
    ensures forall i :: 0 <= i < |tokens| ==> tokens[i] == Map(stem, Words(KeptParagraphs(text)[i]))
  {
    var paragraphs := Split(Clean(text), ParagraphSeparator);
    var kept := RemoveHeaderAndFooter(paragraphs);
    tokens := TokenizeParagraphs(kept, stem);
  }

  /** The filtering loop of `process_text`: appends every cleaned segment
      that is non-empty and lacks the marker. */
  method RemoveHeaderAndFooter(segments: seq<string>) returns (paragraphs: seq<string>)
    ensures paragraphs == Filter(segments, IsKept)
  {
    paragraphs := [];
    for k := 0 to |segments|
      invariant paragraphs == Filter(segments[..k], IsKept)
    {
      var segment := segments[k];
      ghost var prefix := segments[..k + 1];
      assert prefix[..k] == segments[..k] && prefix[k] == segment;
      assert Filter(prefix, IsKept) == paragraphs + (if IsKept(segment) then [segment] else []);
      if segment != "" {
        if !Contains(segment, BoilerplateMarker) {
          paragraphs := paragraphs + [segment];
        }
      }
    }
    assert segments[..|segments|] == segments;
  }

  /** The two loops of `process_text` over a preallocated list: the first
      stores the words of each paragraph, the second overwrites each entry
      with the stems of those words. */
  method TokenizeParagraphs(paragraphs: seq<string>, stem: string -> string)
    returns (tokens: seq<seq<string>>)
    ensures |tokens| == |paragraphs|
    ensures forall i :: 0 <= i < |paragraphs| ==> tokens[i] == Map(stem, Words(paragraphs[i]))
  {
    var tokenize := new seq<string>[|paragraphs|];
    for i := 0 to |paragraphs|
      invariant forall j :: 0 <= j < i ==> tokenize[j] == Words(paragraphs[j])
    {
      tokenize[i] := Words(paragraphs[i]);
    }
    for i := 0 to |paragraphs|
      invariant forall j :: 0 <= j < i ==> tokenize[j] == Map(stem, Words(paragraphs[j]))
      invariant forall j :: i <= j < |paragraphs| ==> tokenize[j] == Words(paragraphs[j])
    {
      tokenize[i] := Map(stem, tokenize[i]);
    }
    tokens := tokenize[..];
  }

  /** Joining the segments with the separator gives back the cleaned text. */
  lemma CleanSegmentsJoin(text: string)
    ensures Join(CleanSegments(text), ParagraphSeparator) == Clean(text)
  {
    SplitJoin(Clean(text), ParagraphSeparator);
  }

  /** The kept paragraphs are, in order, the cleaned segments that are
      non-empty and lack the marker; each is free of upper case and
      punctuation. */
  lemma KeptParagraphsShape(text: string)
    ensures forall p :: p in KeptParagraphs(text) <==> p in CleanSegments(text) && IsKept(p)
    ensures forall p, c :: p in KeptParagraphs(text) && c in p ==> !IsUpper(c) && !IsPunctuation(c)
  {
    SplitPartsChars(Clean(text), ParagraphSeparator);
  }

  /** Every token before stemming is a clean word, and stemming keeps the
      number and order of the tokens of every paragraph. */
  lemma TokensAreCleanWords(text: string, stem: string -> string)
    ensures forall i, w :: 0 <= i < |KeptParagraphs(text)| && w in Words(KeptParagraphs(text)[i]) ==>
      IsCleanWord(w)
    ensures forall i :: 0 <= i < |KeptParagraphs(text)| ==>
      |Map(stem, Words(KeptParagraphs(text)[i]))| == |Words(KeptParagraphs(text)[i])|
  {
    var kept := KeptParagraphs(text);
    KeptParagraphsShape(text);
    forall i | 0 <= i < |kept| ensures forall w :: w in Words(kept[i]) ==> IsCleanWord(w) {
      assert kept[i] in kept;
      WordsOfCleanText(kept[i]);
    }
  }
}
