/** Where the two versions of `process_text` differ: `assignment3.py`
    filters raw segments and cleans them only to tokenise them, while
    `queries.py` cleans the whole text before splitting and filtering. */
module Contrast {
  import opened PyText
  import A3 = Assignment3
  import Q = Queries
  import Lists

  /** A text made only of punctuation is one paragraph with no tokens in
      `assignment3.py` and no paragraph at all in `queries.py`. */
  lemma PunctuationOnlyText(text: string)
    requires text != ""
    requires forall c :: c in text ==> IsPunctuation(c)
    ensures A3.KeptParagraphs(text) == [text]
    ensures A3.Tokenize(text) == []
    ensures Q.KeptParagraphs(text) == []
  {
    forall j: nat | j + |A3.ParagraphSeparator| <= |text|
      ensures !OccursAt(text, A3.ParagraphSeparator, j)
    {
      assert text[j] in text;
      assert text[j..j + 2][0] == text[j];
    }
    assert A3.Segments(text) == [text];
    A3.BlankSegmentKept(text);
    assert [text][..0] == [];
    var cleaned := Clean(text);
    forall c | c in Lower(text) ensures IsPunctuation(c) {
      var k :| 0 <= k < |text| && Lower(text)[k] == c;
      assert text[k] in text;
    }
    StripPunctuationOfPunctuation(Lower(text));
    assert cleaned == [];
    assert Q.CleanSegments(text) == [""];
    assert [""][..0] == [];
  }

  /** The marker broken by punctuation: `queries.py` drops the paragraph,
      `assignment3.py` keeps it. */
  lemma InterruptedMarker()
    ensures A3.KeptParagraphs("Guten-berg") == ["Guten-berg"]
    ensures Q.KeptParagraphs("Guten-berg") == []
  {
    InterruptedMarkerKept();
    InterruptedMarkerDropped();
  }

  lemma InterruptedMarkerKept()
    ensures A3.KeptParagraphs("Guten-berg") == ["Guten-berg"]
  {
    var text := "Guten-berg";
    NoLineBreakInInterruptedMarker();
    SplitWithoutSeparator(text, A3.ParagraphSeparator);
    LowerInterruptedMarker();
    InterruptedMarkerLacksMarker();
    assert A3.IsKept(text);
    assert [text][..0] == [];
  }

  lemma NoLineBreakInInterruptedMarker()
    ensures '\n' !in "Guten-berg"
  {
  }

  lemma LowerInterruptedMarker()
    ensures Lower("Guten-berg") == "guten-berg"
  {
  }

  lemma InterruptedMarkerLacksMarker()
    ensures !Contains("guten-berg", "gutenberg")
  {
    var lower := "guten-berg";
    assert !OccursAt(lower, "gutenberg", 0) by {
      assert lower[0..9][5] == '-';
    }
    assert !OccursAt(lower, "gutenberg", 1) by {
      assert lower[1..10][0] == 'u';
    }
    ContainsIff(lower, "gutenberg");
  }

  lemma CleanInterruptedMarker()
    ensures Clean("Guten-berg") == "gutenberg"
  {
    LowerInterruptedMarker();
    StripInterruptedMarker();
  }

  lemma StripInterruptedMarker()
    ensures StripPunctuation("guten-berg") == "gutenberg"
  {
    var head, tail := "guten", "berg";
    assert head + ['-'] + tail == "guten-berg";
    assert head + tail == "gutenberg";
    StripTrailingPunctuation(head, '-');
    StripKeepsCleanSuffix(head + ['-'], tail);
  }

  lemma InterruptedMarkerDropped()
    ensures Q.KeptParagraphs("Guten-berg") == []
  {
    var cleaned := "gutenberg";
    assert '\n' !in cleaned;
    SplitWithoutSeparator(cleaned, Q.ParagraphSeparator);
    assert OccursAt(cleaned, Q.BoilerplateMarker, 0);
    ContainsIff(cleaned, Q.BoilerplateMarker);
    CleanInterruptedMarker();
    assert [cleaned][..0] == [];
  }

  /** Deleting punctuation can create a paragraph break: "a\n.\nb" is one
      paragraph in `assignment3.py` and two in `queries.py`. */
  lemma PunctuationMakesBreak()
    ensures A3.KeptParagraphs("a\n.\nb") == ["a\n.\nb"]
    ensures Q.KeptParagraphs("a\n.\nb") == ["a", "b"]
  {
    BreakNotInRawText();
    BreakInCleanText();
  }

  lemma BreakNotInRawText()
    ensures A3.KeptParagraphs("a\n.\nb") == ["a\n.\nb"]
  {
    var text := "a\n.\nb";
    forall j: nat | j + 2 <= |text| ensures !OccursAt(text, A3.ParagraphSeparator, j) {
      assert text[j..j + 2][0] == text[j] && text[j..j + 2][1] == text[j + 1];
    }
    assert A3.Segments(text) == [text];
    ContainsIff(Lower(text), A3.BoilerplateMarker);
    assert [text][..0] == [];
  }

  lemma CleanBreak()
    ensures Clean("a\n.\nb") == "a\n\nb"
  {
    var head, tail := "a\n", "\nb";
    assert Lower("a\n.\nb") == head + ['.'] + tail;
    assert head + tail == "a\n\nb";
    StripTrailingPunctuation(head, '.');
    StripKeepsCleanSuffix(head + ['.'], tail);
  }

  lemma SplitBreak()
    ensures Split("a\n\nb", "\n\n") == ["a", "b"]
  {
    var cleaned := "a\n\nb";
    assert !OccursAt(cleaned, "\n\n", 0) by {
      assert cleaned[0..2][0] == 'a';
    }
    assert OccursAt(cleaned, "\n\n", 1);
    assert FindFrom(cleaned, "\n\n", 0) == Some(1);
    assert cleaned[..1] == "a" && cleaned[3..] == "b";
    SplitWithoutSeparator("b", "\n\n");
  }

  lemma BreakInCleanText()
    ensures Q.KeptParagraphs("a\n.\nb") == ["a", "b"]
  {
    CleanBreak();
    SplitBreak();
    assert Q.CleanSegments("a\n.\nb") == ["a", "b"];
    BothPiecesKept();
  }

  lemma BothPiecesKept()
    ensures Lists.Filter(["a", "b"], Q.IsKept) == ["a", "b"]
  {
    assert Q.IsKept("a") && Q.IsKept("b");
    assert ["a", "b"][..1] == ["a"] && ["a"][..0] == [];
  }
}
