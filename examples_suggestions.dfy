/** Worked inputs for the normalisation of bot/frontend/src/app/page.tsx, lines 45-51. */
module SuggestionExamples {

  import opened Suggestions

  /** `raw` is the given pieces joined by the given separators, and every piece is clean. */
  predicate CleanlyJoined(raw: string, pieces: seq<string>, seps: seq<string>) {
    && |pieces| == |seps| + 1
    && (forall sep :: sep in seps ==> IsSeparator(sep))
    && (forall p :: p in pieces ==> SeparatorFree(p) && |p| > 0 && Bordered(p))
    && Join(pieces, seps) == raw
  }

  /** Each sentence is a clean piece: non-empty, bordered, with no separator inside. */
  lemma ProseSentencesAreClean(p: string)
    requires p == "Add a rug" || p == "Move the sofa."
    ensures SeparatorFree(p) && |p| > 0 && Bordered(p)
  {
  }

  lemma ProsePieces(raw: string)
    requires Join(["Add a rug", "Move the sofa."], [". "]) == raw
    ensures CleanlyJoined(raw, ["Add a rug", "Move the sofa."], [". "])
    ensures !MatchesOrdinal("Add a rug")
  {
    forall p | p in ["Add a rug", "Move the sofa."] ensures SeparatorFree(p) && |p| > 0 && Bordered(p) {
      ProseSentencesAreClean(p);
    }
    assert DigitRun("Add a rug") == 0;
  }

  /** Prose is cut at ". " only; a final '.' with nothing after it stays. */
  lemma ProseExample(raw: string)
    requires raw == "Add a rug. Move the sofa."
    ensures SuggestionArray(raw) == ["Add a rug", "Move the sofa."]
    ensures !IsNumbered(SuggestionArray(raw))
  {
    assert ["Add a rug", "Move the sofa."][1..] == ["Move the sofa."];
    ProsePieces(raw);
    CleanDecompositionSurvives(raw, ["Add a rug", "Move the sofa."], [". "]);
  }

  lemma TightOrdinalPieces(raw: string)
    requires Join(["1.Add"], []) == raw
    ensures CleanlyJoined(raw, ["1.Add"], [])
    ensures MatchesOrdinal("1.Add")
  {
    assert SeparatorFree("1.Add");
    assert DigitRun("1.Add"[1..]) == 0;
  }

  /** Only digits directly followed by '.' make the list numbered. */
  lemma TightOrdinalExample(raw: string)
    requires raw == "1.Add"
    ensures SuggestionArray(raw) == ["1.Add"]
    ensures IsNumbered(SuggestionArray(raw))
  {
    TightOrdinalPieces(raw);
    CleanDecompositionSurvives(raw, ["1.Add"], []);
  }

  /** Whitespace and newlines only. */
  lemma BlankExample(raw: string)
    requires raw == "  \n  \n"
    ensures SuggestionArray(raw) == []
    ensures !IsNumbered(SuggestionArray(raw))
  {
    BlankTextYieldsNothing(raw);
  }
}
