// Every token the three token maps produce is itself a clean token.

module GenreMapFacts {
  import opened GenreMaps

  /** Every token a map produces is one of the output words. */
  predicate FromVocabulary(m: TokenMap) {
    forall t :: t in m ==> forall i :: 0 <= i < |m[t]| ==> OutputWord(m[t][i])
  }

  lemma MapTokensVocabulary() ensures FromVocabulary(MapTokens) {}
  lemma MapCoreVocabulary() ensures FromVocabulary(MapCore) {}
  lemma EvenTheBigBoysVocabulary() ensures FromVocabulary(EvenTheBigBoys) {}
  lemma OutputWords1Good() ensures forall w :: w in OutputWords1 ==> GoodToken(w) {}
  lemma OutputWords2Good() ensures forall w :: w in OutputWords2 ==> GoodToken(w) {}
  lemma OutputWords3Good() ensures forall w :: w in OutputWords3 ==> GoodToken(w) {}
  lemma OutputWords4Good() ensures forall w :: w in OutputWords4 ==> GoodToken(w) {}

  lemma OutputWordsGood()
    ensures forall w :: OutputWord(w) ==> GoodToken(w)
  {
    OutputWords1Good();
    OutputWords2Good();
    OutputWords3Good();
    OutputWords4Good();
  }

  lemma VocabularyMapGood(m: TokenMap)
    requires FromVocabulary(m)
    ensures GoodMap(m)
  {
    OutputWordsGood();
  }

  /** The entries of the three maps are themselves good tokens. */
  lemma MapsAreGood()
    ensures GoodMap(MapTokens) && GoodMap(MapCore) && GoodMap(EvenTheBigBoys)
  {
    MapTokensVocabulary();
    MapCoreVocabulary();
    EvenTheBigBoysVocabulary();
    VocabularyMapGood(MapTokens);
    VocabularyMapGood(MapCore);
    VocabularyMapGood(EvenTheBigBoys);
  }

  // The entries the worked examples go through.

  lemma NeoclassicalEntries()
    ensures "neoclassical" in MapTokens && MapTokens["neoclassical"] == ["neoclassic"]
    ensures "neoclassic" in MapCore && MapCore["neoclassic"] == ["new", "classic"]
    ensures "new" !in EvenTheBigBoys && "classic" !in EvenTheBigBoys
  {}

  lemma DeathcoreEntries()
    ensures "deathcore" !in MapTokens && "deathcore" !in MapCore
    ensures "deathcore" in EvenTheBigBoys
    ensures EvenTheBigBoys["deathcore"] == ["deathcore", "death", "metal", "hardcore"]
  {}

  lemma PostRockEntries()
    ensures "post-rock" !in MapTokens
    ensures "post-rock" in MapCore && MapCore["post-rock"] == ["post", "rock"]
    ensures "post" !in EvenTheBigBoys && "rock" !in EvenTheBigBoys
  {}

  lemma RockRollEntries()
    ensures "rock" !in MapTokens && "roll" !in MapTokens
    ensures "rock" !in MapCore && "roll" !in MapCore
    ensures "rock" !in EvenTheBigBoys && "roll" !in EvenTheBigBoys
  {
    RockRollNotInMapTokens();
    RockRollNotInMapCore();
  }

  lemma RockRollNotInMapTokens() ensures "rock" !in MapTokens && "roll" !in MapTokens {}
  lemma RockRollNotInMapCore() ensures "rock" !in MapCore && "roll" !in MapCore {}
}
