// Worked examples of the genre tokenizer's splitBagOfWords, each proved from
// the definitions.

module GenreTokenizerExamples {
  import opened Text
  import opened Utils
  import opened GenreMaps
  import opened GenreMapFacts
  import opened GenreTokenizer

  /** One token through three maps, each step given by an entry or by the
      token's absence. */
  lemma ThroughMaps(t: string, m1: TokenMap, m2: TokenMap, m3: TokenMap)
    ensures MapTokenList(MapTokenList(MapTokenList([t], m1), m2), m3) ==
      MapTokenList(MapTokenList(MapToken(m1, t), m2), m3)
  {
    MapTokenListOne(t, m1);
  }

  lemma UnmappedPair(a: string, b: string, m: TokenMap)
    requires a !in m && b !in m
    ensures MapTokenList([a, b], m) == [a, b]
  {
    MapTokenListUnmapped([a, b], m);
  }

  lemma UnmappedOne(a: string, m: TokenMap)
    requires a !in m
    ensures MapTokenList([a], m) == [a]
  {
    MapTokenListOne(a, m);
  }

  /** 'neoclassical' becomes 'neoclassic' and then 'new', 'classic'. */
  lemma NeoclassicalExample(t: string)
    requires t == "neoclassical"
    ensures MapTokenList(MapTokenList(MapTokenList([t], MapTokens), MapCore), EvenTheBigBoys)
      == ["new", "classic"]
  {
    NeoclassicalEntries();
    ThroughMaps(t, MapTokens, MapCore, EvenTheBigBoys);
    MapTokenListOne("neoclassic", MapCore);
    UnmappedPair("new", "classic", EvenTheBigBoys);
  }

  /** 'deathcore' passes the first two maps and keeps itself in the third. */
  lemma DeathcoreExample(t: string)
    requires t == "deathcore"
    ensures MapTokenList(MapTokenList(MapTokenList([t], MapTokens), MapCore), EvenTheBigBoys)
      == ["deathcore", "death", "metal", "hardcore"]
  {
    DeathcoreEntries();
    ThroughMaps(t, MapTokens, MapCore, EvenTheBigBoys);
    UnmappedOne(t, MapCore);
    MapTokenListOne(t, EvenTheBigBoys);
  }

  /** A text without an apostrophe or an 'a' is left alone by the first
      four replacements. */
  lemma FirstReplacementsSkip(t: string)
    requires '\'' !in t && 'a' !in t
    ensures forall j :: 0 <= j < 4 ==> ReplaceAll(t, PreSplitReplace[j].0, PreSplitReplace[j].1) == t
  {
    ReplaceAllAbsent(t, " 'n' ", " ", '\'');
    ReplaceAllAbsent(t, " n' ", " ", '\'');
    ReplaceAllAbsent(t, "'n'roll", " roll", '\'');
    ReplaceAllAbsent(t, "a cappella", "a-cappella", 'a');
  }

  /** A text without a zero-width space or an 'm' is left alone by the last two. */
  lemma LastReplacementsSkip(t: string)
    requires '\U{200B}' !in t && 'm' !in t
    ensures forall j :: 5 <= j < 7 ==> ReplaceAll(t, PreSplitReplace[j].0, PreSplitReplace[j].1) == t
  {
    ReplaceAllAbsent(t, "\U{200B}", "", '\U{200B}');
    ReplaceAllAbsent(t, "middle eastern", "middle-eastern", 'm');
  }

  lemma PostRockJoined(t: string)
    requires t == "post rock"
    ensures ReplaceAll(t, "post ", "post-") == "post-rock"
  {
    assert t[..5] == "post " && t[5..] == "rock";
  }

  lemma PostRockFirstFour(t: string, rs: seq<(string, string)>)
    requires t == "post rock" && rs == PreSplitReplace
    ensures ApplyReplacements(t, rs) == ApplyReplacements(t, rs[4..])
  {
    FirstReplacementsSkip(t);
    ApplyReplacementsSkip(t, rs, 0, 4);
    assert rs[0..] == rs;
  }

  lemma PostRockFifth(t: string, u: string, rs: seq<(string, string)>)
    requires t == "post rock" && u == "post-rock" && rs == PreSplitReplace
    ensures ApplyReplacements(t, rs[4..]) == ApplyReplacements(u, rs[5..])
  {
    ApplyReplacementsStep(t, rs, 4);
    assert rs[4] == ("post ", "post-");
    PostRockJoined(t);
  }

  /** The last two replacements leave a text without a zero-width space or
      an 'm' alone. */
  lemma LastTwoSkipped(t: string, rs: seq<(string, string)>)
    requires '\U{200B}' !in t && 'm' !in t && rs == PreSplitReplace
    ensures ApplyReplacements(t, rs[5..]) == t
  {
    LastReplacementsSkip(t);
    ApplyReplacementsSkip(t, rs, 5, 7);
    assert rs[7..] == [];
  }

  lemma PostRockReplaced(t: string, u: string)
    requires t == "post rock" && u == "post-rock"
    ensures ApplyReplacements(t, PreSplitReplace) == u
  {
    PostRockFirstFour(t, PreSplitReplace);
    PostRockFifth(t, u, PreSplitReplace);
    LastTwoSkipped(u, PreSplitReplace);
  }

  lemma PostRockSplits(t: string)
    requires t == "post-rock"
    ensures Keep(SlashSpaceSplits(t)) == [t]
  {
    SplitNoSep(t, '/');
    SplitNoSep(t, ' ');
    assert Flatten([[t]]) == [t] + Flatten([]);
    assert Keep([t]) == [t];
  }

  lemma PostRockMapped(t: string)
    requires t == "post-rock"
    ensures MapTokenList([t], MapTokens) == [t]
    ensures MapTokenList([t], MapCore) == ["post", "rock"]
    ensures MapTokenList(["post", "rock"], EvenTheBigBoys) == ["post", "rock"]
  {
    PostRockEntries();
    UnmappedOne(t, MapTokens);
    MapTokenListOne(t, MapCore);
    UnmappedPair("post", "rock", EvenTheBigBoys);
  }

  lemma PostRockTokens(t: string)
    requires t == "post-rock"
    ensures TokensOf(t) == ["post", "rock"]
  {
    PostRockSplits(t);
    PostRockMapped(t);
  }

  /** "post rock" is joined to "post-rock" and split again by the core map. */
  lemma PostRockExample(text: string)
    requires text == "post rock"
    ensures BagOfWords(text) == ["post", "rock"]
  {
    var u := "post-rock";
    PostRockReplaced(text, u);
    PostRockTokens(u);
  }

  lemma RockNRollMatch(t: string)
    requires t == " 'n' roll"
    ensures ReplaceAll(t, " 'n' ", " ") == " roll"
  {
    assert t[..5] == " 'n' " && t[5..] == "roll";
  }

  lemma RockNRollFirst(t: string, p: string, u: string)
    requires p == "rock" && u == " 'n' roll" && t == p + u
    ensures ReplaceAll(t, " 'n' ", " ") == "rock roll"
  {
    ReplaceAllPrefix(p, u, " 'n' ", " ");
    RockNRollMatch(u);
  }

  lemma RockNRollFirstStep(t: string, u: string, rs: seq<(string, string)>)
    requires t == "rock 'n' roll" && u == "rock roll" && rs == PreSplitReplace
    ensures ApplyReplacements(t, rs) == ApplyReplacements(u, rs[1..])
  {
    ApplyReplacementsStep(t, rs, 0);
    assert rs[0] == (" 'n' ", " ") && rs[0..] == rs;
    assert t == "rock" + " 'n' roll";
    RockNRollFirst(t, "rock", " 'n' roll");
  }

  lemma RockRollMiddle(t: string, rs: seq<(string, string)>)
    requires t == "rock roll" && rs == PreSplitReplace
    ensures ApplyReplacements(t, rs[1..]) == ApplyReplacements(t, rs[4..])
  {
    FirstReplacementsSkip(t);
    ApplyReplacementsSkip(t, rs, 1, 4);
  }

  lemma RockRollPost(t: string, rs: seq<(string, string)>)
    requires t == "rock roll" && rs == PreSplitReplace
    ensures ApplyReplacements(t, rs[4..]) == ApplyReplacements(t, rs[5..])
  {
    ReplaceAllAbsent(t, "post ", "post-", 'p');
    assert rs[4] == ("post ", "post-");
    ApplyReplacementsStep(t, rs, 4);
  }

  lemma RockNRollReplaced(t: string, u: string)
    requires t == "rock 'n' roll" && u == "rock roll"
    ensures ApplyReplacements(t, PreSplitReplace) == u
  {
    RockNRollFirstStep(t, u, PreSplitReplace);
    RockRollMiddle(u, PreSplitReplace);
    RockRollPost(u, PreSplitReplace);
    LastTwoSkipped(u, PreSplitReplace);
  }

  lemma RockNRollSplits(t: string, a: string, b: string)
    requires a == "rock" && b == "roll" && t == a + [' '] + b
    ensures SlashSpaceSplits(t) == [a, b]
  {
    assert '/' !in t by {
      assert forall x :: x in t ==> x in a || x == ' ' || x in b;
    }
    SplitNoSep(t, '/');
    SplitAround(a, b, ' ');
    SplitNoSep(a, ' ');
    SplitNoSep(b, ' ');
    assert Flatten([[a, b]]) == [a, b] + Flatten([]);
  }

  lemma RockNRollKept(words: seq<string>)
    requires words == ["rock", "roll"]
    ensures Keep(words) == words
  {
    assert words[1..] == ["roll"];
    assert Keep(["roll"]) == ["roll"];
  }

  lemma RockNRollMapped(words: seq<string>)
    requires words == ["rock", "roll"]
    ensures MapTokenList(words, MapTokens) == words
    ensures MapTokenList(words, MapCore) == words
    ensures MapTokenList(words, EvenTheBigBoys) == words
  {
    RockRollEntries();
    UnmappedPair("rock", "roll", MapTokens);
    UnmappedPair("rock", "roll", MapCore);
    UnmappedPair("rock", "roll", EvenTheBigBoys);
  }

  lemma RockNRollTokens(t: string)
    requires t == "rock roll"
    ensures TokensOf(t) == ["rock", "roll"]
  {
    assert t == "rock" + [' '] + "roll";
    RockNRollSplits(t, "rock", "roll");
    RockNRollKept(["rock", "roll"]);
    RockNRollMapped(["rock", "roll"]);
  }

  /** The apostrophes of "rock 'n' roll" go, leaving the two words. */
  lemma RockNRollExample(text: string)
    requires text == "rock 'n' roll"
    ensures BagOfWords(text) == ["rock", "roll"]
  {
    var u := "rock roll";
    RockNRollReplaced(text, u);
    RockNRollTokens(u);
  }
}
