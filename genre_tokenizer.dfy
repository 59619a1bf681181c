// The genre tokenizer: turns a free-text genre description such as
// "Atmospheric Black/Folk Metal (early), Post-Rock" into a bag of lower-case
// genre words.

module GenreTokenizer {
  import opened Wrappers
  import opened Text
  import opened Utils
  import opened GenreMaps
  import opened GenreMapFacts

  // ---------------------------------------------------------------------
  // allgrams

  /** allgrams(text): the pieces of text between single spaces. */
  function Allgrams(text: string): (r: seq<string>)
    ensures |r| >= 1
    ensures forall i :: 0 <= i < |r| ==> ' ' !in r[i]
    ensures Join(r, ' ') == text
  {
    JoinSplit(text, ' ');
    Split(text, ' ')
  }

  // ---------------------------------------------------------------------
  // normalizeWhitespace

  /** re.sub(r'\s+', ' ', s): every run of white space becomes one space. */
  function CollapseWhitespace(s: string): (r: string)
    ensures forall k :: 0 <= k < |r| && IsSpace(r[k]) ==> r[k] == ' '
    ensures forall k :: 0 <= k < |r| - 1 ==> !(r[k] == ' ' && r[k + 1] == ' ')
    ensures (r != [] && r[0] == ' ') <==> (s != [] && IsSpace(s[0]))
    ensures r == [] <==> s == []
    decreases |s|
  {
    if s == [] then []
    else if IsSpace(s[0]) then [' '] + CollapseWhitespace(LStrip(s[1..]))
    else [s[0]] + CollapseWhitespace(s[1..])
  }

  /** White space only as single ' ' characters. */
  predicate SingleSpaced(s: string) {
    (forall k :: 0 <= k < |s| && IsSpace(s[k]) ==> s[k] == ' ') &&
    (forall k :: 0 <= k < |s| - 1 ==> !(s[k] == ' ' && s[k + 1] == ' '))
  }

  /** What normalizeWhitespace promises: no white space at either end and
      single spaces between the non-space characters. */
  predicate Normalized(s: string) {
    SingleSpaced(s) && (s == [] || (!IsSpace(s[0]) && !IsSpace(s[|s| - 1])))
  }

  /** The non-space characters of s, in order. */
  function NonSpace(s: string): string
    decreases |s|
  {
    if s == [] then [] else (if IsSpace(s[0]) then [] else [s[0]]) + NonSpace(s[1..])
  }

  lemma {:induction false} NonSpaceAppend(a: string, b: string)
    ensures NonSpace(a + b) == NonSpace(a) + NonSpace(b)
    decreases |a|
  {
    if a == [] {
      assert a + b == b;
    } else {
      assert (a + b)[1..] == a[1..] + b;
      NonSpaceAppend(a[1..], b);
    }
  }

  lemma {:induction false} NonSpaceOfSpaces(s: string)
    requires forall k :: 0 <= k < |s| ==> IsSpace(s[k])
    ensures NonSpace(s) == []
    decreases |s|
  {
    if s != [] {
      NonSpaceOfSpaces(s[1..]);
    }
  }

  lemma NonSpaceLStrip(s: string)
    ensures NonSpace(LStrip(s)) == NonSpace(s)
  {
    var r := LStrip(s);
    var d := |s| - |r|;
    assert s == s[..d] + r;
    NonSpaceAppend(s[..d], r);
    NonSpaceOfSpaces(s[..d]);
  }

  lemma NonSpaceRStrip(s: string)
    ensures NonSpace(RStrip(s)) == NonSpace(s)
  {
    var r := RStrip(s);
    assert s == r + s[|r|..];
    NonSpaceAppend(r, s[|r|..]);
    NonSpaceOfSpaces(s[|r|..]);
  }

  /** Collapsing white space keeps every other character, in order. */
  lemma {:induction false} CollapseKeepsNonSpace(s: string)
    ensures NonSpace(CollapseWhitespace(s)) == NonSpace(s)
    decreases |s|
  {
    if s != [] {
      var r := CollapseWhitespace(s);
      if IsSpace(s[0]) {
        CollapseKeepsNonSpace(LStrip(s[1..]));
        NonSpaceLStrip(s[1..]);
        assert r[1..] == CollapseWhitespace(LStrip(s[1..]));
      } else {
        CollapseKeepsNonSpace(s[1..]);
        assert r[1..] == CollapseWhitespace(s[1..]);
      }
    }
  }

  lemma RStripNoop(s: string)
    requires s == [] || !IsSpace(s[|s| - 1])
    ensures RStrip(s) == s
  {
  }

  lemma LStripNoop(s: string)
    requires s == [] || !IsSpace(s[0])
    ensures LStrip(s) == s
  {
  }

  lemma SingleSpacedSlice(s: string, i: nat, j: nat)
    requires SingleSpaced(s) && i <= j <= |s|
    ensures SingleSpaced(s[i..j])
  {
    var t := s[i..j];
    assert forall k :: 0 <= k < |t| ==> t[k] == s[i + k];
  }

  lemma StripSingleSpaced(c: string)
    requires SingleSpaced(c)
    ensures Normalized(Strip(c)) && RStrip(Strip(c)) == Strip(c)
  {
    var i := StripIsSlice(c);
    SingleSpacedSlice(c, i, i + |Strip(c)|);
    StripEnds(c);
  }

  /** normalizeWhitespace(text) */
  function NormalizeWhitespace(text: string): (r: string)
    ensures Normalized(r)
  {
    var c := CollapseWhitespace(text);
    StripSingleSpaced(c);
    RStrip(Strip(c))
  }

  /** Normalizing keeps every non-space character, in order. */
  lemma NormalizeKeepsNonSpace(text: string)
    ensures NonSpace(NormalizeWhitespace(text)) == NonSpace(text)
  {
    var c := CollapseWhitespace(text);
    CollapseKeepsNonSpace(text);
    NonSpaceLStrip(c);
    NonSpaceRStrip(LStrip(c));
    StripEnds(c);
  }

  lemma {:induction false} CollapseFixed(s: string)
    requires SingleSpaced(s)
    ensures CollapseWhitespace(s) == s
    decreases |s|
  {
    if s != [] {
      SingleSpacedSlice(s, 1, |s|);
      CollapseFixed(s[1..]);
      if IsSpace(s[0]) {
        if |s| > 1 {
          assert s[1..][0] == s[1];
          assert !IsSpace(s[1]);
        }
        LStripNoop(s[1..]);
      }
    }
  }

  /** Normalizing twice is normalizing once. */
  lemma NormalizeIdempotent(text: string)
    ensures NormalizeWhitespace(NormalizeWhitespace(text)) == NormalizeWhitespace(text)
  {
    var n := NormalizeWhitespace(text);
    CollapseFixed(n);
    LStripNoop(n);
    RStripNoop(n);
  }

  // ---------------------------------------------------------------------
  // removeParens

  /** Where the lazy group `.*?\)` that follows a '(' ends in t: at the first
      ')', provided no line break comes before it ('.' does not match a line
      break); None when there is no such ')'. */
  function CloseAt(t: string): (r: Option<nat>)
    ensures r.Some? ==> r.value < |t| && t[r.value] == ')'
    ensures r.Some? ==> forall k :: 0 <= k < r.value ==> t[k] != ')' && t[k] != '\n'
    ensures r.None? && '\n' !in t ==> ')' !in t
    decreases |t|
  {
    if t == [] then None
    else if t[0] == ')' then Some(0)
    else if t[0] == '\n' then None
    else
      match CloseAt(t[1..])
      case None => None
      case Some(k) => Some(k + 1)
  }

  /** re.sub(r'\(.*?\)', '', s): each '(' up to the next ')' is removed,
      scanning left to right. */
  function DropParenGroups(s: string): (r: string)
    ensures forall k :: 0 <= k < |r| ==> r[k] in s
    decreases |s|
  {
    if s == [] then []
    else if s[0] == '(' && CloseAt(s[1..]).Some? then
      var rest := s[CloseAt(s[1..]).value + 2..];
      assert forall x :: x in rest ==> x in s;
      DropParenGroups(rest)
    else
      assert forall x :: x in s[1..] ==> x in s;
      [s[0]] + DropParenGroups(s[1..])
  }

  /** No '(' is followed, anywhere later, by a ')'. */
  predicate NoGroupLeft(s: string) {
    forall i, j :: 0 <= i < j < |s| && s[i] == '(' ==> s[j] != ')'
  }

  lemma NoGroupLeftSlice(s: string, i: nat, j: nat)
    requires NoGroupLeft(s) && i <= j <= |s|
    ensures NoGroupLeft(s[i..j])
  {
    var t := s[i..j];
    assert forall k :: 0 <= k < |t| ==> t[k] == s[i + k];
  }

  /** On a single line, no parenthesised group survives the removal. */
  lemma {:induction false} DropParenGroupsLeavesNone(s: string)
    requires '\n' !in s
    ensures NoGroupLeft(DropParenGroups(s))
    decreases |s|
  {
    if s != [] {
      if s[0] == '(' && CloseAt(s[1..]).Some? {
        var rest := s[CloseAt(s[1..]).value + 2..];
        assert forall x :: x in rest ==> x in s;
        DropParenGroupsLeavesNone(rest);
      } else {
        assert forall x :: x in s[1..] ==> x in s;
        DropParenGroupsLeavesNone(s[1..]);
        var rest := DropParenGroups(s[1..]);
        var r := DropParenGroups(s);
        assert r == [s[0]] + rest;
        if s[0] == '(' {
          assert ')' !in s[1..];
          forall j | 0 < j < |r|
            ensures r[j] != ')'
          {
            assert r[j] == rest[j - 1];
            assert rest[j - 1] in s[1..];
          }
        }
        forall i, j | 0 < i < j < |r| && r[i] == '('
          ensures r[j] != ')'
        {
          assert r[i] == rest[i - 1] && r[j] == rest[j - 1];
        }
      }
    }
  }

  /** A text without '(' has nothing to remove. */
  lemma {:induction false} DropParenGroupsPlain(s: string)
    requires '(' !in s
    ensures DropParenGroups(s) == s
    decreases |s|
  {
    if s != [] {
      DropParenGroupsPlain(s[1..]);
    }
  }

  /** removeParens(text) */
  function RemoveParens(text: string): (r: string)
    ensures r == [] || (!IsSpace(r[0]) && !IsSpace(r[|r| - 1]))
  {
    var d := DropParenGroups(text);
    StripEnds(d);
    RStrip(Strip(d))
  }

  /** On a single line, what removeParens leaves has no '(' ... ')' left. */
  lemma RemoveParensLeavesNone(text: string)
    requires '\n' !in text
    ensures NoGroupLeft(RemoveParens(text))
  {
    var d := DropParenGroups(text);
    DropParenGroupsLeavesNone(text);
    var i := StripIsSlice(d);
    NoGroupLeftSlice(d, i, i + |Strip(d)|);
    StripEnds(d);
  }

  /** Text without '(' is only stripped. */
  lemma RemoveParensPlain(text: string)
    requires '(' !in text
    ensures RemoveParens(text) == Strip(text)
  {
    DropParenGroupsPlain(text);
    StripEnds(text);
  }

  // ---------------------------------------------------------------------
  // splitBagOfWords

  /** re.sub(pat, sub, s) for a pattern with no special characters: the
      occurrences of pat, found left to right without overlapping, are
      replaced by sub. */
  function ReplaceAll(s: string, pat: string, sub: string): (r: string)
    requires |pat| > 0
    decreases |s|
  {
    if |s| < |pat| then s
    else if s[..|pat|] == pat then sub + ReplaceAll(s[|pat|..], pat, sub)
    else [s[0]] + ReplaceAll(s[1..], pat, sub)
  }

  /** A pattern with a character the text lacks changes nothing. */
  lemma {:induction false} ReplaceAllAbsent(s: string, pat: string, sub: string, c: char)
    requires |pat| > 0 && c in pat && c !in s
    ensures ReplaceAll(s, pat, sub) == s
    decreases |s|
  {
    if |s| >= |pat| {
      assert forall x :: x in s[..|pat|] ==> x in s;
      assert forall x :: x in s[1..] ==> x in s;
      ReplaceAllAbsent(s[1..], pat, sub, c);
    }
  }

  /** A prefix without the pattern's first character comes through untouched. */
  lemma {:induction false} ReplaceAllPrefix(p: string, s: string, pat: string, sub: string)
    requires |pat| > 0 && pat[0] !in p
    ensures ReplaceAll(p + s, pat, sub) == p + ReplaceAll(s, pat, sub)
    decreases |p|
  {
    if p != [] {
      var t := p + s;
      assert t[0] == p[0] && t[1..] == p[1..] + s;
      if |t| >= |pat| {
        assert t[..|pat|][0] != pat[0];
      }
      ReplaceAllPrefix(p[1..], s, pat, sub);
      assert p == [p[0]] + p[1..];
    } else {
      assert p + s == s;
    }
  }

  /** Replacing a single character by text without it removes that character. */
  lemma {:induction false} ReplaceAllRemovesChar(s: string, c: char, sub: string)
    requires c !in sub
    ensures c !in ReplaceAll(s, [c], sub)
    decreases |s|
  {
    if |s| >= 1 {
      ReplaceAllRemovesChar(s[1..], c, sub);
      assert s[0] == c ==> s[..1] == [c];
    }
  }

  /** The replacements applied before splitting, in order. */
  const PreSplitReplace: seq<(string, string)> :=
    [(" 'n' ", " "),
     (" n' ", " "),
     ("'n'roll", " roll"),
     ("a cappella", "a-cappella"),
     ("post ", "post-"),
     ("\U{200B}", ""),
     ("middle eastern", "middle-eastern")]

  predicate NonEmptyPatterns(rs: seq<(string, string)>) {
    forall i :: 0 <= i < |rs| ==> |rs[i].0| > 0
  }

  /** The text after the replacements rs, each applied to the result of the
      ones before it. */
  function ApplyReplacements(text: string, rs: seq<(string, string)>): string
    requires NonEmptyPatterns(rs)
    decreases |rs|
  {
    if rs == [] then text
    else ApplyReplacements(ReplaceAll(text, rs[0].0, rs[0].1), rs[1..])
  }

  lemma {:induction false} ApplyReplacementsSnoc(text: string, rs: seq<(string, string)>, p: (string, string))
    requires NonEmptyPatterns(rs) && |p.0| > 0
    ensures NonEmptyPatterns(rs + [p])
    ensures ApplyReplacements(text, rs + [p]) == ReplaceAll(ApplyReplacements(text, rs), p.0, p.1)
    decreases |rs|
  {
    if rs == [] {
      assert rs + [p] == [p];
    } else {
      assert (rs + [p])[1..] == rs[1..] + [p];
      ApplyReplacementsSnoc(ReplaceAll(text, rs[0].0, rs[0].1), rs[1..], p);
    }
  }

  /** [token for token in tokens if token not in drop_tokens] */
  function Keep(tokens: seq<string>): (r: seq<string>)
    ensures forall i :: 0 <= i < |r| ==> r[i] !in DropTokens
    ensures forall i :: 0 <= i < |r| ==> r[i] in tokens
    ensures forall i :: 0 <= i < |tokens| && tokens[i] !in DropTokens ==> tokens[i] in r
    decreases |tokens|
  {
    if tokens == [] then []
    else
      var rest := Keep(tokens[1..]);
      assert forall x :: x in tokens[1..] ==> x in tokens;
      if tokens[0] in DropTokens then
        rest
      else
        [tokens[0]] + rest
  }

  /** The comprehension filters piece by piece, so order and multiplicity
      are those of the input. */
  lemma {:induction false} KeepAppend(a: seq<string>, b: seq<string>)
    ensures Keep(a + b) == Keep(a) + Keep(b)
    decreases |a|
  {
    if a == [] {
      assert a + b == b;
    } else {
      assert (a + b)[0] == a[0] && (a + b)[1..] == a[1..] + b;
      KeepAppend(a[1..], b);
    }
  }

  /** One token is kept exactly when it is not in the drop set. */
  lemma KeepOne(t: string)
    ensures Keep([t]) == if t in DropTokens then [] else [t]
  {
    assert [t][1..] == [];
  }

  /** The words of each '/'-piece of the text: flatten(t.split(' ') for t in text.split('/')). */
  function SlashSpaceSplits(text: string): seq<string>
  {
    var pieces := Split(text, '/');
    Flatten(seq(|pieces|, i requires 0 <= i < |pieces| => Split(pieces[i], ' ')))
  }

  function MapToken(m: TokenMap, token: string): seq<string> {
    if token in m then m[token] else [token]
  }

  /** map_token_list(tokens, m) */
  function MapTokenList(tokens: seq<string>, m: TokenMap): seq<string>
  {
    Flatten(seq(|tokens|, i requires 0 <= i < |tokens| => MapToken(m, tokens[i])))
  }

  /** The tokens after the replacements: split, drop, then the three maps in turn. */
  function TokensOf(replaced: string): seq<string>
  {
    var tokens := Keep(SlashSpaceSplits(replaced));
    MapTokenList(MapTokenList(MapTokenList(tokens, MapTokens), MapCore), EvenTheBigBoys)
  }

  /** splitBagOfWords(text) as a value. */
  function BagOfWords(text: string): seq<string>
  {
    TokensOf(ApplyReplacements(text, PreSplitReplace))
  }

  /** splitBagOfWords(text): the replacements one after another, then the
      split, drop and maps. */
  method SplitBagOfWords(text: string) returns (tokens: seq<string>)
    ensures tokens == BagOfWords(text)
  {
    var t := text;
    for i := 0 to |PreSplitReplace|
      invariant t == ApplyReplacements(text, PreSplitReplace[..i])
    {
      var (pat, sub) := PreSplitReplace[i];
      assert PreSplitReplace[..i + 1] == PreSplitReplace[..i] + [(pat, sub)];
      ApplyReplacementsSnoc(text, PreSplitReplace[..i], (pat, sub));
      t := ReplaceAll(t, pat, sub);
    }
    assert PreSplitReplace[..|PreSplitReplace|] == PreSplitReplace;
    tokens := TokensOf(t);
  }

  // Properties of map_token_list and of the tokens.

  lemma MapTokenListAppend(a: seq<string>, b: seq<string>, m: TokenMap)
    ensures MapTokenList(a + b, m) == MapTokenList(a, m) + MapTokenList(b, m)
  {
    var f := (t: string) => MapToken(m, t);
    var sa := seq(|a|, i requires 0 <= i < |a| => MapToken(m, a[i]));
    var sb := seq(|b|, i requires 0 <= i < |b| => MapToken(m, b[i]));
    var ab := a + b;
    assert seq(|ab|, i requires 0 <= i < |ab| => MapToken(m, ab[i])) == sa + sb;
    FlattenAppend(sa, sb);
  }

  /** Tokens the map does not mention go through unchanged. */
  lemma {:induction false} MapTokenListUnmapped(tokens: seq<string>, m: TokenMap)
    requires forall i :: 0 <= i < |tokens| ==> tokens[i] !in m
    ensures MapTokenList(tokens, m) == tokens
    decreases |tokens|
  {
    if tokens != [] {
      MapTokenListUnmapped(tokens[1..], m);
      assert tokens == [tokens[0]] + tokens[1..];
      MapTokenListAppend([tokens[0]], tokens[1..], m);
      assert MapTokenList([tokens[0]], m) == [tokens[0]] by {
        assert Flatten([[tokens[0]]]) == [tokens[0]] + Flatten([]);
      }
    }
  }

  /** A single token is replaced by its entry in the map. */
  lemma MapTokenListOne(token: string, m: TokenMap)
    ensures MapTokenList([token], m) == MapToken(m, token)
  {
    assert seq(1, i requires 0 <= i < 1 => MapToken(m, [token][i])) == [MapToken(m, token)];
    assert Flatten([MapToken(m, token)]) == MapToken(m, token) + Flatten([]);
  }

  /** Mapping good tokens through a map whose entries are good gives good tokens. */
  lemma MapTokenListGood(tokens: seq<string>, m: TokenMap)
    requires AllGoodTokens(tokens) && GoodMap(m)
    ensures AllGoodTokens(MapTokenList(tokens, m))
  {
    var s := seq(|tokens|, i requires 0 <= i < |tokens| => MapToken(m, tokens[i]));
    var r := MapTokenList(tokens, m);
    forall k | 0 <= k < |r|
      ensures GoodToken(r[k])
    {
      FlattenMembers(s, r[k]);
      var i :| 0 <= i < |s| && r[k] in s[i];
      var j :| 0 <= j < |s[i]| && s[i][j] == r[k];
      if tokens[i] !in m {
        assert s[i] == [tokens[i]];
      }
    }
  }

  /** Every split token is free of ' ' and '/'. */
  lemma SlashSpaceSplitsClean(text: string)
    ensures forall i :: 0 <= i < |SlashSpaceSplits(text)| ==>
      ' ' !in SlashSpaceSplits(text)[i] && '/' !in SlashSpaceSplits(text)[i]
  {
    var pieces := Split(text, '/');
    var s := seq(|pieces|, i requires 0 <= i < |pieces| => Split(pieces[i], ' '));
    var r := SlashSpaceSplits(text);
    forall k | 0 <= k < |r|
      ensures ' ' !in r[k] && '/' !in r[k]
    {
      FlattenMembers(s, r[k]);
      var i :| 0 <= i < |s| && r[k] in s[i];
      var j :| 0 <= j < |s[i]| && s[i][j] == r[k];
      SplitChars(pieces[i], ' ');
    }
  }

  /** No token of splitBagOfWords holds a space or a '/', and none is one of
      the dropped tokens. */
  lemma BagOfWordsGood(text: string)
    ensures AllGoodTokens(BagOfWords(text))
  {
    var splits := SlashSpaceSplits(ApplyReplacements(text, PreSplitReplace));
    SlashSpaceSplitsClean(ApplyReplacements(text, PreSplitReplace));
    var tokens := Keep(splits);
    forall i | 0 <= i < |tokens|
      ensures GoodToken(tokens[i])
    {
      var j :| 0 <= j < |splits| && splits[j] == tokens[i];
    }
    MapsAreGood();
    MapTokenListGood(tokens, MapTokens);
    MapTokenListGood(MapTokenList(tokens, MapTokens), MapCore);
    MapTokenListGood(MapTokenList(MapTokenList(tokens, MapTokens), MapCore), EvenTheBigBoys);
  }

  lemma ApplyReplacementsStep(text: string, rs: seq<(string, string)>, k: nat)
    requires NonEmptyPatterns(rs) && k < |rs|
    ensures ApplyReplacements(text, rs[k..]) ==
      ApplyReplacements(ReplaceAll(text, rs[k].0, rs[k].1), rs[k + 1..])
  {
    assert rs[k..][1..] == rs[k + 1..];
  }

  /** Replacements that leave the text as it is can be skipped. */
  lemma {:induction false} ApplyReplacementsSkip(t: string, rs: seq<(string, string)>, k: nat, m: nat)
    requires NonEmptyPatterns(rs) && k <= m <= |rs|
    requires forall j :: k <= j < m ==> ReplaceAll(t, rs[j].0, rs[j].1) == t
    ensures ApplyReplacements(t, rs[k..]) == ApplyReplacements(t, rs[m..])
    decreases m - k
  {
    if k < m {
      ApplyReplacementsStep(t, rs, k);
      ApplyReplacementsSkip(t, rs, k + 1, m);
    }
  }
}
