// GenreTokenizer.tokenize: the entry point of the genre tokenizer.  It
// cleans the genre text, splits it at commas, checks that no parenthesis
// survived, tokenizes each piece and checks the tokens.

module GenreTokenize {
  import opened Wrappers
  import opened Text
  import opened Utils
  import opened GenreMaps
  import opened GenreTokenizer

  /** The text tokenize splits at commas: white space normalised, lower case,
      parenthesised parts removed. */
  function CleanText(genreText: string): string {
    RemoveParens(Lower(NormalizeWhitespace(genreText)))
  }

  /** The first check of tokenize, on one comma piece. */
  predicate HasParenOrComma(piece: string) {
    '(' in piece || ')' in piece || ',' in piece
  }

  predicate AnyParenOrComma(texts: seq<string>) {
    exists i :: 0 <= i < |texts| && HasParenOrComma(texts[i])
  }

  /** The string members of bad_tokens; its None equals no string. */
  const BadTokenList: seq<string> := ["", "n'", "'n'"]

  /** The second check of tokenize: a bad token, or a token of length one. */
  predicate HasBadToken(tokens: seq<string>) {
    (exists k :: 0 <= k < |BadTokenList| && BadTokenList[k] in tokens) ||
    (exists j :: 0 <= j < |tokens| && |tokens[j]| == 1)
  }

  /** [token for text in texts for token in self.splitBagOfWords(text)] */
  function BagTokens(texts: seq<string>): seq<string> {
    FlatMap(BagOfWords, texts)
  }

  /** The tokens unless the check for bad tokens fails. */
  function CheckTokens(tokens: seq<string>): Result<seq<string>> {
    if HasBadToken(tokens) then Err(RuntimeError) else Ok(tokens)
  }

  /** What tokenize does once the cleaned text is split at commas. */
  function TokenizePieces(texts: seq<string>, splitMethod: string): Result<seq<string>> {
    if AnyParenOrComma(texts) then Err(RuntimeError)
    else if splitMethod == "bag-of-words" then CheckTokens(BagTokens(texts))
    else if splitMethod == "split2" then Err(NotModelled)
    else Err(ValueError)
  }

  /** What tokenize returns or raises for a tokenizer built with the given
      split method.  The 'split2' method is not part of this model. */
  function TokenizeSpec(genreText: string, splitMethod: string): Result<seq<string>> {
    TokenizePieces(Split(CleanText(genreText), ','), splitMethod)
  }

  lemma BagTokensPrefix(texts: seq<string>, i: nat)
    requires i < |texts|
    ensures BagTokens(texts[..i + 1]) == BagTokens(texts[..i]) + BagOfWords(texts[i])
  {
    assert texts[..i + 1] == texts[..i] + [texts[i]];
    FlatMapAppend(BagOfWords, texts[..i], [texts[i]]);
    FlatMapOne(BagOfWords, texts[i]);
  }

  /** The loop of tokenize that looks for a '(', ')' or ',' in each piece. */
  method FindParenOrComma(texts: seq<string>) returns (found: bool)
    ensures found == AnyParenOrComma(texts)
  {
    for i := 0 to |texts|
      invariant forall j :: 0 <= j < i ==> !HasParenOrComma(texts[j])
    {
      if '(' in texts[i] || ')' in texts[i] || ',' in texts[i] {
        return true;
      }
    }
    return false;
  }

  /** The bag-of-words tokens of every piece, one after another. */
  method BagOfWordsOfPieces(texts: seq<string>) returns (tokens: seq<string>)
    ensures tokens == BagTokens(texts)
  {
    tokens := [];
    for i := 0 to |texts|
      invariant tokens == BagTokens(texts[..i])
    {
      var words := SplitBagOfWords(texts[i]);
      BagTokensPrefix(texts, i);
      tokens := tokens + words;
    }
    assert texts[..|texts|] == texts;
  }

  /** The loop of tokenize over bad_tokens. */
  method FindBadToken(tokens: seq<string>) returns (found: bool)
    ensures found == HasBadToken(tokens)
  {
    for k := 0 to |BadTokenList|
      invariant forall j :: 0 <= j < k ==> BadTokenList[j] !in tokens
      invariant k > 0 ==> forall j :: 0 <= j < |tokens| ==> |tokens[j]| != 1
    {
      if BadTokenList[k] in tokens || exists j :: 0 <= j < |tokens| && |tokens[j]| == 1 {
        return true;
      }
    }
    return false;
  }

  /** tokenize(genre_text) on a tokenizer whose method is splitMethod. */
  method Tokenize(genreText: string, splitMethod: string) returns (r: Result<seq<string>>)
    ensures r == TokenizeSpec(genreText, splitMethod)
  {
    var text := NormalizeWhitespace(genreText);
    text := Lower(text);
    text := RemoveParens(text);
    var texts := Split(text, ',');
    var unmatched := FindParenOrComma(texts);
    if unmatched {
      return Err(RuntimeError);
    }
    var tokens;
    if splitMethod == "bag-of-words" {
      tokens := BagOfWordsOfPieces(texts);
    } else if splitMethod == "split2" {
      return Err(NotModelled);
    } else {
      return Err(ValueError);
    }
    var bad := FindBadToken(tokens);
    if bad {
      return Err(RuntimeError);
    }
    return Ok(tokens);
  }

  // Properties of tokenize.

  /** Every bag-of-words token of every piece is a good token. */
  lemma BagTokensGood(texts: seq<string>)
    ensures AllGoodTokens(BagTokens(texts))
  {
    var r := BagTokens(texts);
    forall k | 0 <= k < |r|
      ensures GoodToken(r[k])
    {
      var i, j := FlatMapMember(BagOfWords, texts, k);
      BagOfWordsGood(texts[i]);
    }
  }

  /** The tokens of a text with a comma are the tokens of the part before it
      followed by those of the part after it. */
  lemma BagTokensComma(x: string, y: string)
    ensures BagTokens(Split(x + [','] + y, ',')) == BagTokens(Split(x, ',')) + BagTokens(Split(y, ','))
  {
    SplitAround(x, y, ',');
    FlatMapAppend(BagOfWords, Split(x, ','), Split(y, ','));
  }

  /** The piece check of tokenize fires exactly when the cleaned text still
      holds a parenthesis (no piece can hold a comma). */
  lemma PieceCheckIsParen(s: string)
    ensures AnyParenOrComma(Split(s, ',')) <==> '(' in s || ')' in s
  {
    var pieces := Split(s, ',');
    if '(' in s {
      SplitCovers(s, ',', '(');
    } else if ')' in s {
      SplitCovers(s, ',', ')');
    } else {
      SplitChars(s, ',');
      forall i | 0 <= i < |pieces|
        ensures !HasParenOrComma(pieces[i])
      {
        assert forall k :: 0 <= k < |pieces[i]| ==> pieces[i][k] in s;
      }
    }
  }

  lemma LowerKeepsLineBreaks(s: string)
    requires '\n' !in s
    ensures '\n' !in Lower(s)
  {
    var r := Lower(s);
    forall k | 0 <= k < |r|
      ensures r[k] != '\n'
    {
      assert s[k] != '\n';
    }
  }

  /** A parenthesis left in the cleaned text is an unmatched one: no '(' of
      it is followed by a ')'. */
  lemma CleanTextNoGroupLeft(genreText: string)
    ensures NoGroupLeft(CleanText(genreText))
  {
    var n := NormalizeWhitespace(genreText);
    assert '\n' !in n by {
      forall k | 0 <= k < |n|
        ensures n[k] != '\n'
      {
        assert IsSpace(n[k]) ==> n[k] == ' ';
      }
    }
    LowerKeepsLineBreaks(n);
    RemoveParensLeavesNone(Lower(n));
  }

  /** The checks on the tokens pass exactly on tokens that are neither bad
      nor of length one. */
  lemma CheckTokensOk(tokens: seq<string>)
    ensures CheckTokens(tokens).Ok? <==>
      forall i :: 0 <= i < |tokens| ==> |tokens[i]| >= 2 && tokens[i] != "n'" && tokens[i] != "'n'"
    ensures CheckTokens(tokens).Ok? ==> CheckTokens(tokens).value == tokens
  {
    if !HasBadToken(tokens) {
      forall i | 0 <= i < |tokens|
        ensures |tokens[i]| >= 2 && tokens[i] != "n'" && tokens[i] != "'n'"
      {
        assert tokens[i] != BadTokenList[0] && tokens[i] != BadTokenList[1] && tokens[i] != BadTokenList[2];
      }
    } else if exists k :: 0 <= k < |BadTokenList| && BadTokenList[k] in tokens {
      var k :| 0 <= k < |BadTokenList| && BadTokenList[k] in tokens;
      var i :| 0 <= i < |tokens| && tokens[i] == BadTokenList[k];
      assert |tokens[i]| < 2 || tokens[i] == "n'" || tokens[i] == "'n'";
    }
  }

  lemma TokenizePiecesRuntimeError(texts: seq<string>, splitMethod: string)
    ensures TokenizePieces(texts, splitMethod) == Err(RuntimeError) <==>
      AnyParenOrComma(texts) || (splitMethod == "bag-of-words" && HasBadToken(BagTokens(texts)))
  {
  }

  /** tokenize raises RuntimeError exactly when a parenthesis survives the
      cleaning or, for the bag-of-words method, a bad token comes out. */
  lemma TokenizeRuntimeError(genreText: string, splitMethod: string)
    ensures TokenizeSpec(genreText, splitMethod) == Err(RuntimeError) <==>
      (var c := CleanText(genreText);
       '(' in c || ')' in c ||
       (splitMethod == "bag-of-words" && HasBadToken(BagTokens(Split(c, ',')))))
  {
    PieceCheckIsParen(CleanText(genreText));
    TokenizePiecesRuntimeError(Split(CleanText(genreText), ','), splitMethod);
  }

  lemma TokenizePiecesValueError(texts: seq<string>, splitMethod: string)
    ensures TokenizePieces(texts, splitMethod) == Err(ValueError) <==>
      !AnyParenOrComma(texts) && splitMethod != "bag-of-words" && splitMethod != "split2"
  {
  }

  lemma TokenizePiecesOk(texts: seq<string>, splitMethod: string)
    requires TokenizePieces(texts, splitMethod).Ok?
    ensures splitMethod == "bag-of-words"
    ensures CheckTokens(BagTokens(texts)).Ok?
    ensures TokenizePieces(texts, splitMethod).value == BagTokens(texts)
  {
  }

  /** tokenize raises ValueError exactly for an unknown method on a text
      without a surviving parenthesis. */
  lemma TokenizeValueError(genreText: string, splitMethod: string)
    ensures TokenizeSpec(genreText, splitMethod) == Err(ValueError) <==>
      (var c := CleanText(genreText);
       '(' !in c && ')' !in c && splitMethod != "bag-of-words" && splitMethod != "split2")
  {
    PieceCheckIsParen(CleanText(genreText));
    TokenizePiecesValueError(Split(CleanText(genreText), ','), splitMethod);
  }

  /** What tokenize returns: the bag-of-words tokens of the comma pieces,
      none of them empty, "n'", "'n'", of length one, a dropped token, or
      holding a space or a '/'. */
  lemma TokenizeOk(genreText: string, splitMethod: string)
    requires TokenizeSpec(genreText, splitMethod).Ok?
    ensures splitMethod == "bag-of-words"
    ensures TokenizeSpec(genreText, splitMethod).value == BagTokens(Split(CleanText(genreText), ','))
    ensures AllGoodTokens(TokenizeSpec(genreText, splitMethod).value)
    ensures forall t :: t in TokenizeSpec(genreText, splitMethod).value ==>
      |t| >= 2 && t != "n'" && t != "'n'"
  {
    var texts := Split(CleanText(genreText), ',');
    TokenizePiecesOk(texts, splitMethod);
    BagTokensGood(texts);
    CheckTokensOk(BagTokens(texts));
  }
}
