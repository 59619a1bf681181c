/** utils.py: ids at the end of site URLs, and flattening a list of lists. */
module Utils {
  import opened Wrappers
  import opened Text

  /** The id at the end of a band URL: the text after the last '/', when it is
      all digits; None otherwise. */
  function GetBandIdFromBandUrl(bandUrl: string): (r: Option<int>)
    ensures r.Some? <==> IsDigits(LastPiece(bandUrl, '/'))
    ensures r.Some? ==> r.value >= 0 && r.value == DigitsValue(LastPiece(bandUrl, '/'))
  {
    var bandId := LastPiece(bandUrl, '/');
    if !IsDigits(bandId) then None else Some(DigitsValue(bandId))
  }

  function GetAlbumIdFromAlbumUrl(albumUrl: string): (r: Option<int>)
    ensures r.Some? <==> IsDigits(LastPiece(albumUrl, '/'))
    ensures r.Some? ==> r.value >= 0 && r.value == DigitsValue(LastPiece(albumUrl, '/'))
  {
    GetBandIdFromBandUrl(albumUrl)
  }

  function GetUserIdFromReviewUrl(reviewUrl: string): (r: Option<int>)
    ensures r.Some? <==> IsDigits(LastPiece(reviewUrl, '/'))
    ensures r.Some? ==> r.value >= 0 && r.value == DigitsValue(LastPiece(reviewUrl, '/'))
  {
    GetBandIdFromBandUrl(reviewUrl)
  }

  /** Printing an id after a '/' and reading it back gives the id. */
  lemma BandIdRoundTrip(prefix: string, n: nat)
    ensures GetBandIdFromBandUrl(prefix + "/" + Decimal(n)) == Some(n)
  {
    var d := Decimal(n);
    LastPieceAfterSep(prefix, d, '/');
    assert prefix + "/" + d == prefix + ['/'] + d;
    DecimalValue(n);
  }

  /** A URL that ends in '/' has no id. */
  lemma TrailingSlashHasNoId(url: string)
    ensures GetBandIdFromBandUrl(url + "/") == None
  {
    LastPieceAfterSep(url, [], '/');
    assert url + "/" == url + ['/'] + [];
  }

  /** A last segment with any non-digit (a sign, a letter, a '-') has no id. */
  lemma NonDigitHasNoId(prefix: string, seg: string, k: nat)
    requires '/' !in seg
    requires k < |seg| && !IsDigit(seg[k])
    ensures GetBandIdFromBandUrl(prefix + "/" + seg) == None
  {
    LastPieceAfterSep(prefix, seg, '/');
    assert prefix + "/" + seg == prefix + ['/'] + seg;
  }

  /** The three id extractors agree on every input. */
  lemma IdExtractorsAgree(url: string)
    ensures GetAlbumIdFromAlbumUrl(url) == GetBandIdFromBandUrl(url)
    ensures GetUserIdFromReviewUrl(url) == GetBandIdFromBandUrl(url)
  {
  }

  // ---------------------------------------------------------------------
  // flatten

  function SumLengths<T>(xss: seq<seq<T>>): nat
  {
    if xss == [] then 0 else |xss[0]| + SumLengths(xss[1..])
  }

  /** [item for sub in xss for item in sub] */
  function Flatten<T>(xss: seq<seq<T>>): (r: seq<T>)
    ensures |r| == SumLengths(xss)
  {
    if xss == [] then [] else xss[0] + Flatten(xss[1..])
  }

  /** Every item of the flattened list comes from one of the sublists, and
      every item of a sublist is in the flattened list. */
  lemma {:induction false} FlattenMembers<T>(xss: seq<seq<T>>, x: T)
    ensures x in Flatten(xss) <==> exists i :: 0 <= i < |xss| && x in xss[i]
    decreases |xss|
  {
    if xss != [] {
      FlattenMembers(xss[1..], x);
      if exists i :: 1 <= i < |xss| && x in xss[i] {
        var i :| 1 <= i < |xss| && x in xss[i];
        assert x in xss[1..][i - 1];
      }
      if exists i :: 0 <= i < |xss| - 1 && x in xss[1..][i] {
        var i :| 0 <= i < |xss| - 1 && x in xss[1..][i];
        assert x in xss[i + 1];
      }
    }
  }

  /** Flattening distributes over concatenation of the outer list. */
  lemma {:induction false} FlattenAppend<T>(a: seq<seq<T>>, b: seq<seq<T>>)
    ensures Flatten(a + b) == Flatten(a) + Flatten(b)
    decreases |a|
  {
    if a == [] {
      assert a + b == b;
    } else {
      assert (a + b)[1..] == a[1..] + b;
      FlattenAppend(a[1..], b);
    }
  }

  /** [item for x in xs for item in f(x)] */
  function FlatMap<T, U>(f: T -> seq<U>, xs: seq<T>): seq<U> {
    Flatten(seq(|xs|, i requires 0 <= i < |xs| => f(xs[i])))
  }

  lemma FlatMapAppend<T, U>(f: T -> seq<U>, a: seq<T>, b: seq<T>)
    ensures FlatMap(f, a + b) == FlatMap(f, a) + FlatMap(f, b)
  {
    var sa := seq(|a|, i requires 0 <= i < |a| => f(a[i]));
    var sb := seq(|b|, i requires 0 <= i < |b| => f(b[i]));
    var ab := a + b;
    assert seq(|ab|, i requires 0 <= i < |ab| => f(ab[i])) == sa + sb;
    FlattenAppend(sa, sb);
  }

  lemma FlatMapOne<T, U>(f: T -> seq<U>, x: T)
    ensures FlatMap(f, [x]) == f(x)
  {
    assert seq(1, i requires 0 <= i < 1 => f([x][i])) == [f(x)];
    assert Flatten([f(x)]) == f(x) + Flatten([]);
  }

  /** Each item of a flat map is an item of f at some element. */
  lemma FlatMapMember<T, U>(f: T -> seq<U>, xs: seq<T>, k: nat) returns (i: nat, j: nat)
    requires k < |FlatMap(f, xs)|
    ensures i < |xs| && j < |f(xs[i])| && FlatMap(f, xs)[k] == f(xs[i])[j]
  {
    var s := seq(|xs|, i requires 0 <= i < |xs| => f(xs[i]));
    var x := FlatMap(f, xs)[k];
    FlattenMembers(s, x);
    i :| 0 <= i < |s| && x in s[i];
    j :| 0 <= j < |s[i]| && s[i][j] == x;
  }

  lemma FlattenExample()
    ensures Flatten([["a", "b"], ["c"]]) == ["a", "b", "c"]
  {
    assert [["a", "b"], ["c"]][1..] == [["c"]];
    assert Flatten([["c"]]) == ["c"];
  }
}
