/** The Python string built-ins the modelled code relies on: str.split with a
    separator and without one, str.strip, str.lower, str.isdigit, int() of a
    digit string, and decimal / zero-padded formatting of integers.  Only the
    ASCII character classes are modelled. */
module Text {
  import opened Wrappers

  /** str.isspace for ASCII: tab, newline, vertical tab, form feed, carriage
      return, the four separators 0x1C-0x1F and the space. */
  predicate IsSpace(c: char) {
    c == ' ' || 9 <= c as int <= 13 || 28 <= c as int <= 31
  }

  predicate IsDigit(c: char) { '0' <= c <= '9' }

  /** str.isdigit: non-empty and every character a digit. */
  predicate IsDigits(s: string) {
    |s| > 0 && forall k :: 0 <= k < |s| ==> IsDigit(s[k])
  }

  // ---------------------------------------------------------------------
  // str.split(sep) and its inverse, sep.join(parts)

  /** s.split(c): the pieces between occurrences of c, empty pieces kept. */
  function Split(s: string, c: char): (r: seq<string>)
    ensures |r| >= 1
    ensures forall i :: 0 <= i < |r| ==> c !in r[i]
    decreases |s|
  {
    if s == [] then [[]]
    else
      var rest := Split(s[1..], c);
      if s[0] == c then [[]] + rest
      else [[s[0]] + rest[0]] + rest[1..]
  }

  /** Every character of a piece comes from the text. */
  lemma {:induction false} SplitChars(s: string, c: char)
    ensures forall i, k :: 0 <= i < |Split(s, c)| && 0 <= k < |Split(s, c)[i]| ==> Split(s, c)[i][k] in s
    decreases |s|
  {
    if s != [] {
      SplitChars(s[1..], c);
      var rest := Split(s[1..], c);
      assert forall x :: x in s[1..] ==> x in s;
      if s[0] != c {
        var r := Split(s, c);
        forall i, k | 0 <= i < |r| && 0 <= k < |r[i]|
          ensures r[i][k] in s
        {
          if i == 0 && k > 0 {
            assert r[0][k] == rest[0][k - 1];
          } else if i > 0 {
            assert r[i] == rest[i];
          }
        }
      }
    }
  }

  /** Every character of the text other than the separator lies in some piece. */
  lemma {:induction false} SplitCovers(s: string, c: char, x: char)
    requires x in s && x != c
    ensures exists i :: 0 <= i < |Split(s, c)| && x in Split(s, c)[i]
    decreases |s|
  {
    var r := Split(s, c);
    if s[0] == x {
      assert x in r[0];
    } else {
      assert x in s[1..];
      SplitCovers(s[1..], c, x);
      var rest := Split(s[1..], c);
      var i :| 0 <= i < |rest| && x in rest[i];
      if s[0] == c {
        assert r[i + 1] == rest[i];
      } else if i == 0 {
        assert r[0] == [s[0]] + rest[0];
      } else {
        assert r[i] == rest[i];
      }
    }
  }

  /** c.join(parts) */
  function Join(parts: seq<string>, c: char): string
    decreases |parts|
  {
    if |parts| == 0 then []
    else if |parts| == 1 then parts[0]
    else parts[0] + [c] + Join(parts[1..], c)
  }

  /** Joining the pieces of a split gives back the text. */
  lemma {:induction false} JoinSplit(s: string, c: char)
    ensures Join(Split(s, c), c) == s
    decreases |s|
  {
    if s != [] {
      JoinSplit(s[1..], c);
      var rest := Split(s[1..], c);
      if s[0] != c {
        if |rest| > 1 {
          assert Join(rest, c) == rest[0] + [c] + Join(rest[1..], c);
        }
      }
    }
  }

  /** A text without the separator is one piece. */
  lemma {:induction false} SplitNoSep(s: string, c: char)
    requires c !in s
    ensures Split(s, c) == [s]
    decreases |s|
  {
    if s != [] {
      SplitNoSep(s[1..], c);
      assert s == [s[0]] + s[1..];
    }
  }

  /** Splitting distributes over a separator-joined concatenation. */
  lemma {:induction false} SplitAround(a: string, b: string, c: char)
    ensures Split(a + [c] + b, c) == Split(a, c) + Split(b, c)
    decreases |a|
  {
    if a == [] {
      assert ([c] + b)[1..] == b;
    } else {
      assert (a + [c] + b)[1..] == a[1..] + [c] + b;
      SplitAround(a[1..], b, c);
    }
  }

  /** Splitting a join of separator-free pieces gives back the pieces. */
  lemma {:induction false} SplitJoin(parts: seq<string>, c: char)
    requires |parts| >= 1
    requires forall i :: 0 <= i < |parts| ==> c !in parts[i]
    ensures Split(Join(parts, c), c) == parts
    decreases |parts|
  {
    if |parts| == 1 {
      SplitNoSep(parts[0], c);
    } else {
      SplitJoin(parts[1..], c);
      SplitNoSep(parts[0], c);
      SplitAround(parts[0], Join(parts[1..], c), c);
      assert parts == [parts[0]] + parts[1..];
    }
  }

  /** The text after the last c (the whole text when there is no c):
      s.split(c)[-1]. */
  function LastPiece(s: string, c: char): (r: string)
  {
    var pieces := Split(s, c);
    pieces[|pieces| - 1]
  }

  lemma LastPieceAfterSep(prefix: string, t: string, c: char)
    requires c !in t
    ensures LastPiece(prefix + [c] + t, c) == t
  {
    SplitAround(prefix, t, c);
    SplitNoSep(t, c);
  }

  // ---------------------------------------------------------------------
  // str.split() without a separator: the maximal runs of non-space

  /** The pieces between white-space characters, empty pieces kept. */
  function SpacePieces(s: string): (r: seq<string>)
    ensures |r| >= 1
    decreases |s|
  {
    if s == [] then [[]]
    else
      var rest := SpacePieces(s[1..]);
      if IsSpace(s[0]) then [[]] + rest
      else [[s[0]] + rest[0]] + rest[1..]
  }

  /** The non-empty strings of a list, in order. */
  function NonEmpty(xs: seq<string>): (r: seq<string>)
    ensures forall i :: 0 <= i < |r| ==> |r[i]| >= 1
    decreases |xs|
  {
    if xs == [] then []
    else if xs[0] == [] then NonEmpty(xs[1..])
    else [xs[0]] + NonEmpty(xs[1..])
  }

  /** s.split(): the words of the text, that is its white-space separated
      pieces without the empty ones. */
  function Words(s: string): (r: seq<string>)
    ensures forall i :: 0 <= i < |r| ==> |r[i]| >= 1
  {
    NonEmpty(SpacePieces(s))
  }

  lemma {:induction false} NonEmptyAppend(xs: seq<string>, ys: seq<string>)
    ensures NonEmpty(xs + ys) == NonEmpty(xs) + NonEmpty(ys)
    decreases |xs|
  {
    if xs == [] {
      assert xs + ys == ys;
    } else {
      assert (xs + ys)[1..] == xs[1..] + ys;
      NonEmptyAppend(xs[1..], ys);
    }
  }

  lemma {:induction false} SpacePiecesAround(a: string, c: char, b: string)
    requires IsSpace(c)
    ensures SpacePieces(a + [c] + b) == SpacePieces(a) + SpacePieces(b)
    decreases |a|
  {
    if a == [] {
      assert ([c] + b)[1..] == b;
    } else {
      assert (a + [c] + b)[1..] == a[1..] + [c] + b;
      SpacePiecesAround(a[1..], c, b);
    }
  }

  /** A white-space character separates the words before it from those after. */
  lemma WordsAround(a: string, c: char, b: string)
    requires IsSpace(c)
    ensures Words(a + [c] + b) == Words(a) + Words(b)
  {
    SpacePiecesAround(a, c, b);
    NonEmptyAppend(SpacePieces(a), SpacePieces(b));
  }

  lemma {:induction false} SpacePiecesOfWord(w: string)
    requires forall k :: 0 <= k < |w| ==> !IsSpace(w[k])
    ensures SpacePieces(w) == [w]
    decreases |w|
  {
    if w != [] {
      SpacePiecesOfWord(w[1..]);
      assert w == [w[0]] + w[1..];
    }
  }

  /** A non-empty text without white space is one word. */
  lemma WordsOfWord(w: string)
    requires |w| >= 1 && forall k :: 0 <= k < |w| ==> !IsSpace(w[k])
    ensures Words(w) == [w]
  {
    SpacePiecesOfWord(w);
    assert NonEmpty([w]) == [w] + NonEmpty([]);
  }

  // ---------------------------------------------------------------------
  // str.strip()

  function LStrip(s: string): (r: string)
    ensures |r| <= |s|
    ensures r == s[|s| - |r|..]
    ensures r == [] || !IsSpace(r[0])
    ensures forall k :: 0 <= k < |s| - |r| ==> IsSpace(s[k])
    decreases |s|
  {
    if s != [] && IsSpace(s[0]) then LStrip(s[1..]) else s
  }

  function RStrip(s: string): (r: string)
    ensures |r| <= |s|
    ensures r == s[..|r|]
    ensures r == [] || !IsSpace(r[|r| - 1])
    ensures forall k :: |r| <= k < |s| ==> IsSpace(s[k])
    decreases |s|
  {
    if s != [] && IsSpace(s[|s| - 1]) then RStrip(s[..|s| - 1]) else s
  }

  /** s.strip(): drop leading and trailing white space. */
  function Strip(s: string): (r: string)
  {
    RStrip(LStrip(s))
  }

  /** What strip keeps is one contiguous stretch s[i..i + |Strip(s)|] of the
      text, and it starts and ends with a non-space character. */
  lemma StripIsSlice(s: string) returns (i: nat)
    ensures i + |Strip(s)| <= |s| && Strip(s) == s[i..i + |Strip(s)|]
    ensures Strip(s) == [] || (!IsSpace(Strip(s)[0]) && !IsSpace(Strip(s)[|Strip(s)| - 1]))
  {
    var l := LStrip(s);
    var r := RStrip(l);
    i := |s| - |l|;
    assert Strip(s) == r;
    SliceOfSuffix(s, i, |r|);
    calc {
      r;
      l[..|r|];
      s[i..][..|r|];
      s[i..i + |r|];
    }
    if r != [] {
      assert r[0] == l[0];
    }
  }

  /** A stripped text has no white space at either end, so a second strip
      or rstrip leaves it alone. */
  lemma StripEnds(s: string)
    ensures Strip(s) == [] || (!IsSpace(Strip(s)[0]) && !IsSpace(Strip(s)[|Strip(s)| - 1]))
    ensures RStrip(Strip(s)) == Strip(s)
  {
    var _ := StripIsSlice(s);
  }

  lemma SliceOfSuffix(s: string, i: nat, n: nat)
    requires i + n <= |s|
    ensures s[i..][..n] == s[i..i + n]
  {
  }


  // ---------------------------------------------------------------------
  // str.lower()

  function LowerChar(c: char): char {
    if 'A' <= c <= 'Z' then (c as int + 32) as char else c
  }

  function Lower(s: string): (r: string)
    ensures |r| == |s|
    ensures forall k :: 0 <= k < |s| ==> r[k] == LowerChar(s[k])
  {
    seq(|s|, k requires 0 <= k < |s| => LowerChar(s[k]))
  }

  // ---------------------------------------------------------------------
  // Decimal digits: int() of a digit string and str() of an integer

  function DigitValue(c: char): nat
    requires IsDigit(c)
  {
    c as int - '0' as int
  }

  function DigitChar(d: nat): (c: char)
    requires d < 10
    ensures IsDigit(c) && DigitValue(c) == d
  {
    ('0' as int + d) as char
  }

  /** The value of a string of decimal digits (leading zeros allowed). */
  function DigitsValue(s: string): nat
    requires forall k :: 0 <= k < |s| ==> IsDigit(s[k])
    decreases |s|
  {
    if s == [] then 0 else DigitsValue(s[..|s| - 1]) * 10 + DigitValue(s[|s| - 1])
  }

  /** The shortest decimal spelling of n: str(n) for n >= 0. */
  function Decimal(n: nat): (r: string)
    ensures IsDigits(r)
    decreases n
  {
    if n < 10 then [DigitChar(n)] else Decimal(n / 10) + [DigitChar(n % 10)]
  }

  lemma {:induction false} DecimalValue(n: nat)
    ensures DigitsValue(Decimal(n)) == n
    decreases n
  {
    if n >= 10 {
      DecimalValue(n / 10);
      var d := Decimal(n);
      assert d[..|d| - 1] == Decimal(n / 10);
    }
  }

  function Pow10(k: nat): nat
  {
    if k == 0 then 1 else 10 * Pow10(k - 1)
  }

  lemma {:induction false} DecimalLength(n: nat, k: nat)
    requires k >= 1 && n < Pow10(k)
    ensures |Decimal(n)| <= k
    decreases k
  {
    if n >= 10 {
      DecimalLength(n / 10, k - 1);
    }
  }

  /** str(i) for any int. */
  function IntText(i: int): string {
    if i < 0 then "-" + Decimal(-i) else Decimal(i)
  }

  function Zeros(k: nat): (r: string)
    ensures |r| == k && forall j :: 0 <= j < k ==> r[j] == '0'
  {
    seq(k, _ => '0')
  }

  /** '{:0Nd}'.format(n) for n >= 0: left-padded with zeros to width N. */
  function ZeroPad(n: nat, width: nat): (r: string)
  {
    var d := Decimal(n);
    if |d| >= width then d else Zeros(width - |d|) + d
  }

  lemma {:induction false} LeadingZerosValue(k: nat, s: string)
    requires forall j :: 0 <= j < |s| ==> IsDigit(s[j])
    ensures forall j :: 0 <= j < |Zeros(k) + s| ==> IsDigit((Zeros(k) + s)[j])
    ensures DigitsValue(Zeros(k) + s) == DigitsValue(s)
    decreases |s|, k
  {
    var t := Zeros(k) + s;
    if s == [] {
      if k > 0 {
        assert t[..|t| - 1] == Zeros(k - 1) == Zeros(k - 1) + [];
        LeadingZerosValue(k - 1, []);
      }
    } else {
      assert t[..|t| - 1] == Zeros(k) + s[..|s| - 1];
      LeadingZerosValue(k, s[..|s| - 1]);
    }
  }

  /** Zero padding keeps the value and reaches the width. */
  lemma ZeroPadValue(n: nat, width: nat)
    ensures IsDigits(ZeroPad(n, width))
    ensures |ZeroPad(n, width)| >= width
    ensures DigitsValue(ZeroPad(n, width)) == n
  {
    DecimalValue(n);
    var d := Decimal(n);
    if |d| < width {
      LeadingZerosValue(width - |d|, d);
    }
  }

  /** int(s), on digit strings only. */
  function ParseInt(s: string): (r: Result<nat>)
    ensures r.Ok? <==> IsDigits(s)
  {
    if IsDigits(s) then Ok(DigitsValue(s)) else Err(ValueError)
  }

  lemma ParseDecimal(n: nat)
    ensures ParseInt(Decimal(n)) == Ok(n)
  {
    DecimalValue(n);
  }
}
