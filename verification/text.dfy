/** String helpers with the JavaScript meaning the program relies on: the `\s` and `\d`
    regular-expression classes, `trim`, `split`, `join`, `Number.prototype.toString` on
    integers and `Number(text)` on integer text. */
module Text {
  import opened Options

  predicate IsDigit(c: char) {
    '0' <= c <= '9'
  }

  predicate AllDigits(s: string) {
    forall i :: 0 <= i < |s| ==> IsDigit(s[i])
  }

  /** `/^\d{10}$/.test(s)`: the phone-number pattern of the server and the client. */
  predicate IsTenDigits(s: string) {
    |s| == 10 && AllDigits(s)
  }

  /** The `\s` class of JavaScript regular expressions, which is also the set of
      characters `String.prototype.trim` strips. */
  predicate IsSpace(c: char) {
    || c == ' ' || c == '\t' || c == '\n' || c == '\r' || c == '\U{000B}' || c == '\U{000C}'
    || c == '\U{00A0}' || c == '\U{1680}' || ('\U{2000}' <= c <= '\U{200A}')
    || c == '\U{2028}' || c == '\U{2029}' || c == '\U{202F}' || c == '\U{205F}'
    || c == '\U{3000}' || c == '\U{FEFF}'
  }

  /** A string that `trim` leaves alone: it neither starts nor ends with white space. */
  predicate IsTrimmed(s: string) {
    |s| == 0 || (!IsSpace(s[0]) && !IsSpace(s[|s| - 1]))
  }

  function TrimStart(s: string): (r: string)
    ensures |r| <= |s| && r == s[|s| - |r|..]
    ensures forall i :: 0 <= i < |s| - |r| ==> IsSpace(s[i])
    ensures |r| > 0 ==> !IsSpace(r[0])
  {
    if |s| > 0 && IsSpace(s[0]) then TrimStart(s[1..]) else s
  }

  function TrimEnd(s: string): (r: string)
    ensures |r| <= |s| && r == s[..|r|]
    ensures forall i :: |r| <= i < |s| ==> IsSpace(s[i])
    ensures |r| > 0 ==> !IsSpace(r[|r| - 1])
  {
    if |s| > 0 && IsSpace(s[|s| - 1]) then TrimEnd(s[..|s| - 1]) else s
  }

  /** `r` is the part of `s` from `i` to `j`, and everything of `s` before `i` and from `j`
      on is white space. */
  predicate SliceWithSpaceOutside(s: string, r: string, i: int, j: int) {
    && 0 <= i <= j <= |s|
    && r == s[i..j]
    && (forall k :: 0 <= k < i ==> IsSpace(s[k]))
    && (forall k :: j <= k < |s| ==> IsSpace(s[k]))
  }

  /** `String.prototype.trim`: the longest infix without white space at either end. */
  function Trim(s: string): (r: string)
    ensures IsTrimmed(r)
    ensures |r| <= |s|
    ensures exists i, j :: SliceWithSpaceOutside(s, r, i, j)
  {
    TrimIsSlice(s);
    TrimEnd(TrimStart(s))
  }

  lemma TrimIsSlice(s: string)
    ensures exists i, j :: SliceWithSpaceOutside(s, TrimEnd(TrimStart(s)), i, j)
  {
    var t := TrimStart(s);
    var u := TrimEnd(t);
    SpaceOutsideSlice(s, t, u);
    assert SliceWithSpaceOutside(s, u, |s| - |t|, |s| - |t| + |u|);
  }

  /** A prefix `u` of a suffix `t` of `s` is a slice of `s`; when only white space was cut
      off at both ends, only white space lies outside the slice. */
  lemma SpaceOutsideSlice(s: string, t: string, u: string)
    requires |t| <= |s| && t == s[|s| - |t|..]
    requires forall k :: 0 <= k < |s| - |t| ==> IsSpace(s[k])
    requires |u| <= |t| && u == t[..|u|]
    requires forall k :: |u| <= k < |t| ==> IsSpace(t[k])
    ensures SliceWithSpaceOutside(s, u, |s| - |t|, |s| - |t| + |u|)
  {
    var i := |s| - |t|;
    forall k | i + |u| <= k < |s| ensures IsSpace(s[k]) {
      assert s[k] == t[k - i];
    }
  }

  lemma TrimOfTrimmed(s: string)
    requires IsTrimmed(s)
    ensures Trim(s) == s
  {
  }

  /** A single leading blank, as `join(", ")` leaves before every piece but the first,
      disappears under `trim`. */
  lemma TrimAfterBlank(s: string)
    requires IsTrimmed(s)
    ensures Trim(" " + s) == s
  {
    assert (" " + s)[1..] == s;
  }

  /** `pieces.join(sep)`. */
  function Join(pieces: seq<string>, sep: string): string {
    if |pieces| == 0 then ""
    else if |pieces| == 1 then pieces[0]
    else pieces[0] + sep + Join(pieces[1..], sep)
  }

  /** `s.split(d)` for a one-character separator: always at least one piece, and the
      pieces are the maximal runs between separators (so `"".split(",")` is `[""]`). */
  function Split(s: string, d: char): (r: seq<string>)
    ensures |r| >= 1
    ensures forall i :: 0 <= i < |r| ==> d !in r[i]
    decreases |s|
  {
    if |s| == 0 then [""]
    else
      var rest := Split(s[1..], d);
      if s[0] == d then [""] + rest
      else [[s[0]] + rest[0]] + rest[1..]
  }

  /** Joining the pieces of a split with the separator gives back the string. */
  lemma {:induction false} JoinSplit(s: string, d: char)
    ensures Join(Split(s, d), [d]) == s
    decreases |s|
  {
    if |s| > 0 {
      var rest := Split(s[1..], d);
      JoinSplit(s[1..], d);
      if s[0] == d {
        assert Split(s, d) == [""] + rest;
        assert ([""] + rest)[1..] == rest;
        assert s == [d] + s[1..];
      } else {
        var r := [[s[0]] + rest[0]] + rest[1..];
        assert Split(s, d) == r;
        if |rest| == 1 {
          assert s == [s[0]] + s[1..];
        } else {
          assert r[1..] == rest[1..];
          assert Join(rest, [d]) == rest[0] + [d] + Join(rest[1..], [d]);
          assert s == [s[0]] + s[1..];
        }
      }
    }
  }

  /** A piece without the separator followed by the separator splits off as one piece. */
  lemma {:induction false} SplitPrefix(x: string, y: string, d: char)
    requires d !in x
    ensures Split(x + [d] + y, d) == [x] + Split(y, d)
    decreases |x|
  {
    if |x| == 0 {
      assert x + [d] + y == [d] + y;
      assert ([d] + y)[1..] == y;
    } else {
      SplitPrefix(x[1..], y, d);
      assert (x + [d] + y)[1..] == x[1..] + [d] + y;
      assert x == [x[0]] + x[1..];
    }
  }

  lemma {:induction false} SplitWithout(x: string, d: char)
    requires d !in x
    ensures Split(x, d) == [x]
    decreases |x|
  {
    if |x| > 0 {
      SplitWithout(x[1..], d);
      assert x == [x[0]] + x[1..];
    }
  }

  /** The first piece of a split is the longest prefix without the separator. */
  lemma {:induction false} SplitFirstPiece(s: string, d: char)
    ensures var p := Split(s, d)[0];
      |p| <= |s| && p == s[..|p|] && (|p| == |s| || s[|p|] == d)
    decreases |s|
  {
    if |s| > 0 && s[0] != d {
      SplitFirstPiece(s[1..], d);
    }
  }

  /** Splitting undoes joining when no piece contains the separator. */
  lemma {:induction false} SplitJoin(pieces: seq<string>, d: char)
    requires |pieces| >= 1
    requires forall i :: 0 <= i < |pieces| ==> d !in pieces[i]
    ensures Split(Join(pieces, [d]), d) == pieces
    decreases |pieces|
  {
    if |pieces| == 1 {
      SplitWithout(pieces[0], d);
    } else {
      SplitJoin(pieces[1..], d);
      SplitPrefix(pieces[0], Join(pieces[1..], [d]), d);
      assert pieces == [pieces[0]] + pieces[1..];
    }
  }

  /** ASCII letters to lower case; every other character is kept. */
  function LowerChar(c: char): char {
    if 'A' <= c <= 'Z' then (c as int + 32) as char else c
  }

  function Lower(s: string): (r: string)
    ensures |r| == |s|
    ensures forall i :: 0 <= i < |s| ==> r[i] == LowerChar(s[i])
  {
    if |s| == 0 then "" else [LowerChar(s[0])] + Lower(s[1..])
  }

  lemma LowerCharIdempotent(c: char)
    ensures LowerChar(LowerChar(c)) == LowerChar(c)
  {
  }

  /** Lower-casing twice is lower-casing once. */
  lemma LowerIdempotent(s: string)
    ensures Lower(Lower(s)) == Lower(s)
  {
    var l := Lower(s);
    var ll := Lower(l);
    forall k | 0 <= k < |s| ensures ll[k] == l[k] {
      LowerCharIdempotent(s[k]);
    }
  }

  /** Lower-casing commutes with taking a part of the text, so a part found in the
      lower-cased text is the lower-cased part. */
  lemma LowerOfPart(s: string, i: nat, j: nat)
    requires i <= j <= |s|
    ensures Lower(s)[i..j] == Lower(s[i..j])
  {
    var l, part := Lower(s), Lower(s[i..j]);
    forall k | 0 <= k < j - i ensures l[i..j][k] == part[k] {
      assert s[i..j][k] == s[i + k];
    }
  }

  predicate OccursAt(hay: string, needle: string, i: int) {
    0 <= i && i + |needle| <= |hay| && hay[i..i + |needle|] == needle
  }

  /** `needle` is a substring of `hay`. */
  predicate Contains(hay: string, needle: string) {
    exists i | 0 <= i <= |hay| - |needle| :: OccursAt(hay, needle, i)
  }

  /** A case-insensitive match of a plain pattern, as `{ $regex: needle, $options: "i" }`
      reads it when `needle` holds no metacharacters. */
  predicate ContainsIgnoringCase(hay: string, needle: string) {
    Contains(Lower(hay), Lower(needle))
  }

  function DigitChar(d: nat): char
    requires d < 10
  {
    ('0' as int + d) as char
  }

  function DigitValue(c: char): nat
    requires IsDigit(c)
  {
    c as int - '0' as int
  }

  /** Decimal digits of a natural number, without leading zeros. */
  function DigitsOf(n: nat): (r: string)
    ensures |r| >= 1 && AllDigits(r)
    ensures r[0] == '0' ==> n == 0
  {
    if n < 10 then [DigitChar(n)] else DigitsOf(n / 10) + [DigitChar(n % 10)]
  }

  /** `String(n)` for an integer `n`. */
  function Decimal(n: int): string {
    if n < 0 then "-" + DigitsOf(-n) else DigitsOf(n)
  }

  /** The value of a string of decimal digits; the empty string reads as 0. */
  function DigitsValue(s: string): nat
    requires AllDigits(s)
  {
    if |s| == 0 then 0 else DigitsValue(s[..|s| - 1]) * 10 + DigitValue(s[|s| - 1])
  }

  /** `Number(s)` when `s` is an optionally signed run of decimal digits; `None` stands for
      every other text. Only the integer subset of JavaScript's number syntax is read. */
  function ParseInteger(s: string): Option<int> {
    if |s| >= 2 && s[0] == '-' && AllDigits(s[1..]) then Some(0 - DigitsValue(s[1..]) as int)
    else if |s| >= 2 && s[0] == '+' && AllDigits(s[1..]) then Some(DigitsValue(s[1..]))
    else if |s| >= 1 && AllDigits(s) then Some(DigitsValue(s))
    else None
  }

  lemma {:induction false} DigitsValueOfDigits(n: nat)
    ensures DigitsValue(DigitsOf(n)) == n
  {
    if n >= 10 {
      DigitsValueOfDigits(n / 10);
      var d := DigitsOf(n);
      assert d[..|d| - 1] == DigitsOf(n / 10);
    }
  }

  /** Printing an integer and reading it back gives the integer. */
  lemma ParseDecimal(n: int)
    ensures ParseInteger(Decimal(n)) == Some(n)
  {
    if n < 0 {
      DigitsValueOfDigits(-n);
      assert Decimal(n)[1..] == DigitsOf(-n);
    } else {
      DigitsValueOfDigits(n);
    }
  }

  function Pow10(k: nat): (r: nat)
    ensures r >= 1
  {
    if k == 0 then 1 else 10 * Pow10(k - 1)
  }

  lemma {:induction false} DigitsOfLength(n: nat, k: nat)
    requires k >= 1
    ensures |DigitsOf(n)| <= k <==> n < Pow10(k)
    decreases k
  {
    if n >= 10 {
      assert n == 10 * (n / 10) + n % 10;
      if k == 1 {
        assert Pow10(1) == 10;
      } else {
        DigitsOfLength(n / 10, k - 1);
        assert n / 10 < Pow10(k - 1) <==> n < 10 * Pow10(k - 1);
      }
    } else {
      PowAtLeastTen(k);
    }
  }

  lemma {:induction false} PowAtLeastTen(k: nat)
    requires k >= 1
    ensures Pow10(k) >= 10
    decreases k
  {
    if k > 1 {
      PowAtLeastTen(k - 1);
    }
  }

  /** An integer prints as exactly ten digits iff it lies in [10^9, 10^10). */
  lemma TenDigitNumber(n: int)
    ensures IsTenDigits(Decimal(n)) <==> 1_000_000_000 <= n <= 9_999_999_999
  {
    if n >= 0 {
      DigitsOfLength(n, 10);
      DigitsOfLength(n, 9);
      assert Pow10(9) == 1_000_000_000;
    } else {
      assert Decimal(n)[0] == '-';
      assert !IsDigit(Decimal(n)[0]);
    }
  }
}
