/** The host's "Update listing" dialog: the amenities travel as one comma-separated text
    field, and new photos are collected as previews, at most ten. */
module UpdateListingModal {
  import opened Options
  import opened Text
  import Seqs

  const MaxPreviews: nat := 10

  /** `listing.amenities.join(", ")`: how the dialog shows the current amenities. */
  function AmenitiesText(amenities: seq<string>): string {
    Join(amenities, ", ")
  }

  /** `pieces.map((a) => a.trim())`. */
  function TrimAll(pieces: seq<string>): (r: seq<string>)
    ensures |r| == |pieces|
    ensures forall i :: 0 <= i < |r| ==> r[i] == Trim(pieces[i])
  {
    if |pieces| == 0 then []
    else
      var rest := TrimAll(pieces[1..]);
      assert forall i :: 1 <= i < |pieces| ==> rest[i - 1] == Trim(pieces[i]);
      [Trim(pieces[0])] + rest
  }

  /** `pieces.filter(Boolean)`: the empty strings go, the rest keep their order. */
  function DropEmpty(pieces: seq<string>): (r: seq<string>)
    ensures |r| <= |pieces|
    ensures forall i :: 0 <= i < |r| ==> r[i] != ""
    ensures forall x :: x in r <==> x in pieces && x != ""
    ensures forall x :: multiset(r)[x] == if x != "" then multiset(pieces)[x] else 0
  {
    if |pieces| == 0 then []
    else
      assert pieces == [pieces[0]] + pieces[1..];
      if pieces[0] == "" then DropEmpty(pieces[1..])
      else [pieces[0]] + DropEmpty(pieces[1..])
  }

  /** Dropping the empty pieces keeps the order of the rest. */
  lemma {:induction false} DropEmptyKeepsOrder(a: seq<string>, b: seq<string>)
    ensures DropEmpty(a + b) == DropEmpty(a) + DropEmpty(b)
    decreases |a|
  {
    if |a| == 0 {
      assert a + b == b;
    } else {
      assert (a + b)[1..] == a[1..] + b;
      assert (a + b)[0] == a[0];
      DropEmptyKeepsOrder(a[1..], b);
    }
  }

  /** A piece as `trim` leaves it after a split on ",": no outer white space, no comma. */
  predicate Clean(x: string) {
    IsTrimmed(x) && ',' !in x
  }

  /** The amenities the dialog sends: split on ",", trim each piece, drop the empty ones.
      Every amenity sent is non-empty, trimmed and free of commas. */
  function ParseAmenities(text: string): (r: seq<string>)
    ensures forall i :: 0 <= i < |r| ==> r[i] != "" && Clean(r[i])
    ensures |r| <= |Split(text, ',')|
    ensures forall x :: x in r <==> x != "" && TrimmedPiece(Split(text, ','), x)
  {
    var pieces := Split(text, ',');
    TrimAllClean(pieces);
    DropEmptyKeepsClean(TrimAll(pieces));
    TrimAllMembers(pieces);
    DropEmpty(TrimAll(pieces))
  }

  /** `x` is what `trim` leaves of one of the pieces. */
  predicate TrimmedPiece(pieces: seq<string>, x: string) {
    exists i | 0 <= i < |pieces| :: Trim(pieces[i]) == x
  }

  lemma TrimAllMembers(pieces: seq<string>)
    ensures forall x :: x in TrimAll(pieces) <==> TrimmedPiece(pieces, x)
  {
    var t := TrimAll(pieces);
    forall x | TrimmedPiece(pieces, x) ensures x in t {
      var i :| 0 <= i < |pieces| && Trim(pieces[i]) == x;
      assert t[i] == x;
    }
  }

  lemma TrimAllClean(pieces: seq<string>)
    requires forall i :: 0 <= i < |pieces| ==> ',' !in pieces[i]
    ensures forall i :: 0 <= i < |pieces| ==> Clean(TrimAll(pieces)[i])
  {
    forall i | 0 <= i < |pieces| ensures Clean(TrimAll(pieces)[i]) {
      TrimIsInfix(pieces[i]);
    }
  }

  lemma {:induction false} DropEmptyKeepsClean(pieces: seq<string>)
    requires forall i :: 0 <= i < |pieces| ==> Clean(pieces[i])
    ensures forall i :: 0 <= i < |DropEmpty(pieces)| ==> Clean(DropEmpty(pieces)[i])
    decreases |pieces|
  {
    if |pieces| > 0 {
      DropEmptyKeepsClean(pieces[1..]);
    }
  }

  /** What `trim` keeps is a part of its argument, so it holds no character the argument
      lacks. */
  lemma TrimIsInfix(s: string)
    ensures forall c :: c in Trim(s) ==> c in s
  {
    var t := TrimStart(s);
    assert forall c :: c in t ==> c in s by {
      assert t == s[|s| - |t|..];
    }
    var u := TrimEnd(t);
    assert forall c :: c in u ==> c in t by {
      assert u == t[..|u|];
    }
  }

  /** The pieces `join(", ")` separates by "," alone: every piece but the first gains the
      blank. */
  function Padded(amenities: seq<string>): (r: seq<string>)
    requires |amenities| >= 1
    ensures |r| == |amenities| && r[0] == amenities[0]
    ensures forall i :: 1 <= i < |r| ==> r[i] == " " + amenities[i]
  {
    [amenities[0]] + Blanked(amenities[1..])
  }

  /** Each piece with a blank in front. */
  function Blanked(pieces: seq<string>): (r: seq<string>)
    ensures |r| == |pieces|
    ensures forall i :: 0 <= i < |r| ==> r[i] == " " + pieces[i]
  {
    if |pieces| == 0 then [] else [" " + pieces[0]] + Blanked(pieces[1..])
  }

  lemma {:induction false} JoinPadded(amenities: seq<string>)
    requires |amenities| >= 1
    ensures Join(amenities, ", ") == Join(Padded(amenities), ",")
    decreases |amenities|
  {
    if |amenities| > 1 {
      var tail := amenities[1..];
      JoinPadded(tail);
      var p, q := Padded(amenities), Padded(tail);
      assert p[1..] == [" " + tail[0]] + q[1..];
      assert Join(p[1..], ",") == " " + Join(q, ",") by {
        if |tail| == 1 {
        } else {
          assert (" " + tail[0]) + "," + Join(q[1..], ",") == " " + (tail[0] + "," + Join(q[1..], ","));
          assert q == [tail[0]] + q[1..];
        }
      }
      assert amenities[0] + ", " + Join(tail, ", ") == amenities[0] + "," + (" " + Join(tail, ", "));
    }
  }

  lemma {:induction false} DropEmptyOfNonEmpty(pieces: seq<string>)
    requires forall i :: 0 <= i < |pieces| ==> pieces[i] != ""
    ensures DropEmpty(pieces) == pieces
    decreases |pieces|
  {
    if |pieces| > 0 {
      DropEmptyOfNonEmpty(pieces[1..]);
    }
  }

  lemma PaddedWithoutComma(amenities: seq<string>)
    requires |amenities| >= 1
    requires forall i :: 0 <= i < |amenities| ==> ',' !in amenities[i]
    ensures forall i :: 0 <= i < |Padded(amenities)| ==> ',' !in Padded(amenities)[i]
  {
    var p := Padded(amenities);
    forall i | 1 <= i < |p| ensures ',' !in p[i] {
      assert p[i] == [' '] + amenities[i];
    }
  }

  /** Trimming the padded pieces removes exactly the blanks the join added. */
  lemma TrimPadded(amenities: seq<string>)
    requires |amenities| >= 1
    requires forall i :: 0 <= i < |amenities| ==> IsTrimmed(amenities[i])
    ensures TrimAll(Padded(amenities)) == amenities
  {
    var p := Padded(amenities);
    var q := TrimAll(p);
    forall i | 0 <= i < |q| ensures q[i] == amenities[i] {
      if i == 0 {
        TrimOfTrimmed(amenities[0]);
      } else {
        assert p[i] == " " + amenities[i];
        TrimAfterBlank(amenities[i]);
      }
    }
  }

  /** Showing the amenities and sending the field back unedited gives the same amenities,
      as long as each is non-empty, already trimmed and free of commas. */
  lemma AmenitiesRoundTrip(amenities: seq<string>)
    requires forall i :: 0 <= i < |amenities| ==>
      amenities[i] != "" && IsTrimmed(amenities[i]) && ',' !in amenities[i]
    ensures ParseAmenities(AmenitiesText(amenities)) == amenities
  {
    if |amenities| == 0 {
      NoAmenitiesRoundTrip();
    } else {
      var p := Padded(amenities);
      JoinPadded(amenities);
      PaddedWithoutComma(amenities);
      SplitJoin(p, ',');
      TrimPadded(amenities);
      DropEmptyOfNonEmpty(amenities);
    }
  }

  /** An empty list shows as the empty text, which parses to no amenities. */
  lemma NoAmenitiesRoundTrip()
    ensures ParseAmenities(AmenitiesText([])) == []
  {
    assert Split("", ',') == [""];
    assert Trim("") == "";
    assert TrimAll([""]) == [""];
  }

  /** `handleImageChange`: no file, or already ten previews, leaves the list as it is;
      otherwise the file's data URL is appended. */
  function AddPreview(previews: seq<string>, file: Option<string>): (r: seq<string>)
    ensures file.None? || |previews| >= MaxPreviews ==> r == previews
    ensures file.Some? && |previews| < MaxPreviews ==> r == previews + [file.value]
  {
    if file.None? then previews else Seqs.AppendBelowCap(previews, file.value, MaxPreviews)
  }

  /** The text is parsed piece by piece, in order: a comma-free first piece contributes its
      trimmed text, unless that is empty, in front of whatever the rest of the text parses
      to. Together with ParseLastPiece this fixes the order and the number of the amenities. */
  lemma ParseFirstPiece(p: string, rest: string)
    requires ',' !in p
    ensures ParseAmenities(p + [','] + rest) ==
      (if Trim(p) == "" then [] else [Trim(p)]) + ParseAmenities(rest)
  {
    SplitPrefix(p, rest, ',');
    var pieces := Split(rest, ',');
    assert ([p] + pieces)[1..] == pieces;
    assert TrimAll([p] + pieces) == [Trim(p)] + TrimAll(pieces);
    DropEmptyKeepsOrder([Trim(p)], TrimAll(pieces));
    assert [Trim(p)][1..] == [];
  }

  /** Comma-free text is a single piece: its trimmed text, unless that is empty. */
  lemma ParseLastPiece(p: string)
    requires ',' !in p
    ensures ParseAmenities(p) == if Trim(p) == "" then [] else [Trim(p)]
  {
    SplitWithout(p, ',');
    assert TrimAll([p]) == [Trim(p)];
    assert [Trim(p)][1..] == [];
  }
}
