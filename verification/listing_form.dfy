/** The host's "New listing" form: amenities are ticked from a fixed list, and up to ten
    photos are collected before submission. */
module ListingForm {
  import opened Options
  import Seqs

  const MaxImages: nat := 10

  /** `allAmenities`: the only check boxes the form offers. */
  const AllAmenities: seq<string> := ["WiFi", "Parking", "TV", "Kitchen", "Bathroom", "Pool"]

  /** The amenity check box's `onChange`: ticking appends the value, unticking removes every
      copy of it and nothing else. */
  function ToggleAmenity(amenities: seq<string>, value: string, checked: bool): (r: seq<string>)
    ensures checked ==> r == amenities + [value]
    ensures !checked ==> value !in r && multiset(r) == multiset(amenities)[value := 0]
  {
    if checked then amenities + [value]
    else
      Seqs.RemoveAllCounts(amenities, value);
      Seqs.RemoveAll(amenities, value)
  }

  /** A box shows as ticked when its value is in the list; the form only ever flips it. */
  function Click(amenities: seq<string>, value: string): seq<string> {
    ToggleAmenity(amenities, value, value !in amenities)
  }

  /** Two clicks on the same box give back the list a first click found without it. */
  lemma ClickTwice(amenities: seq<string>, value: string)
    requires value !in amenities
    ensures Click(Click(amenities, value), value) == amenities
  {
    Seqs.RemoveAllKeepsOrder(amenities, [value], value);
    RemoveAllAbsent(amenities, value);
  }

  lemma {:induction false} RemoveAllAbsent(xs: seq<string>, x: string)
    requires x !in xs
    ensures Seqs.RemoveAll(xs, x) == xs
  {
    if |xs| > 0 {
      RemoveAllAbsent(xs[..|xs| - 1], x);
      assert xs == xs[..|xs| - 1] + [xs[|xs| - 1]];
    }
  }

  /** Clicks on the offered boxes only ever produce offered amenities, each at most once. */
  function ClickAll(amenities: seq<string>, values: seq<string>): seq<string>
    decreases |values|
  {
    if |values| == 0 then amenities else ClickAll(Click(amenities, values[0]), values[1..])
  }

  lemma {:induction false} ClicksStayOffered(amenities: seq<string>, values: seq<string>)
    requires forall a :: a in amenities ==> a in AllAmenities
    requires Seqs.NoDups(amenities)
    requires forall v :: v in values ==> v in AllAmenities
    ensures forall a :: a in ClickAll(amenities, values) ==> a in AllAmenities
    ensures Seqs.NoDups(ClickAll(amenities, values))
    decreases |values|
  {
    if |values| > 0 {
      var v := values[0];
      var next := Click(amenities, v);
      if v in amenities {
        RemoveAllSubset(amenities, v);
      } else {
        assert forall i :: 0 <= i < |amenities| ==> amenities[i] != v;
      }
      ClicksStayOffered(next, values[1..]);
    }
  }

  /** Removing a value keeps a subset and keeps the list free of duplicates. */
  lemma {:induction false} RemoveAllSubset(xs: seq<string>, x: string)
    requires Seqs.NoDups(xs)
    ensures forall a :: a in Seqs.RemoveAll(xs, x) ==> a in xs
    ensures Seqs.NoDups(Seqs.RemoveAll(xs, x))
  {
    if |xs| > 0 {
      var front := xs[..|xs| - 1];
      RemoveAllSubset(front, x);
      assert xs == front + [xs[|xs| - 1]];
      assert xs[|xs| - 1] !in front;
    }
  }

  /** `handleImageChange`: no file, or already ten images, is ignored without a word. */
  function AddImage(images: seq<string>, file: Option<string>): (r: seq<string>)
    ensures file.None? || |images| >= MaxImages ==> r == images
    ensures file.Some? && |images| < MaxImages ==> r == images + [file.value]
  {
    if file.None? then images else Seqs.AppendBelowCap(images, file.value, MaxImages)
  }
}
