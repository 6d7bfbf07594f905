/** The "My Bookings" page: the fetched bookings are split into the visible ones and the
    cancelled ones the user removed locally; the removed-id list is rebuilt from the server's
    soft-delete flags on every successful fetch. */
module MyBookingsPage {
  import opened Options
  import opened Models
  import BookingController

  /** A booking the page hides: cancelled and listed as removed. */
  predicate Hidden(b: Booking, removed: seq<Id>) {
    b.status == Cancelled && b.id in removed
  }

  /** `visibleBookings`: the fetched bookings that are not hidden, in fetch order. */
  function VisibleBookings(bs: seq<Booking>, removed: seq<Id>): (r: seq<Booking>)
    ensures |r| <= |bs|
  {
    if |bs| == 0 then []
    else
      var rest := VisibleBookings(bs[..|bs| - 1], removed);
      var b := bs[|bs| - 1];
      if Hidden(b, removed) then rest else rest + [b]
  }

  /** `removedCancelled`: the fetched bookings that are hidden, in fetch order. */
  function RemovedCancelled(bs: seq<Booking>, removed: seq<Id>): (r: seq<Booking>)
    ensures |r| <= |bs|
  {
    if |bs| == 0 then []
    else
      var rest := RemovedCancelled(bs[..|bs| - 1], removed);
      var b := bs[|bs| - 1];
      if Hidden(b, removed) then rest + [b] else rest
  }

  lemma {:induction false} VisibleMembers(bs: seq<Booking>, removed: seq<Id>)
    ensures forall b :: b in VisibleBookings(bs, removed) <==> b in bs && !Hidden(b, removed)
  {
    if |bs| > 0 {
      VisibleMembers(bs[..|bs| - 1], removed);
      assert bs == bs[..|bs| - 1] + [bs[|bs| - 1]];
    }
  }

  lemma {:induction false} RemovedMembers(bs: seq<Booking>, removed: seq<Id>)
    ensures forall b :: b in RemovedCancelled(bs, removed) <==> b in bs && Hidden(b, removed)
  {
    if |bs| > 0 {
      RemovedMembers(bs[..|bs| - 1], removed);
      assert bs == bs[..|bs| - 1] + [bs[|bs| - 1]];
    }
  }

  /** The two lists are disjoint and together hold every fetched booking exactly as often
      as the fetch returned it. */
  lemma PartitionOfFetched(bs: seq<Booking>, removed: seq<Id>)
    ensures multiset(VisibleBookings(bs, removed)) + multiset(RemovedCancelled(bs, removed)) == multiset(bs)
    ensures |VisibleBookings(bs, removed)| + |RemovedCancelled(bs, removed)| == |bs|
    ensures forall b :: !(b in VisibleBookings(bs, removed) && b in RemovedCancelled(bs, removed))
  {
    VisibleMembers(bs, removed);
    RemovedMembers(bs, removed);
    PartitionCounts(bs, removed);
    assert |multiset(VisibleBookings(bs, removed)) + multiset(RemovedCancelled(bs, removed))| == |multiset(bs)|;
  }

  lemma {:induction false} PartitionCounts(bs: seq<Booking>, removed: seq<Id>)
    ensures multiset(VisibleBookings(bs, removed)) + multiset(RemovedCancelled(bs, removed)) == multiset(bs)
  {
    if |bs| > 0 {
      var front := bs[..|bs| - 1];
      PartitionCounts(front, removed);
      assert bs == front + [bs[|bs| - 1]];
    }
  }

  /** Both filters keep fetch order: they distribute over concatenation. */
  lemma {:induction false} VisibleKeepsOrder(a: seq<Booking>, b: seq<Booking>, removed: seq<Id>)
    ensures VisibleBookings(a + b, removed) == VisibleBookings(a, removed) + VisibleBookings(b, removed)
    decreases |b|
  {
    if |b| == 0 {
      assert a + b == a;
    } else {
      var ab := a + b;
      var b' := b[..|b| - 1];
      var x := b[|b| - 1];
      assert ab[..|ab| - 1] == a + b';
      assert ab[|ab| - 1] == x;
      VisibleKeepsOrder(a, b', removed);
      var left, right := VisibleBookings(a, removed), VisibleBookings(b', removed);
      assert VisibleBookings(a + b', removed) == left + right;
      if !Hidden(x, removed) {
        assert (left + right) + [x] == left + (right + [x]);
      }
    }
  }

  lemma {:induction false} RemovedKeepsOrder(a: seq<Booking>, b: seq<Booking>, removed: seq<Id>)
    ensures RemovedCancelled(a + b, removed) == RemovedCancelled(a, removed) + RemovedCancelled(b, removed)
    decreases |b|
  {
    if |b| == 0 {
      assert a + b == a;
    } else {
      var ab := a + b;
      var b' := b[..|b| - 1];
      var x := b[|b| - 1];
      assert ab[..|ab| - 1] == a + b';
      assert ab[|ab| - 1] == x;
      RemovedKeepsOrder(a, b', removed);
      var left, right := RemovedCancelled(a, removed), RemovedCancelled(b', removed);
      assert RemovedCancelled(a + b', removed) == left + right;
      if Hidden(x, removed) {
        assert (left + right) + [x] == left + (right + [x]);
      }
    }
  }

  /** A booking that is not cancelled is shown whatever the removed list holds. */
  lemma ActiveAlwaysVisible(bs: seq<Booking>, removed: seq<Id>, b: Booking)
    requires b in bs && b.status != Cancelled
    ensures b in VisibleBookings(bs, removed)
    ensures b !in RemovedCancelled(bs, removed)
  {
    VisibleMembers(bs, removed);
    RemovedMembers(bs, removed);
  }

  /** The ids of the fetched bookings flagged `isDeleted`, in fetch order. */
  function DeletedIds(bs: seq<Booking>): (r: seq<Id>)
    ensures |r| <= |bs|
    ensures forall id :: id in r <==> exists i | 0 <= i < |bs| :: bs[i].isDeleted && bs[i].id == id
  {
    if |bs| == 0 then []
    else
      var rest := DeletedIds(bs[..|bs| - 1]);
      var b := bs[|bs| - 1];
      assert forall i | 0 <= i < |bs| - 1 :: bs[..|bs| - 1][i] == bs[i];
      if b.isDeleted then rest + [b.id] else rest
  }

  /** The flagged ids keep fetch order, one per flagged booking: the list of a concatenation
      is the lists of its parts, and a single booking contributes its id exactly when it is
      flagged. */
  lemma {:induction false} DeletedIdsKeepOrder(a: seq<Booking>, b: seq<Booking>)
    ensures DeletedIds(a + b) == DeletedIds(a) + DeletedIds(b)
    decreases |b|
  {
    if |b| == 0 {
      assert a + b == a;
    } else {
      var ab := a + b;
      var b' := b[..|b| - 1];
      var x := b[|b| - 1];
      assert ab[..|ab| - 1] == a + b';
      assert ab[|ab| - 1] == x;
      DeletedIdsKeepOrder(a, b');
      var left, right := DeletedIds(a), DeletedIds(b');
      if x.isDeleted {
        assert (left + right) + [x.id] == left + (right + [x.id]);
      }
    }
  }

  lemma DeletedIdsOfOne(b: Booking)
    ensures DeletedIds([b]) == if b.isDeleted then [b.id] else []
  {
    assert [b][..0] == [];
  }

  /** What the page holds: the fetched bookings, the removed ids and an error message. */
  datatype Page = Page(bookings: seq<Booking>, removed: seq<Id>, error: string)

  /** The fetch's answer: `Some(bookings)` when the server reports success, `None` when it
      reports failure or the request throws. */
  function AfterFetch(p: Page, answer: Option<seq<Booking>>): (r: Page)
    ensures answer.None? ==> r.bookings == p.bookings && r.removed == p.removed && r.error != ""
    ensures answer.Some? ==> r.bookings == answer.value && r.error == p.error
    ensures answer.Some? ==> forall b :: b in r.bookings ==> (b.isDeleted ==> b.id in r.removed)
    ensures answer.Some? ==> forall id :: id in r.removed ==> exists b :: b in r.bookings && b.isDeleted && b.id == id
  {
    match answer
    case None => p.(error := "Failed to fetch bookings")
    case Some(bs) =>
      var ids := DeletedIds(bs);
      assert forall b :: b in bs && b.isDeleted ==> b.id in ids by {
        forall b | b in bs && b.isDeleted ensures b.id in ids {
          var i :| 0 <= i < |bs| && bs[i] == b;
        }
      }
      Page(bs, ids, p.error)
  }

  /** `handleLocalDelete`: the id is appended before the server is asked, so the outcome of
      the server call (`serverOk`) does not affect the list. */
  function HandleLocalDelete(removed: seq<Id>, id: Id, serverOk: bool): (r: seq<Id>)
    ensures |r| == |removed| + 1 && r[..|removed|] == removed && r[|removed|] == id
  {
    removed + [id]
  }

  /** The server's answer to the soft delete does not change what the page hides. */
  lemma LocalDeleteIgnoresServer(removed: seq<Id>, id: Id)
    ensures HandleLocalDelete(removed, id, true) == HandleLocalDelete(removed, id, false)
  {
  }

  /** After a local delete, a cancelled booking with that id leaves the visible list and
      joins the removed list; every other booking keeps its place. */
  lemma LocalDeleteHides(bs: seq<Booking>, removed: seq<Id>, id: Id, serverOk: bool)
    ensures var after := HandleLocalDelete(removed, id, serverOk);
      forall b :: b in bs ==>
        (b in VisibleBookings(bs, after) <==> b in VisibleBookings(bs, removed) && !(b.status == Cancelled && b.id == id))
  {
    var after := HandleLocalDelete(removed, id, serverOk);
    VisibleMembers(bs, removed);
    VisibleMembers(bs, after);
    assert forall x :: x in after <==> x in removed || x == id;
  }

  /** The server is never told of a local delete, so a reload that finds the booking still
      unflagged rebuilds the removed list without it, and the cancelled booking shows again. */
  lemma ReloadForgetsLocalDelete(p: Page, id: Id, fetched: seq<Booking>, b: Booking)
    requires b in fetched && b.id == id && b.status == Cancelled
    requires forall x :: x in fetched && x.id == id ==> !x.isDeleted
    ensures b !in VisibleBookings(fetched, HandleLocalDelete(p.removed, id, false))
    ensures var reloaded := AfterFetch(p.(removed := HandleLocalDelete(p.removed, id, false)), Some(fetched));
      b in VisibleBookings(reloaded.bookings, reloaded.removed)
  {
    var reloaded := AfterFetch(p.(removed := HandleLocalDelete(p.removed, id, false)), Some(fetched));
    VisibleMembers(fetched, HandleLocalDelete(p.removed, id, false));
    VisibleMembers(reloaded.bookings, reloaded.removed);
    assert id !in reloaded.removed;
  }

  /** Once the server has raised the flag on the guest's cancelled booking, the next fetch
      brings it back flagged and the page keeps it out of the visible list. */
  lemma ServerMarkSurvivesReload(s: Store, p: Page, requester: Id, bookingId: Id)
    requires FindBooking(s.bookings, bookingId).Some?
    requires s.bookings[FindBooking(s.bookings, bookingId).value].userId == requester
    requires s.bookings[FindBooking(s.bookings, bookingId).value].status == Cancelled
    ensures var after := BookingController.MarkBookingDeleted(s, bookingId).store;
      var reply := BookingController.GetAllBookings(after, requester);
      var marked := after.bookings[FindBooking(s.bookings, bookingId).value];
      && reply.data.Some?
      && var page := AfterFetch(p, reply.data);
      && marked in page.bookings
      && marked !in VisibleBookings(page.bookings, page.removed)
  {
    var after := BookingController.MarkBookingDeleted(s, bookingId).store;
    var i := FindBooking(s.bookings, bookingId).value;
    var marked := after.bookings[i];
    var reply := BookingController.GetAllBookings(after, requester);
    assert after.bookings[i].userId == requester;
    assert multiset(after.bookings)[marked] > 0;
    assert reply.data.Some?;
    assert multiset(reply.data.value)[marked] > 0;
    var page := AfterFetch(p, reply.data);
    assert marked in page.bookings;
    VisibleMembers(page.bookings, page.removed);
  }
}
