/** The rental handlers of app/routes.py as methods that update the three
    tables in place. Each method is proved to perform exactly the step of
    the Ledger module, and so inherits what is proved about that step. */
module Handlers {
  import opened Json
  import opened Rentals
  import opened Requests
  import opened Ledger
  import Customers

  class Store {
    var customers: map<int, Customers.Customer>
    var videos: map<int, Video>
    var rentals: seq<Rental>

    function State(): Db
      reads this
    {
      Db(customers, videos, rentals)
    }

    ghost predicate Valid()
      reads this
    {
      WellFormed(State())
    }

    constructor (db: Db)
      requires WellFormed(db)
      ensures Valid() && State() == db
    {
      customers, videos, rentals := db.customers, db.videos, db.rentals;
    }

    /** get_customer_and_video_or_abort: validate the keys, then resolve the
        video id, then the customer id. */
    method GetCustomerAndVideo(body: Object) returns (r: Result<Pair>)
      ensures r == Resolve(State(), body)
    {
      var missing := ValidateParams(body, RentalParams);
      if missing.Some? {
        return Fail(MissingField(missing.value));
      }
      assert RentalParams[0] in body && RentalParams[1] in body;
      var videoText, customerText := body["video_id"], body["customer_id"];
      var videoId := ParseId(videoText);
      if videoId.None? {
        return Fail(BadId(VideoKind, videoText));
      }
      if videoId.value !in videos {
        return Fail(NotFound(VideoKind, videoId.value));
      }
      var customerId := ParseId(customerText);
      if customerId.None? {
        return Fail(BadId(CustomerKind, customerText));
      }
      if customerId.value !in customers {
        return Fail(NotFound(CustomerKind, customerId.value));
      }
      return Ok(Pair(customerId.value, videoId.value));
    }

    /** POST /rentals/check-out. */
    method CheckOut(body: Object, today: int) returns (reply: Reply)
      requires Valid()
      modifies this
      ensures Valid()
      ensures Outcome(State(), reply) == CheckOutStep(old(State()), body, today)
      ensures CustomerCountsAgree(old(State())) ==> CustomerCountsAgree(State())
      ensures InventoryAgrees(old(State())) ==> InventoryAgrees(State())
      ensures InventoryNonNegative(old(State())) ==> InventoryNonNegative(State())
    {
      CheckOutPreserves(State(), body, today);
      var resolved := GetCustomerAndVideo(body);
      if resolved.Fail? {
        return Error(resolved.failure);
      }
      var customerKey, videoKey := resolved.value.customerId, resolved.value.videoId;
      var customer, video := customers[customerKey], videos[videoKey];
      if video.availableInventory == 0 {
        return Error(NoInventory);
      }
      rentals := rentals + [Rental(customer.id, video.id, today + 7)];
      customer := customer.(videosCheckedOutCount := customer.videosCheckedOutCount + 1);
      video := video.(availableInventory := video.availableInventory - 1);
      customers := customers[customerKey := customer];
      videos := videos[videoKey := video];
      return Counters(customer.id, video.id, customer.videosCheckedOutCount, video.availableInventory);
    }

    /** POST /rentals/check-in. */
    method CheckIn(body: Object) returns (reply: Reply)
      requires Valid()
      modifies this
      ensures Valid()
      ensures Outcome(State(), reply) == CheckInStep(old(State()), body)
      ensures CustomerCountsAgree(old(State())) ==> CustomerCountsAgree(State())
      ensures InventoryAgrees(old(State())) ==> InventoryAgrees(State())
      ensures InventoryNonNegative(old(State())) ==> InventoryNonNegative(State())
    {
      ghost var before := State();
      CheckInPreserves(before, body);
      var resolved := GetCustomerAndVideo(body);
      if resolved.Fail? {
        return Error(resolved.failure);
      }
      var customerKey, videoKey := resolved.value.customerId, resolved.value.videoId;
      var customer, video := customers[customerKey], videos[videoKey];
      var found := FirstMatch(rentals, ByPair(customer.id, video.id));
      if found.None? {
        return Error(NoOutstandingRental(customer.id, video.id));
      }
      CheckInShape(before, body);
      ghost var step := CheckInStep(before, body);
      assert resolved == Resolve(before, body);
      assert customer.id == customerKey && video.id == videoKey;
      rentals := RemoveAt(rentals, found.value);
      customer := customer.(videosCheckedOutCount := customer.videosCheckedOutCount - 1);
      video := video.(availableInventory := video.availableInventory + 1);
      assert step.db.customers == before.customers[customerKey := customer];
      assert step.db.videos == before.videos[videoKey := video];
      customers := customers[customerKey := customer];
      videos := videos[videoKey := video];
      return Counters(customer.id, video.id, customer.videosCheckedOutCount, video.availableInventory);
    }

    /** DELETE /customers/<id>. */
    method DeleteCustomer(idText: string) returns (reply: Reply)
      requires Valid()
      modifies this
      ensures Valid()
      ensures Outcome(State(), reply) == DeleteCustomerStep(old(State()), idText)
      ensures videos == old(videos)
      ensures CustomerCountsAgree(old(State())) ==> CustomerCountsAgree(State())
    {
      DeleteCustomerPreserves(State(), idText);
      var parsed := ParseId(Str(idText));
      if parsed.None? {
        return Error(BadId(CustomerKind, Str(idText)));
      }
      var id := parsed.value;
      if id !in customers {
        return Error(NotFound(CustomerKind, id));
      }
      var customer := customers[id];
      rentals := Delete(rentals, ByCustomer(id));
      customers := customers - {id};
      return Deleted(customer.id);
    }

    /** The loop of the video DELETE: for each rental row of video id, lower
        the counter of the row's customer by one and drop the row; returns
        the rows that remain. */
    method ReleaseRows(id: int) returns (kept: seq<Rental>)
      requires Valid()
      modifies this`customers
      ensures customers == ReleaseVideo(old(customers), rentals, id)
      ensures kept == Delete(rentals, ByVideo(id))
    {
      var rows := rentals;
      kept := [];
      var i := 0;
      while i < |rows|
        invariant 0 <= i <= |rows|
        invariant customers == ReleaseEach(old(customers), rows[..i], id)
        invariant kept == Delete(rows[..i], ByVideo(id))
      {
        var rental := rows[i];
        PrefixStep(rows, i, ByVideo(id));
        ReleaseEachStep(old(customers), rows, i, id);
        if rental.videoId == id {
          assert rental in rentals;
          customers := customers[rental.customerId := Uncount(customers[rental.customerId], 1)];
        } else {
          kept := kept + [rental];
        }
        i := i + 1;
      }
      assert rows[..i] == rows;
      ReleaseEachIsReleaseVideo(old(customers), rows, id);
    }

    /** DELETE /videos/<id>: the loop over the video's rental rows lowers
        each row's customer counter and drops the row. */
    method DeleteVideo(idText: string) returns (reply: Reply)
      requires Valid()
      modifies this
      ensures Valid()
      ensures Outcome(State(), reply) == DeleteVideoStep(old(State()), idText)
      ensures CustomerCountsAgree(old(State())) ==> CustomerCountsAgree(State())
      ensures InventoryAgrees(old(State())) ==> InventoryAgrees(State())
      ensures InventoryNonNegative(old(State())) ==> InventoryNonNegative(State())
    {
      DeleteVideoPreserves(State(), idText);
      var parsed := ParseId(Str(idText));
      if parsed.None? {
        return Error(BadId(VideoKind, Str(idText)));
      }
      var id := parsed.value;
      if id !in videos {
        return Error(NotFound(VideoKind, id));
      }
      var video := videos[id];
      var kept := ReleaseRows(id);
      ghost var step := DeleteVideoStep(old(State()), idText);
      assert step == Outcome(Db(ReleaseVideo(old(customers), old(rentals), id), old(videos) - {id}, kept),
                             Deleted(video.id));
      rentals := kept;
      videos := videos - {id};
      return Deleted(video.id);
    }
  }
}
