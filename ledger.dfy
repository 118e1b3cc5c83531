/** The rental ledger of app/routes.py as transitions of a snapshot of the
    three tables: each handler (check-out, check-in, deleting a customer,
    deleting a video) is one atomic step from a snapshot and a request to a
    new snapshot and a reply. */
module Ledger {
  import opened Json
  import opened Rentals
  import opened Requests
  import Customers

  datatype Video = Video(
    id: int,
    title: string,
    releaseDate: string,
    totalInventory: int,
    availableInventory: int)

  /** The three tables: customers and videos keyed by primary key, and the
      rental rows in insertion order. */
  datatype Db = Db(
    customers: map<int, Customers.Customer>,
    videos: map<int, Video>,
    rentals: seq<Rental>)

  datatype Kind = CustomerKind | VideoKind

  /** The reasons a handler answers with an error instead of acting. */
  datatype Failure =
    | MissingField(name: string)
    | BadId(kind: Kind, given: Value)
    | NotFound(kind: Kind, id: int)
    | NoInventory
    | NoOutstandingRental(customerId: int, videoId: int)
  {
    function Status(): int {
      if NotFound? then 404 else 400
    }
  }

  /** A handler's answer: the ids and counters after a rental operation, the
      id of a deleted record, or an error. */
  datatype Reply =
    | Counters(customerId: int, videoId: int, videosCheckedOutCount: int, availableInventory: int)
    | Deleted(id: int)
    | Error(failure: Failure)
  {
    function Status(): int {
      if Error? then failure.Status() else 200
    }
  }

  datatype Pair = Pair(customerId: int, videoId: int)

  datatype Result<+T> = Ok(value: T) | Fail(failure: Failure)

  datatype Outcome = Outcome(db: Db, reply: Reply)

  // ----- Consistency of the tables -----

  /** What the database itself guarantees: a record is stored under its
      primary key, and every rental row refers to an existing customer and
      an existing video. */
  predicate WellFormed(db: Db) {
    && (forall k :: k in db.customers ==> db.customers[k].id == k)
    && (forall k :: k in db.videos ==> db.videos[k].id == k)
    && (forall r :: r in db.rentals ==> r.customerId in db.customers && r.videoId in db.videos)
  }

  /** Every customer's counter equals the number of its rental rows. */
  predicate CustomerCountsAgree(db: Db) {
    forall k :: k in db.customers ==>
      db.customers[k].videosCheckedOutCount == Count(db.rentals, ByCustomer(k))
  }

  /** Every video's total minus available equals the number of its rental rows. */
  predicate InventoryAgrees(db: Db) {
    forall k :: k in db.videos ==>
      db.videos[k].totalInventory - db.videos[k].availableInventory == Count(db.rentals, ByVideo(k))
  }

  predicate InventoryNonNegative(db: Db) {
    forall k :: k in db.videos ==> db.videos[k].availableInventory >= 0
  }

  /** Where both counters agree with the rows and no available inventory is
      negative, every counter lies in its intended range. */
  lemma CountersInRange(db: Db)
    requires CustomerCountsAgree(db) && InventoryAgrees(db) && InventoryNonNegative(db)
    ensures forall k :: k in db.customers ==> db.customers[k].videosCheckedOutCount >= 0
    ensures forall k :: k in db.videos ==>
              0 <= db.videos[k].availableInventory <= db.videos[k].totalInventory
  {
  }

  // ----- get_customer_and_video_or_abort -----

  function Field(kind: Kind): string {
    if kind == CustomerKind then "customer_id" else "video_id"
  }

  function Table(db: Db, kind: Kind): set<int> {
    if kind == CustomerKind then db.customers.Keys else db.videos.Keys
  }

  predicate Present(body: Object) {
    "customer_id" in body && "video_id" in body
  }

  /** The body's id for kind parses and names an existing record. */
  predicate Resolves(db: Db, body: Object, kind: Kind) {
    Field(kind) in body && ParseId(body[Field(kind)]).Some?
    && ParseId(body[Field(kind)]).value in Table(db, kind)
  }

  /** Both keys must be present (customer_id checked first); then the video
      id is parsed and looked up, then the customer id; the first check that
      fails decides the error. */
  function Resolve(db: Db, body: Object): (r: Result<Pair>)
    ensures r.Ok? <==> Present(body) && Resolves(db, body, VideoKind) && Resolves(db, body, CustomerKind)
    ensures r.Ok? ==> r.value == Pair(ParseId(body["customer_id"]).value, ParseId(body["video_id"]).value)
    ensures r == Fail(MissingField("customer_id")) <==> "customer_id" !in body
    ensures r == Fail(MissingField("video_id")) <==> "customer_id" in body && "video_id" !in body
    ensures r.Fail? && r.failure.MissingField? ==> !Present(body)
    ensures r.Fail? ==> r.failure.MissingField? || r.failure.BadId? || r.failure.NotFound?
    ensures r.Fail? && r.failure.BadId? ==>
              && Present(body)
              && r.failure.given == body[Field(r.failure.kind)]
              && ParseId(r.failure.given).None?
              && (r.failure.kind == CustomerKind ==> Resolves(db, body, VideoKind))
    ensures r.Fail? && r.failure.NotFound? ==>
              && Present(body)
              && ParseId(body[Field(r.failure.kind)]) == Some(r.failure.id)
              && r.failure.id !in Table(db, r.failure.kind)
              && (r.failure.kind == CustomerKind ==> Resolves(db, body, VideoKind))
  {
    match FirstMissing(body, RentalParams)
    case Some(name) =>
      assert RentalParams[0] == "customer_id" && RentalParams[1] == "video_id";
      Fail(MissingField(name))
    case None =>
      assert RentalParams[0] in body && RentalParams[1] in body;
      var videoText, customerText := body["video_id"], body["customer_id"];
      match ParseId(videoText)
      case None => Fail(BadId(VideoKind, videoText))
      case Some(videoId) =>
        if videoId !in db.videos then Fail(NotFound(VideoKind, videoId))
        else
          match ParseId(customerText)
          case None => Fail(BadId(CustomerKind, customerText))
          case Some(customerId) =>
            if customerId !in db.customers then Fail(NotFound(CustomerKind, customerId))
            else Ok(Pair(customerId, videoId))
  }

  // ----- The handlers as steps -----

  /** check_out: resolve both ids; refuse when no copy is available;
      otherwise add a rental due seven days from today and move both
      counters by one. */
  function CheckOutStep(db: Db, body: Object, today: int): (o: Outcome)
    ensures Resolve(db, body).Fail? ==> o == Outcome(db, Error(Resolve(db, body).failure))
    ensures o.reply.Error? ==> o.db == db
    ensures o.reply.Error? <==>
              Resolve(db, body).Fail? || db.videos[Resolve(db, body).value.videoId].availableInventory == 0
    ensures o.reply.Counters? ==>
              && |o.db.rentals| == |db.rentals| + 1
              && o.db.customers.Keys == db.customers.Keys
              && o.db.videos.Keys == db.videos.Keys
  {
    match Resolve(db, body)
    case Fail(f) => Outcome(db, Error(f))
    case Ok(p) =>
      var c, v := db.customers[p.customerId], db.videos[p.videoId];
      if v.availableInventory == 0 then Outcome(db, Error(NoInventory))
      else
        var c' := c.(videosCheckedOutCount := c.videosCheckedOutCount + 1);
        var v' := v.(availableInventory := v.availableInventory - 1);
        Outcome(Db(db.customers[p.customerId := c'], db.videos[p.videoId := v'],
                   db.rentals + [Rental(c.id, v.id, today + 7)]),
                Counters(c.id, v.id, c'.videosCheckedOutCount, v'.availableInventory))
  }

  /** check_in: resolve both ids; refuse when the pair has no rental row;
      otherwise delete the first such row and move both counters back. */
  function CheckInStep(db: Db, body: Object): (o: Outcome)
    ensures Resolve(db, body).Fail? ==> o == Outcome(db, Error(Resolve(db, body).failure))
    ensures o.reply.Error? ==> o.db == db
    ensures o.reply.Counters? ==>
              && |o.db.rentals| == |db.rentals| - 1
              && o.db.customers.Keys == db.customers.Keys
              && o.db.videos.Keys == db.videos.Keys
  {
    match Resolve(db, body)
    case Fail(f) => Outcome(db, Error(f))
    case Ok(p) =>
      var c, v := db.customers[p.customerId], db.videos[p.videoId];
      match FirstMatch(db.rentals, ByPair(c.id, v.id))
      case None => Outcome(db, Error(NoOutstandingRental(c.id, v.id)))
      case Some(i) =>
        var c' := c.(videosCheckedOutCount := c.videosCheckedOutCount - 1);
        var v' := v.(availableInventory := v.availableInventory + 1);
        Outcome(Db(db.customers[p.customerId := c'], db.videos[p.videoId := v'],
                   RemoveAt(db.rentals, i)),
                Counters(c.id, v.id, c'.videosCheckedOutCount, v'.availableInventory))
  }

  /** DELETE /customers/<id>: delete the customer's rental rows and the
      customer; the videos table is not touched. */
  function DeleteCustomerStep(db: Db, idText: string): (o: Outcome)
    ensures o.reply == Error(BadId(CustomerKind, Str(idText))) <==> ParseId(Str(idText)).None?
    ensures o.reply.Error? && o.reply.failure.NotFound? <==>
              ParseId(Str(idText)).Some? && ParseId(Str(idText)).value !in db.customers
    ensures o.reply.Error? && o.reply.failure.NotFound? ==>
              o.reply.failure == NotFound(CustomerKind, ParseId(Str(idText)).value)
    ensures o.reply.Deleted? <==> ParseId(Str(idText)).Some? && ParseId(Str(idText)).value in db.customers
    ensures o.db.videos == db.videos
    ensures o.reply.Error? ==> o.db == db
    ensures o.reply.Deleted? ==>
              ParseId(Str(idText)).Some? && o.db.customers.Keys == db.customers.Keys - {ParseId(Str(idText)).value}
  {
    match ParseId(Str(idText))
    case None => Outcome(db, Error(BadId(CustomerKind, Str(idText))))
    case Some(id) =>
      if id !in db.customers then Outcome(db, Error(NotFound(CustomerKind, id)))
      else
        var customer := db.customers[id];
        Outcome(Db(db.customers - {id}, db.videos, Delete(db.rentals, ByCustomer(id))),
                Deleted(customer.id))
  }

  /** The customer with its checked-out counter lowered by n. */
  function Uncount(c: Customers.Customer, n: int): Customers.Customer {
    c.(videosCheckedOutCount := c.videosCheckedOutCount - n)
  }

  /** The customers after every rental of video id is deleted: each loses
      one from its counter per such row. */
  function ReleaseVideo(customers: map<int, Customers.Customer>, rentals: seq<Rental>, id: int)
    : (m: map<int, Customers.Customer>)
    ensures m.Keys == customers.Keys
  {
    map k | k in customers :: Uncount(customers[k], Count(rentals, ByPair(k, id)))
  }

  /** ReleaseVideo over one more row: that row's customer loses one more
      when the row is for the video, and nothing changes otherwise. */
  lemma {:induction false} ReleaseVideoStep(before: map<int, Customers.Customer>, rows: seq<Rental>, i: nat, id: int)
    requires i < |rows|
    ensures var r, now := rows[i], ReleaseVideo(before, rows[..i], id);
      ReleaseVideo(before, rows[..i + 1], id)
        == if r.videoId == id && r.customerId in before
           then now[r.customerId := Uncount(now[r.customerId], 1)]
           else now
  {
    var r, now, next := rows[i], ReleaseVideo(before, rows[..i], id), ReleaseVideo(before, rows[..i + 1], id);
    forall k | k in before
      ensures Count(rows[..i + 1], ByPair(k, id))
                == Count(rows[..i], ByPair(k, id)) + (if Selects(ByPair(k, id), r) then 1 else 0)
    {
      PrefixStep(rows, i, ByPair(k, id));
    }
  }

  /** The customers after the rows are released one at a time, in order:
      a row of the video lowers its customer's counter by one. */
  function ReleaseEach(customers: map<int, Customers.Customer>, rows: seq<Rental>, id: int)
    : (m: map<int, Customers.Customer>)
    ensures m.Keys == customers.Keys
  {
    if rows == [] then customers
    else
      var m := ReleaseEach(customers, rows[..|rows| - 1], id);
      var r := rows[|rows| - 1];
      if r.videoId == id && r.customerId in m then m[r.customerId := Uncount(m[r.customerId], 1)] else m
  }

  /** ReleaseEach over a prefix one row longer. */
  lemma ReleaseEachStep(before: map<int, Customers.Customer>, rows: seq<Rental>, i: nat, id: int)
    requires i < |rows|
    ensures var r, now := rows[i], ReleaseEach(before, rows[..i], id);
      ReleaseEach(before, rows[..i + 1], id)
        == if r.videoId == id && r.customerId in now then now[r.customerId := Uncount(now[r.customerId], 1)] else now
  {
    assert rows[..i + 1][..i] == rows[..i];
  }

  /** Releasing row by row lowers each customer by its rows for the video. */
  lemma {:induction false} ReleaseEachIsReleaseVideo(customers: map<int, Customers.Customer>, rows: seq<Rental>, id: int)
    ensures ReleaseEach(customers, rows, id) == ReleaseVideo(customers, rows, id)
  {
    if rows == [] {
      assert ReleaseVideo(customers, rows, id) == customers;
    } else {
      var n := |rows| - 1;
      ReleaseEachIsReleaseVideo(customers, rows[..n], id);
      ReleaseVideoStep(customers, rows, n, id);
      assert rows[..n + 1] == rows;
    }
  }

  /** DELETE /videos/<id>: for each rental row of the video, decrement its
      customer's counter and delete the row; then delete the video. */
  function DeleteVideoStep(db: Db, idText: string): (o: Outcome)
    ensures o.reply == Error(BadId(VideoKind, Str(idText))) <==> ParseId(Str(idText)).None?
    ensures o.reply.Error? && o.reply.failure.NotFound? <==>
              ParseId(Str(idText)).Some? && ParseId(Str(idText)).value !in db.videos
    ensures o.reply.Error? && o.reply.failure.NotFound? ==>
              o.reply.failure == NotFound(VideoKind, ParseId(Str(idText)).value)
    ensures o.reply.Deleted? <==> ParseId(Str(idText)).Some? && ParseId(Str(idText)).value in db.videos
    ensures o.reply.Error? ==> o.db == db
    ensures o.db.customers.Keys == db.customers.Keys
    ensures o.reply.Deleted? ==>
              ParseId(Str(idText)).Some? && o.db.videos.Keys == db.videos.Keys - {ParseId(Str(idText)).value}
  {
    match ParseId(Str(idText))
    case None => Outcome(db, Error(BadId(VideoKind, Str(idText))))
    case Some(id) =>
      if id !in db.videos then Outcome(db, Error(NotFound(VideoKind, id)))
      else
        var video := db.videos[id];
        Outcome(Db(ReleaseVideo(db.customers, db.rentals, id), db.videos - {id},
                   Delete(db.rentals, ByVideo(id))),
                Deleted(video.id))
  }

  /** The video PUT: title, release date and total are overwritten; the
      available inventory is left as it was. */
  function PutVideo(v: Video, title: string, releaseDate: string, total: int): (v': Video)
    ensures v'.id == v.id && v'.title == title && v'.releaseDate == releaseDate
    ensures v'.totalInventory == total && v'.availableInventory == v.availableInventory
  {
    v.(title := title, releaseDate := releaseDate, totalInventory := total)
  }

  // ----- What each step does and keeps -----

  /** With no copy available, check-out answers 400 and changes nothing. */
  lemma CheckOutNoInventory(db: Db, body: Object, today: int)
    requires Resolve(db, body).Ok?
    requires db.videos[Resolve(db, body).value.videoId].availableInventory == 0
    ensures CheckOutStep(db, body, today) == Outcome(db, Error(NoInventory))
    ensures CheckOutStep(db, body, today).reply.Status() == 400
  {
  }

  /** A successful check-out appends exactly one rental, due today + 7, and
      moves exactly the two counters involved. */
  lemma CheckOutEffect(db: Db, body: Object, today: int)
    requires WellFormed(db)
    requires Resolve(db, body).Ok?
    requires db.videos[Resolve(db, body).value.videoId].availableInventory != 0
    ensures var p, o := Resolve(db, body).value, CheckOutStep(db, body, today);
      && o.db.rentals == db.rentals + [Rental(p.customerId, p.videoId, today + 7)]
      && o.db.customers[p.customerId].videosCheckedOutCount
           == db.customers[p.customerId].videosCheckedOutCount + 1
      && o.db.videos[p.videoId].availableInventory == db.videos[p.videoId].availableInventory - 1
      && o.db.videos[p.videoId].totalInventory == db.videos[p.videoId].totalInventory
      && (forall k :: k in db.customers && k != p.customerId ==> o.db.customers[k] == db.customers[k])
      && (forall k :: k in db.videos && k != p.videoId ==> o.db.videos[k] == db.videos[k])
      && o.reply == Counters(p.customerId, p.videoId,
                             o.db.customers[p.customerId].videosCheckedOutCount,
                             o.db.videos[p.videoId].availableInventory)
  {
  }

  /** Check-out keeps the tables well formed, keeps both counter agreements,
      and never takes an available inventory below zero. */
  lemma {:induction false} CheckOutPreserves(db: Db, body: Object, today: int)
    requires WellFormed(db)
    ensures var o := CheckOutStep(db, body, today);
      && WellFormed(o.db)
      && (CustomerCountsAgree(db) ==> CustomerCountsAgree(o.db))
      && (InventoryAgrees(db) ==> InventoryAgrees(o.db))
      && (InventoryNonNegative(db) ==> InventoryNonNegative(o.db))
  {
    var o := CheckOutStep(db, body, today);
    if o.reply.Counters? {
      var p := Resolve(db, body).value;
      var r := Rental(p.customerId, p.videoId, today + 7);
      assert o.db.rentals == db.rentals + [r];
      forall k | k in o.db.customers
        ensures o.db.customers[k].videosCheckedOutCount
                  == db.customers[k].videosCheckedOutCount + (if k == p.customerId then 1 else 0)
        ensures Count(o.db.rentals, ByCustomer(k))
                  == Count(db.rentals, ByCustomer(k)) + (if k == p.customerId then 1 else 0)
      {
        CountAppend(db.rentals, r, ByCustomer(k));
      }
      forall k | k in o.db.videos
        ensures Count(o.db.rentals, ByVideo(k))
                  == Count(db.rentals, ByVideo(k)) + (if k == p.videoId then 1 else 0)
      {
        CountAppend(db.rentals, r, ByVideo(k));
      }
    }
  }

  /** Without a rental row for the pair, check-in answers 400 and changes nothing. */
  lemma CheckInNoRental(db: Db, body: Object)
    requires WellFormed(db)
    requires Resolve(db, body).Ok?
    requires var p := Resolve(db, body).value;
             forall j :: 0 <= j < |db.rentals| ==> !Selects(ByPair(p.customerId, p.videoId), db.rentals[j])
    ensures var p := Resolve(db, body).value;
      CheckInStep(db, body) == Outcome(db, Error(NoOutstandingRental(p.customerId, p.videoId)))
    ensures CheckInStep(db, body).reply.Status() == 400
  {
  }

  /** A successful check-in deletes the first rental row of the pair and
      nothing else, and moves exactly the two counters involved. */
  lemma {:induction false} CheckInEffect(db: Db, body: Object)
    requires WellFormed(db)
    requires CheckInStep(db, body).reply.Counters?
    ensures Resolve(db, body).Ok?
    ensures var p, o := Resolve(db, body).value, CheckInStep(db, body);
      exists i :: 0 <= i < |db.rentals|
        && Selects(ByPair(p.customerId, p.videoId), db.rentals[i])
        && (forall j :: 0 <= j < i ==> !Selects(ByPair(p.customerId, p.videoId), db.rentals[j]))
        && o.db.rentals == db.rentals[..i] + db.rentals[i + 1..]
    ensures var p, o := Resolve(db, body).value, CheckInStep(db, body);
      && o.db.customers[p.customerId].videosCheckedOutCount
           == db.customers[p.customerId].videosCheckedOutCount - 1
      && o.db.videos[p.videoId].availableInventory == db.videos[p.videoId].availableInventory + 1
      && (forall k :: k in db.customers && k != p.customerId ==> o.db.customers[k] == db.customers[k])
      && (forall k :: k in db.videos && k != p.videoId ==> o.db.videos[k] == db.videos[k])
  {
    var p := Resolve(db, body).value;
    var i := FirstMatch(db.rentals, ByPair(p.customerId, p.videoId)).value;
    assert CheckInStep(db, body).db.rentals == db.rentals[..i] + db.rentals[i + 1..];
  }

  /** Check-in keeps the tables well formed, keeps both counter agreements,
      and keeps available inventory non-negative. */
  lemma {:induction false} CheckInPreserves(db: Db, body: Object)
    requires WellFormed(db)
    ensures var o := CheckInStep(db, body);
      && WellFormed(o.db)
      && (CustomerCountsAgree(db) ==> CustomerCountsAgree(o.db))
      && (InventoryAgrees(db) ==> InventoryAgrees(o.db))
      && (InventoryNonNegative(db) ==> InventoryNonNegative(o.db))
  {
    var o := CheckInStep(db, body);
    if o.reply.Counters? {
      var p := Resolve(db, body).value;
      var i := FirstMatch(db.rentals, ByPair(p.customerId, p.videoId)).value;
      CheckInShape(db, body);
      RemoveAtSubset(db.rentals, i);
      forall k | k in o.db.customers
        ensures Count(o.db.rentals, ByCustomer(k)) + (if k == p.customerId then 1 else 0)
                  == Count(db.rentals, ByCustomer(k))
      {
        CountRemoveAt(db.rentals, i, ByCustomer(k));
      }
      forall k | k in o.db.videos
        ensures Count(o.db.rentals, ByVideo(k)) + (if k == p.videoId then 1 else 0)
                  == Count(db.rentals, ByVideo(k))
      {
        CountRemoveAt(db.rentals, i, ByVideo(k));
      }
    }
  }

  /** Resolution reads only the body and the sets of keys. */
  lemma ResolveSameKeys(db: Db, db': Db, body: Object)
    requires db'.customers.Keys == db.customers.Keys && db'.videos.Keys == db.videos.Keys
    ensures Resolve(db', body) == Resolve(db, body)
  {
  }

  /** The snapshot a successful check-out leaves, spelled out, and the fact
      that it resolves the same body to the same pair. */
  lemma CheckOutShape(db: Db, body: Object, today: int)
    requires WellFormed(db)
    requires CheckOutStep(db, body, today).reply.Counters?
    ensures var p := Resolve(db, body).value;
            var c, v := db.customers[p.customerId], db.videos[p.videoId];
            var mid := CheckOutStep(db, body, today).db;
      && c.id == p.customerId && v.id == p.videoId
      && mid.rentals == db.rentals + [Rental(p.customerId, p.videoId, today + 7)]
      && mid.customers == db.customers[p.customerId := c.(videosCheckedOutCount := c.videosCheckedOutCount + 1)]
      && mid.videos == db.videos[p.videoId := v.(availableInventory := v.availableInventory - 1)]
      && Resolve(mid, body) == Resolve(db, body)
  {
    ResolveSameKeys(db, CheckOutStep(db, body, today).db, body);
  }

  /** The snapshot and reply of a check-in that finds a row, spelled out. */
  lemma CheckInShape(db: Db, body: Object)
    requires WellFormed(db)
    requires Resolve(db, body).Ok?
    requires var p := Resolve(db, body).value;
             FirstMatch(db.rentals, ByPair(p.customerId, p.videoId)).Some?
    ensures var p := Resolve(db, body).value;
            var c, v := db.customers[p.customerId], db.videos[p.videoId];
            var i := FirstMatch(db.rentals, ByPair(p.customerId, p.videoId)).value;
            var o := CheckInStep(db, body);
      && o.reply == Counters(p.customerId, p.videoId, c.videosCheckedOutCount - 1, v.availableInventory + 1)
      && o.db.customers == db.customers[p.customerId := c.(videosCheckedOutCount := c.videosCheckedOutCount - 1)]
      && o.db.videos == db.videos[p.videoId := v.(availableInventory := v.availableInventory + 1)]
      && o.db.rentals == RemoveAt(db.rentals, i)
  {
    var p := Resolve(db, body).value;
    assert db.customers[p.customerId].id == p.customerId;
    assert db.videos[p.videoId].id == p.videoId;
  }

  /** Check-out followed by check-in of the same pair restores both tables
      of records and the (customer, video) pairs of the rental rows; when the
      pair had no earlier rental the rental rows themselves are restored. */
  lemma {:induction false} CheckOutThenCheckIn(db: Db, body: Object, today: int)
    requires WellFormed(db)
    requires CheckOutStep(db, body, today).reply.Counters?
    ensures var before := db.customers[Resolve(db, body).value.customerId].videosCheckedOutCount;
            var avail := db.videos[Resolve(db, body).value.videoId].availableInventory;
            var o := CheckInStep(CheckOutStep(db, body, today).db, body);
      && o.reply.Counters?
      && o.reply.videosCheckedOutCount == before
      && o.reply.availableInventory == avail
      && o.db.customers == db.customers
      && o.db.videos == db.videos
      && Pairs(o.db.rentals) == Pairs(db.rentals)
      && (var p := Resolve(db, body).value;
          FirstMatch(db.rentals, ByPair(p.customerId, p.videoId)).None? ==> o.db.rentals == db.rentals)
  {
    var p := Resolve(db, body).value;
    var mid := CheckOutStep(db, body, today).db;
    CheckOutShape(db, body, today);
    FirstMatchAppend(db.rentals, Rental(p.customerId, p.videoId, today + 7), ByPair(p.customerId, p.videoId));
    CheckInShape(mid, body);
    RoundTrip(db, mid, CheckInStep(mid, body), p, today + 7);
  }

  /** The round trip over snapshots given by their shape. */
  lemma RoundTrip(db: Db, mid: Db, o: Outcome, p: Pair, due: int)
    requires p.customerId in db.customers && p.videoId in db.videos
    requires var c, v := db.customers[p.customerId], db.videos[p.videoId];
      && mid.rentals == db.rentals + [Rental(p.customerId, p.videoId, due)]
      && mid.customers == db.customers[p.customerId := c.(videosCheckedOutCount := c.videosCheckedOutCount + 1)]
      && mid.videos == db.videos[p.videoId := v.(availableInventory := v.availableInventory - 1)]
    requires FirstMatch(mid.rentals, ByPair(p.customerId, p.videoId)).Some?
    requires var c, v := mid.customers[p.customerId], mid.videos[p.videoId];
             var i := FirstMatch(mid.rentals, ByPair(p.customerId, p.videoId)).value;
      && o.reply == Counters(p.customerId, p.videoId, c.videosCheckedOutCount - 1, v.availableInventory + 1)
      && o.db.customers == mid.customers[p.customerId := c.(videosCheckedOutCount := c.videosCheckedOutCount - 1)]
      && o.db.videos == mid.videos[p.videoId := v.(availableInventory := v.availableInventory + 1)]
      && o.db.rentals == RemoveAt(mid.rentals, i)
    ensures && o.reply.Counters?
      && o.reply.videosCheckedOutCount == db.customers[p.customerId].videosCheckedOutCount
      && o.reply.availableInventory == db.videos[p.videoId].availableInventory
      && o.db.customers == db.customers
      && o.db.videos == db.videos
      && Pairs(o.db.rentals) == Pairs(db.rentals)
      && (FirstMatch(db.rentals, ByPair(p.customerId, p.videoId)).None? ==> o.db.rentals == db.rentals)
  {
    RestoreRecords(db.customers, db.videos, p);
    RestoreRows(db.rentals, p, due);
  }

  /** Appending a row of a pair and then deleting the pair's first row keeps
      the pairs, and keeps the rows when the pair had no earlier row. */
  lemma RestoreRows(rs: seq<Rental>, p: Pair, due: int)
    ensures var q := ByPair(p.customerId, p.videoId);
            var rs' := rs + [Rental(p.customerId, p.videoId, due)];
            var i := FirstMatch(rs', q);
      && i.Some?
      && Pairs(RemoveAt(rs', i.value)) == Pairs(rs)
      && (FirstMatch(rs, q).None? ==> RemoveAt(rs', i.value) == rs)
  {
    var q := ByPair(p.customerId, p.videoId);
    var r := Rental(p.customerId, p.videoId, due);
    FirstMatchAppend(rs, r, q);
    if FirstMatch(rs, q).Some? {
      ReplacePairKeepsPairs(rs, FirstMatch(rs, q).value, r);
    }
  }

  /** Moving both counters by one and back restores both tables. */
  lemma RestoreRecords(customers: map<int, Customers.Customer>, videos: map<int, Video>, p: Pair)
    requires p.customerId in customers && p.videoId in videos
    ensures var c, v := customers[p.customerId], videos[p.videoId];
            var c' := c.(videosCheckedOutCount := c.videosCheckedOutCount + 1);
            var v' := v.(availableInventory := v.availableInventory - 1);
      && customers[p.customerId := c'][p.customerId := c'.(videosCheckedOutCount := c'.videosCheckedOutCount - 1)] == customers
      && videos[p.videoId := v'][p.videoId := v'.(availableInventory := v'.availableInventory + 1)] == videos
  {
  }

  /** Deleting a video keeps the tables well formed, keeps every surviving
      customer's counter equal to its rows, and keeps the inventory
      agreement of the other videos. */
  lemma {:induction false} DeleteVideoPreserves(db: Db, idText: string)
    requires WellFormed(db)
    ensures var o := DeleteVideoStep(db, idText);
      && WellFormed(o.db)
      && (CustomerCountsAgree(db) ==> CustomerCountsAgree(o.db))
      && (InventoryAgrees(db) ==> InventoryAgrees(o.db))
      && (InventoryNonNegative(db) ==> InventoryNonNegative(o.db))
  {
    var o := DeleteVideoStep(db, idText);
    if o.reply.Deleted? {
      var id := ParseId(Str(idText)).value;
      forall k | k in o.db.customers
        ensures o.db.customers[k].id == k
        ensures Count(o.db.rentals, ByCustomer(k)) + Count(db.rentals, ByPair(k, id))
                  == Count(db.rentals, ByCustomer(k))
      {
        CountDeleteOverlap(db.rentals, ByVideo(id), ByCustomer(k), ByPair(k, id));
      }
      forall k | k in o.db.videos
        ensures Count(o.db.rentals, ByVideo(k)) == Count(db.rentals, ByVideo(k))
      {
        CountDeleteDisjoint(db.rentals, ByVideo(id), ByVideo(k));
      }
    }
  }

  /** Deleting a video deletes exactly the rental rows that refer to it and
      lowers each customer's counter by its rows for that video. */
  lemma {:induction false} DeleteVideoEffect(db: Db, idText: string, id: int)
    requires ParseId(Str(idText)) == Some(id) && id in db.videos
    ensures var o := DeleteVideoStep(db, idText);
      && o.reply == Deleted(db.videos[id].id)
      && o.db.videos == db.videos - {id}
      && (forall r :: r in o.db.rentals ==> r in db.rentals && r.videoId != id)
      && (forall r :: r in db.rentals && r.videoId != id ==> r in o.db.rentals)
      && (forall r :: multiset(o.db.rentals)[r] == if r.videoId == id then 0 else multiset(db.rentals)[r])
      && o.db.customers.Keys == db.customers.Keys
      && (forall k :: k in db.customers ==>
            o.db.customers[k] == Uncount(db.customers[k], Count(db.rentals, ByPair(k, id))))
  {
    var o := DeleteVideoStep(db, idText);
    DeleteMultiset(db.rentals, ByVideo(id));
    forall r | r in db.rentals && r.videoId != id ensures r in o.db.rentals {
      DeleteKeeps(db.rentals, ByVideo(id), r);
    }
  }

  lemma {:induction false} DeleteKeeps(rs: seq<Rental>, q: Query, r: Rental)
    requires r in rs && !Selects(q, r)
    ensures r in Delete(rs, q)
  {
    var init := rs[..|rs| - 1];
    if r != rs[|rs| - 1] {
      assert rs == init + [rs[|rs| - 1]];
      assert r in init;
      DeleteKeeps(init, q, r);
    }
  }

  /** Deleting a customer keeps the tables well formed, keeps the other
      customers' counters equal to their rows, and leaves every video
      record as it was. */
  lemma {:induction false} DeleteCustomerPreserves(db: Db, idText: string)
    requires WellFormed(db)
    ensures var o := DeleteCustomerStep(db, idText);
      && WellFormed(o.db)
      && o.db.videos == db.videos
      && (CustomerCountsAgree(db) ==> CustomerCountsAgree(o.db))
      && (InventoryNonNegative(db) ==> InventoryNonNegative(o.db))
  {
    var o := DeleteCustomerStep(db, idText);
    if o.reply.Deleted? {
      var id := ParseId(Str(idText)).value;
      forall k | k in o.db.customers
        ensures Count(o.db.rentals, ByCustomer(k)) == Count(db.rentals, ByCustomer(k))
      {
        CountDeleteDisjoint(db.rentals, ByCustomer(id), ByCustomer(k));
      }
    }
  }

  /** Deleting an existing customer removes exactly that customer and exactly
      its rental rows, keeps every other row (duplicates included) and every
      other record, and answers with the customer's id. */
  lemma {:induction false} DeleteCustomerEffect(db: Db, idText: string, id: int)
    requires ParseId(Str(idText)) == Some(id) && id in db.customers
    ensures var o := DeleteCustomerStep(db, idText);
      && o.reply == Deleted(db.customers[id].id)
      && o.db.customers == db.customers - {id}
      && o.db.videos == db.videos
      && (forall r :: multiset(o.db.rentals)[r] == if r.customerId == id then 0 else multiset(db.rentals)[r])
  {
    DeleteMultiset(db.rentals, ByCustomer(id));
  }

  /** Deleting a customer does not give inventory back: each video's
      total minus available now exceeds its rental rows by the deleted
      customer's rows for it, so the agreement breaks as soon as that
      customer had a rental. */
  lemma {:induction false} DeleteCustomerBreaksInventory(db: Db, idText: string, id: int, v: int)
    requires InventoryAgrees(db)
    requires ParseId(Str(idText)) == Some(id) && id in db.customers && v in db.videos
    ensures var o := DeleteCustomerStep(db, idText);
      o.db.videos[v].totalInventory - o.db.videos[v].availableInventory
        == Count(o.db.rentals, ByVideo(v)) + Count(db.rentals, ByPair(id, v))
    ensures Count(db.rentals, ByPair(id, v)) > 0 ==> !InventoryAgrees(DeleteCustomerStep(db, idText).db)
  {
    CountDeleteOverlap(db.rentals, ByCustomer(id), ByVideo(v), ByPair(id, v));
  }

  /** The video PUT breaks the inventory agreement whenever it changes the total. */
  lemma {:induction false} PutVideoBreaksInventory(db: Db, id: int, title: string, releaseDate: string, total: int)
    requires InventoryAgrees(db) && id in db.videos
    requires total != db.videos[id].totalInventory
    ensures !InventoryAgrees(db.(videos := db.videos[id := PutVideo(db.videos[id], title, releaseDate, total)]))
  {
    var db' := db.(videos := db.videos[id := PutVideo(db.videos[id], title, releaseDate, total)]);
    assert db'.videos[id].totalInventory - db'.videos[id].availableInventory != Count(db'.rentals, ByVideo(id));
  }

  /** No handler changes a customer's id: every customer left after a step
      was there before, under the same id. */
  lemma HandlersKeepCustomerIds(db: Db, body: Object, today: int, idText: string)
    ensures KeepsIds(db.customers, CheckOutStep(db, body, today).db.customers)
    ensures KeepsIds(db.customers, CheckInStep(db, body).db.customers)
    ensures KeepsIds(db.customers, DeleteCustomerStep(db, idText).db.customers)
    ensures KeepsIds(db.customers, DeleteVideoStep(db, idText).db.customers)
  {
  }

  /** Every customer of after is one of before, under the same id. */
  predicate KeepsIds(before: map<int, Customers.Customer>, after: map<int, Customers.Customer>) {
    forall k :: k in after ==> k in before && after[k].id == before[k].id
  }

  function RentalBody(customerId: int, videoId: int): Object {
    map["customer_id" := Int(customerId), "video_id" := Int(videoId)]
  }

  /** A video with three copies: three customers each check one out, a
      fourth check-out is refused with 400 and no copy is left. */
  lemma ThreeCopies(today: int)
    ensures var db0 := Db(map[1 := Customers.New(1, "a", "1", "1"), 2 := Customers.New(2, "b", "2", "2"),
                              3 := Customers.New(3, "c", "3", "3"), 4 := Customers.New(4, "d", "4", "4")],
                          map[10 := Video(10, "t", "r", 3, 3)], []);
            var o1 := CheckOutStep(db0, RentalBody(1, 10), today);
            var o2 := CheckOutStep(o1.db, RentalBody(2, 10), today);
            var o3 := CheckOutStep(o2.db, RentalBody(3, 10), today);
            var o4 := CheckOutStep(o3.db, RentalBody(4, 10), today);
      && o1.reply.Counters? && o2.reply.Counters? && o3.reply.Counters?
      && o3.db.videos[10].availableInventory == 0
      && o4.reply == Error(NoInventory) && o4.reply.Status() == 400
      && o4.db == o3.db
  {
  }
}
