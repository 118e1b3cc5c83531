# Rental ledger of a video-rental store, in Dafny

This project models the rental bookkeeping of a small video-rental REST
backend (a Flask application over three tables: customers, videos and
rentals). A customer checks a video out, checks it back in, or is deleted;
a video is deleted. Each of these requests changes the tables and two
counters kept by hand on the records: `videos_checked_out_count` on the
customer and `available_inventory` on the video.

The model has two layers.

- **Steps** (module `Ledger`): a snapshot `Db` of the three tables, and
  one pure function per handler from a snapshot and a request to a new
  snapshot and a reply (`CheckOutStep`, `CheckInStep`, `DeleteCustomerStep`,
  `DeleteVideoStep`). Lemmas state what each step does, what it keeps and
  what it breaks.
- **Store** (module `Handlers`): a class whose fields are the three tables.
  Its methods update them in place as the handlers do. The video DELETE is a
  loop: the source iterates over the query of the video's rows; the model
  walks every rental row in order, and for a row of the video lowers its
  customer's counter and drops it, keeping the other rows. That visits
  the video's rows in the same order. Each method is proved to perform
  exactly the corresponding step.

Supporting modules: `Json` (request values, and decimal text as read by
`int()` and written by `str()`), `Requests` (`validate_params_or_abort` and
id parsing), `Rentals` (the rental rows and the `filter_by` queries over
them) and `Customers` (the customer record and `to_dict`).

What the code keeps and what it does not:

- Check-out, check-in and video deletion keep every customer's counter
  equal to its number of rental rows. They also keep every video's
  `total - available` equal to its number of rental rows. Available
  inventory never goes below zero.
- Deleting a customer deletes its rental rows. It gives no copies back to
  the videos, so a video's `total - available` then exceeds its rental
  rows by the deleted customer's rows for it. A design that returned the
  copies would keep the agreement. The code at app/routes.py:50-54 does
  not return them, and the model follows the code
  (`DeleteCustomerBreaksInventory`).
- The video PUT overwrites `total_inventory` and leaves
  `available_inventory` alone. It breaks the agreement whenever it changes
  the total (`PutVideoBreaksInventory`).
- Check-in deletes the first matching row in row order. Check-out followed
  by check-in of the same pair restores both records and the multiset of
  (customer, video) pairs. The rows themselves come back when the pair had
  no earlier rental. Otherwise check-in deletes the pair's first row, and
  the new row stays (its due date may differ from the deleted one's).

Records are kept in maps under their primary key. Every rental row refers
to an existing customer and video. These are the database's own
guarantees, stated as `Ledger.WellFormed` and kept by every handler. The
video DELETE relies on them: the source reads the customer of each row and
would fail on a missing one.

## Model

| member | source | states |
|---|---|---|
| `Json.Decimal` | app/models/customer.py:19 | `str()` of a non-negative int is a non-empty run of digits with no leading zero |
| `Json.ParseDecimal` | app/routes.py:160-163 | `int()` on a string succeeds exactly when the string is a non-empty run of decimal digits |
| `Json.DecimalRoundTrip` | app/routes.py:160-163 | `int(str(n)) == n` for every non-negative n |
| `Json.LeadingZero` | app/routes.py:39-42 | for decimal digit strings as this model reads them (no sign, whitespace or underscore), a leading zero does not change the parse: "0" + s parses exactly as s does |
| `Customers.Render` | app/models/customer.py:19 | `str()` of a datetime is at least 19 characters ("YYYY-MM-DD HH:MM:SS") |
| `Customers.Show` | app/models/customer.py:19 | `str(registered_at)` is "None" exactly when the column is unset |
| `Customers.New` | app/models/customer.py:6-11 | a created customer has the given id, name, postal code and phone, a counter of 0 and no registration time |
| `Customers.Replace` | app/routes.py:57-66 | the customer PUT overwrites name, postal code and phone, and keeps the id, counter and registration time |
| `Customers.ToDict` | app/models/customer.py:13-21 | `to_dict` has exactly the six keys; each value is its column, and `registered_at` is the column's `str()` |
| `Customers.ToDictDeterminesCustomer` | app/models/customer.py:13-21 | two customers with equal dicts agree on every column but the registration time, and on whether it is set |
| `Customers.NewCustomerDict` | app/routes.py:28-35 | a created customer serialises with counter 0, `registered_at` "None" and its own id |
| `Requests.FirstMissing` | app/routes.py:13-16 | validation fails exactly when some required key is absent, and then names the first absent key in order |
| `Requests.ValidateParams` | app/routes.py:13-16 | the validation loop returns exactly the first missing key, or none |
| `Requests.ParseId` | app/routes.py:160-172 | `int()` on a body value: a number is kept; a string parses exactly when it is decimal digits |
| `Requests.IdTextRoundTrip` | app/routes.py:39-42 | an id written as decimal text is read back as that id |
| `Rentals.DeleteMultiset` | app/routes.py:51 | the bulk delete keeps every row the query does not select exactly as often as it occurred, and none it selects |
| `Rentals.Delete` | app/routes.py:51 | the bulk delete keeps only rows the query does not select, and removes as many rows as it selects |
| `Rentals.FirstMatch` | app/routes.py:220-225 | the chosen row is the first selected one; there is none exactly when no row is selected |
| `Rentals.RemoveAt` | app/routes.py:227 | deleting one row leaves one row fewer |
| `Rentals.RemoveAtSubset` | app/routes.py:227 | deleting one row leaves only rows that were there before |
| `Rentals.CountAppend` | app/routes.py:199 | adding a row raises by one the count of every query that selects it, and no other |
| `Rentals.CountRemoveAt` | app/routes.py:227 | deleting a row lowers by one the count of every query that selects it, and no other |
| `Rentals.CountDeleteOverlap` | app/routes.py:118-121 | deleting a video's rows lowers a customer's row count by that customer's rows for the video |
| `Rentals.CountDeleteDisjoint` | app/routes.py:51 | deleting one customer's rows leaves every other customer's row count unchanged |
| `Rentals.PrefixStep` | app/routes.py:118-121 | counting and deleting over the rows seen so far advance by one row at a time |
| `Rentals.FirstMatchAppend` | app/routes.py:220-227 | a new row is chosen by check-in only when no earlier row of the pair exists |
| `Rentals.ReplacePairKeepsPairs` | app/routes.py:225-227 | deleting a row and adding one for the same pair keeps the multiset of pairs |
| `Ledger.CountersInRange` | app/routes.py:189-202 | when the counters agree with the rows, every customer counter is at least 0 and every available inventory lies between 0 and the total |
| `Ledger.Resolve` | app/routes.py:155-178 | resolution succeeds exactly when both keys are present and both ids parse and exist. Otherwise the error is that of the first failing check, in the order: keys (customer_id first), video id parse, video exists, customer id parse, customer exists; a missing-key error names the missing key and occurs only when a key is missing |
| `Ledger.CheckOutStep` | app/routes.py:182-211 | check-out fails exactly when resolution fails or no copy is available, and then changes nothing; a failed resolution is answered with resolution's own error; on success it adds one row and keeps the sets of records |
| `Ledger.CheckInStep` | app/routes.py:213-239 | a failed resolution is answered with resolution's own error; a failed check-in changes nothing; a successful one deletes one row and keeps the sets of records |
| `Ledger.DeleteCustomerStep` | app/routes.py:37-56 | an id that does not parse is answered 400, an absent id 404 naming it, an existing one is deleted; deleting never changes the videos table; on failure nothing changes; on success exactly that customer is gone |
| `Ledger.ReleaseVideo` | app/routes.py:117-121 | the customer table after releasing a video's rows has the same customers |
| `Ledger.DeleteVideoStep` | app/routes.py:104-126 | an id that does not parse is answered 400, an absent id 404 naming it, an existing one is deleted; deleting keeps every customer; on failure nothing changes; on success exactly that video is gone |
| `Ledger.PutVideo` | app/routes.py:127-136 | the video PUT overwrites title, release date and total and keeps the id and available inventory |
| `Ledger.CheckOutNoInventory` | app/routes.py:189-190 | with no copy available, check-out answers 400 and leaves all three tables unchanged |
| `Ledger.CheckOutEffect` | app/routes.py:192-211 | a successful check-out adds exactly the row (customer, video, today + 7), moves the two counters by one, changes no other record, and replies with the new counters |
| `Ledger.CheckOutPreserves` | app/routes.py:189-202 | check-out keeps the tables well formed, both counter agreements, and available inventory non-negative |
| `Ledger.CheckInNoRental` | app/routes.py:220-222 | with no rental row for the pair, check-in answers 400 and changes nothing |
| `Ledger.CheckInEffect` | app/routes.py:220-230 | a successful check-in deletes exactly the first row of the pair, moves the two counters back by one and changes no other record |
| `Ledger.CheckInPreserves` | app/routes.py:220-230 | check-in keeps the tables well formed, both counter agreements, and available inventory non-negative |
| `Ledger.CheckOutThenCheckIn` | app/routes.py:199-230 | check-out then check-in of one pair restores both records, the reply counters and the pair multiset; the rows themselves when the pair had no earlier rental |
| `Ledger.DeleteVideoPreserves` | app/routes.py:117-124 | deleting a video keeps the tables well formed, every surviving customer's counter agreement, and the other videos' inventory agreement |
| `Ledger.DeleteVideoEffect` | app/routes.py:117-126 | deleting a video removes it and no other video, removes exactly the rows that refer to it and keeps every other row as often as it occurred, and lowers each customer's counter once per such row, changing no other column |
| `Ledger.ReleaseEachIsReleaseVideo` | app/routes.py:118-121 | releasing the video's rows one at a time, in row order, lowers each customer's counter by exactly its number of rows for the video |
| `Ledger.ReleaseVideoStep` | app/routes.py:118-121 | one more turn of the loop lowers only the row's customer, by one, and only when the row is for the video |
| `Ledger.DeleteCustomerPreserves` | app/routes.py:50-54 | deleting a customer keeps the tables well formed, the other customers' counter agreement, and every video record unchanged |
| `Ledger.DeleteCustomerEffect` | app/routes.py:50-56 | deleting an existing customer removes exactly that customer and exactly its rows, keeps every other row as often as it occurred and every other record, and answers with its id |
| `Ledger.DeleteCustomerBreaksInventory` | app/routes.py:50-54 | after deleting a customer, each video's total minus available exceeds its rows by that customer's rows for it, so the agreement breaks whenever there was one |
| `Ledger.PutVideoBreaksInventory` | app/routes.py:133 | a PUT that changes the total breaks the inventory agreement |
| `Ledger.HandlersKeepCustomerIds` | app/models/customer.py:11 | no rental handler adds a customer or changes a customer's id |
| `Ledger.ThreeCopies` | app/routes.py:189-202 | with three copies, three check-outs succeed and a fourth is refused with 400, leaving no copy available |
| `Handlers.Store.GetCustomerAndVideo` | app/routes.py:155-178 | the resolution code returns exactly what `Ledger.Resolve` specifies |
| `Handlers.Store.CheckOut` | app/routes.py:182-211 | the handler changes the tables exactly as `CheckOutStep`, and keeps well-formedness and the agreements |
| `Handlers.Store.CheckIn` | app/routes.py:213-239 | the handler changes the tables exactly as `CheckInStep`, and keeps well-formedness and the agreements |
| `Handlers.Store.DeleteCustomer` | app/routes.py:37-56 | the handler changes the tables exactly as `DeleteCustomerStep` and leaves the videos untouched |
| `Handlers.Store.ReleaseRows` | app/routes.py:118-121 | the loop leaves every customer lowered by its rows for the video, and returns the rows of other videos |
| `Handlers.Store.DeleteVideo` | app/routes.py:104-126 | the handler changes the tables exactly as `DeleteVideoStep`, and keeps well-formedness and the agreements |

## Left out

- HTTP routing, `jsonify` and response bodies: a reply carries its data and a status code (`Reply.Status`), not the message text.
- Database sessions and commits: each handler is one atomic step. The code has no concurrency and neither does the model.
- `date.today()` and `timedelta`: today is a day-number parameter, and the due date is today + 7.
- `int()` details: signs, surrounding whitespace, underscores and non-ASCII digits in strings are not accepted. Body values other than numbers and strings (null, booleans, floats, lists) are not modelled; `int()` on them returns or raises differently.
- A request body that is not a JSON object (`request.get_json()` returning None) is not modelled.
- The join queries that list a customer's videos or a video's customers (app/routes.py:79, app/routes.py:149) and all GET handlers.
- The create and PUT handlers: only the records they build are modelled (`Customers.New`, `Customers.Replace`, `Ledger.PutVideo`). Their body validation and the storing of arbitrary JSON values in typed columns are not.
- The Video and Rental model classes are not part of this model; their fields are taken from their uses in app/routes.py. A video's initial available inventory is not modelled, since its creation code is not shown; `Ledger.ThreeCopies` starts from a video whose available inventory equals its total.
- Row order: `filter_by(...).all()` has no ORDER BY; the model takes insertion order, so check-in deletes the oldest matching row.
- Integer columns are unbounded integers; database integer width is not modelled.
- `Customers.Render` does not check that a timestamp's fields are in calendar range; a datetime value guarantees that.
- routes/customer.py is an unfinished stub with no logic and is not modelled.
