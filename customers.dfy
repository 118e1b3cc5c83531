/** The customer record (app/models/customer.py): its columns, the value a
    new record starts with, and its JSON form. */
module Customers {
  import opened Json

  /** A naive datetime, as held in the registered_at column. */
  datatype Timestamp = Timestamp(year: nat, month: nat, day: nat, hour: nat,
                                 minute: nat, second: nat, microsecond: nat)

  datatype Customer = Customer(
    id: int,
    name: string,
    postalCode: string,
    phone: string,
    registeredAt: Option<Timestamp>,
    videosCheckedOutCount: int)

  /** The keys of a serialised customer. */
  const DictKeys: set<string> :=
    {"id", "name", "postal_code", "phone", "registered_at", "videos_checked_out_count"}

  /** Decimal text of n, zero-padded on the left to at least width characters. */
  function Pad(n: nat, width: nat): (s: string)
    ensures |s| >= width && |s| >= 1
  {
    var d := Decimal(n);
    if |d| >= width then d else seq(width - |d|, _ => '0') + d
  }

  /** str() of a datetime: "YYYY-MM-DD HH:MM:SS", followed by ".ffffff" when
      the microsecond is not zero. */
  function Render(t: Timestamp): (s: string)
    ensures |s| >= 19
  {
    var base := Pad(t.year, 4) + "-" + Pad(t.month, 2) + "-" + Pad(t.day, 2) + " "
                + Pad(t.hour, 2) + ":" + Pad(t.minute, 2) + ":" + Pad(t.second, 2);
    if t.microsecond == 0 then base else base + "." + Pad(t.microsecond, 6)
  }

  /** str() of the registered_at column, which may be unset (None). */
  function Show(t: Option<Timestamp>): (s: string)
    ensures s == "None" <==> t.None?
  {
    match t
    case None => "None"
    case Some(ts) => Render(ts)
  }

  /** Customer(name=..., postal_code=..., phone=...): the columns the create
      handler passes; registered_at stays unset and the counter takes its
      column default. */
  function New(id: int, name: string, postalCode: string, phone: string): (c: Customer)
    ensures c.id == id && c.name == name && c.postalCode == postalCode && c.phone == phone
    ensures c.videosCheckedOutCount == 0
    ensures c.registeredAt.None?
  {
    Customer(id, name, postalCode, phone, None, 0)
  }

  /** The customer PUT: only name, postal code and phone are overwritten. */
  function Replace(c: Customer, name: string, postalCode: string, phone: string): (c': Customer)
    ensures c'.name == name && c'.postalCode == postalCode && c'.phone == phone
    ensures c'.id == c.id
    ensures c'.registeredAt == c.registeredAt && c'.videosCheckedOutCount == c.videosCheckedOutCount
  {
    c.(name := name, postalCode := postalCode, phone := phone)
  }

  /** to_dict(): one entry per column; registered_at goes through str(). */
  function ToDict(c: Customer): (d: Object)
    ensures d.Keys == DictKeys
    ensures d["id"] == Int(c.id) && d["name"] == Str(c.name)
    ensures d["postal_code"] == Str(c.postalCode) && d["phone"] == Str(c.phone)
    ensures d["registered_at"] == Str(Show(c.registeredAt))
    ensures d["videos_checked_out_count"] == Int(c.videosCheckedOutCount)
  {
    map["id" := Int(c.id),
        "name" := Str(c.name),
        "postal_code" := Str(c.postalCode),
        "phone" := Str(c.phone),
        "registered_at" := Str(Show(c.registeredAt)),
        "videos_checked_out_count" := Int(c.videosCheckedOutCount)]
  }

  /** The dictionary determines every column except the registration time,
      of which it keeps the text, and in particular whether it is set. */
  lemma {:induction false} ToDictDeterminesCustomer(a: Customer, b: Customer)
    requires ToDict(a) == ToDict(b)
    ensures a.id == b.id && a.name == b.name && a.postalCode == b.postalCode && a.phone == b.phone
    ensures a.videosCheckedOutCount == b.videosCheckedOutCount
    ensures Show(a.registeredAt) == Show(b.registeredAt)
    ensures a.registeredAt.None? <==> b.registeredAt.None?
  {
    assert ToDict(a)["registered_at"] == ToDict(b)["registered_at"];
  }

  /** A freshly created customer serialises with a zero counter and the text
      "None" for its registration time. */
  lemma NewCustomerDict(id: int, name: string, postalCode: string, phone: string)
    ensures ToDict(New(id, name, postalCode, phone))["videos_checked_out_count"] == Int(0)
    ensures ToDict(New(id, name, postalCode, phone))["registered_at"] == Str("None")
    ensures ToDict(New(id, name, postalCode, phone))["id"] == Int(id)
  {
  }
}
