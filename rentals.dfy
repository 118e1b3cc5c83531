/** The rental table: a list of rows that may repeat a (customer, video)
    pair, and the equality-filtered queries the handlers run over it
    (Rental.query.filter_by(...)). */
module Rentals {
  import opened Json

  /** One rental row; the due date is a day number. */
  datatype Rental = Rental(customerId: int, videoId: int, dueDate: int)

  /** A filter_by chain: a field left None is not filtered on. */
  datatype Query = Query(customerId: Option<int>, videoId: Option<int>)

  function ByCustomer(c: int): Query { Query(Some(c), None) }
  function ByVideo(v: int): Query { Query(None, Some(v)) }
  function ByPair(c: int, v: int): Query { Query(Some(c), Some(v)) }

  predicate Selects(q: Query, r: Rental) {
    && (q.customerId.None? || q.customerId.value == r.customerId)
    && (q.videoId.None? || q.videoId.value == r.videoId)
  }

  /** How many rows the query selects. */
  function Count(rs: seq<Rental>, q: Query): nat {
    if rs == [] then 0
    else Count(rs[..|rs| - 1], q) + (if Selects(q, rs[|rs| - 1]) then 1 else 0)
  }

  /** query.delete(): the rows the query does not select, in their order. */
  function Delete(rs: seq<Rental>, q: Query): (kept: seq<Rental>)
    ensures forall r :: r in kept ==> r in rs && !Selects(q, r)
    ensures |kept| + Count(rs, q) == |rs|
  {
    if rs == [] then []
    else
      var last := rs[|rs| - 1];
      Delete(rs[..|rs| - 1], q) + (if Selects(q, last) then [] else [last])
  }

  /** query.all()[0]: the position of the first row the query selects. */
  function FirstMatch(rs: seq<Rental>, q: Query): (r: Option<nat>)
    ensures r.None? <==> forall j :: 0 <= j < |rs| ==> !Selects(q, rs[j])
    ensures r.Some? ==> r.value < |rs| && Selects(q, rs[r.value])
                        && forall j :: 0 <= j < r.value ==> !Selects(q, rs[j])
  {
    if rs == [] then None
    else if Selects(q, rs[0]) then Some(0)
    else
      match FirstMatch(rs[1..], q)
      case None => None
      case Some(i) => Some(i + 1)
  }

  /** The rows without the one at position i. */
  function RemoveAt(rs: seq<Rental>, i: nat): (r: seq<Rental>)
    requires i < |rs|
    ensures |r| == |rs| - 1
  {
    rs[..i] + rs[i + 1..]
  }

  /** The bulk delete keeps every unselected row as often as it occurred,
      and no selected row. */
  lemma {:induction false} DeleteMultiset(rs: seq<Rental>, q: Query)
    ensures forall r :: multiset(Delete(rs, q))[r] == if Selects(q, r) then 0 else multiset(rs)[r]
  {
    if rs != [] {
      var init, last := rs[..|rs| - 1], rs[|rs| - 1];
      DeleteMultiset(init, q);
      assert rs == init + [last];
    }
  }

  /** Every row left after removing one was there before. */
  lemma RemoveAtSubset(rs: seq<Rental>, i: nat)
    requires i < |rs|
    ensures forall r :: r in RemoveAt(rs, i) ==> r in rs
  {
    forall r | r in RemoveAt(rs, i) ensures r in rs {
      var j :| 0 <= j < |RemoveAt(rs, i)| && RemoveAt(rs, i)[j] == r;
      if j < i { assert r == rs[j]; } else { assert r == rs[j + 1]; }
    }
  }

  /** A row appended to the end is the first match only when no earlier row
      matches; removing the first match then undoes or shifts the append. */
  lemma {:induction false} FirstMatchAppend(rs: seq<Rental>, r: Rental, q: Query)
    requires Selects(q, r)
    ensures FirstMatch(rs, q).None? ==>
              FirstMatch(rs + [r], q) == Some(|rs|) && RemoveAt(rs + [r], |rs|) == rs
    ensures FirstMatch(rs, q).Some? ==>
              FirstMatch(rs + [r], q) == FirstMatch(rs, q)
              && RemoveAt(rs + [r], FirstMatch(rs, q).value) == RemoveAt(rs, FirstMatch(rs, q).value) + [r]
  {
    var s := rs + [r];
    var m := FirstMatch(s, q);
    assert s[|rs|] == r;
    assert m.Some?;
    match FirstMatch(rs, q)
    case None =>
      assert forall j :: 0 <= j < |rs| ==> s[j] == rs[j];
      assert s[..|rs|] == rs;
    case Some(i) =>
      assert s[i] == rs[i];
      assert forall j :: 0 <= j < i ==> s[j] == rs[j];
      assert s[..i] == rs[..i];
      assert s[i + 1..] == rs[i + 1..] + [r];
  }

  /** The multiset of (customer, video) pairs that the rows hold. */
  function Pairs(rs: seq<Rental>): multiset<(int, int)> {
    if rs == [] then multiset{}
    else Pairs(rs[..|rs| - 1]) + multiset{(rs[|rs| - 1].customerId, rs[|rs| - 1].videoId)}
  }

  lemma {:induction false} CountConcat(a: seq<Rental>, b: seq<Rental>, q: Query)
    ensures Count(a + b, q) == Count(a, q) + Count(b, q)
  {
    if b == [] {
      assert a + b == a;
    } else {
      assert (a + b)[..|a + b| - 1] == a + b[..|b| - 1];
      CountConcat(a, b[..|b| - 1], q);
    }
  }

  /** Counting and deleting over a growing prefix, one row at a time. */
  lemma {:induction false} PrefixStep(rs: seq<Rental>, i: nat, q: Query)
    requires i < |rs|
    ensures Count(rs[..i + 1], q) == Count(rs[..i], q) + (if Selects(q, rs[i]) then 1 else 0)
    ensures Delete(rs[..i + 1], q) == Delete(rs[..i], q) + (if Selects(q, rs[i]) then [] else [rs[i]])
  {
    assert rs[..i + 1][..i] == rs[..i];
  }

  /** Appending a row adds one to the count of every query that selects it. */
  lemma {:induction false} CountAppend(rs: seq<Rental>, r: Rental, q: Query)
    ensures Count(rs + [r], q) == Count(rs, q) + (if Selects(q, r) then 1 else 0)
  {
    assert (rs + [r])[..|rs|] == rs;
  }

  /** Removing row i subtracts one from the count of every query that selects it. */
  lemma {:induction false} CountRemoveAt(rs: seq<Rental>, i: nat, q: Query)
    requires i < |rs|
    ensures Count(RemoveAt(rs, i), q) + (if Selects(q, rs[i]) then 1 else 0) == Count(rs, q)
  {
    assert rs == rs[..i] + [rs[i]] + rs[i + 1..];
    CountConcat(rs[..i] + [rs[i]], rs[i + 1..], q);
    CountConcat(rs[..i], [rs[i]], q);
    CountConcat(rs[..i], rs[i + 1..], q);
    assert [rs[i]][..0] == [];
  }

  /** Deleting the rows of q1 lowers the count of q2 by the rows both select,
      which are exactly the rows of q3. */
  lemma {:induction false} CountDeleteOverlap(rs: seq<Rental>, q1: Query, q2: Query, q3: Query)
    requires forall r :: Selects(q1, r) && Selects(q2, r) <==> Selects(q3, r)
    ensures Count(Delete(rs, q1), q2) + Count(rs, q3) == Count(rs, q2)
  {
    if rs != [] {
      var init, last := rs[..|rs| - 1], rs[|rs| - 1];
      CountDeleteOverlap(init, q1, q2, q3);
      CountConcat(Delete(init, q1), if Selects(q1, last) then [] else [last], q2);
      assert [last][..0] == [];
    }
  }

  /** Deleting the rows of q1 leaves the count of a disjoint q2 as it was. */
  lemma {:induction false} CountDeleteDisjoint(rs: seq<Rental>, q1: Query, q2: Query)
    requires forall r :: !(Selects(q1, r) && Selects(q2, r))
    ensures Count(Delete(rs, q1), q2) == Count(rs, q2)
  {
    if rs != [] {
      var init, last := rs[..|rs| - 1], rs[|rs| - 1];
      CountDeleteDisjoint(init, q1, q2);
      CountConcat(Delete(init, q1), if Selects(q1, last) then [] else [last], q2);
      assert [last][..0] == [];
    }
  }

  lemma {:induction false} PairsConcat(a: seq<Rental>, b: seq<Rental>)
    ensures Pairs(a + b) == Pairs(a) + Pairs(b)
  {
    if b == [] {
      assert a + b == a;
    } else {
      assert (a + b)[..|a + b| - 1] == a + b[..|b| - 1];
      PairsConcat(a, b[..|b| - 1]);
    }
  }

  /** Removing row i and appending a row for the same pair keeps the pairs. */
  lemma {:induction false} ReplacePairKeepsPairs(rs: seq<Rental>, i: nat, r: Rental)
    requires i < |rs|
    requires rs[i].customerId == r.customerId && rs[i].videoId == r.videoId
    ensures Pairs(RemoveAt(rs, i) + [r]) == Pairs(rs)
  {
    assert rs == rs[..i] + [rs[i]] + rs[i + 1..];
    PairsConcat(rs[..i] + [rs[i]], rs[i + 1..]);
    PairsConcat(rs[..i], [rs[i]]);
    PairsConcat(rs[..i], rs[i + 1..]);
    PairsConcat(RemoveAt(rs, i), [r]);
    assert [rs[i]][..0] == [] && [r][..0] == [];
  }
}
