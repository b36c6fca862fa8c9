/** The in-memory reservation store: reservations keyed by the value of their id.
    Each operation is one indivisible step; its lock is not modelled. */
module ReservationRepository {
  import opened Common
  import opened Ids
  import opened Reservations

  /** The store as a value: id value to reservation. */
  type Records = map<nat, Reservation>

  /** Every record sits under its own id. */
  ghost predicate Keyed(m: Records)
  {
    forall k | k in m :: m[k].id.value == k
  }

  /** `add` as a value: insert, or replace the record with the same id. The record
      is then found under its id, and a store keyed by id stays keyed. */
  function Put(m: Records, r: Reservation): (out: Records)
    ensures r.id.value in out && out[r.id.value] == r
    ensures out.Keys == m.Keys + {r.id.value}
    ensures Keyed(m) ==> Keyed(out)
  {
    m[r.id.value := r]
  }

  /** The keys of the records that belong to order `o`. */
  ghost function OrderKeys(m: Records, o: OrderId): set<nat>
  {
    set k | k in m && m[k].orderId == o
  }

  /** After `add(r)` the record is found under its id, and every other record is as before. */
  lemma AddThenFind(m: Records, r: Reservation)
    ensures r.id.value in Put(m, r) && Put(m, r)[r.id.value] == r
    ensures Put(m, r).Keys == m.Keys + {r.id.value}
    ensures forall k | k in m && k != r.id.value :: Put(m, r)[k] == m[k]
    ensures Keyed(m) ==> Keyed(Put(m, r))
  {
  }

  /** `out` lists each record of order `o` exactly once, and nothing else. */
  ghost predicate IsOrderListing(m: Records, o: OrderId, out: seq<Reservation>)
  {
    && (forall i :: 0 <= i < |out| ==> out[i].id.value in m && m[out[i].id.value] == out[i] && out[i].orderId == o)
    && (forall k | k in m && m[k].orderId == o :: exists i :: 0 <= i < |out| && out[i].id.value == k)
    && (forall i, j :: 0 <= i < j < |out| ==> out[i].id.value != out[j].id.value)
  }

  /** A listing has one entry per record of the order. */
  lemma {:induction false} ListingSize(m: Records, o: OrderId, out: seq<Reservation>)
    requires IsOrderListing(m, o, out)
    ensures |out| == |OrderKeys(m, o)|
    decreases |out|
  {
    if out == [] {
      assert OrderKeys(m, o) == {};
    } else {
      var n := |out| - 1;
      var k := out[n].id.value;
      var rest := m - {k};
      var front := out[..n];
      forall i | 0 <= i < |front| ensures front[i].id.value in rest && rest[front[i].id.value] == front[i] {
        assert front[i] == out[i];
        assert out[i].id.value != out[n].id.value;
      }
      forall k' | k' in rest && rest[k'].orderId == o
        ensures exists i :: 0 <= i < |front| && front[i].id.value == k'
      {
        var i :| 0 <= i < |out| && out[i].id.value == k';
        assert i != n;
        assert front[i] == out[i];
      }
      assert IsOrderListing(rest, o, front);
      ListingSize(rest, o, front);
      assert OrderKeys(rest, o) == OrderKeys(m, o) - {k};
    }
  }

  /** The keys of a sequence of records. */
  ghost function KeysOf(s: seq<Reservation>): set<nat>
  {
    set i | 0 <= i < |s| :: s[i].id.value
  }

  lemma KeysOfSnoc(s: seq<Reservation>, x: Reservation)
    ensures KeysOf(s + [x]) == KeysOf(s) + {x.id.value}
  {
    assert (s + [x])[|s|] == x;
    forall k | k in KeysOf(s) ensures k in KeysOf(s + [x]) {
      var i :| 0 <= i < |s| && s[i].id.value == k;
      assert (s + [x])[i] == s[i];
    }
  }

  class InMemoryReservationRepository {
    var reservations: Records

    ghost predicate Valid()
      reads this
    {
      Keyed(reservations)
    }

    /** The store starts empty. */
    constructor ()
      ensures Valid() && reservations == map[]
    {
      reservations := map[];
    }

    /** `add`: `insert_or_assign` under the reservation's id. */
    method Add(r: Reservation)
      requires Valid()
      modifies this
      ensures Valid()
      ensures reservations == Put(old(reservations), r)
    {
      reservations := reservations[r.id.value := r];
    }

    /** `get`: the record with that id, or nothing for an id never added. */
    method Get(id: ReservationId) returns (r: Option<Reservation>)
      requires Valid()
      ensures r.None? <==> id.value !in reservations
      ensures r.Some? ==> r.value == reservations[id.value] && r.value.id == id
    {
      if id.value !in reservations {
        return None;
      }
      r := Some(reservations[id.value]);
    }

    /** `list_by_order`: every record of the order, each once, in the order the map
        is visited. */
    method ListByOrder(o: OrderId) returns (out: seq<Reservation>)
      requires Valid()
      ensures IsOrderListing(reservations, o, out)
    {
      var keys := reservations.Keys;
      out := [];
      ghost var seen: set<nat> := {};
      while keys != {}
        invariant keys <= reservations.Keys && seen == reservations.Keys - keys
        invariant forall i :: 0 <= i < |out| ==>
          out[i].id.value in seen && reservations[out[i].id.value] == out[i] && out[i].orderId == o
        invariant forall k | k in seen && reservations[k].orderId == o :: k in KeysOf(out)
        invariant forall i, j :: 0 <= i < j < |out| ==> out[i].id.value != out[j].id.value
        decreases keys
      {
        var k :| k in keys;
        var r := reservations[k];
        if r.orderId == o {
          KeysOfSnoc(out, r);
          out := out + [r];
        }
        keys := keys - {k};
        seen := seen + {k};
      }
      forall k | k in reservations && reservations[k].orderId == o
        ensures exists i :: 0 <= i < |out| && out[i].id.value == k
      {
        assert k in KeysOf(out);
      }
    }
  }
}
