/** The in-memory flight store: flights keyed by the value of their id, with an
    atomic check-and-set that books a seat. Each operation is one indivisible
    step; the reader/writer lock that makes it so is not modelled. */
module FlightRepository {
  import opened Common
  import opened Ids
  import opened Seats
  import opened AirportCodes
  import opened Flights

  /** The store as a value: id value to flight snapshot. */
  type Inventory = map<nat, FlightState>

  /** Every entry sits under its own id and is a consistent flight. */
  ghost predicate WellFormed(inv: Inventory)
  {
    forall k | k in inv :: inv[k].id.value == k && Consistent(inv[k])
  }

  /** The condition under which `try_book_seat` succeeds. */
  predicate Bookable(inv: Inventory, id: FlightId, seat: Seat)
  {
    id.value in inv
    && Fits(inv[id.value].rows, inv[id.value].seatsPerRow, seat)
    && seat !in inv[id.value].booked
  }

  /** `try_book_seat`: whether it succeeded, and the store afterwards. It succeeds
      exactly on a bookable seat, which it then books; a refusal changes nothing. */
  function TryBook(inv: Inventory, id: FlightId, seat: Seat): (r: (bool, Inventory))
    ensures r.0 <==> Bookable(inv, id, seat)
    ensures r.1.Keys == inv.Keys
    ensures r.0 ==> seat !in inv[id.value].booked && seat in r.1[id.value].booked
    ensures !r.0 ==> r.1 == inv
  {
    if Bookable(inv, id, seat) then
      (true, inv[id.value := inv[id.value].(booked := inv[id.value].booked + {seat})])
    else
      (false, inv)
  }

  /** `release_seat`: the store afterwards. The seat is then free on that flight,
      and no flight gains a booking. */
  function Release(inv: Inventory, id: FlightId, seat: Seat): (r: Inventory)
    ensures r.Keys == inv.Keys
    ensures id.value in inv ==> seat !in r[id.value].booked
    ensures forall k | k in inv :: r[k].booked <= inv[k].booked
  {
    if id.value in inv then inv[id.value := inv[id.value].(booked := inv[id.value].booked - {seat})]
    else inv
  }

  /** `upsert`: the store afterwards. The flight is found under its id, and only
      that entry can differ from the store before. */
  function Put(inv: Inventory, f: FlightState): (r: Inventory)
    ensures r.Keys == inv.Keys + {f.id.value} && r[f.id.value] == f
    ensures forall k | k in inv && k != f.id.value :: r[k] == inv[k]
  {
    inv[f.id.value := f]
  }

  /** A seat is bookable exactly when its flight is stored and the seat is one of
      that flight's free grid seats. */
  lemma BookableIffFreeGridSeat(inv: Inventory, id: FlightId, seat: Seat)
    requires id.value in inv ==> inv[id.value].seatsPerRow <= 26
    ensures Bookable(inv, id, seat) <==>
      id.value in inv && seat in GridSeats(inv[id.value].rows, inv[id.value].seatsPerRow) - inv[id.value].booked
  {
  }

  /** A failed attempt changes nothing; a successful one books exactly that seat
      on exactly that flight. */
  lemma TryBookEffect(inv: Inventory, id: FlightId, seat: Seat)
    ensures !TryBook(inv, id, seat).0 ==> TryBook(inv, id, seat).1 == inv
    ensures var (ok, after) := TryBook(inv, id, seat);
      && after.Keys == inv.Keys
      && (forall k | k in inv && k != id.value :: after[k] == inv[k])
      && (ok ==> after[id.value] == inv[id.value].(booked := inv[id.value].booked + {seat}))
  {
  }

  lemma TryBookPreservesWellFormed(inv: Inventory, id: FlightId, seat: Seat)
    requires WellFormed(inv)
    ensures WellFormed(TryBook(inv, id, seat).1)
  {
  }

  lemma ReleasePreservesWellFormed(inv: Inventory, id: FlightId, seat: Seat)
    requires WellFormed(inv)
    ensures WellFormed(Release(inv, id, seat))
  {
  }

  lemma UpsertPreservesWellFormed(inv: Inventory, f: FlightState)
    requires WellFormed(inv) && Consistent(f)
    ensures WellFormed(Put(inv, f))
  {
  }

  /** Upsert replaces the whole entry (its bookings included) and nothing else. */
  lemma UpsertReplaces(inv: Inventory, f: FlightState)
    ensures Put(inv, f).Keys == inv.Keys + {f.id.value}
    ensures Put(inv, f)[f.id.value].booked == f.booked
    ensures forall k | k in inv && k != f.id.value :: Put(inv, f)[k] == inv[k]
  {
  }

  /** Release is a no-op for an unknown flight, idempotent, and afterwards the seat
      can be booked again if it fits the flight. */
  lemma ReleaseProperties(inv: Inventory, id: FlightId, seat: Seat)
    ensures id.value !in inv ==> Release(inv, id, seat) == inv
    ensures Release(Release(inv, id, seat), id, seat) == Release(inv, id, seat)
    ensures id.value in inv && Fits(inv[id.value].rows, inv[id.value].seatsPerRow, seat)
      ==> TryBook(Release(inv, id, seat), id, seat).0
  {
    if id.value in inv {
      var f := inv[id.value];
      assert f.booked - {seat} - {seat} == f.booked - {seat};
    }
  }

  /** One step that the store can take. */
  datatype Op = TryBookOp(id: FlightId, seat: Seat) | ReleaseOp(id: FlightId, seat: Seat) | UpsertOp(flight: FlightState)

  function Apply(inv: Inventory, op: Op): Inventory
  {
    match op
    case TryBookOp(id, seat) => TryBook(inv, id, seat).1
    case ReleaseOp(id, seat) => Release(inv, id, seat)
    case UpsertOp(f) => Put(inv, f)
  }

  function ApplyAll(inv: Inventory, ops: seq<Op>): Inventory
    decreases |ops|
  {
    if ops == [] then inv else ApplyAll(Apply(inv, ops[0]), ops[1..])
  }

  /** The step neither releases `seat` on flight `id` nor replaces that flight. */
  predicate Keeps(op: Op, id: FlightId, seat: Seat)
  {
    match op
    case TryBookOp(_, _) => true
    case ReleaseOp(i, s) => !(i == id && s == seat)
    case UpsertOp(f) => f.id.value != id.value
  }

  lemma {:induction false} StaysBooked(inv: Inventory, id: FlightId, seat: Seat, ops: seq<Op>)
    requires id.value in inv && seat in inv[id.value].booked
    requires forall i :: 0 <= i < |ops| ==> Keeps(ops[i], id, seat)
    ensures var after := ApplyAll(inv, ops); id.value in after && seat in after[id.value].booked
    decreases |ops|
  {
    if ops != [] {
      var next := Apply(inv, ops[0]);
      assert Keeps(ops[0], id, seat);
      assert forall i :: 0 <= i < |ops[1..]| ==> Keeps(ops[1..][i], id, seat) by {
        forall i | 0 <= i < |ops[1..]| ensures Keeps(ops[1..][i], id, seat) {
          assert ops[1..][i] == ops[i + 1];
        }
      }
      StaysBooked(next, id, seat, ops[1..]);
    }
  }

  /** Mutual exclusion, sequentially: once an attempt on (flight, seat) succeeds,
      every later attempt on it fails, whatever else happens in between, until that
      seat is released or that flight is replaced. */
  lemma SecondAttemptFails(inv: Inventory, id: FlightId, seat: Seat, between: seq<Op>)
    requires TryBook(inv, id, seat).0
    requires forall i :: 0 <= i < |between| ==> Keeps(between[i], id, seat)
    ensures var later := ApplyAll(TryBook(inv, id, seat).1, between);
      TryBook(later, id, seat) == (false, later)
  {
    StaysBooked(TryBook(inv, id, seat).1, id, seat, between);
  }

  /** `search`'s filter. */
  predicate Matches(f: FlightState, origin: AirportCode, destination: AirportCode)
  {
    f.origin == origin && f.destination == destination
  }

  /** `out` lists exactly the stored flights on the route, in increasing id order. */
  ghost predicate IsSearchResult(inv: Inventory, origin: AirportCode, destination: AirportCode, out: seq<FlightState>)
  {
    && (forall i :: 0 <= i < |out| ==>
          out[i].id.value in inv && inv[out[i].id.value] == out[i] && Matches(out[i], origin, destination))
    && (forall k | k in inv && Matches(inv[k], origin, destination) ::
          exists i :: 0 <= i < |out| && out[i].id.value == k)
    && (forall i, j :: 0 <= i < j < |out| ==> out[i].id.value < out[j].id.value)
  }

  /** The search result is determined by the stored flights alone, whatever order
      the store visits them in. */
  lemma {:induction false} SearchResultIsUnique(inv: Inventory, origin: AirportCode, destination: AirportCode,
                                                a: seq<FlightState>, b: seq<FlightState>)
    requires IsSearchResult(inv, origin, destination, a)
    requires IsSearchResult(inv, origin, destination, b)
    ensures a == b
    decreases |a|
  {
    SearchEmptyIffNoMatch(inv, origin, destination, a);
    SearchEmptyIffNoMatch(inv, origin, destination, b);
    if a != [] && b != [] {
      var ka, kb := a[0].id.value, b[0].id.value;
      assert Matches(inv[ka], origin, destination);
      var j :| 0 <= j < |b| && b[j].id.value == ka;
      assert kb <= ka by { if j > 0 { assert b[0].id.value < b[j].id.value; } }
      var i :| 0 <= i < |a| && a[i].id.value == kb;
      assert ka <= kb by { if i > 0 { assert a[0].id.value < a[i].id.value; } }
      var rest := inv - {ka};
      SearchTail(inv, origin, destination, a);
      SearchTail(inv, origin, destination, b);
      SearchResultIsUnique(rest, origin, destination, a[1..], b[1..]);
      assert a[0] == inv[ka] == b[0];
      SameHeadSameTail(a, b);
    }
  }

  lemma SameHeadSameTail<T>(a: seq<T>, b: seq<T>)
    requires a != [] && b != [] && a[0] == b[0] && a[1..] == b[1..]
    ensures a == b
  {
    assert a == [a[0]] + a[1..] && b == [b[0]] + b[1..];
  }

  /** A search result is empty exactly when no stored flight is on the route. */
  lemma SearchEmptyIffNoMatch(inv: Inventory, origin: AirportCode, destination: AirportCode, out: seq<FlightState>)
    requires IsSearchResult(inv, origin, destination, out)
    ensures out == [] <==> forall k | k in inv :: !Matches(inv[k], origin, destination)
  {
    if out != [] {
      assert Matches(inv[out[0].id.value], origin, destination);
    }
  }

  /** Dropping the first flight of a search result leaves the result of searching
      the store without that flight. */
  lemma SearchTail(inv: Inventory, origin: AirportCode, destination: AirportCode, out: seq<FlightState>)
    requires IsSearchResult(inv, origin, destination, out) && out != []
    ensures IsSearchResult(inv - {out[0].id.value}, origin, destination, out[1..])
  {
    var k0 := out[0].id.value;
    var rest := inv - {k0};
    var tail := out[1..];
    assert forall i :: 0 <= i < |tail| ==> tail[i] == out[i + 1];
    forall i | 0 <= i < |tail|
      ensures tail[i].id.value in rest && rest[tail[i].id.value] == tail[i]
    {
      assert out[0].id.value < out[i + 1].id.value;
    }
    forall k | k in rest && Matches(rest[k], origin, destination)
      ensures exists i :: 0 <= i < |tail| && tail[i].id.value == k
    {
      var i :| 0 <= i < |out| && out[i].id.value == k;
      assert tail[i - 1] == out[i];
    }
  }

  class InMemoryFlightRepository {
    var flights: map<nat, Flight>

    /** Entries sit under their own id and are valid flights. As an entry's id is
        its key, the entries are distinct objects: changing one flight never
        changes another. */
    ghost predicate Valid()
      reads this, flights.Values
    {
      forall k | k in flights :: flights[k].id.value == k && flights[k].Valid()
    }

    ghost function Snapshot(): Inventory
      reads this, flights.Values
    {
      ViewsOf(flights)
    }

    /** Every stored flight other than the one under `f`'s id is another object. */
    lemma OthersAreDistinct(f: Flight)
      requires Valid()
      ensures forall k | k in flights && k != f.id.value :: flights[k] != f
    {
    }

    lemma SnapshotWellFormed()
      requires Valid()
      ensures WellFormed(Snapshot())
    {
    }

    /** The store starts empty. */
    constructor ()
      ensures Valid() && flights == map[] && Snapshot() == map[]
    {
      flights := map[];
    }

    /** `get`: a copy of the stored flight, or nothing for an unknown id. */
    method Get(id: FlightId) returns (r: Option<Flight>)
      requires Valid()
      ensures r.None? <==> id.value !in Snapshot()
      ensures r.Some? ==> fresh(r.value) && r.value.Valid() && r.value.View() == Snapshot()[id.value]
    {
      if id.value !in flights {
        return None;
      }
      var copy := new Flight.Copy(flights[id.value]);
      r := Some(copy);
    }

    /** `upsert`: stores a copy of `f` under its id, replacing any flight there. */
    method Upsert(f: Flight)
      requires Valid() && f.Valid()
      modifies this
      ensures Valid()
      ensures Snapshot() == Put(old(Snapshot()), f.View())
      ensures fresh(flights.Values - old(flights.Values))
    {
      ghost var before := Snapshot();
      var copy := new Flight.Copy(f);
      flights := flights[f.id.value := copy];
      ViewsOfStore(flights, before, f.id.value, f.View());
    }

    /** `try_book_seat`: the atomic check-and-set. */
    method TryBookSeat(id: FlightId, seat: Seat) returns (ok: bool)
      requires Valid()
      modifies flights.Values
      ensures Valid() && flights == old(flights)
      ensures (ok, Snapshot()) == TryBook(old(Snapshot()), id, seat)
    {
      ghost var before := Snapshot();
      if id.value !in flights {
        return false;
      }
      var f := flights[id.value];
      if !f.IsSeatValid(seat) || f.IsBooked(seat) {
        return false;
      }
      OthersAreDistinct(f);
      var outcome := f.BookSeat(seat);
      assert outcome == Pass;
      ok := true;
      ViewsOfStore(flights, before, id.value, before[id.value].(booked := before[id.value].booked + {seat}));
      assert Snapshot() == TryBook(before, id, seat).1;
    }

    /** `release_seat`: frees the seat; no-op for an unknown flight or a free seat. */
    method ReleaseSeat(id: FlightId, seat: Seat)
      requires Valid()
      modifies flights.Values
      ensures Valid() && flights == old(flights)
      ensures Snapshot() == Release(old(Snapshot()), id, seat)
    {
      if id.value !in flights {
        return;
      }
      ghost var before := Snapshot();
      OthersAreDistinct(flights[id.value]);
      flights[id.value].ReleaseSeat(seat);
      ViewsOfStore(flights, before, id.value, before[id.value].(booked := before[id.value].booked - {seat}));
    }

    /** `search`: copies of the flights on the route, sorted by id. */
    method Search(origin: AirportCode, destination: AirportCode) returns (out: seq<Flight>)
      requires Valid()
      ensures forall i :: 0 <= i < |out| ==> fresh(out[i]) && out[i].Valid()
      ensures IsSearchResult(Snapshot(), origin, destination, Views(out))
    {
      var found := CollectMatching(origin, destination);
      out := SortById(found);
      SortedIsSearchResult(Snapshot(), origin, destination, found, out);
    }

    /** The loop of `search`: copies of the flights on the route, in the order the
        map is visited. */
    method CollectMatching(origin: AirportCode, destination: AirportCode) returns (found: seq<Flight>)
      requires Valid()
      ensures forall i :: 0 <= i < |found| ==>
        && fresh(found[i]) && found[i].Valid()
        && found[i].id.value in Snapshot()
        && found[i].View() == Snapshot()[found[i].id.value]
        && Matches(found[i].View(), origin, destination)
      ensures forall k | k in Snapshot() && Matches(Snapshot()[k], origin, destination) :: k in IdsOf(found)
      ensures forall i, j :: 0 <= i < j < |found| ==> found[i].id.value != found[j].id.value
    {
      ghost var inv := Snapshot();
      var keys := flights.Keys;
      found := [];
      ghost var seen: set<nat> := {};
      while keys != {}
        invariant keys <= flights.Keys && seen == flights.Keys - keys
        invariant forall i :: 0 <= i < |found| ==>
          && fresh(found[i]) && found[i].Valid()
          && found[i].id.value in seen
          && found[i].View() == inv[found[i].id.value]
          && Matches(found[i].View(), origin, destination)
        invariant forall k | k in seen && Matches(inv[k], origin, destination) :: k in IdsOf(found)
        invariant forall i, j :: 0 <= i < j < |found| ==> found[i].id.value != found[j].id.value
        decreases keys
      {
        var k :| k in keys;
        var f := flights[k];
        if f.origin == origin && f.destination == destination {
          var copy := new Flight.Copy(f);
          IdsOfSnoc(found, copy);
          found := found + [copy];
        }
        keys := keys - {k};
        seen := seen + {k};
      }
    }
  }

  /** The snapshots of the flights in a store. */
  ghost function ViewsOf(m: map<nat, Flight>): (r: Inventory)
    reads m.Values
    ensures r.Keys == m.Keys
  {
    map k | k in m :: m[k].View()
  }

  /** The snapshot of a store that differs from `before` only under key `k0`. */
  lemma ViewsOfStore(m: map<nat, Flight>, before: Inventory, k0: nat, v: FlightState)
    requires m.Keys == before.Keys + {k0}
    requires forall k | k in m && k != k0 :: m[k].View() == before[k]
    requires k0 in m && m[k0].View() == v
    ensures ViewsOf(m) == before[k0 := v]
  {
  }

  /** The flights on the route, once each, sorted by id, are the search result. */
  lemma SortedIsSearchResult(inv: Inventory, origin: AirportCode, destination: AirportCode,
                             found: seq<Flight>, out: seq<Flight>)
    requires forall i :: 0 <= i < |found| ==>
      found[i].id.value in inv && inv[found[i].id.value] == found[i].View() && Matches(found[i].View(), origin, destination)
    requires forall k | k in inv && Matches(inv[k], origin, destination) :: k in IdsOf(found)
    requires multiset(out) == multiset(found) && StrictlyById(out)
    ensures forall i :: 0 <= i < |out| ==> out[i] in found
    ensures IsSearchResult(inv, origin, destination, Views(out))
  {
    forall i | 0 <= i < |out| ensures out[i] in found {
      assert out[i] in multiset(out);
    }
    forall k | k in inv && Matches(inv[k], origin, destination)
      ensures exists i :: 0 <= i < |Views(out)| && Views(out)[i].id.value == k
    {
      var j :| 0 <= j < |found| && found[j].id.value == k;
      assert found[j] in multiset(found);
      var i :| 0 <= i < |out| && out[i] == found[j];
      assert Views(out)[i].id.value == k;
    }
  }

  /** The ids of a sequence of flights. */
  ghost function IdsOf(s: seq<Flight>): set<nat>
  {
    set i | 0 <= i < |s| :: s[i].id.value
  }

  lemma IdsOfSnoc(s: seq<Flight>, x: Flight)
    ensures IdsOf(s + [x]) == IdsOf(s) + {x.id.value}
  {
    assert (s + [x])[|s|] == x;
    forall k | k in IdsOf(s) ensures k in IdsOf(s + [x]) {
      var i :| 0 <= i < |s| && s[i].id.value == k;
      assert (s + [x])[i] == s[i];
    }
  }

  /** The snapshots of a sequence of flights. */
  ghost function Views(s: seq<Flight>): (r: seq<FlightState>)
    reads s
    ensures |r| == |s| && forall i :: 0 <= i < |s| ==> r[i] == s[i].View()
  {
    seq(|s|, i requires 0 <= i < |s| reads s => s[i].View())
  }

  predicate StrictlyById(t: seq<Flight>)
  {
    forall i, j :: 0 <= i < j < |t| ==> t[i].id.value < t[j].id.value
  }

  lemma ConsStrictlyById(h: Flight, rest: seq<Flight>)
    requires StrictlyById(rest)
    requires forall i :: 0 <= i < |rest| ==> h.id.value < rest[i].id.value
    ensures StrictlyById([h] + rest)
  {
    forall i, j | 0 <= i < j < |[h] + rest| ensures ([h] + rest)[i].id.value < ([h] + rest)[j].id.value {
      if i > 0 {
        assert ([h] + rest)[i] == rest[i - 1];
      }
      assert ([h] + rest)[j] == rest[j - 1];
    }
  }

  /** Puts `x` into its place in a sequence sorted by id that holds no flight with its id. */
  function InsertById(t: seq<Flight>, x: Flight): (r: seq<Flight>)
    requires StrictlyById(t)
    requires forall i :: 0 <= i < |t| ==> t[i].id.value != x.id.value
    ensures multiset(r) == multiset(t) + multiset{x}
    ensures forall i :: 0 <= i < |r| ==> r[i] == x || r[i] in t
    ensures StrictlyById(r)
    decreases |t|
  {
    if t == [] then [x]
    else if x.id.value < t[0].id.value then
      ConsStrictlyById(x, t);
      [x] + t
    else
      var rest := InsertById(t[1..], x);
      InsertAfterHead(t, x, rest);
      [t[0]] + rest
  }

  /** The head of `t`, put before `x` inserted into the rest of `t`, completes the insertion. */
  lemma InsertAfterHead(t: seq<Flight>, x: Flight, rest: seq<Flight>)
    requires t != [] && StrictlyById(t) && t[0].id.value < x.id.value
    requires multiset(rest) == multiset(t[1..]) + multiset{x}
    requires forall i :: 0 <= i < |rest| ==> rest[i] == x || rest[i] in t[1..]
    requires StrictlyById(rest)
    ensures multiset([t[0]] + rest) == multiset(t) + multiset{x}
    ensures forall i :: 0 <= i < |[t[0]] + rest| ==> ([t[0]] + rest)[i] == x || ([t[0]] + rest)[i] in t
    ensures StrictlyById([t[0]] + rest)
  {
    assert t == [t[0]] + t[1..];
    forall i | 0 <= i < |rest| ensures t[0].id.value < rest[i].id.value {
      if rest[i] != x {
        var q :| 0 <= q < |t[1..]| && t[1..][q] == rest[i];
        assert rest[i] == t[q + 1];
      }
    }
    ConsStrictlyById(t[0], rest);
  }

  /** std::sort by id, for flights with distinct ids: the same flights, in strictly
      increasing id order. */
  method SortById(s: seq<Flight>) returns (t: seq<Flight>)
    requires forall i, j :: 0 <= i < j < |s| ==> s[i].id.value != s[j].id.value
    ensures multiset(t) == multiset(s)
    ensures StrictlyById(t)
  {
    t := [];
    var n := 0;
    while n < |s|
      invariant 0 <= n <= |s|
      invariant multiset(t) == multiset(s[..n])
      invariant StrictlyById(t)
    {
      forall i | 0 <= i < |t| ensures t[i].id.value != s[n].id.value {
        assert t[i] in multiset(s[..n]);
        var q :| 0 <= q < n && s[..n][q] == t[i];
      }
      assert s[..n + 1] == s[..n] + [s[n]];
      t := InsertById(t, s[n]);
      n := n + 1;
    }
    assert s[..n] == s;
  }
}
