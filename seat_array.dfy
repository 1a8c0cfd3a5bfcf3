// The web table's seat array (web/components/Tablenew.jsx): a fixed-length array of
// seat occupants and "vacant seat" sentinels that the server's responses update.

module SeatArray {
  import opened Common
  import opened LegacyNet

  /** The part of a client's player record the seat array looks at. */
  datatype SeatPlayer = SeatPlayer(Name: string, Action: NetAction, ChipCount: int, TablePos: Option<nat>)

  /**
   * A seat: a client sent by the server, or a sentinel. `VacantTag` is the
   * sentinel's `_ID` field; `ID` and `Player` may be absent on either.
   */
  datatype SeatClient = SeatClient(ID: Option<string>, VacantTag: Option<string>, Name: string, Player: Option<SeatPlayer>)

  const VacantName: string := "vacant seat"

  /** nullClient with its player at `pos`. */
  function Sentinel(pos: Option<nat>): SeatClient {
    SeatClient(None, Some("vacant"), VacantName, Some(SeatPlayer(VacantName, NetDataVacantSeat, 0, pos)))
  }

  /** A JavaScript string is truthy when it is present and non-empty. */
  predicate Truthy(s: Option<string>) {
    s.Some? && s.value != ""
  }

  /** The initial array: `numSeats` sentinels, each at its own index. */
  function InitialSeats(numSeats: nat): (r: seq<SeatClient>)
    ensures |r| == numSeats
    ensures forall i :: 0 <= i < numSeats ==> r[i] == Sentinel(Some(i))
  {
    Padding(0, numSeats)
  }

  /** findIndex(c => c.ID === id): the first slot from `i` on carrying `id`. */
  function FindByID(ps: seq<SeatClient>, id: Option<string>, i: nat): (r: Option<nat>)
    requires i <= |ps|
    ensures r.Some? ==> i <= r.value < |ps| && ps[r.value].ID == id && forall j :: i <= j < r.value ==> ps[j].ID != id
    ensures r.None? ==> forall j :: i <= j < |ps| ==> ps[j].ID != id
    decreases |ps| - i
  {
    if i == |ps| then None
    else if ps[i].ID == id then Some(i)
    else FindByID(ps, id, i + 1)
  }

  /** findIndex(c => c.Name === 'vacant seat'): the first slot from `i` on with the vacant name. */
  function FindVacant(ps: seq<SeatClient>, i: nat): (r: Option<nat>)
    requires i <= |ps|
    ensures r.Some? ==> (i <= r.value < |ps| && ps[r.value].Name == VacantName
                         && forall j :: i <= j < r.value ==> ps[j].Name != VacantName)
    ensures r.None? ==> forall j :: i <= j < |ps| ==> ps[j].Name != VacantName
    decreases |ps| - i
  {
    if i == |ps| then None
    else if ps[i].Name == VacantName then Some(i)
    else FindVacant(ps, i + 1)
  }

  /**
   * updatePlayer's updater: the first slot whose ID is the client's gets the
   * client, or with `vacate`, a sentinel at the client's TablePos (falling back to
   * the slot's own). None when that fallback reads the player of a slot that has none.
   */
  function UpdatePlayer(ps: seq<SeatClient>, client: SeatClient, vacate: bool): Option<seq<SeatClient>>
  {
    if !Truthy(client.ID) then Some(ps)
    else match FindByID(ps, client.ID, 0)
      case None => Some(ps)
      case Some(i) =>
        if !vacate then Some(ps[i := client])
        else if client.Player.Some? && client.Player.value.TablePos.Some? then
          Some(ps[i := Sentinel(client.Player.value.TablePos)])
        else if ps[i].Player.Some? then Some(ps[i := Sentinel(ps[i].Player.value.TablePos)])
        else None
  }

  /** A named sentinel has no ID, so no truthy client ID ever matches it. */
  lemma SentinelNeverMatched(client: SeatClient, pos: Option<nat>)
    requires Truthy(client.ID)
    ensures Sentinel(pos).ID != client.ID
  {
  }

  /** Without an ID, or with one no slot carries, the array is left as it is. */
  lemma UpdateWithoutMatch(ps: seq<SeatClient>, client: SeatClient, vacate: bool)
    requires !Truthy(client.ID) || forall j :: 0 <= j < |ps| ==> ps[j].ID != client.ID
    ensures UpdatePlayer(ps, client, vacate) == Some(ps)
  {
  }

  /** Only the first slot carrying the client's ID changes; the length and all other slots stay. */
  lemma UpdateFirstMatch(ps: seq<SeatClient>, client: SeatClient, vacate: bool, i: nat)
    requires Truthy(client.ID) && i < |ps| && ps[i].ID == client.ID
    requires forall j :: 0 <= j < i ==> ps[j].ID != client.ID
    ensures UpdatePlayer(ps, client, vacate).Some? ==>
      var r := UpdatePlayer(ps, client, vacate).value;
      |r| == |ps| && (forall j :: 0 <= j < |ps| && j != i ==> r[j] == ps[j])
      && r[i] == (if vacate then r[i] else client)
    ensures vacate ==>
      (UpdatePlayer(ps, client, vacate).Some? <==>
         (client.Player.Some? && client.Player.value.TablePos.Some?) || ps[i].Player.Some?)
  {
    var f := FindByID(ps, client.ID, 0);
    assert f == Some(i);
  }

  /** A vacated slot becomes a sentinel at the client's TablePos, or at the slot's own
      when the response carries no player position. */
  lemma VacatePosition(ps: seq<SeatClient>, client: SeatClient, i: nat)
    requires Truthy(client.ID) && i < |ps| && ps[i].ID == client.ID
    requires forall j :: 0 <= j < i ==> ps[j].ID != client.ID
    requires UpdatePlayer(ps, client, true).Some?
    ensures UpdatePlayer(ps, client, true).value[i] ==
      Sentinel(if client.Player.Some? && client.Player.value.TablePos.Some? then client.Player.value.TablePos
               else ps[i].Player.value.TablePos)
  {
    var f := FindByID(ps, client.ID, 0);
    assert f == Some(i);
  }

  /** Vacating a client that holds one seat twice: the second time changes nothing. */
  lemma VacateTwice(ps: seq<SeatClient>, client: SeatClient, i: nat)
    requires Truthy(client.ID) && i < |ps| && ps[i].ID == client.ID
    requires forall j :: 0 <= j < |ps| && j != i ==> ps[j].ID != client.ID
    requires UpdatePlayer(ps, client, true).Some?
    ensures UpdatePlayer(UpdatePlayer(ps, client, true).value, client, true) == UpdatePlayer(ps, client, true)
  {
    var f := FindByID(ps, client.ID, 0);
    assert f == Some(i);
    var r := UpdatePlayer(ps, client, true).value;
    assert forall j :: 0 <= j < |r| ==> r[j].ID != client.ID;
    UpdateWithoutMatch(r, client, true);
  }

  /** The YOUR_PLAYER, NEW_PLAYER and CUR_PLAYERS updater: the first slot named
      "vacant seat" gets the client. */
  function FillVacant(ps: seq<SeatClient>, client: SeatClient): (r: seq<SeatClient>)
    ensures |r| == |ps|
  {
    match FindVacant(ps, 0)
    case Some(i) => ps[i := client]
    case None => ps
  }

  /** Filling puts the client in the first vacant-named slot and changes nothing else;
      with no such slot the array is unchanged. */
  lemma FillVacantMeaning(ps: seq<SeatClient>, client: SeatClient)
    ensures (forall j :: 0 <= j < |ps| ==> ps[j].Name != VacantName) ==> FillVacant(ps, client) == ps
    ensures forall i :: 0 <= i < |ps| && ps[i].Name == VacantName && (forall j :: 0 <= j < i ==> ps[j].Name != VacantName) ==>
      FillVacant(ps, client) == ps[i := client]
  {
    forall i | 0 <= i < |ps| && ps[i].Name == VacantName && (forall j :: 0 <= j < i ==> ps[j].Name != VacantName)
      ensures FillVacant(ps, client) == ps[i := client]
    {
      var f := FindVacant(ps, 0);
      assert f == Some(i);
    }
  }

  /** players.filter(p => !p._ID): the entries that are not sentinels, in order. */
  function Occupants(ps: seq<SeatClient>): (r: seq<SeatClient>)
    ensures |r| <= |ps|
    ensures forall x :: x in r ==> x in ps && !Truthy(x.VacantTag)
    ensures forall x :: x in ps && !Truthy(x.VacantTag) ==> x in r
  {
    if ps == [] then []
    else if Truthy(ps[0].VacantTag) then Occupants(ps[1..])
    else [ps[0]] + Occupants(ps[1..])
  }

  /** The sentinels the re-pad loop pushes to grow an array from `from` to `to` entries. */
  function Padding(from: nat, to: nat): (r: seq<SeatClient>)
    ensures |r| == (if from < to then to - from else 0)
    ensures forall i :: 0 <= i < |r| ==> r[i] == Sentinel(Some(from + i))
    decreases if from < to then to - from else 0
  {
    if from >= to then [] else [Sentinel(Some(from))] + Padding(from + 1, to)
  }

  lemma {:induction false} PaddingSnoc(from: nat, to: nat)
    requires from <= to
    ensures Padding(from, to + 1) == Padding(from, to) + [Sentinel(Some(to))]
    decreases if from < to then to - from else 0
  {
    if from < to {
      PaddingSnoc(from + 1, to);
    }
  }

  /** The numSeats effect: drop the sentinels, then push sentinels until there are `numSeats` entries. */
  method Repad(ps: seq<SeatClient>, numSeats: nat) returns (r: seq<SeatClient>)
    ensures numSeats == 0 ==> r == ps
    ensures numSeats != 0 ==> r == Occupants(ps) + Padding(|Occupants(ps)|, numSeats)
  {
    if numSeats == 0 {
      return ps;
    }
    r := Occupants(ps);
    ghost var base := |r|;
    while |r| < numSeats
      invariant base <= |r| && (|r| > base ==> |r| <= numSeats)
      invariant r == Occupants(ps) + Padding(base, |r|)
      decreases numSeats - |r|
    {
      PaddingSnoc(base, |r|);
      r := r + [Sentinel(Some(|r|))];
    }
  }

  /** The re-pad never truncates, keeps every occupant at its old rank, and each pushed
      sentinel sits at its own index. */
  lemma RepadShape(ps: seq<SeatClient>, numSeats: nat)
    requires numSeats != 0
    ensures var r := Occupants(ps) + Padding(|Occupants(ps)|, numSeats);
      |r| == (if |Occupants(ps)| < numSeats then numSeats else |Occupants(ps)|)
      && r[..|Occupants(ps)|] == Occupants(ps)
      && forall i :: |Occupants(ps)| <= i < |r| ==> r[i] == Sentinel(Some(i))
  {
  }

  /** Repadding an array that has no sentinels and fewer than numSeats entries appends exactly the padding. */
  lemma {:induction false} OccupantsOfOccupied(ps: seq<SeatClient>)
    requires forall j :: 0 <= j < |ps| ==> !Truthy(ps[j].VacantTag)
    ensures Occupants(ps) == ps
  {
    if ps != [] {
      OccupantsOfOccupied(ps[1..]);
    }
  }

  /** The side a seat renders on: bottom, left, top, right for 0..3. */
  function Side(pos: nat): (s: nat)
    ensures s < 4
  {
    pos % 4
  }

  /** The grid row (left, right) or column (top, bottom) of a seat on its side. */
  function Cell(pos: nat): (c: nat)
    ensures 1 <= c <= 3
  {
    (pos / 4) % 3 + 1
  }

  /** The twelve positions 0..11 take twelve different places on the table. */
  lemma PlacesDistinct(p: nat, q: nat)
    requires p < 12 && q < 12
    ensures Side(p) == Side(q) && Cell(p) == Cell(q) ==> p == q
  {
    assert p == 4 * (p / 4) + p % 4;
    assert q == 4 * (q / 4) + q % 4;
  }
}
