/**
 * The vacancy rule both room screens use: collect the non-null `room_id`s of the tenants, then
 * keep the rooms whose id is not among them (`not("id", "in", "(...)")`).
 */
module Vacancy {
  import opened Common
  import opened Schema

  /** The ids of the occupied rooms: the non-null values of the tenants' `room_id` column, in
      order. (The `is null` filter runs in the database; the model applies it here.) */
  function OccupiedIds(roomIds: seq<Option<int>>): (ids: seq<int>)
    ensures forall x :: x in ids <==> Some(x) in roomIds
    ensures |ids| <= |roomIds|
    ensures ids == [] <==> forall j :: 0 <= j < |roomIds| ==> roomIds[j].None?
    decreases |roomIds|
  {
    if roomIds == [] then []
    else
      var rest := OccupiedIds(roomIds[1..]);
      assert forall o :: o in roomIds <==> o == roomIds[0] || o in roomIds[1..];
      match roomIds[0]
      case Some(x) => [x] + rest
      case None => rest
  }

  /** The rooms query with the `not id in (ids)` filter: the rooms whose id is not listed, in the
      order the query returned them. */
  function ExcludeRooms(rooms: seq<Room>, ids: seq<int>): (r: seq<Room>)
    ensures forall room :: room in r <==> room in rooms && room.id !in ids
    ensures |r| <= |rooms|
    decreases |rooms|
  {
    if rooms == [] then []
    else
      var rest := ExcludeRooms(rooms[1..], ids);
      assert forall room :: room in rooms <==> room == rooms[0] || room in rooms[1..];
      if rooms[0].id in ids then rest else [rooms[0]] + rest
  }

  /** With no occupied ids the query goes out without the filter; that returns the same rooms the
      filter would. */
  lemma {:induction false} ExcludeNothing(rooms: seq<Room>)
    ensures ExcludeRooms(rooms, []) == rooms
    decreases |rooms|
  {
    if rooms != [] {
      ExcludeNothing(rooms[1..]);
      assert [rooms[0]] + rooms[1..] == rooms;
    }
  }

  /** The rooms listed in an order the query asked for. */
  ghost predicate OrderedBy(rooms: seq<Room>, before: (Room, Room) -> bool)
  {
    forall i, j :: 0 <= i < j < |rooms| ==> before(rooms[i], rooms[j])
  }

  /** The rooms after the first keep the order. */
  lemma OrderedTail(rooms: seq<Room>, before: (Room, Room) -> bool)
    requires rooms != [] && OrderedBy(rooms, before)
    ensures OrderedBy(rooms[1..], before)
    ensures forall room :: room in rooms[1..] ==> before(rooms[0], room)
  {
    var tail := rooms[1..];
    forall i, j | 0 <= i < j < |tail| ensures before(tail[i], tail[j]) {
      assert tail[i] == rooms[i + 1] && tail[j] == rooms[j + 1];
    }
    forall room | room in tail ensures before(rooms[0], room) {
      var k :| 0 <= k < |tail| && tail[k] == room;
      assert rooms[k + 1] == room;
    }
  }

  /** A room that goes before every room of an ordered list can be put in front of it. */
  lemma OrderedCons(x: Room, rest: seq<Room>, before: (Room, Room) -> bool)
    requires OrderedBy(rest, before)
    requires forall room :: room in rest ==> before(x, room)
    ensures OrderedBy([x] + rest, before)
  {
    var r := [x] + rest;
    forall i, j | 0 <= i < j < |r| ensures before(r[i], r[j]) {
      assert r[j] == rest[j - 1] && r[j] in rest;
      if i > 0 {
        assert r[i] == rest[i - 1];
      }
    }
  }

  /** The filter keeps the order of the rooms query (`order("room_no")`, or `order("floor")`
      then `order("room_no")`): whatever order the rows came in, the vacant ones keep it. */
  lemma {:induction false} ExcludeKeepsOrder(rooms: seq<Room>, ids: seq<int>, before: (Room, Room) -> bool)
    requires OrderedBy(rooms, before)
    ensures OrderedBy(ExcludeRooms(rooms, ids), before)
    decreases |rooms|
  {
    if rooms != [] {
      OrderedTail(rooms, before);
      ExcludeKeepsOrder(rooms[1..], ids, before);
      if rooms[0].id !in ids {
        OrderedCons(rooms[0], ExcludeRooms(rooms[1..], ids), before);
      }
    }
  }

  /** The vacant rooms: the rooms no tenant's `room_id` points at. */
  function VacantRooms(rooms: seq<Room>, roomIds: seq<Option<int>>): seq<Room>
  {
    ExcludeRooms(rooms, OccupiedIds(roomIds))
  }

  /** A room is vacant iff it is a room and no tenant's `room_id` equals its id. */
  lemma VacantIff(rooms: seq<Room>, roomIds: seq<Option<int>>, room: Room)
    ensures room in VacantRooms(rooms, roomIds) <==>
      room in rooms && forall j :: 0 <= j < |roomIds| ==> roomIds[j] != Some(room.id)
  {
  }

  /** When no tenant holds a room, every room is vacant, in the query's order. */
  lemma NoTenantsAllVacant(rooms: seq<Room>, roomIds: seq<Option<int>>)
    requires forall j :: 0 <= j < |roomIds| ==> roomIds[j].None?
    ensures VacantRooms(rooms, roomIds) == rooms
  {
    ExcludeNothing(rooms);
  }
}
