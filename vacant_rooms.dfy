/**
 * The vacant rooms screen: rooms no tenant occupies, ordered by floor and room number, each shown
 * with its facilities.
 */
module VacantRoomsScreen {
  import opened Common
  import opened Schema
  import Text
  import Vacancy

  /** The rooms query's order, `order("floor").order("room_no")`: by floor, then by room number
      as text. */
  predicate FloorThenRoomNo(a: Room, b: Room)
  {
    a.floor < b.floor || (a.floor == b.floor && Text.CompareStrings(a.roomNo, b.roomNo) <= 0)
  }

  class VacantRoomsView {
    var rooms: seq<Room>

    constructor ()
      ensures rooms == []
    {
      rooms := [];
    }

    /** `fetchVacantRooms`: a failed occupancy read stops here; otherwise the rooms query goes out,
        filtered only when some room is occupied, and a successful read replaces the list. */
    method FetchVacantRooms(occupied: Response<seq<Option<int>>>, roomsRead: Response<seq<Room>>)
      modifies this`rooms
      ensures rooms ==
        if occupied.Data? && roomsRead.Data? then Vacancy.VacantRooms(roomsRead.rows, occupied.rows)
        else old(rooms)
    {
      if occupied.Error? {
        return;
      }
      var occupiedRoomIds := Vacancy.OccupiedIds(occupied.rows);
      if roomsRead.Data? {
        var data := roomsRead.rows;
        if |occupiedRoomIds| > 0 {
          data := Vacancy.ExcludeRooms(data, occupiedRoomIds);
        } else {
          Vacancy.ExcludeNothing(data);
        }
        rooms := data;
      }
    }

    /** "No vacant rooms available." shows exactly when the list is empty. */
    function ShowsEmptyNotice(): bool
      reads this
    {
      |rooms| == 0
    }
  }

  /** Each listed room is a room that no tenant occupies, every such room is listed, and the list
      keeps the floor-then-room-number order of the rooms read. */
  lemma ListedExactlyTheVacantRooms(rooms: seq<Room>, roomIds: seq<Option<int>>, room: Room)
    requires Vacancy.OrderedBy(rooms, FloorThenRoomNo)
    ensures room in Vacancy.VacantRooms(rooms, roomIds) <==>
      room in rooms && forall j :: 0 <= j < |roomIds| ==> roomIds[j] != Some(room.id)
    ensures Vacancy.OrderedBy(Vacancy.VacantRooms(rooms, roomIds), FloorThenRoomNo)
  {
    Vacancy.VacantIff(rooms, roomIds, room);
    Vacancy.ExcludeKeepsOrder(rooms, Vacancy.OccupiedIds(roomIds), FloorThenRoomNo);
  }
}
