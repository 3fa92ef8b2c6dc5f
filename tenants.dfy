/**
 * The tenant registry screen: the tenant list sorted by room (vacant tenants last), the list of
 * rooms offered in the add form, the add form with its normalisation into an insert row, and
 * deletion.
 */
module Tenants {
  import opened Common
  import opened Text
  import opened Schema
  import Vacancy
  import Store

  /** A row of the tenant list: the `tenants` columns and the joined `room:rooms(room_no)`, which is
      null when the tenant has no room. */
  datatype Tenant = Tenant(
    id: int,
    name: string,
    phone: Option<string>,
    email: Option<string>,
    address: Option<string>,
    roomId: Option<int>,
    room: Option<string>,
    depositAmount: int,
    depositPaid: bool)

  // ---------------------------------------------------------------- the sort comparator

  /** Two room numbers: numerically (`aNum - bNum`) when both read as numbers, otherwise by
      string order (`localeCompare`). */
  function CompareRoomNumbers(a: string, b: string): int
  {
    var aNum, bNum := ToNumber(a), ToNumber(b);
    if aNum.Some? && bNum.Some? then aNum.value - bNum.value else CompareStrings(a, b)
  }

  /** The comparator of `sortedTenants`: tenants with a room first, rooms by room number. */
  function Compare(a: Tenant, b: Tenant): int
  {
    if a.room.None? && b.room.None? then 0
    else if a.room.None? then 1
    else if b.room.None? then -1
    else CompareRoomNumbers(a.room.value, b.room.value)
  }

  /** The comparator is antisymmetric: swapping its operands flips the sign of the answer. */
  lemma CompareAntisymmetric(a: Tenant, b: Tenant)
    ensures Compare(a, b) < 0 <==> Compare(b, a) > 0
    ensures Compare(a, b) == 0 <==> Compare(b, a) == 0
  {
    if a.room.Some? && b.room.Some? {
      CompareStringsAntisymmetric(a.room.value, b.room.value);
    }
  }

  lemma CompareTwoBeforeTen()
    ensures CompareRoomNumbers("2", "10") < 0
  {
    assert IsNumeral("2") && NumeralValue("2") == 2;
    assert IsNumeral("10") && NumeralValue("10") == 10 by { assert "10"[..1] == "1"; }
    NumberOfNumeral("2");
    NumberOfNumeral("10");
  }

  lemma CompareTenBeforeOneA()
    ensures CompareRoomNumbers("10", "1a") < 0
  {
    NotANumber("1a") by { assert !IsDigit("1a"[1]); }
    assert "10"[1..] == "0" && "1a"[1..] == "a";
    assert CompareStrings("0", "a") == -1;
    assert CompareStrings("10", "1a") == CompareStrings("0", "a");
  }

  lemma CompareOneABeforeTwo()
    ensures CompareRoomNumbers("1a", "2") < 0
  {
    NotANumber("1a") by { assert !IsDigit("1a"[1]); }
    assert CompareStrings("1a", "2") == -1;
  }

  /** ... but it is not transitive once numeric and non-numeric room numbers mix: room "2" sorts
      before room "10" (as numbers), "10" before "1a" and "1a" before "2" (as strings), so the
      order the sort produces for such a list depends on the sort algorithm. */
  lemma CompareNotTransitive(a: Tenant, b: Tenant, c: Tenant)
    requires a.room == Some("2") && b.room == Some("10") && c.room == Some("1a")
    ensures Compare(a, b) < 0 && Compare(b, c) < 0 && Compare(c, a) < 0
  {
    CompareTwoBeforeTen();
    CompareTenBeforeOneA();
    CompareOneABeforeTwo();
  }

  // ---------------------------------------------------------------- the sort

  /** A comparator in the sense of `Array.prototype.sort`: negative when the first argument goes
      first. */
  type Comparator = (Tenant, Tenant) -> int

  /** Inserts `x` before the first tenant it does not sort after under `cmp`. */
  function Insert(x: Tenant, s: seq<Tenant>, cmp: Comparator): (r: seq<Tenant>)
    ensures |r| == |s| + 1
    ensures multiset(r) == multiset(s) + multiset{x}
    decreases |s|
  {
    if s == [] || cmp(x, s[0]) <= 0 then [x] + s
    else
      var rest := Insert(x, s[1..], cmp);
      assert s == [s[0]] + s[1..];
      [s[0]] + rest
  }

  /** `[...s].sort(cmp)`, as a stable insertion sort of a copy. */
  function SortBy(s: seq<Tenant>, cmp: Comparator): seq<Tenant>
    decreases |s|
  {
    if s == [] then [] else Insert(s[0], SortBy(s[1..], cmp), cmp)
  }

  /** `sortedTenants`: the tenants sorted with the screen's comparator. */
  function Sort(s: seq<Tenant>): seq<Tenant>
  {
    SortBy(s, Compare)
  }

  /** The sorted list is a permutation of the tenants, whatever the comparator. */
  lemma {:induction false} SortPermutation(s: seq<Tenant>, cmp: Comparator)
    ensures multiset(SortBy(s, cmp)) == multiset(s)
    decreases |s|
  {
    if s != [] {
      var tail := s[1..];
      SortPermutation(tail, cmp);
      assert multiset(s) == multiset(tail) + multiset{s[0]} by {
        assert s == [s[0]] + tail;
      }
    }
  }

  /** The number a tenant's room number reads as, if it has a room and the number parses. */
  function RoomValue(t: Tenant): Option<int>
  {
    if t.room.Some? then ToNumber(t.room.value) else None
  }

  /** What the screen's comparator does with vacant tenants: nothing sorts after a tenant without
      a room, and a tenant without a room sorts after one with a room. */
  ghost predicate PutsVacantLast(cmp: Comparator)
  {
    forall a: Tenant, b: Tenant :: (b.room.None? ==> cmp(a, b) <= 0) && (a.room.None? && b.room.Some? ==> cmp(a, b) > 0)
  }

  /** What the screen's comparator does with numeric room numbers: it returns their difference. */
  ghost predicate OrdersNumbers(cmp: Comparator)
  {
    forall a: Tenant, b: Tenant :: RoomValue(a).Some? && RoomValue(b).Some? ==> cmp(a, b) == RoomValue(a).value - RoomValue(b).value
  }

  /** The screen's comparator puts vacant tenants last and compares numeric room numbers by their
      difference. */
  lemma CompareOrdersRooms()
    ensures PutsVacantLast(Compare) && OrdersNumbers(Compare)
  {
    forall a: Tenant, b: Tenant ensures (b.room.None? ==> Compare(a, b) <= 0) && (a.room.None? && b.room.Some? ==> Compare(a, b) > 0) {
    }
    forall a: Tenant, b: Tenant | RoomValue(a).Some? && RoomValue(b).Some?
      ensures Compare(a, b) == RoomValue(a).value - RoomValue(b).value
    {
      assert a.room.Some? && b.room.Some?;
    }
  }

  /** No tenant without a room comes before a tenant with one. */
  ghost predicate VacantLast(s: seq<Tenant>)
  {
    forall i, j :: 0 <= i < j < |s| && s[i].room.None? ==> s[j].room.None?
  }

  lemma {:induction false} InsertVacantLast(x: Tenant, s: seq<Tenant>, cmp: Comparator)
    requires PutsVacantLast(cmp) && VacantLast(s)
    ensures VacantLast(Insert(x, s, cmp))
    decreases |s|
  {
    if s != [] {
      if cmp(x, s[0]) <= 0 {
        var r := [x] + s;
        assert Insert(x, s, cmp) == r;
        forall i, j | 0 <= i < j < |r| && r[i].room.None? ensures r[j].room.None? {
          if i == 0 {
            assert s[0].room.None?;
            assert r[j] == s[j - 1];
          } else {
            assert r[i] == s[i - 1] && r[j] == s[j - 1];
          }
        }
      } else {
        assert s[0].room.Some?;
        var tail := s[1..];
        assert VacantLast(tail) by {
          forall i, j | 0 <= i < j < |tail| && tail[i].room.None? ensures tail[j].room.None? {
            assert tail[i] == s[i + 1] && tail[j] == s[j + 1];
          }
        }
        InsertVacantLast(x, tail, cmp);
        var rest := Insert(x, tail, cmp);
        var r := [s[0]] + rest;
        assert Insert(x, s, cmp) == r;
        forall i, j | 0 <= i < j < |r| && r[i].room.None? ensures r[j].room.None? {
          assert i > 0;
          assert r[i] == rest[i - 1] && r[j] == rest[j - 1];
        }
      }
    }
  }

  /** Under a comparator that puts vacant tenants last, every tenant with a room ends up before
      every tenant without one. */
  lemma {:induction false} SortVacantLast(s: seq<Tenant>, cmp: Comparator)
    requires PutsVacantLast(cmp)
    ensures VacantLast(SortBy(s, cmp))
    decreases |s|
  {
    if s != [] {
      SortVacantLast(s[1..], cmp);
      InsertVacantLast(s[0], SortBy(s[1..], cmp), cmp);
    }
  }

  /** Every room number present reads as a number. */
  ghost predicate NumericRooms(s: seq<Tenant>)
  {
    forall t :: t in s ==> t.room.None? || RoomValue(t).Some?
  }

  /** The tenants with rooms come in ascending numeric order of room number. */
  ghost predicate Ascending(s: seq<Tenant>)
  {
    forall i, j :: 0 <= i < j < |s| && RoomValue(s[i]).Some? && RoomValue(s[j]).Some? ==>
      RoomValue(s[i]).value <= RoomValue(s[j]).value
  }

  /** Prepending a tenant whose room number is at most every later one keeps the order. */
  lemma AscendingCons(x: Tenant, s: seq<Tenant>)
    requires Ascending(s)
    requires forall t :: t in s && RoomValue(x).Some? && RoomValue(t).Some? ==> RoomValue(x).value <= RoomValue(t).value
    ensures Ascending([x] + s)
  {
    var r := [x] + s;
    forall i, j | 0 <= i < j < |r| && RoomValue(r[i]).Some? && RoomValue(r[j]).Some?
      ensures RoomValue(r[i]).value <= RoomValue(r[j]).value
    {
      assert r[j] == s[j - 1] && r[j] in s;
      if i > 0 {
        assert r[i] == s[i - 1];
      }
    }
  }

  /** A tenant that sorts before the head of an ordered list has a room number no larger than any
      in the list. */
  lemma HeadBound(x: Tenant, s: seq<Tenant>, cmp: Comparator)
    requires PutsVacantLast(cmp) && OrdersNumbers(cmp)
    requires s != [] && VacantLast(s) && Ascending(s) && NumericRooms(s)
    requires cmp(x, s[0]) <= 0
    ensures forall t :: t in s && RoomValue(x).Some? && RoomValue(t).Some? ==> RoomValue(x).value <= RoomValue(t).value
  {
    forall t | t in s && RoomValue(x).Some? && RoomValue(t).Some?
      ensures RoomValue(x).value <= RoomValue(t).value
    {
      var k :| 0 <= k < |s| && s[k] == t;
      assert s[0].room.Some? by {
        if s[0].room.None? {
          assert s[k].room.None?;
        }
      }
      assert s[0] in s;
      assert RoomValue(s[0]).Some?;
      assert cmp(x, s[0]) == RoomValue(x).value - RoomValue(s[0]).value;
      if k > 0 {
        assert RoomValue(s[0]).value <= RoomValue(s[k]).value;
      }
    }
  }

  lemma {:induction false} InsertAscending(x: Tenant, s: seq<Tenant>, cmp: Comparator)
    requires PutsVacantLast(cmp) && OrdersNumbers(cmp)
    requires VacantLast(s) && Ascending(s) && NumericRooms([x] + s)
    ensures Ascending(Insert(x, s, cmp))
    decreases |s|
  {
    assert x in [x] + s;
    assert NumericRooms(s) by {
      forall t | t in s ensures t in [x] + s { }
    }
    if s == [] {
      assert Insert(x, s, cmp) == [x];
    } else if cmp(x, s[0]) <= 0 {
      assert Insert(x, s, cmp) == [x] + s;
      HeadBound(x, s, cmp);
      AscendingCons(x, s);
    } else {
      InsertAscendingAfterHead(x, s, cmp);
    }
  }

  lemma {:induction false} InsertAscendingAfterHead(x: Tenant, s: seq<Tenant>, cmp: Comparator)
    requires PutsVacantLast(cmp) && OrdersNumbers(cmp)
    requires VacantLast(s) && Ascending(s) && NumericRooms([x] + s)
    requires s != [] && cmp(x, s[0]) > 0
    ensures Ascending(Insert(x, s, cmp))
    decreases |s|, 0
  {
    assert x in [x] + s && s[0] in [x] + s;
    assert s[0].room.Some? && RoomValue(s[0]).Some?;
    var tail := s[1..];
    assert s == [s[0]] + tail;
    assert VacantLast(tail) && Ascending(tail) by {
      forall i | 0 <= i < |tail| ensures tail[i] == s[i + 1] { }
    }
    assert NumericRooms([x] + tail) by {
      forall t | t in [x] + tail ensures t in [x] + s { }
    }
    InsertAscending(x, tail, cmp);
    var rest := Insert(x, tail, cmp);
    assert Insert(x, s, cmp) == [s[0]] + rest;
    AfterHeadBound(x, s, cmp);
    AscendingCons(s[0], rest);
  }

  /** When `x` goes after the head of an ascending list, the head's room number is at most every
      room number in the rest of the list once `x` is inserted there. */
  lemma AfterHeadBound(x: Tenant, s: seq<Tenant>, cmp: Comparator)
    requires OrdersNumbers(cmp) && Ascending(s)
    requires s != [] && cmp(x, s[0]) > 0
    ensures forall t :: t in Insert(x, s[1..], cmp) && RoomValue(s[0]).Some? && RoomValue(t).Some? ==>
      RoomValue(s[0]).value <= RoomValue(t).value
  {
    var tail := s[1..];
    var rest := Insert(x, tail, cmp);
    forall t | t in rest && RoomValue(s[0]).Some? && RoomValue(t).Some?
      ensures RoomValue(s[0]).value <= RoomValue(t).value
    {
      if t == x {
        assert cmp(x, s[0]) == RoomValue(x).value - RoomValue(s[0]).value;
      } else {
        assert t in multiset(rest);
        assert t in tail;
        var k :| 0 <= k < |tail| && tail[k] == t;
        assert s[k + 1] == t;
      }
    }
  }

  /** Under a comparator that puts vacant tenants last and compares numeric room numbers by their
      difference, a list whose room numbers all read as numbers sorts into ascending order. */
  lemma {:induction false} SortNumericAscending(s: seq<Tenant>, cmp: Comparator)
    requires PutsVacantLast(cmp) && OrdersNumbers(cmp)
    ensures NumericRooms(s) ==> Ascending(SortBy(s, cmp))
    decreases |s|
  {
    if s != [] && NumericRooms(s) {
      var sorted := SortBy(s[1..], cmp);
      assert NumericRooms(s[1..]) by {
        forall t | t in s[1..] ensures t in s { }
      }
      SortNumericAscending(s[1..], cmp);
      SortVacantLast(s[1..], cmp);
      SortPermutation(s[1..], cmp);
      assert NumericRooms([s[0]] + sorted) by {
        forall t | t in [s[0]] + sorted ensures t in s {
          if t != s[0] {
            assert t in multiset(sorted);
          }
        }
      }
      InsertAscending(s[0], sorted, cmp);
    }
  }

  /** What the screen's comparator does when a room number does not read as a number: it compares
      the two room numbers as text. */
  ghost predicate ComparesText(cmp: Comparator)
  {
    forall a: Tenant, b: Tenant :: a.room.Some? && b.room.Some? && (RoomValue(a).None? || RoomValue(b).None?) ==>
      cmp(a, b) == CompareStrings(a.room.value, b.room.value)
  }

  /** The screen's comparator falls back to the string comparison. */
  lemma CompareFallsBackToText()
    ensures ComparesText(Compare)
  {
    forall a: Tenant, b: Tenant | a.room.Some? && b.room.Some? && (RoomValue(a).None? || RoomValue(b).None?)
      ensures Compare(a, b) == CompareStrings(a.room.value, b.room.value)
    {
    }
  }

  /** No room number reads as a number. */
  ghost predicate TextRooms(s: seq<Tenant>)
  {
    forall t :: t in s ==> RoomValue(t).None?
  }

  /** `a` does not sort after `b` as text, when both have rooms. */
  ghost predicate TextBefore(a: Tenant, b: Tenant)
  {
    a.room.Some? && b.room.Some? ==> CompareStrings(a.room.value, b.room.value) <= 0
  }

  /** The tenants with rooms come in ascending text order of room number. */
  ghost predicate TextAscending(s: seq<Tenant>)
  {
    forall i, j :: 0 <= i < j < |s| ==> TextBefore(s[i], s[j])
  }

  /** Prepending a tenant whose room number is at most every later one, as text, keeps the order. */
  lemma TextAscendingCons(x: Tenant, s: seq<Tenant>)
    requires TextAscending(s)
    requires forall t :: t in s ==> TextBefore(x, t)
    ensures TextAscending([x] + s)
  {
    var r := [x] + s;
    forall i, j | 0 <= i < j < |r| ensures TextBefore(r[i], r[j]) {
      assert r[j] == s[j - 1] && r[j] in s;
      if i > 0 {
        assert r[i] == s[i - 1];
      }
    }
  }

  /** A tenant that sorts before the head of a list in text order has a room number no larger, as
      text, than any in the list. */
  lemma TextHeadBound(x: Tenant, s: seq<Tenant>, cmp: Comparator)
    requires PutsVacantLast(cmp) && ComparesText(cmp)
    requires s != [] && VacantLast(s) && TextAscending(s) && RoomValue(x).None?
    requires cmp(x, s[0]) <= 0
    ensures forall t :: t in s ==> TextBefore(x, t)
  {
    forall t | t in s ensures TextBefore(x, t) {
      var k :| 0 <= k < |s| && s[k] == t;
      if x.room.Some? && t.room.Some? {
        assert s[0].room.Some?;
        assert CompareStrings(x.room.value, s[0].room.value) <= 0;
        if k > 0 {
          assert TextBefore(s[0], s[k]);
          CompareStringsTransitive(x.room.value, s[0].room.value, t.room.value);
        }
      }
    }
  }

  lemma {:induction false} InsertTextAscending(x: Tenant, s: seq<Tenant>, cmp: Comparator)
    requires PutsVacantLast(cmp) && ComparesText(cmp)
    requires VacantLast(s) && TextAscending(s) && TextRooms([x] + s)
    ensures TextAscending(Insert(x, s, cmp))
    decreases |s|
  {
    assert x in [x] + s;
    if s == [] {
      assert Insert(x, s, cmp) == [x];
    } else if cmp(x, s[0]) <= 0 {
      assert Insert(x, s, cmp) == [x] + s;
      TextHeadBound(x, s, cmp);
      TextAscendingCons(x, s);
    } else {
      InsertTextAscendingAfterHead(x, s, cmp);
    }
  }

  lemma {:induction false} InsertTextAscendingAfterHead(x: Tenant, s: seq<Tenant>, cmp: Comparator)
    requires PutsVacantLast(cmp) && ComparesText(cmp)
    requires VacantLast(s) && TextAscending(s) && TextRooms([x] + s)
    requires s != [] && cmp(x, s[0]) > 0
    ensures TextAscending(Insert(x, s, cmp))
    decreases |s|, 0
  {
    var tail := s[1..];
    assert s == [s[0]] + tail;
    assert VacantLast(tail) && TextAscending(tail) by {
      forall i | 0 <= i < |tail| ensures tail[i] == s[i + 1] { }
    }
    assert TextRooms([x] + tail) by {
      forall t | t in [x] + tail ensures t in [x] + s { }
    }
    InsertTextAscending(x, tail, cmp);
    var rest := Insert(x, tail, cmp);
    assert Insert(x, s, cmp) == [s[0]] + rest;
    TextAfterHeadBound(x, s, cmp);
    TextAscendingCons(s[0], rest);
  }

  /** When `x` goes after the head of a list in text order, the head's room number is at most, as
      text, every room number in the rest of the list once `x` is inserted there. */
  lemma TextAfterHeadBound(x: Tenant, s: seq<Tenant>, cmp: Comparator)
    requires ComparesText(cmp) && TextAscending(s) && RoomValue(x).None?
    requires s != [] && cmp(x, s[0]) > 0
    ensures forall t :: t in Insert(x, s[1..], cmp) ==> TextBefore(s[0], t)
  {
    var tail := s[1..];
    var rest := Insert(x, tail, cmp);
    forall t | t in rest ensures TextBefore(s[0], t) {
      if t == x {
        if x.room.Some? && s[0].room.Some? {
          CompareStringsAntisymmetric(x.room.value, s[0].room.value);
        }
      } else {
        assert t in multiset(rest);
        assert t in tail;
        var k :| 0 <= k < |tail| && tail[k] == t;
        assert s[k + 1] == t;
      }
    }
  }

  /** Under a comparator that puts vacant tenants last and compares room numbers that are not
      numbers as text, a list in which no room number reads as a number sorts into ascending text
      order. */
  lemma {:induction false} SortTextAscending(s: seq<Tenant>, cmp: Comparator)
    requires PutsVacantLast(cmp) && ComparesText(cmp)
    ensures TextRooms(s) ==> TextAscending(SortBy(s, cmp))
    decreases |s|
  {
    if s != [] && TextRooms(s) {
      var sorted := SortBy(s[1..], cmp);
      assert TextRooms(s[1..]) by {
        forall t | t in s[1..] ensures t in s { }
      }
      SortTextAscending(s[1..], cmp);
      SortVacantLast(s[1..], cmp);
      SortPermutation(s[1..], cmp);
      assert TextRooms([s[0]] + sorted) by {
        forall t | t in [s[0]] + sorted ensures t in s {
          if t != s[0] {
            assert t in multiset(sorted);
          }
        }
      }
      InsertTextAscending(s[0], sorted, cmp);
    }
  }

  // ---------------------------------------------------------------- the add form

  /** The add form's fields, as the inputs hold them (all text, except the checkbox). */
  datatype TenantForm = TenantForm(
    name: string,
    phone: string,
    email: string,
    address: string,
    roomId: string,
    depositAmount: string,
    depositPaid: bool)

  /** The form's initial, blank state. */
  const BlankForm := TenantForm("", "", "", "", "", "", false)

  /** `s || null` */
  function OrNull(s: string): Option<string>
  {
    if s == "" then None else Some(s)
  }

  /** The row `addTenant` inserts: empty text fields become null; an empty room selection is null,
      any other is `Number(room_id)` (a NaN goes out as null); the deposit is
      `Number(deposit_amount) || 0`. */
  function InsertRow(f: TenantForm): (r: TenantInsert)
    ensures r.name == f.name && r.depositPaid == f.depositPaid
    ensures (r.phone == None <==> f.phone == "") && (r.phone.Some? ==> r.phone.value == f.phone)
    ensures (r.email == None <==> f.email == "") && (r.email.Some? ==> r.email.value == f.email)
    ensures (r.address == None <==> f.address == "") && (r.address.Some? ==> r.address.value == f.address)
    ensures r.roomId == None <==> f.roomId == "" || ToNumber(f.roomId) == None
    ensures r.roomId.Some? ==> ToNumber(f.roomId) == r.roomId
    ensures r.depositAmount == 0 <==> ToNumber(f.depositAmount) == None || ToNumber(f.depositAmount) == Some(0)
    ensures r.depositAmount != 0 ==> ToNumber(f.depositAmount) == Some(r.depositAmount)
  {
    var deposit := ToNumber(f.depositAmount);
    TenantInsert(
      f.name,
      OrNull(f.phone),
      OrNull(f.email),
      OrNull(f.address),
      if f.roomId != "" then ToNumber(f.roomId) else None,
      if deposit.Some? && deposit.value != 0 then deposit.value else 0,
      f.depositPaid)
  }

  /** The form a user would fill in to get a given row: the text of each field. */
  function FormFor(row: TenantInsert): TenantForm
    requires row.depositAmount >= 0
    requires row.roomId.Some? ==> row.roomId.value >= 0
  {
    TenantForm(
      row.name,
      if row.phone.Some? then row.phone.value else "",
      if row.email.Some? then row.email.value else "",
      if row.address.Some? then row.address.value else "",
      if row.roomId.Some? then NatToDecimal(row.roomId.value) else "",
      NatToDecimal(row.depositAmount),
      row.depositPaid)
  }

  /** Normalisation loses nothing a user can type: every row with non-empty text fields, a
      non-negative deposit and a non-negative room id is the insert row of its own form. */
  lemma InsertRowOfFormFor(row: TenantInsert)
    requires row.depositAmount >= 0
    requires row.roomId.Some? ==> row.roomId.value >= 0
    requires row.phone != Some("") && row.email != Some("") && row.address != Some("")
    ensures InsertRow(FormFor(row)) == row
  {
    NumberOfDecimal(row.depositAmount);
    if row.roomId.Some? {
      NumberOfDecimal(row.roomId.value);
    }
  }

  // ---------------------------------------------------------------- deletion frees a room

  /** After a tenant is deleted and the rooms are read again, a room is offered iff no remaining
      tenant's `room_id` points at it; in particular the deleted tenant's room comes back unless
      another tenant references it. */
  lemma DeleteFreesRoom(rooms: seq<Room>, ts: seq<TenantRecord>, id: int, room: Room)
    requires room in rooms
    ensures room in Vacancy.VacantRooms(rooms, Store.RoomIdColumn(Store.RemoveTenant(ts, id))) <==>
      forall t :: t in ts && t.id != id ==> t.fields.roomId != Some(room.id)
  {
    var left := Store.RemoveTenant(ts, id);
    var column := Store.RoomIdColumn(left);
    Vacancy.VacantIff(rooms, column, room);
    if forall t :: t in ts && t.id != id ==> t.fields.roomId != Some(room.id) {
      forall j | 0 <= j < |column| ensures column[j] != Some(room.id) {
        assert left[j] in left;
      }
    } else {
      var t :| t in ts && t.id != id && t.fields.roomId == Some(room.id);
      assert t in left;
      var j :| 0 <= j < |left| && left[j] == t;
      assert column[j] == Some(room.id);
    }
  }

  // ---------------------------------------------------------------- the screen's state

  class TenantsTable {
    var tenants: seq<Tenant>
    var availableRooms: seq<Room>
    var loading: bool
    var showForm: bool
    var newTenant: TenantForm

    constructor ()
      ensures tenants == [] && availableRooms == [] && loading && !showForm && newTenant == BlankForm
    {
      tenants, availableRooms := [], [];
      loading, showForm := true, false;
      newTenant := BlankForm;
    }

    /** `sortedTenants`: a sorted copy of the list, a permutation of it with vacant tenants last. */
    function SortedTenants(): (r: seq<Tenant>)
      reads this
      ensures multiset(r) == multiset(tenants) && VacantLast(r)
      ensures NumericRooms(tenants) ==> Ascending(r)
      ensures TextRooms(tenants) ==> TextAscending(r)
    {
      CompareOrdersRooms();
      CompareFallsBackToText();
      SortPermutation(tenants, Compare);
      SortVacantLast(tenants, Compare);
      SortNumericAscending(tenants, Compare);
      SortTextAscending(tenants, Compare);
      Sort(tenants)
    }

    /** `fetchTenants`: the rows replace the list when the read succeeds; either way loading ends. */
    method FetchTenants(response: Response<seq<Tenant>>)
      modifies this`tenants, this`loading
      ensures tenants == if response.Data? then response.rows else old(tenants)
      ensures !loading
    {
      loading := true;
      if response.Data? {
        tenants := response.rows;
      }
      loading := false;
    }

    /** `fetchAvailableRooms`: the occupied ids (none when that read fails), then the rooms query,
        filtered only when some id is occupied; a failed rooms read leaves the list as it was. */
    method FetchAvailableRooms(occupied: Response<seq<Option<int>>>, rooms: Response<seq<Room>>)
      modifies this`availableRooms
      ensures availableRooms ==
        if rooms.Data? then Vacancy.VacantRooms(rooms.rows, if occupied.Data? then occupied.rows else [])
        else old(availableRooms)
    {
      var occupiedIds := if occupied.Data? then Vacancy.OccupiedIds(occupied.rows) else [];
      if rooms.Data? {
        var data := rooms.rows;
        if |occupiedIds| > 0 {
          data := Vacancy.ExcludeRooms(data, occupiedIds);
        } else {
          Vacancy.ExcludeNothing(data);
        }
        availableRooms := data;
      }
    }

    /** The "+ Add Tenant" button. */
    method OpenForm()
      modifies this`showForm
      ensures showForm
    {
      showForm := true;
    }

    /** The form's "Cancel" button: the form closes and keeps what was typed. */
    method CancelForm()
      modifies this`showForm
      ensures !showForm
    {
      showForm := false;
    }

    /** An edit of the form's fields. The form has inputs for every field but the address, which
        therefore stays as it was (blank). */
    method EditForm(f: TenantForm)
      modifies this`newTenant
      ensures newTenant == f.(address := old(newTenant.address))
    {
      newTenant := f.(address := newTenant.address);
    }

    /** `addTenant`: nothing happens without a name; otherwise the normalised row is inserted, and
        only a successful insert resets the form to blank and closes it. (The refresh that follows
        is `FetchTenants` and `FetchAvailableRooms` with the new reads.) */
    method AddTenant(db: Store.Database, insertOk: bool)
      requires db.Valid()
      modifies this`newTenant, this`showForm, db`tenants, db`nextId
      ensures db.Valid()
      ensures old(newTenant.name) == "" ==>
        newTenant == old(newTenant) && showForm == old(showForm)
        && db.tenants == old(db.tenants) && db.nextId == old(db.nextId)
      ensures old(newTenant.name) != "" ==>
        && db.tenants == (if insertOk then old(db.tenants) + [TenantRecord(old(db.nextId), InsertRow(old(newTenant)))]
                          else old(db.tenants))
        && db.nextId == old(db.nextId) + (if insertOk then 1 else 0)
      ensures old(newTenant.name) != "" && insertOk ==> newTenant == BlankForm && !showForm
      ensures !insertOk ==> newTenant == old(newTenant) && showForm == old(showForm)
    {
      if newTenant.name == "" {
        return;
      }
      db.InsertTenant(InsertRow(newTenant), insertOk);
      if insertOk {
        newTenant := BlankForm;
        showForm := false;
      }
    }

    /** The "No tenants found" row: it shows once loading is over and the list is empty, which is
        exactly when the table renders no tenant row. */
    function ShowsEmptyNotice(): (r: bool)
      reads this
      ensures r <==> !loading && SortedTenants() == []
    {
      !loading && |tenants| == 0
    }

    /** `deleteTenant`: the delete goes out and its outcome is not looked at; the screen's state is
        untouched until the refresh reads come back. */
    method DeleteTenant(db: Store.Database, id: int, deleteOk: bool)
      modifies db`tenants
      ensures db.tenants == if deleteOk then Store.RemoveTenant(old(db.tenants), id) else old(db.tenants)
    {
      db.DeleteTenant(id, deleteOk);
    }
  }
}
