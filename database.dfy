/**
 * The persistence gateway (src/bd.ts): the "tracked" collection as an
 * in-memory table of records in stored (natural) order. Each query of the
 * gateway is given its table semantics: `findOne`, `updateOne` and
 * `deleteOne` act on the first record whose key matches, `insertOne`
 * appends, and `find` keeps the stored order.
 */
module Database {
  import opened Wrappers
  import opened Records

  // ---------------------------------------------------------------------
  // Table semantics of the queries
  // ---------------------------------------------------------------------

  /** The filter `{ uuid: uuid, id: id }` accepts the record. */
  predicate HasKey(t: Tracking, uuid: string, id: int)
  {
    t.uuid == uuid && t.id == id
  }

  /** The position of the record `findOne({ uuid, id })` returns, if any. */
  function FindIndex(table: seq<Tracking>, uuid: string, id: int): (r: Option<nat>)
    ensures r.Some? ==> r.value < |table| && HasKey(table[r.value], uuid, id)
    ensures r.Some? ==> forall j :: 0 <= j < r.value ==> !HasKey(table[j], uuid, id)
    ensures r.None? <==> forall j :: 0 <= j < |table| ==> !HasKey(table[j], uuid, id)
    decreases |table|
  {
    if table == [] then None
    else if HasKey(table[0], uuid, id) then Some(0)
    else match FindIndex(table[1..], uuid, id) {
      case None => None
      case Some(k) => Some(k + 1)
    }
  }

  /**
   * At most one record per (uuid, id) pair. The source does not enforce it,
   * but every write, each run to completion, keeps it: see the
   * `...KeepsKeysUnique` lemmas here and in the bot and polling modules.
   */
  predicate UniqueKeys(table: seq<Tracking>)
  {
    forall i, j :: 0 <= i < j < |table| ==> !HasKey(table[j], table[i].uuid, table[i].id)
  }

  /** `insertTrackedItem`: set `wantedPrice` on the existing record, or append the new one. */
  function Upsert(table: seq<Tracking>, item: Tracking): seq<Tracking>
  {
    match FindIndex(table, item.uuid, item.id)
    case Some(k) => table[k := table[k].(wantedPrice := item.wantedPrice)]
    case None => table + [item]
  }

  /** `updateTrackedWithNotificacion`: overwrite the snapshot on the matching record; no upsert. */
  function SetNotification(table: seq<Tracking>, uuid: string, id: int, price: int, mapCoords: string): seq<Tracking>
  {
    match FindIndex(table, uuid, id)
    case Some(k) => table[k := table[k].(lastNotification := Some(Notification(price, mapCoords)))]
    case None => table
  }

  /** `updateTrackedItemName`: set `itemName` on the matching record. */
  function SetItemName(table: seq<Tracking>, id: int, uuid: string, itemName: string): seq<Tracking>
  {
    match FindIndex(table, uuid, id)
    case Some(k) => table[k := table[k].(itemName := Some(itemName))]
    case None => table
  }

  /** What `checkIfAlertWasSent` answers on the table. */
  function AlertWasSent(table: seq<Tracking>, uuid: string, id: int, price: int, mapCoords: string): bool
  {
    match FindIndex(table, uuid, id)
    case None => false
    case Some(k) =>
      table[k].lastNotification.Some? &&
      table[k].lastNotification.value.price == price &&
      table[k].lastNotification.value.mapCoords == mapCoords
  }

  /** `deleteTrackedItem`: remove the matching record, if any. */
  function DeleteOne(table: seq<Tracking>, id: int, uuid: string): seq<Tracking>
  {
    match FindIndex(table, uuid, id)
    case Some(k) => table[..k] + table[k + 1..]
    case None => table
  }

  /** `find({ uuid })`: the records of one user, in stored order. */
  function ForUser(table: seq<Tracking>, uuid: string): seq<Tracking>
    decreases |table|
  {
    if table == [] then []
    else (if table[0].uuid == uuid then [table[0]] else []) + ForUser(table[1..], uuid)
  }

  // ---------------------------------------------------------------------
  // The gateway
  // ---------------------------------------------------------------------

  datatype InsertResult = Updated | Inserted

  /**
   * `BDService`, with the collection held as a table. The fail-soft
   * `catch` branches are not modelled: every query succeeds.
   */
  class BDService {
    var table: seq<Tracking>

    constructor (initial: seq<Tracking>)
      ensures table == initial
    {
      table := initial;
    }

    /** `obtainTrackedItems`: every record. */
    method ObtainTrackedItems() returns (items: seq<Tracking>)
      ensures items == table
    {
      items := table;
    }

    /** `insertTrackedItem`: `findOne` by key, then `updateOne` of the price or `insertOne`. */
    method InsertTrackedItem(item: Tracking) returns (result: InsertResult)
      modifies this
      ensures table == Upsert(old(table), item)
      ensures result == Updated <==> FindIndex(old(table), item.uuid, item.id).Some?
    {
      var existing := FindIndex(table, item.uuid, item.id);
      if existing.Some? {
        var k := existing.value;
        table := table[k := table[k].(wantedPrice := item.wantedPrice)];
        result := Updated;
      } else {
        table := table + [item];
        result := Inserted;
      }
    }

    /** `updateTrackedWithNotificacion`; `matched` is the update's matched count being one. */
    method UpdateTrackedWithNotification(price: int, mapCoords: string, uuid: string, id: int)
      returns (matched: bool)
      modifies this
      ensures table == SetNotification(old(table), uuid, id, price, mapCoords)
      ensures matched <==> FindIndex(old(table), uuid, id).Some?
    {
      var k := FindIndex(table, uuid, id);
      matched := k.Some?;
      if matched {
        table := table[k.value := table[k.value].(lastNotification := Some(Notification(price, mapCoords)))];
      }
    }

    /** `updateTrackedItemName`: always answers true. */
    method UpdateTrackedItemName(id: int, uuid: string, itemName: string) returns (ok: bool)
      modifies this
      ensures table == SetItemName(old(table), id, uuid, itemName)
      ensures ok
    {
      var k := FindIndex(table, uuid, id);
      if k.Some? {
        table := table[k.value := table[k.value].(itemName := Some(itemName))];
      }
      ok := true;
    }

    /** `checkIfAlertWasSent`: the stored snapshot equals (price, mapCoords) exactly. */
    method CheckIfAlertWasSent(uuid: string, id: int, currentLowerPrice: int, mapCoords: string)
      returns (sent: bool)
      ensures sent == AlertWasSent(table, uuid, id, currentLowerPrice, mapCoords)
      ensures sent ==> exists j :: (0 <= j < |table| && HasKey(table[j], uuid, id) &&
        table[j].lastNotification == Some(Notification(currentLowerPrice, mapCoords)))
    {
      var k := FindIndex(table, uuid, id);
      if k.None? {
        return false;
      }
      var item := table[k.value];
      sent := item.lastNotification.Some? &&
        item.lastNotification.value.price == currentLowerPrice &&
        item.lastNotification.value.mapCoords == mapCoords;
    }

    /** `deleteTrackedItem`: always answers true, also when nothing matched. */
    method DeleteTrackedItem(id: int, uuid: string) returns (ok: bool)
      modifies this
      ensures table == DeleteOne(old(table), id, uuid)
      ensures ok
    {
      var k := FindIndex(table, uuid, id);
      if k.Some? {
        table := table[..k.value] + table[k.value + 1..];
      }
      ok := true;
    }

    /** `getTrackedItems`: the records of one user. */
    method GetTrackedItems(uuid: string) returns (items: seq<Tracking>)
      ensures items == ForUser(table, uuid)
    {
      items := ForUser(table, uuid);
    }
  }

  // ---------------------------------------------------------------------
  // Properties of the queries
  // ---------------------------------------------------------------------

  /** Under unique keys, the first match is the only one. */
  lemma {:induction false} OnlyMatch(table: seq<Tracking>, uuid: string, id: int, j: nat)
    requires UniqueKeys(table)
    requires j < |table| && HasKey(table[j], uuid, id)
    ensures FindIndex(table, uuid, id) == Some(j)
  {
  }

  /**
   * Tracking an existing pair again changes its threshold only: the number
   * of records, every other record, and the name and last notification of
   * the matching record stay as they were.
   */
  lemma {:induction false} UpsertExisting(table: seq<Tracking>, item: Tracking)
    requires FindIndex(table, item.uuid, item.id).Some?
    ensures var r, k := Upsert(table, item), FindIndex(table, item.uuid, item.id).value;
      |r| == |table| &&
      r[k].wantedPrice == item.wantedPrice &&
      r[k].itemName == table[k].itemName &&
      r[k].lastNotification == table[k].lastNotification &&
      r[k].uuid == table[k].uuid && r[k].id == table[k].id &&
      forall j :: 0 <= j < |r| && j != k ==> r[j] == table[j]
  {
  }

  /** Tracking a new pair appends the given record. */
  lemma {:induction false} UpsertAbsent(table: seq<Tracking>, item: Tracking)
    requires forall j :: 0 <= j < |table| ==> !HasKey(table[j], item.uuid, item.id)
    ensures Upsert(table, item) == table + [item]
  {
  }

  /**
   * After an upsert exactly one record has the key (when keys were unique
   * before), it holds the new threshold, and keys stay unique.
   */
  lemma {:induction false} UpsertKeepsKeysUnique(table: seq<Tracking>, item: Tracking)
    requires UniqueKeys(table)
    ensures var r := Upsert(table, item);
      UniqueKeys(r) &&
      (exists k :: 0 <= k < |r| && HasKey(r[k], item.uuid, item.id)) &&
      forall k :: 0 <= k < |r| && HasKey(r[k], item.uuid, item.id) ==> r[k].wantedPrice == item.wantedPrice
  {
    var r := Upsert(table, item);
    match FindIndex(table, item.uuid, item.id)
    case Some(k) => {
      assert HasKey(r[k], item.uuid, item.id);
      forall j | 0 <= j < |r| && HasKey(r[j], item.uuid, item.id) ensures r[j].wantedPrice == item.wantedPrice {
        OnlyMatch(table, item.uuid, item.id, j);
      }
      assert UniqueKeys(r) by {
        forall i, j | 0 <= i < j < |r| ensures !HasKey(r[j], r[i].uuid, r[i].id) {
          assert !HasKey(table[j], table[i].uuid, table[i].id);
        }
      }
    }
    case None => {
      assert HasKey(r[|table|], item.uuid, item.id);
    }
  }

  /**
   * Tracking the same pair twice: one record holds the pair, with the
   * threshold of the second call, and the second call keeps the name and
   * last notification the first left.
   */
  lemma {:induction false} TrackTwice(table: seq<Tracking>, first: Tracking, second: Tracking)
    requires UniqueKeys(table)
    requires second.uuid == first.uuid && second.id == first.id
    ensures var t1 := Upsert(table, first); var t2 := Upsert(t1, second);
      |t2| == |t1| &&
      exists k :: 0 <= k < |t2| && HasKey(t2[k], first.uuid, first.id) &&
        t2[k].wantedPrice == second.wantedPrice &&
        t2[k].itemName == t1[k].itemName &&
        t2[k].lastNotification == t1[k].lastNotification &&
        forall j :: 0 <= j < |t2| && j != k ==> !HasKey(t2[j], first.uuid, first.id)
  {
    var t1 := Upsert(table, first);
    UpsertKeepsKeysUnique(table, first);
    UpsertKeepsKeysUnique(t1, second);
    var k :| 0 <= k < |t1| && HasKey(t1[k], first.uuid, first.id);
    OnlyMatch(t1, first.uuid, first.id, k);
    UpsertExisting(t1, second);
    var t2 := Upsert(t1, second);
    forall j | 0 <= j < |t2| && j != k ensures !HasKey(t2[j], first.uuid, first.id) {
      assert t2[j] == t1[j];
      assert k < j ==> !HasKey(t1[j], t1[k].uuid, t1[k].id);
      assert j < k ==> !HasKey(t1[k], t1[j].uuid, t1[j].id);
    }
  }

  /**
   * The snapshot write changes the `lastNotification` of the matching
   * record and nothing else; with no matching record it creates nothing.
   */
  lemma {:induction false} SetNotificationFrame(table: seq<Tracking>, uuid: string, id: int, price: int, mapCoords: string)
    ensures var r := SetNotification(table, uuid, id, price, mapCoords);
      |r| == |table| &&
      forall j :: 0 <= j < |r| ==>
        r[j] == table[j] ||
        (HasKey(table[j], uuid, id) && r[j] == table[j].(lastNotification := Some(Notification(price, mapCoords))))
    ensures (forall j :: 0 <= j < |table| ==> !HasKey(table[j], uuid, id)) ==>
      SetNotification(table, uuid, id, price, mapCoords) == table
  {
  }

  /** Right after the snapshot write on an existing record, the same alert counts as sent. */
  lemma {:induction false} NotifiedThenAlertWasSent(table: seq<Tracking>, uuid: string, id: int, price: int, mapCoords: string)
    requires exists j :: 0 <= j < |table| && HasKey(table[j], uuid, id)
    ensures AlertWasSent(SetNotification(table, uuid, id, price, mapCoords), uuid, id, price, mapCoords)
  {
    var k := FindIndex(table, uuid, id).value;
    var r := SetNotification(table, uuid, id, price, mapCoords);
    assert |r| == |table| && HasKey(r[k], uuid, id);
    assert forall j :: 0 <= j < k ==> r[j] == table[j];
    assert FindIndex(r, uuid, id) == Some(k);
  }

  /**
   * Under unique keys, an alert counts as sent exactly when some record with
   * the key holds the very same snapshot; no record means no alert sent.
   */
  lemma {:induction false} AlertWasSentExactly(table: seq<Tracking>, uuid: string, id: int, price: int, mapCoords: string)
    requires UniqueKeys(table)
    ensures AlertWasSent(table, uuid, id, price, mapCoords) <==>
      exists j :: (0 <= j < |table| && HasKey(table[j], uuid, id) &&
        table[j].lastNotification == Some(Notification(price, mapCoords)))
    ensures (forall j :: 0 <= j < |table| ==> !HasKey(table[j], uuid, id)) ==>
      !AlertWasSent(table, uuid, id, price, mapCoords)
  {
    if j :| (0 <= j < |table| && HasKey(table[j], uuid, id) &&
             table[j].lastNotification == Some(Notification(price, mapCoords))) {
      OnlyMatch(table, uuid, id, j);
    }
  }

  /** The name write sets `itemName` on the matching record and changes nothing else. */
  lemma {:induction false} SetItemNameFrame(table: seq<Tracking>, id: int, uuid: string, itemName: string)
    ensures var r := SetItemName(table, id, uuid, itemName);
      |r| == |table| &&
      forall j :: 0 <= j < |r| ==>
        r[j] == table[j] || (HasKey(table[j], uuid, id) && r[j] == table[j].(itemName := Some(itemName)))
    ensures FindIndex(table, uuid, id).Some? ==>
      var k := FindIndex(table, uuid, id).value;
      SetItemName(table, id, uuid, itemName)[k].itemName == Some(itemName)
  {
  }

  /** The snapshot write keeps every key, so unique keys stay unique. */
  lemma {:induction false} SetNotificationKeepsKeysUnique(table: seq<Tracking>, uuid: string, id: int, price: int, mapCoords: string)
    requires UniqueKeys(table)
    ensures UniqueKeys(SetNotification(table, uuid, id, price, mapCoords))
  {
    SetNotificationFrame(table, uuid, id, price, mapCoords);
    var r := SetNotification(table, uuid, id, price, mapCoords);
    assert forall j :: 0 <= j < |r| ==> r[j].uuid == table[j].uuid && r[j].id == table[j].id;
  }

  /** The name write keeps every key, so unique keys stay unique. */
  lemma {:induction false} SetItemNameKeepsKeysUnique(table: seq<Tracking>, id: int, uuid: string, itemName: string)
    requires UniqueKeys(table)
    ensures UniqueKeys(SetItemName(table, id, uuid, itemName))
  {
    SetItemNameFrame(table, id, uuid, itemName);
    var r := SetItemName(table, id, uuid, itemName);
    assert forall j :: 0 <= j < |r| ==> r[j].uuid == table[j].uuid && r[j].id == table[j].id;
  }

  /** The records that do not have the key, in stored order. */
  function WithoutKey(table: seq<Tracking>, uuid: string, id: int): seq<Tracking>
    decreases |table|
  {
    if table == [] then []
    else (if HasKey(table[0], uuid, id) then [] else [table[0]]) + WithoutKey(table[1..], uuid, id)
  }

  lemma {:induction false} WithoutKeyAbsent(table: seq<Tracking>, uuid: string, id: int)
    requires forall j :: 0 <= j < |table| ==> !HasKey(table[j], uuid, id)
    ensures WithoutKey(table, uuid, id) == table
    decreases |table|
  {
    if table != [] {
      WithoutKeyAbsent(table[1..], uuid, id);
      assert table == [table[0]] + table[1..];
    }
  }

  /**
   * Deleting a pair under unique keys leaves exactly the other records, in
   * their order; deleting an absent pair changes nothing.
   */
  lemma {:induction false} DeleteOneRemovesKey(table: seq<Tracking>, id: int, uuid: string)
    requires UniqueKeys(table)
    ensures DeleteOne(table, id, uuid) == WithoutKey(table, uuid, id)
    decreases |table|
  {
    if table != [] {
      var rest := table[1..];
      assert UniqueKeys(rest) by {
        forall i, j | 0 <= i < j < |rest| ensures !HasKey(rest[j], rest[i].uuid, rest[i].id) {
          assert rest[i] == table[i + 1] && rest[j] == table[j + 1];
        }
      }
      if HasKey(table[0], uuid, id) {
        forall j | 0 <= j < |rest| ensures !HasKey(rest[j], uuid, id) {
          assert rest[j] == table[j + 1];
        }
        WithoutKeyAbsent(rest, uuid, id);
        assert table[..0] + table[1..] == rest;
      } else {
        DeleteOneRemovesKey(rest, id, uuid);
        match FindIndex(rest, uuid, id)
        case Some(k) => {
          assert table[..k + 1] == [table[0]] + rest[..k];
          assert table[k + 2..] == rest[k + 1..];
        }
        case None => {}
      }
    }
  }

  /** Removing one record keeps unique keys unique. */
  lemma {:induction false} RemoveAtKeepsKeysUnique(table: seq<Tracking>, k: nat)
    requires UniqueKeys(table) && k < |table|
    ensures UniqueKeys(table[..k] + table[k + 1..])
  {
    var r := table[..k] + table[k + 1..];
    assert forall j :: 0 <= j < |r| ==> r[j] == if j < k then table[j] else table[j + 1];
    forall i, j | 0 <= i < j < |r| ensures !HasKey(r[j], r[i].uuid, r[i].id) {
      var i', j' := if i < k then i else i + 1, if j < k then j else j + 1;
      assert !HasKey(table[j'], table[i'].uuid, table[i'].id);
    }
  }

  /** After deleting a pair under unique keys, no record has it, and keys stay unique. */
  lemma {:induction false} DeleteOneLeavesNoMatch(table: seq<Tracking>, id: int, uuid: string)
    requires UniqueKeys(table)
    ensures var r := DeleteOne(table, id, uuid);
      UniqueKeys(r) && forall j :: 0 <= j < |r| ==> !HasKey(r[j], uuid, id)
  {
    match FindIndex(table, uuid, id)
    case Some(k) => {
      var r := table[..k] + table[k + 1..];
      assert DeleteOne(table, id, uuid) == r;
      RemoveAtKeepsKeysUnique(table, k);
      forall j | 0 <= j < |r| ensures !HasKey(r[j], uuid, id) {
        var j' := if j < k then j else j + 1;
        assert r[j] == table[j'];
        if j' > k {
          assert !HasKey(table[j'], table[k].uuid, table[k].id);
        }
      }
    }
    case None => {}
  }

  /** `find({ uuid })` returns exactly the user's records: every one of them and nothing else. */
  lemma {:induction false} ForUserExactly(table: seq<Tracking>, uuid: string)
    ensures forall x :: x in ForUser(table, uuid) <==> x in table && x.uuid == uuid
    ensures |ForUser(table, uuid)| <= |table|
    decreases |table|
  {
    if table != [] {
      ForUserExactly(table[1..], uuid);
      assert table == [table[0]] + table[1..];
    }
  }

  /** `find({ uuid })` keeps the stored order: filtering distributes over concatenation. */
  lemma {:induction false} ForUserAppend(a: seq<Tracking>, b: seq<Tracking>, uuid: string)
    ensures ForUser(a + b, uuid) == ForUser(a, uuid) + ForUser(b, uuid)
    decreases |a|
  {
    if a == [] {
      assert a + b == b;
    } else {
      assert (a + b)[0] == a[0];
      assert (a + b)[1..] == a[1..] + b;
      ForUserAppend(a[1..], b, uuid);
    }
  }

  /** Writes to one user's record leave every other user's records as they were. */
  lemma {:induction false} ForUserUpdateOther(table: seq<Tracking>, k: nat, x: Tracking, uuid: string)
    requires k < |table| && table[k].uuid != uuid && x.uuid != uuid
    ensures ForUser(table[k := x], uuid) == ForUser(table, uuid)
    decreases |table|
  {
    if k > 0 {
      ForUserUpdateOther(table[1..], k - 1, x, uuid);
      assert table[k := x][1..] == table[1..][k - 1 := x];
    } else {
      assert table[k := x][1..] == table[1..];
    }
  }

  lemma {:induction false} ForUserDeleteOther(table: seq<Tracking>, k: nat, uuid: string)
    requires k < |table| && table[k].uuid != uuid
    ensures ForUser(table[..k] + table[k + 1..], uuid) == ForUser(table, uuid)
  {
    assert table == table[..k] + ([table[k]] + table[k + 1..]);
    ForUserAppend(table[..k], [table[k]] + table[k + 1..], uuid);
    ForUserAppend(table[..k], table[k + 1..], uuid);
    ForUserAppend([table[k]], table[k + 1..], uuid);
    assert ForUser([table[k]], uuid) == [] + ForUser([], uuid);
  }
}
