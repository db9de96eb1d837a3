/**
 * The item helpers: create an item for a user, list a user's items newest
 * first, and update or delete an item addressed by an id string that is read
 * with `parseInt(idString, 10)`.
 */
module CrudItems {
  import opened Wrappers
  import opened Store
  import opened Seqs
  import opened Http
  import opened JsString

  /**
   * `createCrudItem(userId, value)` with its random `txHash` and the clock's
   * `now` supplied. A value that is not a number is refused by Prisma before
   * anything is written; an item whose user does not exist violates the
   * foreign key. Otherwise the item gets the next autoincrement id.
   */
  function Create(t: Tables, userId: string, value: Json, txHash: string, now: nat): (r: Step<Result<Item, DbError>>)
    ensures r.out.Ok? <==> value.Num? && HasUser(t.users, userId)
    ensures r.out.Err? ==> r.db == t
    ensures !value.Num? ==> r.out == Err(ValidationError)
    ensures value.Num? && !HasUser(t.users, userId) ==> r.out == Err(ForeignKeyViolation)
    ensures r.db == t.(items := r.db.items, nextItemId := r.db.nextItemId)
    ensures r.out.Ok? ==>
      var it := r.out.value;
      && it == Item(t.nextItemId, userId, value.n, txHash, now)
      && r.db.items == t.items + [it]
      && r.db.nextItemId == t.nextItemId + 1
  {
    if !value.Num? then Step(Err(ValidationError), t)
    else if !HasUser(t.users, userId) then Step(Err(ForeignKeyViolation), t)
    else
      var it := Item(t.nextItemId, userId, value.n, txHash, now);
      Step(Ok(it), t.(items := t.items + [it], nextItemId := t.nextItemId + 1))
  }

  /** A created item's id was not in use: no item already has it. */
  lemma CreateFreshId(t: Tables, userId: string, value: Json, txHash: string, now: nat)
    requires WellFormed(t) && Create(t, userId, value, txHash, now).out.Ok?
    ensures FindItem(t.items, Create(t, userId, value, txHash, now).out.value.id).None?
    ensures WellFormed(Create(t, userId, value, txHash, now).db)
  {
    var r := Create(t, userId, value, txHash, now);
    var s := r.db.items;
    assert forall i | 0 <= i < |t.items| :: s[i] == t.items[i];
  }

  method CreateCrudItem(db: Database, userId: string, value: Json, txHash: string, now: nat) returns (r: Result<Item, DbError>)
    modifies db
    ensures Step(r, db.State()) == Create(old(db.State()), userId, value, txHash, now)
    ensures old(db.Valid()) ==> db.Valid()
  {
    ghost var before := db.State();
    if !value.Num? {
      return Err(ValidationError);
    }
    if FindUser(db.users, Id, userId).None? {
      return Err(ForeignKeyViolation);
    }
    var item := Item(db.nextItemId, userId, value.n, txHash, now);
    db.items := db.items + [item];
    db.nextItemId := db.nextItemId + 1;
    r := Ok(item);
    if WellFormed(before) {
      CreateFreshId(before, userId, value, txHash, now);
    }
  }

  function CreatedAt(it: Item): int { it.createdAt }

  /**
   * `getCrudItemsByUserId(userId)`: exactly the user's items, each as often as
   * it is stored, newest first.
   */
  function ItemsByUser(items: seq<Item>, userId: string): (r: seq<Item>)
    ensures forall it :: multiset(r)[it] == if it.userId == userId then multiset(items)[it] else 0
    ensures forall i, j | 0 <= i < j < |r| :: r[i].createdAt >= r[j].createdAt
  {
    var mine := Filter(items, (it: Item) => it.userId == userId);
    var r := SortDesc(mine, CreatedAt);
    assert SortedDesc(r, CreatedAt);
    r
  }

  /** An item is listed for a user exactly when it is stored and belongs to that user. */
  lemma ItemsByUserMembers(items: seq<Item>, userId: string, it: Item)
    ensures it in ItemsByUser(items, userId) <==> it in items && it.userId == userId
  {
    var r := ItemsByUser(items, userId);
    assert it in r <==> multiset(r)[it] > 0;
    assert it in items <==> multiset(items)[it] > 0;
  }

  /**
   * `updateCrudItem(idString, value)`: an id string `parseInt` cannot read is
   * `Invalid item ID`; an id outside the 32-bit range of the column, or a
   * value that is neither a number nor `undefined`, is refused by Prisma; a missing item is P2025. Otherwise only the item's value
   * changes, and with an `undefined` value Prisma leaves the field out of the
   * update, so nothing changes. The item is addressed by id alone: its owner
   * is not consulted.
   */
  function UpdateValue(t: Tables, idString: string, value: Json): (r: Step<Result<Item, DbError>>)
    ensures r.out.Err? ==> r.db == t
    ensures ParseInt(idString).None? ==> r.out == Err(InvalidItemId)
    ensures ParseInt(idString).Some? && !InInt32(ParseInt(idString).value) ==> r.out == Err(ValidationError)
    ensures ParseInt(idString).Some? && !value.Num? && !value.Undefined? ==> r.out == Err(ValidationError)
    ensures r.out.Ok? <==>
      && ParseInt(idString).Some? && InInt32(ParseInt(idString).value)
      && (value.Num? || value.Undefined?) && FindItem(t.items, ParseInt(idString).value).Some?
    ensures r.db == t.(items := r.db.items) && |r.db.items| == |t.items|
    ensures r.out.Ok? ==>
      exists k | 0 <= k < |t.items| ::
        && t.items[k].id == ParseInt(idString).value
        && r.out.value == (if value.Num? then t.items[k].(value := value.n) else t.items[k])
        && r.db.items == t.items[k := r.out.value]
    ensures value.Undefined? ==> r.db == t
  {
    match ParseInt(idString)
    case None => Step(Err(InvalidItemId), t)
    case Some(id) =>
      if !InInt32(id) || (!value.Num? && !value.Undefined?) then Step(Err(ValidationError), t)
      else match FindItem(t.items, id)
        case None => Step(Err(RecordNotFound), t)
        case Some(k) =>
          var it := if value.Num? then t.items[k].(value := value.n) else t.items[k];
          Step(Ok(it), t.(items := t.items[k := it]))
  }

  lemma UpdateKeepsWellFormed(t: Tables, idString: string, value: Json)
    requires WellFormed(t)
    ensures WellFormed(UpdateValue(t, idString, value).db)
  {
  }

  /** Text after the number in the id is ignored: `"12abc"` addresses item 12. */
  lemma UpdateIgnoresTrailingText(t: Tables, n: nat, rest: string, value: Json)
    requires rest == [] || !IsDigit(rest[0])
    ensures UpdateValue(t, ToDecimal(n) + rest, value) == UpdateValue(t, ToDecimal(n), value)
  {
    ParseDecimal(n, rest);
    ParseDecimal(n, []);
    assert ToDecimal(n) + [] == ToDecimal(n);
  }

  method UpdateCrudItem(db: Database, idString: string, value: Json) returns (r: Result<Item, DbError>)
    modifies db
    ensures Step(r, db.State()) == UpdateValue(old(db.State()), idString, value)
    ensures old(db.Valid()) ==> db.Valid()
  {
    ghost var before := db.State();
    var id := ParseInt(idString);
    if id.None? {
      return Err(InvalidItemId);
    }
    if !InInt32(id.value) || (!value.Num? && !value.Undefined?) {
      return Err(ValidationError);
    }
    var found := FindItem(db.items, id.value);
    if found.None? {
      return Err(RecordNotFound);
    }
    var k := found.value;
    var updated := if value.Num? then db.items[k].(value := value.n) else db.items[k];
    db.items := db.items[k := updated];
    r := Ok(updated);
    if WellFormed(before) {
      UpdateKeepsWellFormed(before, idString, value);
    }
  }

  /** `items` without the row at index `k`. */
  function RemoveAt(items: seq<Item>, k: nat): (r: seq<Item>)
    requires k < |items|
    ensures |r| == |items| - 1
    ensures multiset(r) == multiset(items) - multiset{items[k]}
  {
    assert items == items[..k] + [items[k]] + items[k + 1..];
    items[..k] + items[k + 1..]
  }

  /**
   * `deleteCrudItem(idString)`: an unreadable id rethrows `Invalid item ID`;
   * an id outside the 32-bit range of the column is refused by Prisma and
   * rethrown; a missing item (P2025) is caught and reported as `false`;
   * otherwise the item is removed and the result is `true`.
   */
  function Delete(t: Tables, idString: string): (r: Step<Result<bool, DbError>>)
    ensures r.out.Err? <==> ParseInt(idString).None? || !InInt32(ParseInt(idString).value)
    ensures ParseInt(idString).None? ==> r.out == Err(InvalidItemId)
    ensures ParseInt(idString).Some? && !InInt32(ParseInt(idString).value) ==> r.out == Err(ValidationError)
    ensures r.out != Ok(true) ==> r.db == t
    ensures r.out == Ok(true) <==>
      ParseInt(idString).Some? && InInt32(ParseInt(idString).value) && FindItem(t.items, ParseInt(idString).value).Some?
    ensures r.db == t.(items := r.db.items)
    ensures r.out == Ok(true) ==>
      exists k | 0 <= k < |t.items| ::
        && t.items[k].id == ParseInt(idString).value
        && r.db.items == t.items[..k] + t.items[k + 1..]
  {
    match ParseInt(idString)
    case None => Step(Err(InvalidItemId), t)
    case Some(id) =>
      if !InInt32(id) then Step(Err(ValidationError), t)
      else match FindItem(t.items, id)
      case None => Step(Ok(false), t)
      case Some(k) => Step(Ok(true), t.(items := RemoveAt(t.items, k)))
  }

  /** After a delete that succeeded no item has that id, and the database stays well formed. */
  lemma DeleteRemovesId(t: Tables, idString: string)
    requires WellFormed(t) && Delete(t, idString).out == Ok(true)
    ensures FindItem(Delete(t, idString).db.items, ParseInt(idString).value).None?
    ensures WellFormed(Delete(t, idString).db)
  {
    var id := ParseInt(idString).value;
    var k := FindItem(t.items, id).value;
    assert Delete(t, idString) == Step(Ok(true), t.(items := RemoveAt(t.items, k)));
    RemoveAtKeepsWellFormed(t, k);
  }

  /** Removing one row keeps the item constraints, and no remaining row has its id. */
  lemma RemoveAtKeepsWellFormed(t: Tables, k: nat)
    requires WellFormed(t) && k < |t.items|
    ensures WellFormed(t.(items := RemoveAt(t.items, k)))
    ensures FindItem(RemoveAt(t.items, k), t.items[k].id).None?
  {
    var s := RemoveAt(t.items, k);
    forall j | 0 <= j < |s| ensures s[j] == t.items[if j < k then j else j + 1] {
    }
  }

  /** Deleting the same id twice: the second delete finds nothing and reports `false`. */
  lemma DeleteTwice(t: Tables, idString: string)
    requires WellFormed(t) && Delete(t, idString).out == Ok(true)
    ensures Delete(Delete(t, idString).db, idString) == Step(Ok(false), Delete(t, idString).db)
  {
    DeleteRemovesId(t, idString);
  }

  /** Text after the number in the id is ignored for deletes too. */
  lemma DeleteIgnoresTrailingText(t: Tables, n: nat, rest: string)
    requires rest == [] || !IsDigit(rest[0])
    ensures Delete(t, ToDecimal(n) + rest) == Delete(t, ToDecimal(n))
  {
    ParseDecimal(n, rest);
    ParseDecimal(n, []);
    assert ToDecimal(n) + [] == ToDecimal(n);
  }

  method DeleteCrudItem(db: Database, idString: string) returns (r: Result<bool, DbError>)
    modifies db
    ensures Step(r, db.State()) == Delete(old(db.State()), idString)
    ensures old(db.Valid()) ==> db.Valid()
  {
    ghost var before := db.State();
    var id := ParseInt(idString);
    if id.None? {
      return Err(InvalidItemId);
    }
    if !InInt32(id.value) {
      return Err(ValidationError);
    }
    var found := FindItem(db.items, id.value);
    if found.None? {
      return Ok(false);
    }
    db.items := RemoveAt(db.items, found.value);
    r := Ok(true);
    if WellFormed(before) {
      DeleteRemovesId(before, idString);
    }
  }
}
