/**
 * repository/repositories/item-repository.go over in-memory tables: items and
 * item_comments keyed by their serial ids. Every per-item query is scoped by owner
 * (WHERE id = $1 AND user_id = $2).
 */
module ItemStore {
  import opened Wrappers
  import opened Errors
  import opened Models

  /** The nil sold price of a scanned row is reported as 0. */
  function WithSoldPrice(item: Item): Item {
    if item.soldPrice.None? then item.(soldPrice := Some(0.0)) else item
  }

  /** What UpdateItem returns when no row matched: Go's zero Item with its sold price patched to 0. */
  const ZeroItem := Item(0, 0, "", 0.0, Some(0.0), None)

  /** The row stored under id belongs to userId (the WHERE id = .. AND user_id = .. clause). */
  predicate Owns(items: map<int, Item>, id: int, userId: int) {
    id in items && items[id].userId == userId
  }

  /**
   * UPDATE items SET user_id, title, initial_price, description WHERE id = $5 AND
   * user_id = $6 RETURNING *: the new table and the row handed back.
   */
  function UpdateRow(items: map<int, Item>, id: int, src: Item, userId: int): (r: (map<int, Item>, Item))
    ensures r.0.Keys == items.Keys
    ensures forall k :: k in items && k != id ==> r.0[k] == items[k]
    ensures Owns(items, id, userId) ==>
              && r.0[id] == items[id].(title := src.title, initialPrice := src.initialPrice, description := src.description)
              && r.1 == WithSoldPrice(r.0[id])
    ensures !Owns(items, id, userId) ==> r.0 == items && r.1 == ZeroItem
  {
    if Owns(items, id, userId) then
      var row := items[id].(userId := userId, title := src.title, initialPrice := src.initialPrice,
                            description := src.description);
      (items[id := row], WithSoldPrice(row))
    else
      (items, ZeroItem)
  }

  /** DELETE FROM items WHERE id = $1 AND user_id = $2: no affected row is NotFound. */
  function DeleteRow(items: map<int, Item>, id: int, userId: int): (r: (map<int, Item>, Option<ErrorKind>))
    ensures r.1.None? <==> Owns(items, id, userId)
    ensures r.1.Some? ==> r.1.value == NotFound && r.0 == items
    ensures r.1.None? ==> r.0.Keys == items.Keys - {id} && forall k :: k in r.0 ==> r.0[k] == items[k]
  {
    var rowsAffected := if Owns(items, id, userId) then 1 else 0;
    if rowsAffected == 0 then (items, Some(NotFound)) else (items - {id}, None)
  }

  /** Every row owned by someone other than userId is still there, unchanged. */
  ghost predicate KeepsOthersRows(before: map<int, Item>, after: map<int, Item>, userId: int) {
    forall k :: k in before && before[k].userId != userId ==> k in after && after[k] == before[k]
  }

  /** Whatever ids and contents a user passes, updates and deletes never reach another user's rows. */
  lemma OwnerScopedWrites(items: map<int, Item>, id: int, src: Item, userId: int)
    ensures KeepsOthersRows(items, UpdateRow(items, id, src, userId).0, userId)
    ensures KeepsOthersRows(items, DeleteRow(items, id, userId).0, userId)
  {
  }

  /** A non-empty set of keys has a member to visit next. */
  lemma SomeKey(keys: set<int>)
    requires keys != {}
    ensures exists k :: k in keys
  {
    if forall k :: k !in keys {
      assert false;
    }
  }

  class ItemRepository {
    var items: map<int, Item>
    var nextItemId: int
    var comments: map<int, ItemComment>
    var nextCommentId: int

    /** Rows are stored under their own serial ids, all below the next one. */
    ghost predicate Valid()
      reads this
    {
      && 1 <= nextItemId && 1 <= nextCommentId
      && (forall id :: id in items ==> items[id].id == id && id < nextItemId)
      && (forall id :: id in comments ==> comments[id].id == id && id < nextCommentId)
    }

    constructor ()
      ensures Valid() && items == map[] && comments == map[]
    {
      items := map[];
      nextItemId := 1;
      comments := map[];
      nextCommentId := 1;
    }

    /** SELECT * FROM items WHERE user_id = $1, in no particular order: exactly the rows the user owns, each once. */
    method GetItemsList(userId: int) returns (r: seq<Item>)
      requires Valid()
      ensures forall it :: it in r <==> it.id in items && items[it.id] == it && it.userId == userId
      ensures forall i, j :: 0 <= i < j < |r| ==> r[i].id != r[j].id
    {
      r := [];
      var rest := items.Keys;
      while rest != {}
        invariant rest <= items.Keys
        invariant forall it :: it in r <==> it.id in items && it.id !in rest && items[it.id] == it && it.userId == userId
        invariant forall i, j :: 0 <= i < j < |r| ==> r[i].id != r[j].id
        decreases rest
      {
        SomeKey(rest);
        var id :| id in rest;
        if items[id].userId == userId {
          r := r + [items[id]];
        }
        rest := rest - {id};
      }
    }

    /** SELECT * FROM items: every row, each once. */
    method GetAllItems() returns (r: seq<Item>)
      requires Valid()
      ensures forall it :: it in r <==> it.id in items && items[it.id] == it
      ensures forall i, j :: 0 <= i < j < |r| ==> r[i].id != r[j].id
    {
      r := [];
      var rest := items.Keys;
      while rest != {}
        invariant rest <= items.Keys
        invariant forall it :: it in r <==> it.id in items && it.id !in rest && items[it.id] == it
        invariant forall i, j :: 0 <= i < j < |r| ==> r[i].id != r[j].id
        decreases rest
      {
        SomeKey(rest);
        var id :| id in rest;
        r := r + [items[id]];
        rest := rest - {id};
      }
    }

    /**
     * INSERT INTO items (user_id, title, initial_price, description) RETURNING *: a fresh
     * id, the given owner, title, price and description, and a null sold price, which the
     * returned row reports as 0.
     */
    method CreateItem(src: Item) returns (r: Item)
      requires Valid()
      modifies this`items, this`nextItemId
      ensures Valid() && nextItemId == old(nextItemId) + 1
      ensures r.id !in old(items)
      ensures r == Item(old(nextItemId), src.userId, src.title, src.initialPrice, Some(0.0), src.description)
      ensures items == old(items)[r.id := r.(soldPrice := None)]
    {
      var row := Item(nextItemId, src.userId, src.title, src.initialPrice, None, src.description);
      items := items[row.id := row];
      nextItemId := nextItemId + 1;
      r := WithSoldPrice(row);
    }

    /** SELECT * FROM items WHERE id = $1 AND user_id = $2: the row as stored (a null sold price stays null), or no rows. */
    function GetItemById(id: int, userId: int): (r: Result<Item, ErrorKind>)
      reads this
      ensures r.Success? <==> id in items && items[id].userId == userId
      ensures r.Success? ==> r.value == items[id]
      ensures r.Failure? ==> r.error == NoRows
    {
      if id in items && items[id].userId == userId then Success(items[id]) else Failure(NoRows)
    }

    /** UpdateItem: the table and the returned row as UpdateRow gives them. */
    method UpdateItem(id: int, src: Item, userId: int) returns (r: Item)
      requires Valid()
      modifies this`items
      ensures Valid()
      ensures (items, r) == UpdateRow(old(items), id, src, userId)
    {
      var next := UpdateRow(items, id, src, userId);
      items, r := next.0, next.1;
    }

    /** DeleteItem: the table and the error as DeleteRow gives them. */
    method DeleteItem(id: int, userId: int) returns (err: Option<ErrorKind>)
      requires Valid()
      modifies this`items
      ensures Valid()
      ensures (items, err) == DeleteRow(old(items), id, userId)
    {
      var next := DeleteRow(items, id, userId);
      items, err := next.0, next.1;
    }

    /** Stamps CreatedAt on the caller's comment, then inserts it and returns the new row. */
    method CreateItemComment(c: ItemCommentRef, now: int) returns (r: ItemComment)
      requires Valid()
      modifies this`comments, this`nextCommentId, c
      ensures Valid() && nextCommentId == old(nextCommentId) + 1
      ensures c.comment == old(c.comment).(createdAt := now)
      ensures r == c.comment.(id := old(nextCommentId)) && r.id !in old(comments)
      ensures comments == old(comments)[r.id := r]
    {
      c.comment := c.comment.(createdAt := now);
      r := c.comment.(id := nextCommentId);
      comments := comments[r.id := r];
      nextCommentId := nextCommentId + 1;
    }
  }
}
