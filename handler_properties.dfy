/**
 * Properties of the four handlers that relate several calls, or a call and
 * the collection's invariant.
 */
module HandlerProperties {
  import opened Wrappers
  import opened UserModel
  import opened Handlers

  // ------------------------------------------------------------- the invariant

  lemma EnsureUserKeepsWellFormed(st: State, req: CreateUserRequest)
    requires WellFormed(st.users, st.nextId)
    ensures var o := EnsureUser(st, req); WellFormed(o.state.users, o.state.nextId)
  {
    var o := EnsureUser(st, req);
    if o.response.status == 201 {
      var e := req.email.value;
      var inputs := req.items.GetOr([]);
      var created := User(req.name.value, e, if Truthy(req.profile_img) then req.profile_img else None,
                          WithIds(inputs, st.nextId));
      var n := st.nextId + |inputs|;
      assert o.state == State(st.users[e := created], n);
      AppendKeepsIdsFresh([], inputs, st.nextId);
      assert [] + WithIds(inputs, st.nextId) == WithIds(inputs, st.nextId);
      StoreKeepsWellFormed(st.users, st.nextId, n, created);
    }
  }

  lemma AppendItemsKeepsWellFormed(st: State, req: AppendItemsRequest)
    requires WellFormed(st.users, st.nextId)
    ensures var o := AppendItems(st, req); WellFormed(o.state.users, o.state.nextId)
  {
    var o := AppendItems(st, req);
    if o.response.status == 200 {
      var e := req.email.value;
      AppendKeepsIdsFresh(st.users[e].items, req.items.elems, st.nextId);
      forall e' | e' in o.state.users
        ensures IdsFresh(o.state.users[e'].items, o.state.nextId)
      {
        if e' != e { IdsFreshMonotone(st.users[e'].items, st.nextId, o.state.nextId); }
      }
    }
  }

  lemma UpdateItemKeepsWellFormed(st: State, req: UpdateItemRequest)
    requires WellFormed(st.users, st.nextId)
    ensures var o := UpdateItem(st, req); WellFormed(o.state.users, o.state.nextId)
  {
    var o := UpdateItem(st, req);
    if o.response.body.success == Some(true) {
      var e := req.email.value;
      var items := st.users[e].items;
      var i := IndexOfId(items, req.itemID.value);
      var items' := o.state.users[e].items;
      assert forall k :: 0 <= k < |items'| ==> items'[k].id == items[k].id;
    }
  }

  lemma DeleteItemKeepsWellFormed(st: State, req: DeleteItemRequest)
    requires WellFormed(st.users, st.nextId)
    ensures var o := DeleteItem(st, req); WellFormed(o.state.users, o.state.nextId)
  {
    var o := DeleteItem(st, req);
    if o.response.status == 200 {
      var e := req.email.value;
      var u := st.users[e];
      var i := IndexOfId(u.items, req.itemID.value);
      RemoveAtKeepsIdsFresh(u.items, i, st.nextId);
      assert o.state == State(st.users[e := u.(items := RemoveAt(u.items, i))], st.nextId);
    }
  }

  // -------------------------------------------------------------- ensure-user

  /**
   * Calling ensure-user again with the same email, whatever the other
   * fields, finds the user the first call left and changes nothing.
   */
  lemma EnsureUserIdempotent(st: State, req: CreateUserRequest, again: CreateUserRequest)
    requires again.email == req.email
    requires EnsureUser(st, req).response.status in {200, 201}
    ensures var o1 := EnsureUser(st, req);
      && req.email.value in o1.state.users
      && EnsureUser(o1.state, again) == Outcome(
           Response(200, Body(Some(false), Some("Email already exists"), None,
                              Some(o1.state.users[req.email.value]), None)),
           o1.state)
  {
    var o1 := EnsureUser(st, req);
    assert Truthy(req.email);
  }

  /** After a successful ensure-user the store holds exactly one record with that email. */
  lemma EnsureUserLeavesOneRecord(st: State, req: CreateUserRequest, u: User)
    requires WellFormed(st.users, st.nextId)
    requires EnsureUser(st, req).response.status in {200, 201}
    requires u in EnsureUser(st, req).state.users.Values && u.email == req.email.value
    ensures var o := EnsureUser(st, req); u == o.state.users[req.email.value]
  {
    var o := EnsureUser(st, req);
    assert Truthy(req.email);
    EnsureUserKeepsWellFormed(st, req);
    AtMostOnePerEmail(o.state.users, o.state.nextId, u, o.state.users[req.email.value]);
  }

  // ------------------------------------------------------------ append items

  /**
   * A successful append leaves every prior item at its position with its id,
   * puts the supplied items after them in order, grows the list by exactly
   * their number, and touches no other user.
   */
  lemma AppendItemsSuccess(st: State, req: AppendItemsRequest)
    requires AppendItems(st, req).response.status == 200
    ensures var o := AppendItems(st, req);
      var e := req.email.value;
      var old_ := st.users[e].items;
      var new_ := o.state.users[e].items;
      && |new_| == |old_| + |req.items.elems|
      && new_[..|old_|] == old_
      && (forall k :: 0 <= k < |req.items.elems| ==>
            new_[|old_| + k].item_name == req.items.elems[k].item_name
            && new_[|old_| + k].quantity == req.items.elems[k].quantity)
      && o.state.users.Keys == st.users.Keys
      && o.state.users[e].(items := old_) == st.users[e]
      && (forall e' :: e' in st.users && e' != e ==> o.state.users[e'] == st.users[e'])
      && o.response.body == Body(Some(true), Some("Items added successfully"), Some(o.state.users[e]), None, None)
  {
    var e := req.email.value;
    var old_ := st.users[e].items;
    var added := WithIds(req.items.elems, st.nextId);
    assert (old_ + added)[..|old_|] == old_;
    forall k | 0 <= k < |req.items.elems|
      ensures (old_ + added)[|old_| + k] == added[k]
    {
    }
  }

  /**
   * No merging by name: appending the same item twice leaves two entries
   * with equal fields and different ids after the old ones.
   */
  lemma AppendSameItemTwice(st: State, email: string, x: ItemInput)
    requires email != "" && email in st.users
    ensures var req := AppendItemsRequest(Some(email), Array([x]));
      var o2 := AppendItems(AppendItems(st, req).state, req);
      o2.state.users[email].items == st.users[email].items
        + [Item(st.nextId, x.item_name, x.quantity), Item(st.nextId + 1, x.item_name, x.quantity)]
  {
    var req := AppendItemsRequest(Some(email), Array([x]));
    var o1 := AppendItems(st, req);
    assert WithIds([x], st.nextId) == [Item(st.nextId, x.item_name, x.quantity)];
    assert WithIds([x], st.nextId + 1) == [Item(st.nextId + 1, x.item_name, x.quantity)];
  }

  // -------------------------------------------------------------- update item

  /**
   * A successful update overwrites only the name and quantity of the first
   * item with the id: its id, the list's length and order, every other item
   * and every other user stay as they were.
   */
  lemma UpdateItemSuccess(st: State, req: UpdateItemRequest)
    requires UpdateItem(st, req).response.body.success == Some(true)
    ensures var o := UpdateItem(st, req);
      var e := req.email.value;
      var old_ := st.users[e].items;
      var new_ := o.state.users[e].items;
      var i := IndexOfId(old_, req.itemID.value);
      && 0 <= i < |old_| && old_[i].id == req.itemID.value
      && |new_| == |old_|
      && new_[i].id == old_[i].id
      && new_[i].item_name == req.name
      && new_[i].quantity == (if req.quantity.Num? then Some(req.quantity.v) else old_[i].quantity)
      && (forall k :: 0 <= k < |old_| && k != i ==> new_[k] == old_[k])
      && o.state.users[e].(items := old_) == st.users[e]
      && (forall e' :: e' in st.users && e' != e ==> o.state.users[e'] == st.users[e'])
  {
  }

  /** Applying the same update twice gives the same state and answer as applying it once. */
  lemma {:induction false} UpdateItemIdempotent(st: State, req: UpdateItemRequest)
    ensures var o1 := UpdateItem(st, req); UpdateItem(o1.state, req) == o1
  {
    var o1 := UpdateItem(st, req);
    if o1.response.body.success == Some(true) {
      var e := req.email.value;
      var items := st.users[e].items;
      var i := IndexOfId(items, req.itemID.value);
      var items' := o1.state.users[e].items;
      SameIdsSameIndex(items, items', req.itemID.value);
      assert IndexOfId(items', req.itemID.value) == i;
      var twice := items'[i := Overwritten(items'[i], req.name.value, req.quantity)];
      assert twice == items';
    }
  }

  /** `findIndex` by id only looks at ids. */
  lemma {:induction false} SameIdsSameIndex(a: seq<Item>, b: seq<Item>, id: int)
    requires |a| == |b| && forall k :: 0 <= k < |a| ==> a[k].id == b[k].id
    ensures IndexOfId(a, id) == IndexOfId(b, id)
    decreases |a|
  {
    if a != [] && a[0].id != id {
      SameIdsSameIndex(a[1..], b[1..], id);
    }
  }

  // -------------------------------------------------------------- delete item

  /**
   * A successful delete removes exactly one item, the first with the id; the
   * rest keep their relative order, and no other user changes.
   */
  lemma DeleteItemSuccess(st: State, req: DeleteItemRequest)
    requires DeleteItem(st, req).response.status == 200
    ensures var o := DeleteItem(st, req);
      var e := req.email.value;
      var old_ := st.users[e].items;
      var new_ := o.state.users[e].items;
      var i := IndexOfId(old_, req.itemID.value);
      && 0 <= i < |old_| && old_[i].id == req.itemID.value
      && (forall k :: 0 <= k < i ==> old_[k].id != req.itemID.value)
      && new_ == old_[..i] + old_[i + 1..]
      && |new_| == |old_| - 1
      && multiset(new_) + multiset{old_[i]} == multiset(old_)
      && o.state.users[e].(items := old_) == st.users[e]
      && (forall e' :: e' in st.users && e' != e ==> o.state.users[e'] == st.users[e'])
  {
    var e := req.email.value;
    var old_ := st.users[e].items;
    var i := IndexOfId(old_, req.itemID.value);
    assert old_ == old_[..i] + [old_[i]] + old_[i + 1..];
  }

  /** In a well-formed store, once an item is deleted its id is gone from that user's list. */
  lemma DeletedIdIsGone(st: State, req: DeleteItemRequest)
    requires WellFormed(st.users, st.nextId)
    requires DeleteItem(st, req).response.status == 200
    ensures var o := DeleteItem(st, req);
      forall it :: it in o.state.users[req.email.value].items ==> it.id != req.itemID.value
  {
    var e := req.email.value;
    var old_ := st.users[e].items;
    var i := IndexOfId(old_, req.itemID.value);
    var new_ := RemoveAt(old_, i);
    assert DeleteItem(st, req).state.users[e].items == new_;
    assert IdsFresh(old_, st.nextId);
    forall it | it in new_ ensures it.id != req.itemID.value {
      var k :| 0 <= k < |new_| && new_[k] == it;
      assert new_[k] == old_[if k < i then k else k + 1];
    }
  }

  /** A deleted id is never handed out again: items appended afterwards get other ids. */
  lemma DeletedIdNotReused(st: State, del: DeleteItemRequest, add: AppendItemsRequest)
    requires WellFormed(st.users, st.nextId)
    requires DeleteItem(st, del).response.status == 200
    ensures var s1 := DeleteItem(st, del).state;
      var s2 := AppendItems(s1, add).state;
      forall it :: it in s2.users[del.email.value].items ==> it.id != del.itemID.value
  {
    var s1 := DeleteItem(st, del).state;
    var e := del.email.value;
    var id := del.itemID.value;
    DeletedIdIsGone(st, del);
    assert id < s1.nextId by {
      var old_ := st.users[e].items;
      var i := IndexOfId(old_, id);
      assert old_[i].id == id && IdsFresh(old_, st.nextId);
    }
    var o2 := AppendItems(s1, add);
    if o2.response.status == 200 && add.email.value == e {
      var before := s1.users[e].items;
      var added := WithIds(add.items.elems, s1.nextId);
      assert o2.state.users[e].items == before + added;
      forall it: Item | it in before + added ensures it.id != id {
        var k :| 0 <= k < |before + added| && (before + added)[k] == it;
        if k < |before| { assert before[k] in before; } else { assert added[k - |before|].id >= s1.nextId; }
      }
    }
  }

  // ---------------------------------------------------- validation comes first

  /** A rejected request gets the same answer whatever the store holds, and changes nothing. */
  lemma ValidationPrecedesLookup(st1: State, st2: State, c: CreateUserRequest, a: AppendItemsRequest,
                                 u: UpdateItemRequest, d: DeleteItemRequest)
    ensures !Truthy(c.email) ==>
      EnsureUser(st1, c).response == EnsureUser(st2, c).response && EnsureUser(st1, c).state == st1
    ensures !(Truthy(a.email) && a.items.Array? && |a.items.elems| > 0) ==>
      AppendItems(st1, a).response == AppendItems(st2, a).response && AppendItems(st1, a).state == st1
    ensures UpdateItemRejected(u) ==>
      UpdateItem(st1, u).response == UpdateItem(st2, u).response && UpdateItem(st1, u).state == st1
    ensures DeleteItemRejected(d) ==>
      DeleteItem(st1, d).response == DeleteItem(st2, d).response && DeleteItem(st1, d).state == st1
  {
  }

  /** The responses for an invalid request: a missing email is reported before bad items. */
  lemma AppendChecksEmailBeforeItems(st: State, items: ItemsField)
    ensures AppendItems(st, AppendItemsRequest(None, items)).response.body.message == Some("Email is required")
    ensures AppendItems(st, AppendItemsRequest(Some(""), items)).response.body.message == Some("Email is required")
  {
  }
}
