/**
 * What the four Express handlers do to the `User` collection, as functions
 * from the collection's state and the request body to the response and the
 * new state. Request fields are JavaScript values: `None` is a missing field,
 * and a string field is falsy when it is missing or empty.
 */
module Handlers {
  import opened Wrappers
  import opened UserModel

  /** The collection and the counter that supplies fresh item ids. */
  datatype State = State(users: map<string, User>, nextId: nat)

  /** A JSON response body; only the fields a handler sets are `Some`. */
  datatype Body = Body(
    success: Option<bool>,
    message: Option<string>,
    data: Option<User>,
    userData: Option<User>,
    error: Option<string>)

  datatype Response = Response(status: int, body: Body)

  datatype Outcome = Outcome(response: Response, state: State)

  /** A number-valued request field: absent, `null`, or a number. */
  datatype NumField = Missing | Null | Num(v: int)

  /** The `items` field of an append request. */
  datatype ItemsField = Absent | NotAnArray | Array(elems: seq<ItemInput>)

  datatype CreateUserRequest = CreateUserRequest(
    name: Option<string>, email: Option<string>, profile_img: Option<string>, items: Option<seq<ItemInput>>)

  datatype AppendItemsRequest = AppendItemsRequest(email: Option<string>, items: ItemsField)

  datatype UpdateItemRequest = UpdateItemRequest(
    email: Option<string>, itemID: Option<int>, name: Option<string>, quantity: NumField)

  datatype DeleteItemRequest = DeleteItemRequest(email: Option<string>, itemID: Option<int>)

  /** JavaScript truthiness of a string field. */
  predicate Truthy(s: Option<string>) {
    s.Some? && s.value != ""
  }

  /** JavaScript truthiness of a numeric id field. */
  predicate TruthyId(id: Option<int>) {
    id.Some? && id.value != 0
  }

  /** `q <= 0`: `undefined` compares false, `null` compares as 0. */
  predicate AtMostZero(q: NumField) {
    match q
    case Missing => false
    case Null => true
    case Num(v) => v <= 0
  }

  function MessageBody(success: Option<bool>, message: string): Body {
    Body(success, Some(message), None, None, None)
  }

  /** `items.findIndex(item => item._id == id)`: the first match, or -1. */
  function IndexOfId(items: seq<Item>, id: int): (i: int)
    ensures -1 <= i < |items|
    ensures i == -1 <==> forall k :: 0 <= k < |items| ==> items[k].id != id
    ensures 0 <= i ==> items[i].id == id && forall k :: 0 <= k < i ==> items[k].id != id
    decreases |items|
  {
    if items == [] then -1
    else if items[0].id == id then 0
    else
      var j := IndexOfId(items[1..], id);
      if j == -1 then -1 else j + 1
  }

  // ---------------------------------------------------------------- POST /user

  /**
   * Ensure-user: reject a falsy email (422) before the collection is read;
   * return an existing user untouched (200, success false); otherwise create
   * one, `profile_img` and `items` defaulting to null and the empty list.
   * Saving fails schema validation without a name, which answers 500.
   */
  function EnsureUser(st: State, req: CreateUserRequest): (o: Outcome)
    ensures !Truthy(req.email) ==>
      o == Outcome(Response(422, MessageBody(Some(false), "Name and email are required")), st)
    ensures Truthy(req.email) && req.email.value in st.users ==>
      o == Outcome(Response(200, Body(Some(false), Some("Email already exists"), None,
                                      Some(st.users[req.email.value]), None)), st)
    ensures o.state != st ==> o.response.status == 201
    ensures o.response.status == 201 <==>
      Truthy(req.email) && req.email.value !in st.users && RequiredString(req.name)
    ensures o.response.status == 201 ==>
      var e := req.email.value;
      var created := User(req.name.value, e, if Truthy(req.profile_img) then req.profile_img else None,
                          WithIds(req.items.GetOr([]), st.nextId));
      && o.response.body == Body(Some(true), Some("User successfully created"), Some(created), None, None)
      && o.state == State(st.users[e := created], st.nextId + |created.items|)
    ensures Truthy(req.email) && req.email.value !in st.users && !RequiredString(req.name) ==>
      o.response.status == 500 && o.response.body.success == Some(false) && o.state == st
  {
    if !Truthy(req.email) then
      Outcome(Response(422, MessageBody(Some(false), "Name and email are required")), st)
    else
      var e := req.email.value;
      if e in st.users then
        Outcome(Response(200, Body(Some(false), Some("Email already exists"), None, Some(st.users[e]), None)), st)
      else
        var items := WithIds(req.items.GetOr([]), st.nextId);
        var draft := UserDraft(req.name, e, if Truthy(req.profile_img) then req.profile_img else None, items);
        match Validate(draft)
        case Invalid(msg) =>
          Outcome(Response(500, Body(Some(false), Some("An internal server error occurred"), None, None, Some(msg))), st)
        case Valid(u) =>
          Outcome(Response(201, Body(Some(true), Some("User successfully created"), Some(u), None, None)),
                  State(st.users[e := u], st.nextId + |items|))
  }

  // ---------------------------------------------------------- POST /updateuser

  /**
   * Append items: a falsy email (400) is checked before the items, items that
   * are missing, not an array or empty (400) before the lookup, an unknown
   * email answers 404; otherwise the supplied items follow the user's old ones.
   */
  function AppendItems(st: State, req: AppendItemsRequest): (o: Outcome)
    ensures !Truthy(req.email) ==>
      o == Outcome(Response(400, MessageBody(Some(false), "Email is required")), st)
    ensures Truthy(req.email) && !(req.items.Array? && |req.items.elems| > 0) ==>
      o == Outcome(Response(400, MessageBody(Some(false), "Items must be a non-empty array")), st)
    ensures Truthy(req.email) && req.items.Array? && |req.items.elems| > 0 && req.email.value !in st.users ==>
      o == Outcome(Response(404, MessageBody(Some(false), "User not found")), st)
    ensures o.response.status == 200 <==>
      Truthy(req.email) && req.items.Array? && |req.items.elems| > 0 && req.email.value in st.users
    ensures o.response.status != 200 ==> o.state == st
    ensures o.state.nextId >= st.nextId
  {
    if !Truthy(req.email) then
      Outcome(Response(400, MessageBody(Some(false), "Email is required")), st)
    else if !(req.items.Array? && |req.items.elems| > 0) then
      Outcome(Response(400, MessageBody(Some(false), "Items must be a non-empty array")), st)
    else
      var e := req.email.value;
      if e !in st.users then
        Outcome(Response(404, MessageBody(Some(false), "User not found")), st)
      else
        var u := st.users[e];
        var added := WithIds(req.items.elems, st.nextId);
        var u' := u.(items := u.items + added);
        Outcome(Response(200, Body(Some(true), Some("Items added successfully"), Some(u'), None, None)),
                State(st.users[e := u'], st.nextId + |added|))
  }

  // ---------------------------------------------------------- POST /updateItem

  /** The validation of `/updateItem`: `!email || !itemID || !name || quantity <= 0`. */
  predicate UpdateItemRejected(req: UpdateItemRequest) {
    !Truthy(req.email) || !TruthyId(req.itemID) || !Truthy(req.name) || AtMostZero(req.quantity)
  }

  /** The item after the positional `$set`: an absent quantity leaves the old one. */
  function Overwritten(it: Item, name: string, quantity: NumField): Item {
    it.(item_name := Some(name), quantity := if quantity.Num? then Some(quantity.v) else it.quantity)
  }

  /**
   * Update one item: invalid input answers 400; when no user has that email
   * together with an item of that id the body carries an `error` (status
   * 200); otherwise the first item with the id gets the new name and quantity.
   */
  function UpdateItem(st: State, req: UpdateItemRequest): (o: Outcome)
    ensures UpdateItemRejected(req) ==>
      o == Outcome(Response(400, MessageBody(None, "Invalid input.")), st)
    ensures !UpdateItemRejected(req) ==> o.response.status == 200
    ensures o.response.body.error.Some? <==>
      !UpdateItemRejected(req)
      && (req.email.value !in st.users || IndexOfId(st.users[req.email.value].items, req.itemID.value) == -1)
    ensures o.response.body.error.Some? ==>
      o.response.body == Body(None, None, None, None, Some("User or item not found")) && o.state == st
    ensures o.response.body.success == Some(true) <==> o.response.body.error.None? && !UpdateItemRejected(req)
    ensures o.response.body.success == Some(true) ==> o.response.body == MessageBody(Some(true), "Item is updated")
    ensures o.state.nextId == st.nextId && o.state.users.Keys == st.users.Keys
  {
    if UpdateItemRejected(req) then
      Outcome(Response(400, MessageBody(None, "Invalid input.")), st)
    else
      var e := req.email.value;
      if e !in st.users || IndexOfId(st.users[e].items, req.itemID.value) == -1 then
        Outcome(Response(200, Body(None, None, None, None, Some("User or item not found"))), st)
      else
        var u := st.users[e];
        var i := IndexOfId(u.items, req.itemID.value);
        var u' := u.(items := u.items[i := Overwritten(u.items[i], req.name.value, req.quantity)]);
        Outcome(Response(200, MessageBody(Some(true), "Item is updated")), State(st.users[e := u'], st.nextId))
  }

  // ---------------------------------------------------------- POST /deleteItem

  /** The validation of `/deleteItem`: `!email || !itemID || itemID <= 0`. */
  predicate DeleteItemRejected(req: DeleteItemRequest) {
    !Truthy(req.email) || !TruthyId(req.itemID) || req.itemID.value <= 0
  }

  /**
   * Delete one item: invalid input answers 400, an unknown email 404 "User
   * not found.", an id matching no item 404 "Item not found."; otherwise the
   * first item with that id is spliced out.
   */
  function DeleteItem(st: State, req: DeleteItemRequest): (o: Outcome)
    ensures DeleteItemRejected(req) ==> o == Outcome(Response(400, MessageBody(None, "Invalid input.")), st)
    ensures !DeleteItemRejected(req) && req.email.value !in st.users ==>
      o == Outcome(Response(404, MessageBody(None, "User not found.")), st)
    ensures !DeleteItemRejected(req) && req.email.value in st.users
            && IndexOfId(st.users[req.email.value].items, req.itemID.value) == -1 ==>
      o == Outcome(Response(404, MessageBody(None, "Item not found.")), st)
    ensures o.response.status == 200 <==>
      !DeleteItemRejected(req) && req.email.value in st.users
      && IndexOfId(st.users[req.email.value].items, req.itemID.value) != -1
    ensures o.response.status == 200 ==> o.response.body == MessageBody(None, "Item deleted successfully.")
    ensures o.response.status != 200 ==> o.state == st
    ensures o.state.nextId == st.nextId && o.state.users.Keys == st.users.Keys
  {
    if DeleteItemRejected(req) then
      Outcome(Response(400, MessageBody(None, "Invalid input.")), st)
    else
      var e := req.email.value;
      if e !in st.users then
        Outcome(Response(404, MessageBody(None, "User not found.")), st)
      else
        var u := st.users[e];
        var i := IndexOfId(u.items, req.itemID.value);
        if i == -1 then
          Outcome(Response(404, MessageBody(None, "Item not found.")), st)
        else
          var u' := u.(items := RemoveAt(u.items, i));
          Outcome(Response(200, MessageBody(None, "Item deleted successfully.")), State(st.users[e := u'], st.nextId))
  }
}
