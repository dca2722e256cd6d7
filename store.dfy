/**
 * The `User` collection as mutable state, and the four request handlers as
 * methods on it. Each method does what its Express handler does — validate,
 * look up by email, change the user's embedded list in place, answer — and
 * is proved to agree with the function of the same name in `Handlers`.
 */
module InventoryStore {
  import opened Wrappers
  import opened UserModel
  import opened Handlers
  import HandlerProperties

  /** `items.findIndex(item => item._id == id)`, as a scan from the front. */
  method FindItemIndex(items: seq<Item>, id: int) returns (index: int)
    ensures -1 <= index < |items|
    ensures index == -1 <==> forall k :: 0 <= k < |items| ==> items[k].id != id
    ensures 0 <= index ==> items[index].id == id && forall k :: 0 <= k < index ==> items[k].id != id
    ensures index == IndexOfId(items, id)
  {
    var k := 0;
    while k < |items|
      invariant 0 <= k <= |items|
      invariant forall j :: 0 <= j < k ==> items[j].id != id
    {
      if items[k].id == id {
        return k;
      }
      k := k + 1;
    }
    return -1;
  }

  class Store {
    var users: map<string, User>
    var nextId: nat

    ghost predicate Valid()
      reads this
    {
      WellFormed(users, nextId)
    }

    function Snapshot(): State
      reads this
    {
      State(users, nextId)
    }

    constructor ()
      ensures Valid()
      ensures users == map[] && nextId == 1
    {
      users := map[];
      nextId := 1;
    }

    /** `POST /user` (ensure-user). */
    method EnsureUser(req: CreateUserRequest) returns (resp: Response)
      requires Valid()
      modifies this
      ensures Valid()
      ensures Outcome(resp, Snapshot()) == Handlers.EnsureUser(old(Snapshot()), req)
    {
      HandlerProperties.EnsureUserKeepsWellFormed(Snapshot(), req);
      if !Truthy(req.email) {
        return Response(422, MessageBody(Some(false), "Name and email are required"));
      }
      var email := req.email.value;
      if email in users {
        return Response(200, Body(Some(false), Some("Email already exists"), None, Some(users[email]), None));
      }
      var items := WithIds(req.items.GetOr([]), nextId);
      var draft := UserDraft(req.name, email, if Truthy(req.profile_img) then req.profile_img else None, items);
      var checked := Validate(draft);
      if checked.Invalid? {
        return Response(500, Body(Some(false), Some("An internal server error occurred"), None, None, Some(checked.message)));
      }
      users := users[email := checked.user];
      nextId := nextId + |items|;
      resp := Response(201, Body(Some(true), Some("User successfully created"), Some(checked.user), None, None));
    }

    /** `POST /updateuser` (append items). */
    method AppendItems(req: AppendItemsRequest) returns (resp: Response)
      requires Valid()
      modifies this
      ensures Valid()
      ensures Outcome(resp, Snapshot()) == Handlers.AppendItems(old(Snapshot()), req)
    {
      HandlerProperties.AppendItemsKeepsWellFormed(Snapshot(), req);
      if !Truthy(req.email) {
        return Response(400, MessageBody(Some(false), "Email is required"));
      }
      if !req.items.Array? || |req.items.elems| == 0 {
        return Response(400, MessageBody(Some(false), "Items must be a non-empty array"));
      }
      var email := req.email.value;
      if email !in users {
        return Response(404, MessageBody(Some(false), "User not found"));
      }
      var user := users[email];
      var added := WithIds(req.items.elems, nextId);
      user := user.(items := user.items + added);
      users := users[email := user];
      nextId := nextId + |added|;
      resp := Response(200, Body(Some(true), Some("Items added successfully"), Some(user), None, None));
    }

    /** `POST /updateItem` (positional `$set` on the first item with the id). */
    method UpdateItem(req: UpdateItemRequest) returns (resp: Response)
      requires Valid()
      modifies this
      ensures Valid()
      ensures Outcome(resp, Snapshot()) == Handlers.UpdateItem(old(Snapshot()), req)
    {
      HandlerProperties.UpdateItemKeepsWellFormed(Snapshot(), req);
      if UpdateItemRejected(req) {
        return Response(400, MessageBody(None, "Invalid input."));
      }
      var email := req.email.value;
      var index := -1;
      if email in users {
        index := FindItemIndex(users[email].items, req.itemID.value);
      }
      if index == -1 {
        return Response(200, Body(None, None, None, None, Some("User or item not found")));
      }
      var user := users[email];
      user := user.(items := user.items[index := Overwritten(user.items[index], req.name.value, req.quantity)]);
      users := users[email := user];
      resp := Response(200, MessageBody(Some(true), "Item is updated"));
    }

    /** `POST /deleteItem` (`findIndex`, then `splice`). */
    method DeleteItem(req: DeleteItemRequest) returns (resp: Response)
      requires Valid()
      modifies this
      ensures Valid()
      ensures Outcome(resp, Snapshot()) == Handlers.DeleteItem(old(Snapshot()), req)
    {
      HandlerProperties.DeleteItemKeepsWellFormed(Snapshot(), req);
      if DeleteItemRejected(req) {
        return Response(400, MessageBody(None, "Invalid input."));
      }
      var email := req.email.value;
      if email !in users {
        return Response(404, MessageBody(None, "User not found."));
      }
      var index := FindItemIndex(users[email].items, req.itemID.value);
      if index == -1 {
        return Response(404, MessageBody(None, "Item not found."));
      }
      var user := users[email];
      user := user.(items := RemoveAt(user.items, index));
      users := users[email := user];
      resp := Response(200, MessageBody(None, "Item deleted successfully."));
    }
  }
}
