/**
 * The `User` collection's schema: one document per email, each embedding an
 * ordered list of items. Schema defaults become `None` (JSON `null`); item
 * ids (Mongo ObjectIds) are positive naturals handed out from a counter.
 */
module UserModel {
  import opened Wrappers

  /** An embedded item: `item_name` and `quantity` default to null. */
  datatype Item = Item(id: nat, item_name: Option<string>, quantity: Option<int>)

  /** An item as a request supplies it, before it is given an id. */
  datatype ItemInput = ItemInput(item_name: Option<string>, quantity: Option<int>)

  /** A stored user: `profile_img` defaults to null, `items` keeps insertion order. */
  datatype User = User(name: string, email: string, profile_img: Option<string>, items: seq<Item>)

  /** A user document before validation: the name may be missing. */
  datatype UserDraft = UserDraft(name: Option<string>, email: string, profile_img: Option<string>, items: seq<Item>)

  datatype Validated = Valid(user: User) | Invalid(message: string)

  /** Mongoose's `required` check on a String path: present and non-empty. */
  predicate RequiredString(s: Option<string>) {
    s.Some? && s.value != ""
  }

  /**
   * What `save()` makes of a draft: both `name` and `email` are required;
   * a failure carries Mongoose's validation message, paths in schema order.
   */
  function Validate(d: UserDraft): (v: Validated)
    ensures v.Valid? <==> RequiredString(d.name) && d.email != ""
    ensures v.Valid? ==> v.user == User(d.name.value, d.email, d.profile_img, d.items)
  {
    var nameErr := if RequiredString(d.name) then [] else ["name: Path `name` is required."];
    var emailErr := if d.email != "" then [] else ["email: Path `email` is required."];
    var errs := nameErr + emailErr;
    if errs == [] then Valid(User(d.name.value, d.email, d.profile_img, d.items))
    else Invalid("User validation failed: " + JoinMessages(errs))
  }

  function JoinMessages(msgs: seq<string>): string {
    if |msgs| == 0 then "" else if |msgs| == 1 then msgs[0] else msgs[0] + ", " + JoinMessages(msgs[1..])
  }

  /**
   * The embedded items Mongoose builds from `inputs`: one per input, in
   * order, the k-th getting the fresh id `first + k` and the input's fields.
   */
  function WithIds(inputs: seq<ItemInput>, first: nat): (r: seq<Item>)
    ensures |r| == |inputs|
    ensures forall k :: 0 <= k < |r| ==>
      r[k] == Item(first + k, inputs[k].item_name, inputs[k].quantity)
    decreases |inputs|
  {
    if inputs == [] then []
    else [Item(first, inputs[0].item_name, inputs[0].quantity)] + WithIds(inputs[1..], first + 1)
  }

  /** Ids are positive, below the counter, and distinct within one list. */
  predicate IdsFresh(items: seq<Item>, nextId: nat) {
    && (forall k :: 0 <= k < |items| ==> 1 <= items[k].id < nextId)
    && (forall j, k :: 0 <= j < k < |items| ==> items[j].id != items[k].id)
  }

  /**
   * The collection's invariant: each document is filed under its own email
   * (so the unique index admits at most one per email), has its required
   * fields, and its item ids are fresh with respect to the counter.
   */
  predicate WellFormed(users: map<string, User>, nextId: nat) {
    && 1 <= nextId
    && forall e :: e in users ==>
         && users[e].email == e && e != ""
         && users[e].name != ""
         && IdsFresh(users[e].items, nextId)
  }

  /** At most one stored user per email. */
  lemma AtMostOnePerEmail(users: map<string, User>, nextId: nat, u1: User, u2: User)
    requires WellFormed(users, nextId)
    requires u1 in users.Values && u2 in users.Values
    requires u1.email == u2.email
    ensures u1 == u2
  {
    var e1 :| e1 in users && users[e1] == u1;
    var e2 :| e2 in users && users[e2] == u2;
    assert e1 == u1.email && e2 == u2.email;
  }

  /** Every stored user carries a name: a user without one is never saved. */
  lemma StoredUsersAreNamed(users: map<string, User>, nextId: nat, u: User)
    requires WellFormed(users, nextId)
    requires u in users.Values
    ensures u.name != "" && u.email != ""
  {
    var e :| e in users && users[e] == u;
  }

  /** Appending freshly numbered items keeps ids fresh once the counter moves past them. */
  lemma AppendKeepsIdsFresh(items: seq<Item>, inputs: seq<ItemInput>, nextId: nat)
    requires 1 <= nextId && IdsFresh(items, nextId)
    ensures IdsFresh(items + WithIds(inputs, nextId), nextId + |inputs|)
  {
    var added := WithIds(inputs, nextId);
    var all := items + added;
    forall j, k | 0 <= j < k < |all| ensures all[j].id != all[k].id {
      if k >= |items| {
        assert all[k] == added[k - |items|];
        if j >= |items| { assert all[j] == added[j - |items|]; }
      }
    }
  }

  /** `items.splice(i, 1)`: the list without its i-th entry, the others in order. */
  function RemoveAt(items: seq<Item>, i: nat): (r: seq<Item>)
    requires i < |items|
    ensures |r| == |items| - 1
    ensures forall k :: 0 <= k < |r| ==> r[k] == items[if k < i then k else k + 1]
  {
    items[..i] + items[i + 1..]
  }

  /** Removing an entry keeps the remaining ids fresh. */
  lemma RemoveAtKeepsIdsFresh(items: seq<Item>, i: nat, nextId: nat)
    requires i < |items| && IdsFresh(items, nextId)
    ensures IdsFresh(RemoveAt(items, i), nextId)
  {
    var r := RemoveAt(items, i);
    forall j, k | 0 <= j < k < |r| ensures r[j].id != r[k].id {
      assert r[j] == items[if j < i then j else j + 1];
      assert r[k] == items[if k < i then k else k + 1];
    }
  }

  /** Filing a well-formed user under its email, with the counter raised past its ids, keeps the store well-formed. */
  lemma StoreKeepsWellFormed(users: map<string, User>, nextId: nat, later: nat, u: User)
    requires WellFormed(users, nextId) && nextId <= later
    requires u.email != "" && u.name != "" && IdsFresh(u.items, later)
    ensures WellFormed(users[u.email := u], later)
  {
    forall e | e in users
      ensures IdsFresh(users[e].items, later)
    {
      IdsFreshMonotone(users[e].items, nextId, later);
    }
  }

  /** Raising the counter keeps ids fresh. */
  lemma IdsFreshMonotone(items: seq<Item>, nextId: nat, later: nat)
    requires IdsFresh(items, nextId) && nextId <= later
    ensures IdsFresh(items, later)
  {
  }
}
