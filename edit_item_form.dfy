/**
 * The edit-item form: one (item id, name, quantity) record, filled from the
 * item the user picked, edited, and submitted as one update request.
 * As in the add-items form, submission is split into `BeginSubmit` and
 * `FinishSubmit`.
 */
module EditItemForm {
  import opened Wrappers
  import Handlers

  /** The form's state; `itemId == None` is the blank `""` of the first render and the id dropped by a reset. */
  datatype EditForm = EditForm(itemId: Option<nat>, name: string, quantity: int)

  /** The item handed in by the home screen. */
  datatype CurrentItem = CurrentItem(id: Option<nat>, name: Option<string>, quantity: Option<int>)

  /** The state of the first render. */
  const Initial: EditForm := EditForm(None, "", 1)

  /** `resetForm()`: name and quantity reset, item id dropped. */
  const Reset: EditForm := EditForm(None, "", 1)

  /** `handleItemChange(field, value)`. */
  datatype FieldEdit = SetName(name: string) | SetQuantity(quantity: int)

  /** The syncing effect: the picked item's id, name and quantity replace the form's. */
  function Synced(current: CurrentItem): (f: EditForm)
    ensures f.itemId == current.id
    ensures current.name.Some? ==> f.name == current.name.value
    ensures current.name.None? ==> f.name == ""
    ensures current.quantity.Some? ==> f.quantity == current.quantity.value
    ensures current.quantity.None? ==> f.quantity == 0
  {
    EditForm(current.id, current.name.GetOr(""), current.quantity.GetOr(0))
  }

  /** `increaseQuantity()`: the other fields stay. */
  function Increased(f: EditForm): (r: EditForm)
    ensures r.itemId == f.itemId && r.name == f.name && r.quantity == f.quantity + 1
  {
    f.(quantity := f.quantity + 1)
  }

  /** `decreaseQuantity()`: `Math.max(1, quantity - 1)`, the other fields stay. */
  function Decreased(f: EditForm): (r: EditForm)
    ensures r.itemId == f.itemId && r.name == f.name && 1 <= r.quantity
    ensures f.quantity > 1 ==> r.quantity == f.quantity - 1
    ensures f.quantity <= 1 ==> r.quantity == 1
  {
    f.(quantity := if f.quantity - 1 < 1 then 1 else f.quantity - 1)
  }

  function Edited(f: EditForm, edit: FieldEdit): (r: EditForm)
    ensures r.itemId == f.itemId
    ensures edit.SetName? ==> r.name == edit.name && r.quantity == f.quantity
    ensures edit.SetQuantity? ==> r.name == f.name && r.quantity == edit.quantity
  {
    match edit
    case SetName(n) => f.(name := n)
    case SetQuantity(q) => f.(quantity := q)
  }

  /** The check `!item.name || item.quantity <= 0`. */
  predicate Invalid(f: EditForm) {
    f.name == "" || f.quantity <= 0
  }

  /** The body posted to the update-item endpoint. */
  function UpdateRequest(email: string, f: EditForm): (r: Handlers.UpdateItemRequest)
    ensures r.email == Some(email) && r.name == Some(f.name) && r.quantity == Handlers.Num(f.quantity)
    ensures r.itemID.Some? <==> f.itemId.Some?
    ensures f.itemId.Some? ==> r.itemID.value == f.itemId.value
  {
    Handlers.UpdateItemRequest(Some(email),
      if f.itemId.Some? then Some(f.itemId.value as int) else None,
      Some(f.name), Handlers.Num(f.quantity))
  }

  datatype Submission = Busy | Refused | Sent(request: Handlers.UpdateItemRequest)

  class EditItemModal {
    var form: EditForm
    var loading: bool

    constructor ()
      ensures form == Initial && !loading
    {
      form := Initial;
      loading := false;
    }

    /** Runs when the picked item or the visibility changes; no picked item, no change. */
    method Sync(current: Option<CurrentItem>)
      modifies this
      ensures form == (if current.Some? then Synced(current.value) else old(form))
      ensures loading == old(loading)
    {
      if current.Some? {
        var c := current.value;
        form := EditForm(c.id, c.name.GetOr(""), c.quantity.GetOr(0));
      }
    }

    method IncreaseQuantity()
      modifies this
      ensures form == Increased(old(form)) && loading == old(loading)
    {
      form := form.(quantity := form.quantity + 1);
    }

    method DecreaseQuantity()
      modifies this
      ensures form == Decreased(old(form)) && loading == old(loading)
    {
      var q := form.quantity - 1;
      if q < 1 {
        q := 1;
      }
      form := form.(quantity := q);
    }

    method HandleItemChange(edit: FieldEdit)
      modifies this
      ensures form == Edited(old(form), edit) && loading == old(loading)
    {
      match edit
      case SetName(n) => form := form.(name := n);
      case SetQuantity(q) => form := form.(quantity := q);
    }

    /** `handleUpdateItem` up to the request. */
    method BeginSubmit(email: string) returns (s: Submission)
      modifies this
      ensures form == old(form)
      ensures old(loading) ==> s == Busy && loading
      ensures !old(loading) && Invalid(old(form)) ==> s == Refused && !loading
      ensures !old(loading) && !Invalid(old(form)) ==> s == Sent(UpdateRequest(email, old(form))) && loading
    {
      if loading {
        return Busy;
      }
      loading := true;
      if form.name == "" || form.quantity <= 0 {
        loading := false;
        return Refused;
      }
      var id: Option<int> := if form.itemId.Some? then Some(form.itemId.value as int) else None;
      s := Sent(Handlers.UpdateItemRequest(Some(email), id, Some(form.name), Handlers.Num(form.quantity)));
    }

    /** The `finally` of `handleUpdateItem`. */
    method FinishSubmit()
      modifies this
      ensures form == Reset && !loading
    {
      form := Reset;
      loading := false;
    }
  }

  /**
   * A request the form lets through passes the update endpoint's input
   * check exactly when the form carries a non-zero item id.
   */
  lemma SentRequestPassesValidation(email: string, f: EditForm)
    requires email != "" && !Invalid(f)
    ensures !Handlers.UpdateItemRejected(UpdateRequest(email, f)) <==> (f.itemId.Some? && f.itemId.value != 0)
  {
  }

  /**
   * After a reset the form has no item id: submitting it again without a
   * fresh sync sends a request the endpoint answers with 400 and leaves
   * the store unchanged. The state is transient: the reset closes the
   * modal, and the next `Sync` on `[currentItem, isVisible]` refills the
   * form, so this holds only until then.
   */
  lemma ResetFormIsRejected(st: Handlers.State, email: string, edit: FieldEdit)
    ensures var f := Edited(Reset, edit);
      var o := Handlers.UpdateItem(st, UpdateRequest(email, f));
      o.response.status == 400 && o.state == st
  {
  }

  /**
   * Editing an item to the values it already has, with a valid form, is a
   * successful update that changes nothing.
   */
  lemma SyncedAndSentUnchangedIsNoOp(st: Handlers.State, email: string, i: nat)
    requires email != "" && email in st.users && i < |st.users[email].items|
    requires var it := st.users[email].items[i];
      it.id != 0 && it.item_name.Some? && it.item_name.value != "" && it.quantity.Some? && it.quantity.value > 0
      && Handlers.IndexOfId(st.users[email].items, it.id) == i
    ensures var it := st.users[email].items[i];
      var o := Handlers.UpdateItem(st, UpdateRequest(email, Synced(CurrentItem(Some(it.id), it.item_name, it.quantity))));
      o.response.status == 200 && o.state == st
  {
    var items := st.users[email].items;
    var it := items[i];
    var req := UpdateRequest(email, Synced(CurrentItem(Some(it.id), it.item_name, it.quantity)));
    assert req.itemID == Some(it.id as int) && !Handlers.UpdateItemRejected(req);
    assert Handlers.Overwritten(it, req.name.value, req.quantity) == it;
    assert items[i := it] == items;
    assert st.users[email := st.users[email].(items := items)] == st.users;
    assert Handlers.State(st.users, st.nextId) == st;
  }
}
