/**
 * The add-items form: a list of rows (name, quantity) edited by index,
 * submitted as one append request, and refillable from an image analysis.
 * Each function below is one state update; the `AddItemModal` class applies
 * them to its fields. Submission is asynchronous in the source, so it is two
 * steps: `BeginSubmit` validates and sends, `FinishSubmit` runs when the
 * request settles.
 */
module AddItemForm {
  import opened Wrappers
  import opened Json
  import opened UserModel
  import Handlers
  import HandlerProperties

  datatype Row = Row(name: string, quantity: int)

  /** The row `addMoreFields` and `resetForm` create. */
  const BlankRow: Row := Row("", 1)

  /** `handleItemChange(index, field, value)`: a new value for one of a row's two fields. */
  datatype FieldEdit = SetName(name: string) | SetQuantity(quantity: int)

  /** `increaseQuantity(index)`. */
  function Increased(rows: seq<Row>, index: nat): (r: seq<Row>)
    requires index < |rows|
    ensures |r| == |rows|
    ensures r[index].name == rows[index].name && r[index].quantity == rows[index].quantity + 1
    ensures forall k :: 0 <= k < |rows| && k != index ==> r[k] == rows[k]
  {
    rows[index := rows[index].(quantity := rows[index].quantity + 1)]
  }

  /** `decreaseQuantity(index)`: `Math.max(1, quantity - 1)`. */
  function Decreased(rows: seq<Row>, index: nat): (r: seq<Row>)
    requires index < |rows|
    ensures |r| == |rows|
    ensures r[index].name == rows[index].name && 1 <= r[index].quantity
    ensures rows[index].quantity > 1 ==> r[index].quantity == rows[index].quantity - 1
    ensures rows[index].quantity <= 1 ==> r[index].quantity == 1
    ensures forall k :: 0 <= k < |rows| && k != index ==> r[k] == rows[k]
  {
    var q := rows[index].quantity - 1;
    rows[index := rows[index].(quantity := if q < 1 then 1 else q)]
  }

  /** `handleItemChange(index, field, value)`. */
  function Edited(rows: seq<Row>, index: nat, edit: FieldEdit): (r: seq<Row>)
    requires index < |rows|
    ensures |r| == |rows|
    ensures edit.SetName? ==> r[index] == Row(edit.name, rows[index].quantity)
    ensures edit.SetQuantity? ==> r[index] == Row(rows[index].name, edit.quantity)
    ensures forall k :: 0 <= k < |rows| && k != index ==> r[k] == rows[k]
  {
    var row := rows[index];
    rows[index := match edit
                  case SetName(n) => row.(name := n)
                  case SetQuantity(q) => row.(quantity := q)]
  }

  /** `addMoreFields()`. */
  function WithBlankRow(rows: seq<Row>): (r: seq<Row>)
    ensures |r| == |rows| + 1 && r[..|rows|] == rows && r[|rows|] == BlankRow
  {
    rows + [BlankRow]
  }

  /**
   * `removeItem(index)`: with more than one row, the rows other than the
   * index-th, in order (an index outside the list removes nothing); with
   * one row or none, the list as it was.
   */
  function Removed(rows: seq<Row>, index: int): (r: seq<Row>)
    ensures |rows| <= 1 ==> r == rows
    ensures |rows| >= 1 ==> |r| >= 1
    ensures |rows| > 1 && 0 <= index < |rows| ==>
      |r| == |rows| - 1 && forall k :: 0 <= k < |r| ==> r[k] == rows[if k < index then k else k + 1]
    ensures !(0 <= index < |rows|) ==> r == rows
  {
    if |rows| > 1 && 0 <= index < |rows| then rows[..index] + rows[index + 1..] else rows
  }

  /** The check `!item.name || item.quantity <= 0` of one row. */
  predicate RowInvalid(row: Row) {
    row.name == "" || row.quantity <= 0
  }

  /** `items.find(RowInvalid)` finds something. */
  predicate AnyInvalid(rows: seq<Row>) {
    exists k :: 0 <= k < |rows| && RowInvalid(rows[k])
  }

  /** The request's items: each `{name, quantity}` as `{item_name, quantity}`, order and length kept. */
  function Formatted(rows: seq<Row>): (r: seq<ItemInput>)
    ensures |r| == |rows|
    ensures forall k :: 0 <= k < |rows| ==> r[k] == ItemInput(Some(rows[k].name), Some(rows[k].quantity))
  {
    seq(|rows|, k requires 0 <= k < |rows| => ItemInput(Some(rows[k].name), Some(rows[k].quantity)))
  }

  /** One analysed item as a row: name defaults to "Unknown", quantity to 1. */
  function RowOfAnalysisItem(item: Json): (r: Row)
    ensures r.name != "" && r.quantity != 0
    ensures (Member(Some(item), "Item_name").Some? && Member(Some(item), "Item_name").value.JStr? &&
             Truthy(Member(Some(item), "Item_name"))) ==> r.name == Member(Some(item), "Item_name").value.s
    ensures !Truthy(Member(Some(item), "Item_name")) ==> r.name == "Unknown"
    ensures (Member(Some(item), "quantity").Some? && Member(Some(item), "quantity").value.JNum? &&
             Truthy(Member(Some(item), "quantity"))) ==> r.quantity == Member(Some(item), "quantity").value.n
    ensures !Truthy(Member(Some(item), "quantity")) ==> r.quantity == 1
  {
    var name := Member(Some(item), "Item_name");
    var quantity := Member(Some(item), "quantity");
    Row(if name.Some? && name.value.JStr? && name.value.s != "" then name.value.s else "Unknown",
        if quantity.Some? && quantity.value.JNum? && quantity.value.n != 0 then quantity.value.n else 1)
  }

  /**
   * `handleAnalysisResult(result)`: the rows to install, or `None` when the
   * rows stay — `result.items` is not an array, or one of its entries is
   * `null` (reading `Item_name` of it throws before the rows are set).
   */
  function AnalysisRows(result: Option<Json>): (r: Option<seq<Row>>)
    ensures r.Some? ==> IsArray(Member(result, "items"))
    ensures r.Some? ==> forall k :: 0 <= k < |Member(result, "items").value.elems| ==> !Member(result, "items").value.elems[k].JNull?
    ensures (IsArray(Member(result, "items")) &&
             forall k :: 0 <= k < |Member(result, "items").value.elems| ==> !Member(result, "items").value.elems[k].JNull?) ==>
      r.Some?
    ensures r.Some? ==> var items := Member(result, "items").value.elems;
      |r.value| == |items| && forall k :: 0 <= k < |items| ==> r.value[k] == RowOfAnalysisItem(items[k])
  {
    var items := Member(result, "items");
    if Truthy(result) && IsArray(items) && forall k :: 0 <= k < |items.value.elems| ==> !items.value.elems[k].JNull? then
      var es := items.value.elems;
      Some(seq(|es|, k requires 0 <= k < |es| => RowOfAnalysisItem(es[k])))
    else None
  }

  /** What pressing "Add Items" does right away. */
  datatype Submission = Busy | Refused | Sent(request: Handlers.AppendItemsRequest)

  class AddItemModal {
    var rows: seq<Row>
    var loading: bool

    constructor ()
      ensures rows == [BlankRow] && !loading
    {
      rows := [BlankRow];
      loading := false;
    }

    method IncreaseQuantity(index: nat)
      requires index < |rows|
      modifies this
      ensures rows == Increased(old(rows), index) && loading == old(loading)
    {
      var row := rows[index];
      rows := rows[index := row.(quantity := row.quantity + 1)];
    }

    method DecreaseQuantity(index: nat)
      requires index < |rows|
      modifies this
      ensures rows == Decreased(old(rows), index) && loading == old(loading)
    {
      var row := rows[index];
      var q := if row.quantity - 1 < 1 then 1 else row.quantity - 1;
      rows := rows[index := row.(quantity := q)];
    }

    method HandleItemChange(index: nat, edit: FieldEdit)
      requires index < |rows|
      modifies this
      ensures rows == Edited(old(rows), index, edit) && loading == old(loading)
    {
      var row := rows[index];
      match edit
      case SetName(n) => rows := rows[index := row.(name := n)];
      case SetQuantity(q) => rows := rows[index := row.(quantity := q)];
    }

    method AddMoreFields()
      modifies this
      ensures rows == WithBlankRow(old(rows)) && loading == old(loading)
    {
      rows := rows + [BlankRow];
    }

    method RemoveItem(index: int)
      modifies this
      ensures rows == Removed(old(rows), index) && loading == old(loading)
    {
      if |rows| > 1 && 0 <= index < |rows| {
        rows := rows[..index] + rows[index + 1..];
      }
    }

    method HandleAnalysisResult(result: Option<Json>)
      modifies this
      ensures rows == (if AnalysisRows(result).Some? then AnalysisRows(result).value else old(rows))
      ensures loading == old(loading)
    {
      var installed := AnalysisRows(result);
      if installed.Some? {
        rows := installed.value;
      }
    }

    /**
     * `handleAddItem` up to the request: nothing while a submission is in
     * flight; refused, rows kept, when a row has an empty name or a
     * quantity of at most 0; otherwise the append request is sent.
     */
    method BeginSubmit(email: string) returns (s: Submission)
      modifies this
      ensures rows == old(rows)
      ensures old(loading) ==> s == Busy && loading
      ensures !old(loading) && AnyInvalid(old(rows)) ==> s == Refused && !loading
      ensures !old(loading) && !AnyInvalid(old(rows)) ==>
        s == Sent(Handlers.AppendItemsRequest(Some(email), Handlers.Array(Formatted(old(rows))))) && loading
    {
      if loading {
        return Busy;
      }
      loading := true;
      if AnyInvalid(rows) {
        loading := false;
        return Refused;
      }
      s := Sent(Handlers.AppendItemsRequest(Some(email), Handlers.Array(Formatted(rows))));
    }

    /** The `finally` of `handleAddItem`: success or failure, the form is reset. */
    method FinishSubmit()
      modifies this
      ensures rows == [BlankRow] && !loading
    {
      rows := [BlankRow];
      loading := false;
    }
  }

  /**
   * The request a valid form sends passes the append endpoint's validation:
   * it succeeds exactly when the user exists, and appends one item per row
   * with that row's name and quantity.
   */
  lemma ValidFormAppendsItsRows(st: Handlers.State, email: string, rows: seq<Row>)
    requires email != "" && rows != [] && !AnyInvalid(rows)
    ensures var o := Handlers.AppendItems(st, Handlers.AppendItemsRequest(Some(email), Handlers.Array(Formatted(rows))));
      && (o.response.status == 200 <==> email in st.users)
      && (o.response.status == 200 ==>
            var before := st.users[email].items;
            var after := o.state.users[email].items;
            |after| == |before| + |rows|
            && forall k :: 0 <= k < |rows| ==>
                 after[|before| + k].item_name == Some(rows[k].name)
                 && after[|before| + k].quantity == Some(rows[k].quantity)
                 && rows[k].name != "" && rows[k].quantity > 0)
  {
    var req := Handlers.AppendItemsRequest(Some(email), Handlers.Array(Formatted(rows)));
    if Handlers.AppendItems(st, req).response.status == 200 {
      HandlerProperties.AppendItemsSuccess(st, req);
      assert forall k :: 0 <= k < |rows| ==> !RowInvalid(rows[k]);
    }
  }

  /**
   * An analysis with an empty `items` array leaves no rows; submitting then
   * passes the form's check and sends an empty list, which the append
   * endpoint refuses with 400.
   */
  lemma EmptyAnalysisSendsAnEmptyList(st: Handlers.State, email: string)
    ensures AnalysisRows(Some(JObj(map["items" := JArr([])]))) == Some([])
    ensures !AnyInvalid([])
    ensures Handlers.AppendItems(st, Handlers.AppendItemsRequest(Some(email), Handlers.Array(Formatted([])))).response.status == 400
  {
    var r := AnalysisRows(Some(JObj(map["items" := JArr([])])));
    assert |r.value| == 0;
  }
}
