/**
 * The create-order dialog: a draft of a customer name, a status and a list of
 * item rows, the row operations, the running total, the submit validation and
 * payload, and the rule that disables the Create button. `Date.now()` ids are
 * passed in as `now`; menu prices are whole amounts.
 */
module CreateOrder {
  import opened Common
  import opened Catalog
  import opened OrderPages

  datatype DraftItem = DraftItem(id: int, menuId: string, quantity: int, notes: string)

  datatype Draft = Draft(customerName: string, status: Status, items: seq<DraftItem>, totalAmount: int)

  /** A row with no menu chosen, quantity 1 and no notes. */
  function BlankItem(id: int): DraftItem {
    DraftItem(id, "", 1, "")
  }

  /** The dialog's first state, and the state `resetForm` returns to. */
  const Initial: Draft := Draft("", Unpaid, [BlankItem(1)], 0)

  /** `resetForm`: back to an empty name, `UNPAID`, one blank row with id 1, and total 0. */
  function Reset(d: Draft): (r: Draft)
    ensures r.customerName == "" && r.status == Unpaid && r.totalAmount == 0
    ensures |r.items| == 1 && r.items[0].id == 1 && r.items[0].menuId == ""
    ensures r.items[0].quantity == 1 && r.items[0].notes == ""
  {
    Initial
  }

  // ---------------------------------------------------------------------------
  // Rows
  // ---------------------------------------------------------------------------

  /** `addItem`: one blank row with id `Date.now()` at the end; the others are untouched. */
  function AddItem(items: seq<DraftItem>, now: int): (r: seq<DraftItem>)
    ensures |r| == |items| + 1 && r[..|items|] == items
    ensures r[|items|] == DraftItem(now, "", 1, "")
  {
    items + [BlankItem(now)]
  }

  function NotId(id: int): DraftItem -> bool {
    (it: DraftItem) => it.id != id
  }

  /** `removeItem`: drop the rows with the id, unless there is only one row. */
  function RemoveItem(items: seq<DraftItem>, id: int): (r: seq<DraftItem>)
    ensures |items| <= 1 ==> r == items
    ensures |items| > 1 ==> forall i :: 0 <= i < |r| ==> r[i].id != id && r[i] in items
    ensures |items| > 1 ==> forall i :: 0 <= i < |items| && items[i].id != id ==> items[i] in r
    ensures |items| > 1 ==> forall it :: multiset(r)[it] == if it.id != id then multiset(items)[it] else 0
    ensures IsSubsequence(r, items)
  {
    if |items| > 1 then Filter(items, NotId(id)) else (SubsequenceOfSelf(items); items)
  }

  /** Row ids are pairwise distinct. */
  predicate DistinctIds(items: seq<DraftItem>) {
    forall i, j :: 0 <= i < j < |items| ==> items[i].id != items[j].id
  }

  /**
   * Removing empties the list only when there were several rows and all of
   * them carried the removed id; with distinct ids a non-empty list stays
   * non-empty.
   */
  lemma RemoveEmptiesIff(items: seq<DraftItem>, id: int)
    ensures RemoveItem(items, id) == [] <==>
            |items| == 0 || (|items| > 1 && forall i :: 0 <= i < |items| ==> items[i].id == id)
    ensures DistinctIds(items) && |items| >= 1 ==> |RemoveItem(items, id)| >= 1
  {
    var r := RemoveItem(items, id);
    if |items| > 1 && r == [] {
      assert forall i :: 0 <= i < |items| && items[i].id != id ==> items[i] in r;
    }
    if |items| > 1 && DistinctIds(items) {
      var k := if items[0].id != id then 0 else 1;
      assert items[k].id != id;
      assert items[k] in r;
    }
  }

  /** The three fields a row's inputs edit. */
  datatype Edit = SetMenu(menuId: string) | SetQuantity(quantity: int) | SetNotes(notes: string)

  /** `{ ...item, [field]: value }`. */
  function ApplyEdit(item: DraftItem, e: Edit): (r: DraftItem)
    ensures r.id == item.id
    ensures e.SetMenu? ==> r.menuId == e.menuId && r.quantity == item.quantity && r.notes == item.notes
    ensures e.SetQuantity? ==> r.quantity == e.quantity && r.menuId == item.menuId && r.notes == item.notes
    ensures e.SetNotes? ==> r.notes == e.notes && r.menuId == item.menuId && r.quantity == item.quantity
  {
    match e
    case SetMenu(m) => item.(menuId := m)
    case SetQuantity(q) => item.(quantity := q)
    case SetNotes(n) => item.(notes := n)
  }

  /** `updateItem`: apply the edit to the rows with the id; every other row is unchanged. */
  function UpdateItem(items: seq<DraftItem>, id: int, e: Edit): (r: seq<DraftItem>)
    ensures |r| == |items|
    ensures forall i :: 0 <= i < |items| && items[i].id != id ==> r[i] == items[i]
    ensures forall i :: 0 <= i < |items| && items[i].id == id ==> r[i] == ApplyEdit(items[i], e)
  {
    seq(|items|, i requires 0 <= i < |items| => if items[i].id == id then ApplyEdit(items[i], e) else items[i])
  }

  /**
   * Editing keeps every row's id in place, so later edits and removals find
   * the same rows; and repeating an edit changes nothing more.
   */
  lemma UpdateKeepsRows(items: seq<DraftItem>, id: int, e: Edit)
    ensures var r := UpdateItem(items, id, e);
            forall i :: 0 <= i < |r| ==> r[i].id == items[i].id
    ensures UpdateItem(UpdateItem(items, id, e), id, e) == UpdateItem(items, id, e)
  {
  }

  /** Edits of two different rows can be applied in either order. */
  lemma UpdatesOfDifferentRowsCommute(items: seq<DraftItem>, a: int, ea: Edit, b: int, eb: Edit)
    requires a != b
    ensures UpdateItem(UpdateItem(items, a, ea), b, eb) == UpdateItem(UpdateItem(items, b, eb), a, ea)
  {
  }

  /** The quantity input: `parseInt(value) || 1`, so an unreadable value or 0 becomes 1. */
  function QuantityInput(typed: string): (r: int)
    ensures r != 0
    ensures ParseInt(typed).None? ==> r == 1
    ensures ParseInt(typed).Some? && ParseInt(typed).value != 0 ==> r == ParseInt(typed).value
  {
    match ParseInt(typed)
    case None => 1
    case Some(v) => if v == 0 then 1 else v
  }

  /** A typed positive count is taken as is; an empty field and `0` both give 1. */
  lemma QuantityInputExamples(n: nat)
    requires n >= 1
    ensures QuantityInput(NatToString(n)) == n
    ensures QuantityInput("") == 1 && QuantityInput("0") == 1
  {
    ParseIntOfNatToString(n);
    assert TrimStart("") == "";
    assert "0" == NatToString(0);
    ParseIntOfNatToString(0);
  }

  /** A typed negative count is kept negative. */
  lemma QuantityInputNegative(d: string)
    requires AllDigits(d) && DecimalValue(d) > 0
    ensures QuantityInput("-" + d) == -(DecimalValue(d) as int)
  {
    assert |d| > 0;
    ParseIntOfNegatedDigits(d);
  }

  /** White space typed before a count is skipped. */
  lemma QuantityInputSpaced(ws: string, d: string)
    requires IsBlank(ws) && AllDigits(d) && DecimalValue(d) > 0
    ensures QuantityInput(ws + d) == DecimalValue(d) as int
  {
    assert |d| > 0;
    ParseIntOfSpacedDigits(ws, d);
  }

  // ---------------------------------------------------------------------------
  // Total
  // ---------------------------------------------------------------------------

  /** A row counts towards the total when its menu is found and its quantity is positive. */
  predicate Priced(menus: seq<Menu>, item: DraftItem) {
    FindMenu(menus, item.menuId).Some? && item.quantity > 0
  }

  /** The total effect: price times quantity over the rows that count. */
  function Total(menus: seq<Menu>, items: seq<DraftItem>): (r: int)
    ensures (forall i :: 0 <= i < |items| ==> !Priced(menus, items[i])) ==> r == 0
    ensures (forall i :: 0 <= i < |menus| ==> menus[i].price >= 0) ==> r >= 0
  {
    if |items| == 0 then 0
    else
      var rest := items[1..];
      assert forall i :: 0 <= i < |rest| ==> rest[i] == items[i + 1];
      RowAmountNonNegative(menus, items[0]);
      RowAmount(menus, items[0]) + Total(menus, rest)
  }

  /** With non-negative prices no row adds a negative amount. */
  lemma RowAmountNonNegative(menus: seq<Menu>, item: DraftItem)
    ensures (forall i :: 0 <= i < |menus| ==> menus[i].price >= 0) ==> RowAmount(menus, item) >= 0
  {
    if Priced(menus, item) && forall i :: 0 <= i < |menus| ==> menus[i].price >= 0 {
      MenuPriceNonNegative(menus, item.menuId);
      OrderPages.MulNonNegative(MenuPrice(menus, item.menuId), item.quantity);
    }
  }

  /** What one row adds to the total: price times quantity when it counts, else nothing. */
  function RowAmount(menus: seq<Menu>, item: DraftItem): int {
    if Priced(menus, item) then MenuPrice(menus, item.menuId) * item.quantity else 0
  }

  /** The total of two lists of rows is the sum of their totals. */
  lemma {:induction false} TotalAppend(menus: seq<Menu>, a: seq<DraftItem>, b: seq<DraftItem>)
    ensures Total(menus, a + b) == Total(menus, a) + Total(menus, b)
    decreases |a|
  {
    if |a| > 0 {
      var ab := a + b;
      assert ab[0] == a[0] && ab[1..] == a[1..] + b;
      assert Total(menus, ab) == RowAmount(menus, a[0]) + Total(menus, a[1..] + b);
      assert Total(menus, a) == RowAmount(menus, a[0]) + Total(menus, a[1..]);
      TotalAppend(menus, a[1..], b);
    } else {
      assert a + b == b;
    }
  }

  /**
   * Adding a row adds exactly its amount: the total is the sum of the row
   * amounts, with unpriced rows contributing nothing.
   */
  lemma TotalAddsRow(menus: seq<Menu>, items: seq<DraftItem>, item: DraftItem)
    ensures Total(menus, items + [item]) == Total(menus, items) + RowAmount(menus, item)
    ensures Total(menus, [item]) == RowAmount(menus, item)
  {
    assert Total(menus, [item]) == RowAmount(menus, item) + Total(menus, [item][1..]);
    assert [item][1..] == [];
    TotalAppend(menus, items, [item]);
  }

  // ---------------------------------------------------------------------------
  // Submit
  // ---------------------------------------------------------------------------

  /** A row that is submitted: a menu is chosen and the quantity is positive. */
  predicate Submittable(item: DraftItem) {
    item.menuId != "" && item.quantity > 0
  }

  datatype PayloadItem = PayloadItem(menuId: string, quantity: int, notes: string)

  datatype SubmitResult =
    | NameRequired
    | ItemsRequired
    | Payload(customerName: string, status: Status, items: seq<PayloadItem>)

  function ToPayloadItem(item: DraftItem): PayloadItem {
    PayloadItem(item.menuId, item.quantity, Trim(item.notes))
  }

  /**
   * `handleSubmit` up to the request: reject a blank name, then a draft with
   * no submittable row; otherwise send the trimmed name, the status and the
   * submittable rows with trimmed notes, in order.
   */
  function Submit(d: Draft): (r: SubmitResult)
    ensures r == NameRequired <==> IsBlank(d.customerName)
    ensures r == ItemsRequired <==>
              !IsBlank(d.customerName) && forall i :: 0 <= i < |d.items| ==> !Submittable(d.items[i])
    ensures r.Payload? ==> r.customerName == Trim(d.customerName) && r.customerName != "" && r.status == d.status
    ensures r.Payload? ==>
              var valid := Filter(d.items, Submittable);
              && |r.items| == |valid| >= 1
              && forall k :: 0 <= k < |r.items| ==>
                   r.items[k] == PayloadItem(valid[k].menuId, valid[k].quantity, Trim(valid[k].notes))
  {
    TrimEmptyIffBlank(d.customerName);
    var valid := Filter(d.items, Submittable);
    NothingSubmittable(d.items);
    if Trim(d.customerName) == "" then NameRequired
    else if |valid| == 0 then ItemsRequired
    else Payload(Trim(d.customerName), d.status, PayloadItems(valid))
  }

  /** The submittable rows are none exactly when no row is submittable. */
  lemma NothingSubmittable(items: seq<DraftItem>)
    ensures Filter(items, Submittable) == [] <==> forall i :: 0 <= i < |items| ==> !Submittable(items[i])
  {
    var valid := Filter(items, Submittable);
    if valid != [] {
      assert valid[0] in items && Submittable(valid[0]);
    }
  }

  /** The rows as sent: menu, quantity and trimmed notes, in order. */
  function PayloadItems(valid: seq<DraftItem>): (r: seq<PayloadItem>)
    ensures |r| == |valid|
    ensures forall k :: 0 <= k < |r| ==> r[k] == PayloadItem(valid[k].menuId, valid[k].quantity, Trim(valid[k].notes))
  {
    seq(|valid|, k requires 0 <= k < |valid| => ToPayloadItem(valid[k]))
  }

  /** Every submitted row has a menu and a positive quantity, and the quantity survives `parseInt(quantity.toString())`. */
  lemma PayloadRowsSubmittable(d: Draft)
    requires Submit(d).Payload?
    ensures forall k :: 0 <= k < |Submit(d).items| ==>
              && Submit(d).items[k].menuId != ""
              && Submit(d).items[k].quantity > 0
              && ParseInt(NatToString(Submit(d).items[k].quantity)) == Some(Submit(d).items[k].quantity)
  {
    var items := Submit(d).items;
    var valid := Filter(d.items, Submittable);
    forall k | 0 <= k < |items|
      ensures items[k].menuId != "" && items[k].quantity > 0
      ensures ParseInt(NatToString(items[k].quantity)) == Some(items[k].quantity)
    {
      assert items[k] == PayloadItem(valid[k].menuId, valid[k].quantity, Trim(valid[k].notes));
      assert Submittable(valid[k]);
      ParseIntOfNatToString(items[k].quantity);
    }
  }

  /** A reset draft is refused for want of a name. */
  lemma ResetCannotSubmit(d: Draft)
    ensures Submit(Reset(d)) == NameRequired
    ensures Total([], Reset(d).items) == 0
  {
  }

  /** The Create button: disabled with an empty name, no row with a menu, or while loading. */
  predicate SubmitDisabled(d: Draft, loading: bool) {
    d.customerName == "" || (forall i :: 0 <= i < |d.items| ==> d.items[i].menuId == "") || loading
  }

  /** A draft that would be sent is never behind a disabled button, unless loading. */
  lemma SendableEnablesButton(d: Draft)
    requires Submit(d).Payload?
    ensures !SubmitDisabled(d, false)
  {
    var r := Submit(d);
    assert r != NameRequired && r != ItemsRequired;
    assert d.customerName != "" by {
      assert !IsBlank(d.customerName);
    }
    var i :| 0 <= i < |d.items| && Submittable(d.items[i]);
    assert d.items[i].menuId != "";
  }

  /**
   * The button does not trim: a name of one space enables it while submit
   * still refuses the draft.
   */
  lemma ButtonEnabledButRefused()
    ensures var d := Draft(" ", Unpaid, [DraftItem(1, "m", 1, "")], 0);
            !SubmitDisabled(d, false) && Submit(d) == NameRequired
  {
    var d := Draft(" ", Unpaid, [DraftItem(1, "m", 1, "")], 0);
    assert d.customerName == [' '];
    assert IsBlank(d.customerName);
    assert d.items[0].menuId != "";
  }

  /** The displayed total is the total of the rows that would be sent, provided no menu has the empty id. */
  lemma {:induction false} TotalCountsSubmittedRows(menus: seq<Menu>, items: seq<DraftItem>)
    requires Unknown(menus, "")
    ensures Total(menus, items) == Total(menus, Filter(items, Submittable))
    decreases |items|
  {
    if |items| > 0 {
      TotalCountsSubmittedRows(menus, items[1..]);
      if Submittable(items[0]) {
        assert Filter(items, Submittable) == [items[0]] + Filter(items[1..], Submittable);
        assert ([items[0]] + Filter(items[1..], Submittable))[1..] == Filter(items[1..], Submittable);
      } else {
        assert !Priced(menus, items[0]);
      }
    }
  }
}
