/**
 * The order form shared by the order manager and the dashboard's order page:
 * its values, the validation schema both declare, the running total the edit
 * form shows, and the reference total `calculateOrderTotal`.
 */
module OrderPages {
  import opened Common
  import opened Catalog

  datatype Status = Paid | Unpaid

  /**
   * One row of the form. A quantity the input cannot read (`NaN`, empty) is
   * 0 here, which is what the total's `quantity || 0` makes of it.
   */
  datatype ItemForm = ItemForm(menuId: string, quantity: int, notes: Option<string>)

  datatype OrderForm = OrderForm(customerName: string, status: Status, items: seq<ItemForm>)

  /**
   * The item schema: a menu is chosen (`min(1)`, a length in UTF-16 code
   * units) and the quantity is at least 1.
   */
  function ItemValid(item: ItemForm): (b: bool)
    ensures b <==> item.menuId != "" && item.quantity >= 1
  {
    Utf16Length(item.menuId) >= 1 && item.quantity >= 1
  }

  /**
   * The order schema: a name of at least 2 UTF-16 code units and at least
   * one item, every one valid. Two characters always suffice; a single
   * character above U+FFFF does too.
   */
  function OrderFormValid(form: OrderForm): (b: bool)
    ensures b ==> |form.customerName| >= 1 && |form.items| >= 1
    ensures b ==> forall i :: 0 <= i < |form.items| ==> ItemValid(form.items[i])
    ensures |form.customerName| >= 2 && |form.items| >= 1 && (forall i :: 0 <= i < |form.items| ==> ItemValid(form.items[i])) ==> b
  {
    && Utf16Length(form.customerName) >= 2
    && |form.items| >= 1
    && forall i :: 0 <= i < |form.items| ==> ItemValid(form.items[i])
  }

  /** A character outside the Basic Multilingual Plane (U+1F600, a smiling face). */
  const Emoji: char := '\U{1F600}'

  /** `min(2)` counts code units: a name of one emoji passes, one letter does not. */
  lemma OneEmojiNameIsLongEnough(items: seq<ItemForm>)
    requires |items| >= 1 && forall i :: 0 <= i < |items| ==> ItemValid(items[i])
    ensures OrderFormValid(OrderForm([Emoji], Paid, items))
    ensures !OrderFormValid(OrderForm("a", Paid, items))
  {
    assert Utf16Length([Emoji]) == 2 + Utf16Length([Emoji][1..]);
  }

  /** `calculateOrderTotal`: every item's menu price times its quantity, summed. */
  function PricedTotal(menus: seq<Menu>, items: seq<ItemForm>): int {
    if |items| == 0 then 0
    else MenuPrice(menus, items[0].menuId) * items[0].quantity + PricedTotal(menus, items[1..])
  }

  /** The edit form's total: like `PricedTotal`, but rows without a chosen menu are skipped. */
  function EditFormTotal(menus: seq<Menu>, items: seq<ItemForm>): int {
    if |items| == 0 then 0
    else
      (if items[0].menuId == "" then 0 else MenuPrice(menus, items[0].menuId) * items[0].quantity)
      + EditFormTotal(menus, items[1..])
  }

  /** The edit total of two lists of rows is the sum of their totals. */
  lemma {:induction false} EditFormTotalAppend(menus: seq<Menu>, a: seq<ItemForm>, b: seq<ItemForm>)
    ensures EditFormTotal(menus, a + b) == EditFormTotal(menus, a) + EditFormTotal(menus, b)
    decreases |a|
  {
    if |a| == 0 {
      assert a + b == b;
    } else {
      assert (a + b)[1..] == a[1..] + b;
      EditFormTotalAppend(menus, a[1..], b);
    }
  }

  /** Adding a row with no menu chosen leaves the edit total as it was; a row with an unknown menu adds 0. */
  lemma EditFormTotalIgnoresBlankRows(menus: seq<Menu>, items: seq<ItemForm>, row: ItemForm)
    requires row.menuId == "" || Unknown(menus, row.menuId)
    ensures EditFormTotal(menus, items + [row]) == EditFormTotal(menus, items)
  {
    EditFormTotalAppend(menus, items, [row]);
  }

  /** When every row has a menu chosen, the edit total is the reference total. */
  lemma {:induction false} EditFormTotalIsPricedTotal(menus: seq<Menu>, items: seq<ItemForm>)
    requires forall i :: 0 <= i < |items| ==> items[i].menuId != ""
    ensures EditFormTotal(menus, items) == PricedTotal(menus, items)
    decreases |items|
  {
    if |items| > 0 {
      assert forall i :: 1 <= i < |items| ==> items[1..][i - 1] == items[i];
      EditFormTotalIsPricedTotal(menus, items[1..]);
    }
  }

  /** A form that passes the schema shows the reference total. */
  lemma ValidFormShowsPricedTotal(menus: seq<Menu>, form: OrderForm)
    requires OrderFormValid(form)
    ensures EditFormTotal(menus, form.items) == PricedTotal(menus, form.items)
  {
    EditFormTotalIsPricedTotal(menus, form.items);
  }

  /** With non-negative prices, a form that passes the schema never shows a negative total. */
  lemma {:induction false} ValidTotalNonNegative(menus: seq<Menu>, items: seq<ItemForm>)
    requires forall i :: 0 <= i < |menus| ==> menus[i].price >= 0
    requires forall i :: 0 <= i < |items| ==> ItemValid(items[i])
    ensures PricedTotal(menus, items) >= 0
    decreases |items|
  {
    if |items| > 0 {
      var rest := items[1..];
      forall i | 0 <= i < |rest|
        ensures ItemValid(rest[i])
      {
        assert rest[i] == items[i + 1];
      }
      ValidTotalNonNegative(menus, rest);
      var price := MenuPrice(menus, items[0].menuId);
      MenuPriceNonNegative(menus, items[0].menuId);
      assert ItemValid(items[0]);
      MulNonNegative(price, items[0].quantity);
    }
  }

  lemma MulNonNegative(a: int, b: int)
    requires a >= 0 && b >= 0
    ensures a * b >= 0
  {
  }
}
