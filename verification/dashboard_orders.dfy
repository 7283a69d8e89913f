/**
 * The dashboard's in-memory order list: search and status filter, newest
 * first ordering, the unpaid view, and the create / update / delete / status
 * change handlers. `new Date()` is passed in as `now` (milliseconds); money is
 * whole amounts.
 */
module DashboardOrders {
  import opened Common
  import opened Catalog
  import opened OrderPages
  import Sorting
  import RecordIds

  datatype StatusFilter = All | Only(status: Status)

  datatype OrderItem = OrderItem(
    id: string, quantity: int, priceAtOrderTime: int, subtotal: int, notes: Option<string>,
    menuId: string, orderId: string, menu: Option<Menu>)

  datatype Order = Order(
    id: string, customerName: string, status: Status, totalAmount: int,
    orderItems: seq<OrderItem>, createdAt: int, updatedAt: int)

  // ---------------------------------------------------------------------------
  // Viewing
  // ---------------------------------------------------------------------------

  /**
   * The search matches the customer name or the id, ignoring case, and the
   * status passes the filter; an empty search leaves only the status test.
   */
  function Matches(search: string, filter: StatusFilter, o: Order): (b: bool)
    ensures search == "" ==> (b <==> filter.All? || o.status == filter.status)
  {
    IncludesEmpty(ToLower(o.customerName));
    (Includes(ToLower(o.customerName), ToLower(search)) || Includes(ToLower(o.id), ToLower(search)))
    && (filter.All? || o.status == filter.status)
  }

  function MatchesFor(search: string, filter: StatusFilter): Order -> bool {
    (o: Order) => Matches(search, filter, o)
  }

  /** `filteredOrders`: the matching orders in list order. */
  function FilteredOrders(orders: seq<Order>, search: string, filter: StatusFilter): (r: seq<Order>)
    ensures forall i :: 0 <= i < |r| ==> r[i] in orders && Matches(search, filter, r[i])
    ensures forall i :: 0 <= i < |orders| && Matches(search, filter, orders[i]) ==> orders[i] in r
    ensures forall o :: multiset(r)[o] == if Matches(search, filter, o) then multiset(orders)[o] else 0
    ensures IsSubsequence(r, orders)
  {
    Filter(orders, MatchesFor(search, filter))
  }

  /** An empty search with the `ALL` filter shows every order. */
  lemma EmptySearchShowsAll(orders: seq<Order>)
    ensures FilteredOrders(orders, "", All) == orders
  {
    assert ToLower("") == "";
    forall i | 0 <= i < |orders|
      ensures Matches("", All, orders[i])
    {
      IncludesEmpty(ToLower(orders[i].customerName));
    }
  }

  function CreatedKey(o: Order): int {
    -o.createdAt
  }

  /** `sortedOrders`: the same orders, newest `createdAt` first. */
  function SortedOrders(filtered: seq<Order>): (r: seq<Order>)
    ensures multiset(r) == multiset(filtered)
    ensures forall i, j :: 0 <= i < j < |r| ==> r[i].createdAt >= r[j].createdAt
  {
    var r := Sorting.SortBy(filtered, CreatedKey);
    assert forall i, j :: 0 <= i < j < |r| ==> CreatedKey(r[i]) <= CreatedKey(r[j]);
    r
  }

  predicate IsUnpaid(o: Order) {
    o.status == Unpaid
  }

  /** The unpaid tab: the unpaid orders of the sorted list, in the same order. */
  function UnpaidView(sorted: seq<Order>): (r: seq<Order>)
    ensures forall i :: 0 <= i < |r| ==> r[i] in sorted && r[i].status == Unpaid
    ensures forall i :: 0 <= i < |sorted| && sorted[i].status == Unpaid ==> sorted[i] in r
    ensures forall o :: multiset(r)[o] == if o.status == Unpaid then multiset(sorted)[o] else 0
    ensures IsSubsequence(r, sorted)
  {
    Filter(sorted, IsUnpaid)
  }

  /** An order is on the unpaid tab iff it is unpaid and passes the search and filter. */
  lemma UnpaidViewMembership(orders: seq<Order>, search: string, filter: StatusFilter, o: Order)
    ensures o in UnpaidView(SortedOrders(FilteredOrders(orders, search, filter))) <==>
            o in orders && o.status == Unpaid && Matches(search, filter, o)
  {
    var f := FilteredOrders(orders, search, filter);
    var s := SortedOrders(f);
    var u := UnpaidView(s);
    assert o in u <==> multiset(u)[o] > 0;
    assert multiset(u)[o] == if o.status == Unpaid then multiset(s)[o] else 0;
    assert multiset(s)[o] == multiset(f)[o];
    assert multiset(f)[o] == if Matches(search, filter, o) then multiset(orders)[o] else 0;
    assert o in orders <==> multiset(orders)[o] > 0;
  }

  // ---------------------------------------------------------------------------
  // Creating and updating
  // ---------------------------------------------------------------------------

  /** One order line priced at the moment it is written. */
  function PriceItem(menus: seq<Menu>, item: ItemForm, id: string, orderId: string): (r: OrderItem)
    ensures r.priceAtOrderTime == MenuPrice(menus, item.menuId)
    ensures r.subtotal == r.priceAtOrderTime * item.quantity
    ensures r.quantity == item.quantity && r.menuId == item.menuId && r.notes == item.notes
    ensures r.menu == FindMenu(menus, item.menuId)
  {
    var price := MenuPrice(menus, item.menuId);
    OrderItem(id, item.quantity, price, price * item.quantity, item.notes, item.menuId, orderId, FindMenu(menus, item.menuId))
  }

  /** `new-${index}`. */
  function NewItemId(index: nat): string {
    "new-" + NatToString(index)
  }

  /** Sum of the lines' subtotals. */
  function SubtotalSum(items: seq<OrderItem>): int {
    if |items| == 0 then 0 else items[0].subtotal + SubtotalSum(items[1..])
  }

  /** The lines of a new order: ids `new-0`, `new-1`, …, all belonging to `new-order`. */
  function CreateItems(menus: seq<Menu>, items: seq<ItemForm>): (r: seq<OrderItem>)
    ensures |r| == |items|
    ensures forall k :: 0 <= k < |r| ==> r[k] == PriceItem(menus, items[k], NewItemId(k), "new-order")
  {
    seq(|items|, k requires 0 <= k < |items| => PriceItem(menus, items[k], NewItemId(k), "new-order"))
  }

  /** Lines priced from a form total to the reference total `calculateOrderTotal`. */
  lemma {:induction false} SubtotalsMatchReference(menus: seq<Menu>, items: seq<ItemForm>, lines: seq<OrderItem>)
    requires |lines| == |items|
    requires forall k :: 0 <= k < |lines| ==> lines[k].subtotal == MenuPrice(menus, items[k].menuId) * items[k].quantity
    ensures SubtotalSum(lines) == PricedTotal(menus, items)
    decreases |items|
  {
    if |items| > 0 {
      SubtotalsMatchReference(menus, items[1..], lines[1..]);
    }
  }

  /**
   * `handleCreateOrder`: append one order with id `orders.length + 1`, the
   * form's name, status and lines, total the sum of the subtotals, and both
   * timestamps `now`; the existing orders are untouched.
   */
  function CreateOrder(orders: seq<Order>, menus: seq<Menu>, form: OrderForm, now: int): (r: seq<Order>)
    ensures |r| == |orders| + 1 && r[..|orders|] == orders
    ensures var o := r[|orders|];
            && o.id == RecordIds.CountId(|orders|)
            && o.customerName == form.customerName && o.status == form.status
            && |o.orderItems| == |form.items|
            && (forall k :: 0 <= k < |form.items| ==>
                  var line := o.orderItems[k];
                  && line.id == NewItemId(k) && line.orderId == "new-order"
                  && line.menuId == form.items[k].menuId && line.quantity == form.items[k].quantity
                  && line.notes == form.items[k].notes
                  && line.priceAtOrderTime == MenuPrice(menus, form.items[k].menuId)
                  && line.subtotal == line.priceAtOrderTime * line.quantity)
            && o.totalAmount == PricedTotal(menus, form.items)
            && o.createdAt == now && o.updatedAt == now
  {
    var lines := CreateItems(menus, form.items);
    SubtotalsMatchReference(menus, form.items, lines);
    orders + [Order(RecordIds.CountId(|orders|), form.customerName, form.status, SubtotalSum(lines), lines, now, now)]
  }

  /** The id of line `k` on update: the current order's line `k` if it has one, else `new-k`. */
  function KeptItemId(current: Order, k: nat): (r: string)
    ensures k < |current.orderItems| ==> r == current.orderItems[k].id
    ensures k >= |current.orderItems| ==> r == NewItemId(k)
  {
    if k < |current.orderItems| then current.orderItems[k].id else NewItemId(k)
  }

  /** The updated lines, owned by the current order. */
  function UpdateItems(menus: seq<Menu>, current: Order, items: seq<ItemForm>): (r: seq<OrderItem>)
    ensures |r| == |items|
    ensures forall k :: 0 <= k < |r| ==> r[k] == PriceItem(menus, items[k], KeptItemId(current, k), current.id)
  {
    seq(|items|, k requires 0 <= k < |items| => PriceItem(menus, items[k], KeptItemId(current, k), current.id))
  }

  /**
   * `handleUpdateOrder`: nothing without a current order; otherwise every
   * order with the current id takes the form's name, status and lines, the
   * recomputed total and `updatedAt = now`, keeping its id and `createdAt`;
   * every other order is untouched.
   */
  function UpdateOrder(orders: seq<Order>, current: Option<Order>, menus: seq<Menu>, form: OrderForm, now: int): (r: seq<Order>)
    ensures current.None? ==> r == orders
    ensures |r| == |orders|
    ensures current.Some? ==> forall i :: 0 <= i < |orders| && orders[i].id != current.value.id ==> r[i] == orders[i]
    ensures current.Some? ==> forall i :: 0 <= i < |orders| && orders[i].id == current.value.id ==>
              && r[i].id == orders[i].id && r[i].createdAt == orders[i].createdAt
              && r[i].customerName == form.customerName && r[i].status == form.status
              && r[i].orderItems == UpdateItems(menus, current.value, form.items)
              && r[i].totalAmount == PricedTotal(menus, form.items)
              && r[i].updatedAt == now
  {
    match current
    case None => orders
    case Some(cur) =>
      var lines := UpdateItems(menus, cur, form.items);
      SubtotalsMatchReference(menus, form.items, lines);
      var total := SubtotalSum(lines);
      seq(|orders|, i requires 0 <= i < |orders| =>
        if orders[i].id == cur.id
        then orders[i].(customerName := form.customerName, status := form.status, totalAmount := total,
                        orderItems := lines, updatedAt := now)
        else orders[i])
  }

  /** Updating with an unchanged line count keeps every line id. */
  lemma UpdateKeepsLineIds(orders: seq<Order>, cur: Order, menus: seq<Menu>, form: OrderForm, now: int, i: nat)
    requires i < |orders| && orders[i].id == cur.id
    requires |form.items| == |cur.orderItems|
    ensures var o := UpdateOrder(orders, Some(cur), menus, form, now)[i];
            forall k :: 0 <= k < |o.orderItems| ==> o.orderItems[k].id == cur.orderItems[k].id
  {
  }

  // ---------------------------------------------------------------------------
  // Deleting and changing status
  // ---------------------------------------------------------------------------

  function OrderId(o: Order): string {
    o.id
  }

  /** `handleDeleteOrder`: drop every order with the id; the rest stay, each as often as before and in order. */
  function DeleteOrder(orders: seq<Order>, id: string): (r: seq<Order>)
    ensures forall i :: 0 <= i < |r| ==> r[i].id != id && r[i] in orders
    ensures forall i :: 0 <= i < |orders| && orders[i].id != id ==> orders[i] in r
    ensures forall o :: multiset(r)[o] == if o.id != id then multiset(orders)[o] else 0
    ensures IsSubsequence(r, orders)
  {
    RecordIds.DeleteById(orders, id, OrderId)
  }

  /** `handleStatusChange`: the orders with the id take the status and `updatedAt = now`; nothing else changes. */
  function ChangeStatus(orders: seq<Order>, id: string, status: Status, now: int): (r: seq<Order>)
    ensures |r| == |orders|
    ensures forall i :: 0 <= i < |orders| && orders[i].id != id ==> r[i] == orders[i]
    ensures forall i :: 0 <= i < |orders| && orders[i].id == id ==>
              r[i] == orders[i].(status := status, updatedAt := now)
  {
    seq(|orders|, i requires 0 <= i < |orders| =>
      if orders[i].id == id then orders[i].(status := status, updatedAt := now) else orders[i])
  }

  /** Marking an order paid takes it off the unpaid tab and leaves the others there as they were. */
  lemma MarkPaidLeavesUnpaidView(orders: seq<Order>, id: string, now: int, search: string)
    ensures var after := UnpaidView(SortedOrders(FilteredOrders(ChangeStatus(orders, id, Paid, now), search, All)));
            && (forall i :: 0 <= i < |after| ==> after[i].id != id)
            && (forall o :: o in orders && o.id != id && o.status == Unpaid && Matches(search, All, o) ==> o in after)
  {
    var changed := ChangeStatus(orders, id, Paid, now);
    var after := UnpaidView(SortedOrders(FilteredOrders(changed, search, All)));
    forall i | 0 <= i < |after|
      ensures after[i].id != id
    {
      PaidOrderOffUnpaidView(orders, id, now, search, after[i]);
    }
    forall o | o in orders && o.id != id && o.status == Unpaid && Matches(search, All, o)
      ensures o in after
    {
      OtherOrderStaysOnUnpaidView(orders, id, now, search, o);
    }
  }

  /** After marking `id` paid, no order on the unpaid tab has that id. */
  lemma PaidOrderOffUnpaidView(orders: seq<Order>, id: string, now: int, search: string, o: Order)
    requires o in UnpaidView(SortedOrders(FilteredOrders(ChangeStatus(orders, id, Paid, now), search, All)))
    ensures o.id != id
  {
    var changed := ChangeStatus(orders, id, Paid, now);
    UnpaidViewMembership(changed, search, All, o);
    var j :| 0 <= j < |changed| && changed[j] == o;
  }

  /** Marking `id` paid keeps every other unpaid match on the unpaid tab. */
  lemma OtherOrderStaysOnUnpaidView(orders: seq<Order>, id: string, now: int, search: string, o: Order)
    requires o in orders && o.id != id && o.status == Unpaid && Matches(search, All, o)
    ensures o in UnpaidView(SortedOrders(FilteredOrders(ChangeStatus(orders, id, Paid, now), search, All)))
  {
    var changed := ChangeStatus(orders, id, Paid, now);
    var j :| 0 <= j < |orders| && orders[j] == o;
    assert changed[j] == o;
    UnpaidViewMembership(changed, search, All, o);
  }

  /** Setting the same status twice at the same time is the same as setting it once. */
  lemma ChangeStatusIdempotent(orders: seq<Order>, id: string, status: Status, now: int)
    ensures ChangeStatus(ChangeStatus(orders, id, status, now), id, status, now) == ChangeStatus(orders, id, status, now)
  {
  }

  // ---------------------------------------------------------------------------
  // The id collision
  // ---------------------------------------------------------------------------

  /** Create with the corrected id: one more than the largest numeric id in the list. */
  function CreateOrderFreshId(orders: seq<Order>, menus: seq<Menu>, form: OrderForm, now: int): (r: seq<Order>)
    ensures |r| == |orders| + 1 && r[..|orders|] == orders
    ensures forall i :: 0 <= i < |orders| ==> orders[i].id != r[|orders|].id
    ensures r[|orders|].totalAmount == PricedTotal(menus, form.items)
  {
    var ids := seq(|orders|, i requires 0 <= i < |orders| => orders[i].id);
    var id := RecordIds.FreshNumericId(ids);
    assert forall i :: 0 <= i < |orders| ==> orders[i].id == ids[i];
    var lines := CreateItems(menus, form.items);
    SubtotalsMatchReference(menus, form.items, lines);
    orders + [Order(id, form.customerName, form.status, SubtotalSum(lines), lines, now, now)]
  }

  /** With the corrected id, deleting the new order removes exactly that order. */
  lemma DeleteFreshOrderRemovesOnlyIt(orders: seq<Order>, menus: seq<Menu>, form: OrderForm, now: int)
    ensures var created := CreateOrderFreshId(orders, menus, form, now);
            DeleteOrder(created, created[|orders|].id) == DeleteOrder(orders, created[|orders|].id)
    ensures var created := CreateOrderFreshId(orders, menus, form, now);
            forall i :: 0 <= i < |orders| ==> orders[i] in DeleteOrder(created, created[|orders|].id)
  {
    var created := CreateOrderFreshId(orders, menus, form, now);
    assert created == orders + [created[|orders|]];
    RecordIds.DeleteAppendedFreshId(orders, created[|orders|], OrderId);
  }

  /**
   * As written, the id repeats after a delete: from orders `1` and `2`,
   * deleting `1` and creating gives a second order `2`.
   */
  lemma CreatedIdCollidesAfterDelete(a: Order, b: Order, menus: seq<Menu>, form: OrderForm, now: int)
    requires a.id == "1" && b.id == "2"
    ensures var left := DeleteOrder([a, b], "1");
            var created := CreateOrder(left, menus, form, now);
            && left == [b]
            && created[1].id == "2" == created[0].id
  {
    DeleteFirstOfTwo(a, b);
    CreateAfterOneOrder(b, menus, form, now);
  }

  /** Deleting `1` from orders `1` and `2` leaves order `2`. */
  lemma DeleteFirstOfTwo(a: Order, b: Order)
    requires a.id == "1" && b.id == "2"
    ensures DeleteOrder([a, b], "1") == [b]
  {
    assert [a, b] == [a] + [b];
    assert OrderId(a) == "1";
    assert OrderId(b) != "1" by {
      assert OrderId(b)[0] == '2';
    }
    RecordIds.DeleteDropsMatchingHead(a, [b], OrderId);
    assert RecordIds.DeleteById([b], "1", OrderId) == [b];
  }

  /** Deleting the repeated id `2` then removes both orders that carry it. */
  lemma DeleteCollidingIdRemovesBoth(b: Order, menus: seq<Menu>, form: OrderForm, now: int)
    requires b.id == "2"
    ensures DeleteOrder(CreateOrder([b], menus, form, now), "2") == []
  {
    var created := CreateOrder([b], menus, form, now);
    CreateAfterOneOrder(b, menus, form, now);
    var n := created[1];
    assert forall i :: 0 <= i < |[b, n]| ==> OrderId([b, n][i]) == "2";
    RecordIds.DeleteSharedIdEmpties([b, n], "2", OrderId);
  }

  /** Creating after a single order gives the new order id `2`, next to the one kept. */
  lemma CreateAfterOneOrder(b: Order, menus: seq<Menu>, form: OrderForm, now: int)
    ensures var created := CreateOrder([b], menus, form, now);
            |created| == 2 && created == [b, created[1]] && created[1].id == "2"
  {
    RecordIds.CountIdRepeatsAfterDelete();
    var created := CreateOrder([b], menus, form, now);
    assert created[..1] == [b];
  }
}
