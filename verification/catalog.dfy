/**
 * The menu list as the order pages see it, and the two lookups both order
 * managers define on it: `getMenuPrice` (price of the first menu with the id,
 * else 0) and `getMenuTitle` (its title, else `'Unknown'`). Prices are whole
 * amounts of the currency's smallest unit.
 */
module Catalog {
  import opened Common

  datatype Menu = Menu(id: string, title: string, price: int, categoryId: string)

  /** `menu => menu.id === id`. */
  function HasId(id: string): Menu -> bool {
    (m: Menu) => m.id == id
  }

  /** No menu in the list has the id. */
  predicate Unknown(menus: seq<Menu>, id: string) {
    forall i :: 0 <= i < |menus| ==> menus[i].id != id
  }

  /** `menus.find(menu => menu.id === id)`. */
  function FindMenu(menus: seq<Menu>, id: string): (r: Option<Menu>)
    ensures r.None? <==> Unknown(menus, id)
    ensures r.Some? ==> r.value in menus && r.value.id == id
  {
    FindFirst(menus, HasId(id))
  }

  /** `getMenuPrice`: the price of the menu with the id, 0 when there is none. */
  function MenuPrice(menus: seq<Menu>, id: string): (r: int)
    ensures Unknown(menus, id) ==> r == 0
    ensures !Unknown(menus, id) ==> exists i :: 0 <= i < |menus| && menus[i].id == id && menus[i].price == r
  {
    match FindMenu(menus, id)
    case Some(m) => m.price
    case None => 0
  }

  /** `getMenuTitle`: the title of the menu with the id, `'Unknown'` when there is none. */
  function MenuTitle(menus: seq<Menu>, id: string): (r: string)
    ensures Unknown(menus, id) ==> r == "Unknown"
    ensures !Unknown(menus, id) ==> exists i :: 0 <= i < |menus| && menus[i].id == id && menus[i].title == r
  {
    match FindMenu(menus, id)
    case Some(m) => m.title
    case None => "Unknown"
  }

  /** When several menus share an id, the lookups read the first of them. */
  lemma LookupReadsFirstMatch(menus: seq<Menu>, id: string, i: nat)
    requires i < |menus| && menus[i].id == id
    requires forall j :: 0 <= j < i ==> menus[j].id != id
    ensures FindMenu(menus, id) == Some(menus[i])
    ensures MenuPrice(menus, id) == menus[i].price
    ensures MenuTitle(menus, id) == menus[i].title
  {
    FindFirstAt(menus, HasId(id), i);
  }

  /** Prices that are never negative give lookups that are never negative. */
  lemma MenuPriceNonNegative(menus: seq<Menu>, id: string)
    requires forall i :: 0 <= i < |menus| ==> menus[i].price >= 0
    ensures MenuPrice(menus, id) >= 0
  {
  }
}
