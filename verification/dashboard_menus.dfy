/**
 * The dashboard's in-memory menu list: search and category filter, category
 * names, and the create / update / delete handlers. A menu's price is what
 * `parseFloat` makes of the form's price text.
 */
module DashboardMenus {
  import opened Common
  import opened PriceFormat
  import opened MenuPages
  import RecordIds

  datatype Menu = Menu(
    id: string, title: string, description: Option<string>, price: Number,
    isRecommend: bool, categoryId: string, image: string)

  const PlaceholderImage: string := "/api/placeholder/800/450"

  // ---------------------------------------------------------------------------
  // Viewing
  // ---------------------------------------------------------------------------

  /**
   * The search term is in the title or in the description (when there is
   * one), ignoring case; an empty search matches every menu, and a term
   * longer than both texts matches none.
   */
  function MatchesSearch(search: string, m: Menu): (b: bool)
    ensures search == "" ==> b
    ensures b ==> |search| <= |m.title| || (m.description.Some? && |search| <= |m.description.value|)
  {
    IncludesEmpty(ToLower(m.title));
    || Includes(ToLower(m.title), ToLower(search))
    || (m.description.Some? && Includes(ToLower(m.description.value), ToLower(search)))
  }

  /** A selected category (a non-empty id) must be the menu's; none selected lets every menu through. */
  function MatchesCategory(selected: Option<string>, m: Menu): (b: bool)
    ensures selected.None? || selected == Some("") ==> b
    ensures b && selected.Some? && selected.value != "" ==> m.categoryId == selected.value
    ensures selected.Some? && m.categoryId == selected.value ==> b
  {
    selected.None? || selected.value == "" || m.categoryId == selected.value
  }

  function MatchesFor(search: string, selected: Option<string>): Menu -> bool {
    (m: Menu) => MatchesSearch(search, m) && MatchesCategory(selected, m)
  }

  /** `filteredMenus`: the menus passing both tests, in list order. */
  function FilteredMenus(menus: seq<Menu>, search: string, selected: Option<string>): (r: seq<Menu>)
    ensures forall i :: 0 <= i < |r| ==> r[i] in menus && MatchesSearch(search, r[i]) && MatchesCategory(selected, r[i])
    ensures forall i :: 0 <= i < |menus| && MatchesSearch(search, menus[i]) && MatchesCategory(selected, menus[i]) ==> menus[i] in r
    ensures forall m :: multiset(r)[m] ==
              if MatchesSearch(search, m) && MatchesCategory(selected, m) then multiset(menus)[m] else 0
    ensures IsSubsequence(r, menus)
  {
    Filter(menus, MatchesFor(search, selected))
  }

  /** With no search term and no category selected, every menu is shown. */
  lemma NoFilterShowsAll(menus: seq<Menu>)
    ensures FilteredMenus(menus, "", None) == menus
  {
    assert ToLower("") == "";
    forall i | 0 <= i < |menus|
      ensures MatchesSearch("", menus[i])
    {
      IncludesEmpty(ToLower(menus[i].title));
    }
  }

  /** Selecting a category shows exactly the matching menus of that category. */
  lemma CategoryFilterMembership(menus: seq<Menu>, search: string, cat: string, m: Menu)
    requires cat != ""
    ensures m in FilteredMenus(menus, search, Some(cat)) <==> m in menus && m.categoryId == cat && MatchesSearch(search, m)
  {
    var r := FilteredMenus(menus, search, Some(cat));
    if m in r {
      var i :| 0 <= i < |r| && r[i] == m;
    }
    if m in menus && m.categoryId == cat && MatchesSearch(search, m) {
      var i :| 0 <= i < |menus| && menus[i] == m;
    }
  }

  /** `getCategoryName`: the first matching category's title, `'Unknown'` when there is none. */
  function CategoryName(categories: seq<Category>, id: string): (r: string)
    ensures (forall i :: 0 <= i < |categories| ==> categories[i].id != id) ==> r == "Unknown"
    ensures (exists i :: 0 <= i < |categories| && categories[i].id == id) ==>
              exists i :: 0 <= i < |categories| && categories[i].id == id && categories[i].title == r
  {
    match FindFirst(categories, CategoryHasId(id))
    case Some(c) => c.title
    case None => "Unknown"
  }

  /** The dashboard's name for a listed category agrees with the menu manager's. */
  lemma CategoryNameOfListed(categories: seq<Category>, id: string, i: nat)
    requires i < |categories| && categories[i].id == id
    requires forall j :: 0 <= j < i ==> categories[j].id != id
    ensures CategoryName(categories, id) == categories[i].title == CategoryTitle(categories, id)
  {
    FindFirstAt(categories, CategoryHasId(id), i);
    CategoryTitleOfListed(categories, id, i);
  }

  // ---------------------------------------------------------------------------
  // Creating, updating and deleting
  // ---------------------------------------------------------------------------

  /** `description || null`: an empty description is stored as none. */
  function StoredDescription(d: string): (r: Option<string>)
    ensures r.None? <==> d == ""
    ensures r.Some? ==> r.value == d
  {
    if d == "" then None else Some(d)
  }

  /** `image || fallback`. */
  function ImageOr(image: string, fallback: string): (r: string)
    ensures image != "" ==> r == image
    ensures image == "" ==> r == fallback
  {
    if image == "" then fallback else image
  }

  /** The menu a create submission builds under the given id. */
  function NewMenu(id: string, form: MenuForm): (r: Menu)
    ensures r.id == id && r.title == form.title && r.categoryId == form.categoryId
    ensures r.isRecommend == form.isRecommend && r.price == ParseFloat(form.price)
    ensures r.description == StoredDescription(form.description)
    ensures r.image != ""
  {
    Menu(id, form.title, StoredDescription(form.description), ParseFloat(form.price),
         form.isRecommend, form.categoryId, ImageOr(form.image, PlaceholderImage))
  }

  /** `handleCreateMenu`: append the new menu with id `menus.length + 1`; the rest is untouched. */
  function CreateMenu(menus: seq<Menu>, form: MenuForm): (r: seq<Menu>)
    ensures |r| == |menus| + 1 && r[..|menus|] == menus
    ensures r[|menus|] == NewMenu(RecordIds.CountId(|menus|), form)
  {
    menus + [NewMenu(RecordIds.CountId(|menus|), form)]
  }

  /** A menu created from a form that passes the schema has a positive price and a non-empty image. */
  lemma CreatedFromValidForm(menus: seq<Menu>, form: MenuForm)
    requires MenuFormValid(form)
    ensures var m := CreateMenu(menus, form)[|menus|];
            m.price.Num? && Value(m.price) > 0.0 && Utf16Length(m.title) >= 3 && m.categoryId != "" && m.image != ""
  {
  }

  /** The fields of `m` as an update with `form` rewrites them; id and a blank image are kept. */
  function UpdatedMenu(m: Menu, form: MenuForm): (r: Menu)
    ensures r.id == m.id
    ensures r.image == ImageOr(form.image, m.image)
    ensures r == NewMenu(m.id, form).(image := ImageOr(form.image, m.image))
  {
    m.(title := form.title, description := StoredDescription(form.description), price := ParseFloat(form.price),
       isRecommend := form.isRecommend, categoryId := form.categoryId, image := ImageOr(form.image, m.image))
  }

  /** `handleUpdateMenu`: nothing without a current menu; otherwise every menu with its id is rewritten. */
  function UpdateMenu(menus: seq<Menu>, current: Option<Menu>, form: MenuForm): (r: seq<Menu>)
    ensures current.None? ==> r == menus
    ensures |r| == |menus|
    ensures current.Some? ==> forall i :: 0 <= i < |menus| ==>
              r[i] == if menus[i].id == current.value.id then UpdatedMenu(menus[i], form) else menus[i]
  {
    match current
    case None => menus
    case Some(cur) =>
      seq(|menus|, i requires 0 <= i < |menus| =>
        if menus[i].id == cur.id then UpdatedMenu(menus[i], form) else menus[i])
  }

  /** Submitting the same edit twice is the same as submitting it once. */
  lemma UpdateMenuIdempotent(menus: seq<Menu>, current: Option<Menu>, form: MenuForm)
    ensures UpdateMenu(UpdateMenu(menus, current, form), current, form) == UpdateMenu(menus, current, form)
  {
  }

  /** An edit with a blank image field keeps each edited menu's picture. */
  lemma BlankImageKeepsPicture(menus: seq<Menu>, cur: Menu, form: MenuForm)
    requires form.image == ""
    ensures var r := UpdateMenu(menus, Some(cur), form);
            forall i :: 0 <= i < |menus| ==> r[i].image == menus[i].image && r[i].id == menus[i].id
  {
  }

  function MenuId(m: Menu): string {
    m.id
  }

  /** `handleDeleteMenu`: drop every menu with the id; the rest stay, each as often as before and in order. */
  function DeleteMenu(menus: seq<Menu>, id: string): (r: seq<Menu>)
    ensures forall i :: 0 <= i < |r| ==> r[i].id != id && r[i] in menus
    ensures forall i :: 0 <= i < |menus| && menus[i].id != id ==> menus[i] in r
    ensures forall m :: multiset(r)[m] == if m.id != id then multiset(menus)[m] else 0
    ensures IsSubsequence(r, menus)
  {
    RecordIds.DeleteById(menus, id, MenuId)
  }

  /** Deleting an id no menu has changes nothing. */
  lemma DeleteUnknownIdKeepsAll(menus: seq<Menu>, id: string)
    requires forall i :: 0 <= i < |menus| ==> menus[i].id != id
    ensures DeleteMenu(menus, id) == menus
  {
  }

  // ---------------------------------------------------------------------------
  // The id collision
  // ---------------------------------------------------------------------------

  function Ids(menus: seq<Menu>): (r: seq<string>)
    ensures |r| == |menus| && forall i :: 0 <= i < |menus| ==> r[i] == menus[i].id
  {
    seq(|menus|, i requires 0 <= i < |menus| => menus[i].id)
  }

  /** Create with the corrected id: one more than the largest numeric id in the list. */
  function CreateMenuFreshId(menus: seq<Menu>, form: MenuForm): (r: seq<Menu>)
    ensures |r| == |menus| + 1 && r[..|menus|] == menus
    ensures forall i :: 0 <= i < |menus| ==> menus[i].id != r[|menus|].id
    ensures r[|menus|] == NewMenu(r[|menus|].id, form)
  {
    menus + [NewMenu(RecordIds.FreshNumericId(Ids(menus)), form)]
  }

  /** With the corrected id, deleting the new menu gives back the list as it was. */
  lemma DeleteFreshMenuRestores(menus: seq<Menu>, form: MenuForm)
    ensures var created := CreateMenuFreshId(menus, form);
            DeleteMenu(created, created[|menus|].id) == menus
  {
    var created := CreateMenuFreshId(menus, form);
    assert created == menus + [created[|menus|]];
    RecordIds.DeleteAppendedFreshId(menus, created[|menus|], MenuId);
  }


  /**
   * As written, the id repeats after a delete: from menus `1` and `2`,
   * deleting `1` and creating gives a second menu `2`.
   */
  lemma CreatedIdCollidesAfterDelete(a: Menu, b: Menu, form: MenuForm)
    requires a.id == "1" && b.id == "2"
    ensures var left := DeleteMenu([a, b], "1");
            var created := CreateMenu(left, form);
            && left == [b]
            && created[0].id == created[1].id == "2"
  {
    assert [a, b] == [a] + [b];
    RecordIds.DeleteDropsMatchingHead(a, [b], MenuId);
    RecordIds.CountIdRepeatsAfterDelete();
  }
}
