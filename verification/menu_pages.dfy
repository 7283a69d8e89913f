/**
 * The menu manager's category list and menu form: adopting the categories
 * from a response, naming a menu's category, and the form's validation
 * schema (shared with the dashboard's menu page).
 */
module MenuPages {
  import opened Common
  import opened PriceFormat

  datatype Category = Category(id: string, title: string)

  /** The `results` member of an object body: missing or falsy, an array, or another truthy value. */
  datatype ResultsField = NoResults | ResultsArray(list: seq<Category>) | ResultsOther

  /** A decoded category response. */
  datatype CategoryResponse =
    | ArrayBody(cats: seq<Category>)
    | ObjectBody(results: ResultsField)
    | HttpError(status: nat)
    | NetworkError(message: string)

  /** What the page keeps: the categories and the error text shown instead of them. */
  datatype CategoryState = CategoryState(categories: seq<Category>, error: Option<string>)

  const InvalidFormat: string := "Invalid data format received from server"

  /**
   * `fetchCategories` once the response is known: `data.results || data`
   * must be an array; otherwise the list is emptied and an error is shown.
   */
  function ApplyCategories(resp: CategoryResponse): (r: CategoryState)
    ensures r.error.None? <==> resp.ArrayBody? || (resp.ObjectBody? && resp.results.ResultsArray?)
    ensures resp.ArrayBody? ==> r.categories == resp.cats
    ensures resp.ObjectBody? && resp.results.ResultsArray? ==> r.categories == resp.results.list
    ensures r.error.Some? ==> r.categories == []
    ensures resp.ObjectBody? && !resp.results.ResultsArray? ==> r.error == Some(InvalidFormat)
    ensures resp.HttpError? ==> r.error == Some("Failed to fetch categories: " + NatToString(resp.status))
    ensures resp.NetworkError? ==> r.error == Some("Network error: " + resp.message)
  {
    match resp
    case ArrayBody(cats) => CategoryState(cats, None)
    case ObjectBody(ResultsArray(list)) => CategoryState(list, None)
    case ObjectBody(_) => CategoryState([], Some(InvalidFormat))
    case HttpError(status) => CategoryState([], Some("Failed to fetch categories: " + NatToString(status)))
    case NetworkError(message) => CategoryState([], Some("Network error: " + message))
  }

  /** The page never shows categories together with an error. */
  lemma CategoriesOrError(resp: CategoryResponse)
    ensures var st := ApplyCategories(resp);
            st.error.None? || st.categories == []
    ensures ApplyCategories(ObjectBody(ResultsArray([]))) == ApplyCategories(ArrayBody([]))
  {
  }

  /** `cat => cat.id === id`. */
  function CategoryHasId(id: string): Category -> bool {
    (c: Category) => c.id == id
  }

  /** `getCategoryName`: the first matching category's title, `''` when there is none. */
  function CategoryTitle(categories: seq<Category>, id: string): (r: string)
    ensures (forall i :: 0 <= i < |categories| ==> categories[i].id != id) ==> r == ""
  {
    match FindFirst(categories, CategoryHasId(id))
    case Some(c) => c.title
    case None => ""
  }

  /** A category that is listed is named by the title of its first listing. */
  lemma CategoryTitleOfListed(categories: seq<Category>, id: string, i: nat)
    requires i < |categories| && categories[i].id == id
    requires forall j :: 0 <= j < i ==> categories[j].id != id
    ensures CategoryTitle(categories, id) == categories[i].title
  {
    FindFirstAt(categories, CategoryHasId(id), i);
  }

  /** The values the menu form validates. */
  datatype MenuForm = MenuForm(title: string, description: string, price: string, isRecommend: bool, categoryId: string, image: string)

  /**
   * The menu schema: a title of at least 3 UTF-16 code units, a positive
   * price, and a category; three characters always suffice, and a title
   * needs at least two.
   */
  function MenuFormValid(form: MenuForm): (b: bool)
    ensures b ==> |form.title| >= 2 && form.categoryId != "" && PriceValid(form.price)
    ensures |form.title| >= 3 && PriceValid(form.price) && form.categoryId != "" ==> b
  {
    Utf16Length(form.title) >= 3 && PriceValid(form.price) && Utf16Length(form.categoryId) >= 1
  }

  /**
   * With the price typed into the field and blurred, the form passes iff the
   * title is long enough, a category is chosen and some typed digit is not 0.
   */
  lemma MenuFormValidAfterTyping(form: MenuForm, typed: string)
    requires form.price == OnBlur(OnChange(typed))
    ensures MenuFormValid(form) <==>
            Utf16Length(form.title) >= 3 && form.categoryId != "" && HasNonzeroDigit(DigitsOnly(typed))
  {
    StoredPriceValid(typed);
  }
}
