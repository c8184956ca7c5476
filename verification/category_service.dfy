/** The category service of services/categoryService.ts: reading the category
    list with seed-on-absent and fall-back-to-defaults on any failure, and
    saving a list with its storage error replaced by a generic one. */
module CategoryService {
  import opened Wrappers
  import opened Types
  import opened Storage

  /** The list handed back and the store after the call. */
  datatype Fetched = Fetched(categories: seq<Category>, store: Store)

  /** `new Error('Error saving categories')`. */
  datatype CategorySaveError = CategorySaveError(message: string)

  const SaveErrorMessage := "Error saving categories"

  /** `getCategories`. It never rejects. A falsy stored value (never written,
      or `null`) is seeded with the defaults, which are returned even when the
      seeding write fails; a stored list, even an empty one, is returned as it
      is with no write; a failed read, or a stored value that is not a category
      list, yields the defaults. */
  function GetCategories(store: Store, seededAt: SeedTimes, readFails: bool, writeFails: bool): (r: Fetched)
    ensures r.categories == DefaultCategories(seededAt) ||
      (CategoriesKey in store && store[CategoriesKey] == CategoryList(r.categories))
    ensures readFails ==> r == Fetched(DefaultCategories(seededAt), store)
    ensures !readFails && CategoriesKey in store && store[CategoriesKey].CategoryList? ==>
      r == Fetched(store[CategoriesKey].categories, store)
    ensures !readFails && (CategoriesKey !in store || !Truthy(store[CategoriesKey])) ==>
      r.categories == DefaultCategories(seededAt) &&
      (writeFails ==> r.store == store) &&
      (!writeFails ==> Get(r.store, CategoriesKey, false) == Success(CategoryList(DefaultCategories(seededAt))))
    ensures r.store != store ==> r.store == store[CategoriesKey := CategoryList(DefaultCategories(seededAt))]
  {
    var defaults := DefaultCategories(seededAt);
    match Get(store, CategoriesKey, readFails)
    case Failure(_) => Fetched(defaults, store)
    case Success(v) =>
      if !Truthy(v) then
        match Put(store, CategoriesKey, CategoryList(defaults), writeFails)
        case Failure(_) => Fetched(defaults, store)
        case Success(s) => Fetched(defaults, s)
      else if v.CategoryList? then Fetched(v.categories, store)
      else Fetched(defaults, store)
  }

  /** `saveCategories`: the list is stored verbatim under the categories key; a
      failed write rejects with the generic error and changes nothing. */
  function SaveCategories(store: Store, categories: seq<Category>, writeFails: bool): (r: Result<Store, CategorySaveError>)
    ensures writeFails <==> r.Failure?
    ensures r.Failure? ==> r.error.message == SaveErrorMessage
    ensures r.Success? ==> Get(r.value, CategoriesKey, false) == Success(CategoryList(categories))
    ensures r.Success? ==> OnlyKeyChanged(store, r.value, CategoriesKey)
  {
    match Put(store, CategoriesKey, CategoryList(categories), writeFails)
    case Failure(_) => Failure(CategorySaveError(SaveErrorMessage))
    case Success(s) => Success(s)
  }

  /** Seeding happens once: after a successful seed, the next read returns the
      same defaults without writing again. */
  lemma SeedOnce(store: Store, seededAt: SeedTimes, writeFails: bool)
    requires CategoriesKey !in store
    ensures var first := GetCategories(store, seededAt, false, false);
      GetCategories(first.store, seededAt, false, writeFails) == first
  {
  }

  /** A saved list is what the next read returns, with no write. */
  lemma SaveThenGet(store: Store, categories: seq<Category>, seededAt: SeedTimes, writeFails: bool)
    ensures SaveCategories(store, categories, false).Success?
    ensures var saved := SaveCategories(store, categories, false).value;
      GetCategories(saved, seededAt, false, writeFails) == Fetched(categories, saved)
  {
  }
}
