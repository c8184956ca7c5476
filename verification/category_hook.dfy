/** The category hook of hooks/useCategories.ts: the list starts empty and
    loading, is filled once from the category service, and is replaced by a
    saved list only after the save succeeded. */
module CategoryHook {
  import opened Wrappers
  import opened Types
  import opened Storage
  import opened CategoryService

  datatype CategoryState = CategoryState(categories: seq<Category>, loading: bool)

  /** The state before the load effect has run. */
  const Initial := CategoryState([], true)

  /** The hook state and the store after a call, and the error its promise
      rejects with, if any. */
  datatype CategoryStep = CategoryStep(state: CategoryState, store: Store, thrown: Option<CategorySaveError>)

  /** The load effect's `try/catch/finally` given the service call's outcome: a
      result replaces the list, a rejection keeps it; loading ends either way. */
  function ApplyLoaded(st: CategoryState, loaded: Result<seq<Category>, string>): (r: CategoryState)
    ensures !r.loading
    ensures loaded.Success? ==> r.categories == loaded.value
    ensures loaded.Failure? ==> r.categories == st.categories
  {
    match loaded
    case Success(categories) => CategoryState(categories, false)
    case Failure(_) => st.(loading := false)
  }

  /** The load effect run against the store. The service never rejects, so the
      list is always the service's answer: the stored list or the defaults. */
  function LoadCategories(st: CategoryState, store: Store, seededAt: SeedTimes, readFails: bool, writeFails: bool)
    : (r: (CategoryState, Store))
    ensures !r.0.loading
    ensures r.0.categories == DefaultCategories(seededAt) ||
      (CategoriesKey in store && store[CategoriesKey] == CategoryList(r.0.categories))
    ensures r.1 == store || r.1 == store[CategoriesKey := CategoryList(DefaultCategories(seededAt))]
  {
    var fetched := GetCategories(store, seededAt, readFails, writeFails);
    (ApplyLoaded(st, Success(fetched.categories)), fetched.store)
  }

  /** First load from the initial state: loading until then, afterwards the
      service's list and not loading. */
  lemma FirstLoad(store: Store, seededAt: SeedTimes, readFails: bool, writeFails: bool)
    ensures Initial.categories == [] && Initial.loading
    ensures LoadCategories(Initial, store, seededAt, readFails, writeFails).0
      == CategoryState(GetCategories(store, seededAt, readFails, writeFails).categories, false)
  {
  }

  /** `saveCategories`: persist, then commit; on failure the state and store are
      unchanged and the service's error is rethrown. */
  function SaveCategories(st: CategoryState, store: Store, categories: seq<Category>, writeFails: bool): (r: CategoryStep)
    ensures writeFails ==> r.state == st && r.store == store
    ensures writeFails ==> r.thrown == Some(CategorySaveError(SaveErrorMessage))
    ensures !writeFails ==> r.state == st.(categories := categories) && r.thrown == None
    ensures !writeFails ==> Get(r.store, CategoriesKey, false) == Success(CategoryList(categories))
    ensures !writeFails ==> OnlyKeyChanged(store, r.store, CategoriesKey)
  {
    match CategoryService.SaveCategories(store, categories, writeFails)
    case Failure(e) => CategoryStep(st, store, Some(e))
    case Success(s) => CategoryStep(st.(categories := categories), s, None)
  }

  /** The committed list and the stored list never disagree because of a save:
      if they agreed before, they agree after, whether the write failed or not. */
  lemma SaveKeepsStateAndStoreInStep(st: CategoryState, store: Store, categories: seq<Category>, writeFails: bool)
    requires CategoriesKey in store && store[CategoriesKey] == CategoryList(st.categories)
    ensures var r := SaveCategories(st, store, categories, writeFails);
      Get(r.store, CategoriesKey, false) == Success(CategoryList(r.state.categories))
  {
  }
}
