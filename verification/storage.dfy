/** The persistence adapter (services/storageService.ts over AsyncStorage) as an
    abstract key-value map whose every read and write may fail. Whether a call
    fails is a parameter: the device storage is outside the model. */
module Storage {
  import opened Types
  import opened Wrappers

  /** The two keys the app writes. Their actual strings live in
      constants/StorageKeys.ts, which is not part of this model; only their
      distinctness matters. */
  const TodosKey := "todos"
  const CategoriesKey := "categories"

  /** A stored JSON value, after parsing. Arrays of todos and of categories are
      the shapes the app writes; the scalars give `useStorage` its generic `T`. */
  datatype Value =
    | Null
    | Bool(b: bool)
    | Num(n: int)
    | Str(s: string)
    | TodoList(todos: seq<Todo>)
    | CategoryList(categories: seq<Category>)

  /** JavaScript truthiness: `null`, `false`, `0` and `''` are falsy; every array,
      empty or not, is truthy. */
  predicate Truthy(v: Value) {
    match v
    case Null => false
    case Bool(b) => b
    case Num(n) => n != 0
    case Str(s) => |s| > 0
    case TodoList(_) => true
    case CategoryList(_) => true
  }

  type Store = map<string, Value>

  /** Every key other than `key` is still there, holding the same value. */
  predicate OnlyKeyChanged(before: Store, after: Store, key: string) {
    forall k :: k in before && k != key ==> k in after && after[k] == before[k]
  }

  /** `Error retrieving data for key ...` and `Error saving data for key ...`. */
  datatype StorageError = ReadError(key: string) | WriteError(key: string)

  /** `StorageService.getData(key)`: a key never written reads as `null`; a
      failing read rejects with a read error for that key. */
  function Get(store: Store, key: string, fails: bool): (r: Result<Value, StorageError>)
    ensures r.Failure? <==> fails
    ensures r.Failure? ==> r.error == ReadError(key)
    ensures r.Success? ==> (key in store ==> r.value == store[key]) && (key !in store ==> r.value == Null)
  {
    if fails then Failure(ReadError(key))
    else if key in store then Success(store[key])
    else Success(Null)
  }

  /** `StorageService.saveData(key, value)`: replaces whatever the key held; a
      failing write rejects with a write error and leaves the store as it was. */
  function Put(store: Store, key: string, v: Value, fails: bool): (r: Result<Store, StorageError>)
    ensures r.Failure? <==> fails
    ensures r.Failure? ==> r.error == WriteError(key)
    ensures r.Success? ==> r.value.Keys == store.Keys + {key}
    ensures r.Success? ==> OnlyKeyChanged(store, r.value, key)
  {
    if fails then Failure(WriteError(key)) else Success(store[key := v])
  }

  /** A successful write is read back verbatim. */
  lemma GetAfterPut(store: Store, key: string, v: Value)
    ensures Put(store, key, v, false).Success?
    ensures Get(Put(store, key, v, false).value, key, false) == Success(v)
  {
  }

  /** A write to one key is invisible under every other key. */
  lemma PutIsolated(store: Store, key: string, v: Value, other: string, fails: bool)
    requires other != key
    ensures Put(store, key, v, false).Success?
    ensures Get(Put(store, key, v, false).value, other, fails) == Get(store, other, fails)
  {
  }
}
