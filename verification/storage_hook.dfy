/** The generic storage hook of hooks/useStorage.ts: a value that starts at
    `initialValue`, is replaced by a truthy stored value on load, and is set
    optimistically before the write, so a failed write leaves memory and
    storage apart. */
module StorageHook {
  import opened Wrappers
  import opened Storage

  datatype HookState = HookState(value: Value, loading: bool)

  /** The state before the load effect has run. */
  function Init(initialValue: Value): (r: HookState)
    ensures r.value == initialValue && r.loading
  {
    HookState(initialValue, true)
  }

  /** The hook state and the store after `setValue`, and the error it rejects with. */
  datatype HookStep = HookStep(state: HookState, store: Store, thrown: Option<StorageError>)

  /** The load effect for `key`: only a truthy stored value replaces the state;
      absent, falsy or unreadable values keep it. Loading ends in every case. */
  function Load(st: HookState, store: Store, key: string, readFails: bool): (r: HookState)
    ensures !r.loading
    ensures !readFails && key in store && Truthy(store[key]) ==> r.value == store[key]
    ensures readFails || key !in store || !Truthy(store[key]) ==> r.value == st.value
  {
    match Get(store, key, readFails)
    case Success(v) => if Truthy(v) then HookState(v, false) else st.(loading := false)
    case Failure(_) => st.(loading := false)
  }

  /** `setValue`: the state takes the value first, then the write runs; its
      failure is rethrown without undoing the state. */
  function SetValue(st: HookState, store: Store, key: string, v: Value, writeFails: bool): (r: HookStep)
    ensures r.state == st.(value := v)
    ensures writeFails ==> r.store == store && r.thrown == Some(WriteError(key))
    ensures !writeFails ==> r.thrown == None && Get(r.store, key, false) == Success(v)
    ensures !writeFails ==> OnlyKeyChanged(store, r.store, key)
  {
    var optimistic := st.(value := v);
    match Put(store, key, v, writeFails)
    case Failure(e) => HookStep(optimistic, store, Some(e))
    case Success(s) => HookStep(optimistic, s, None)
  }

  /** A failed write leaves the hook showing a value that storage does not
      hold, unless storage happened to hold it already. */
  lemma FailedWriteDiverges(st: HookState, store: Store, key: string, v: Value)
    requires Get(store, key, false) != Success(v)
    ensures var r := SetValue(st, store, key, v, true);
      r.state.value == v && Get(r.store, key, false) != Success(v)
  {
  }

  /** After a reload, a falsy value written through the hook is not restored:
      the state falls back to whatever it held before the load. */
  lemma FalsyValueNotReloaded(st: HookState, store: Store, key: string, v: Value, initialValue: Value)
    requires !Truthy(v)
    ensures var written := SetValue(st, store, key, v, false).store;
      Load(Init(initialValue), written, key, false).value == initialValue
  {
  }
}
