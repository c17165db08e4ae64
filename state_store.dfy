/**
 * `load_state` / `save_state`: one persisted map from Drive file id to the `modifiedTime` last
 * seen for it, held in a JSON file. The file is modelled as an optional map (absent until the
 * first save) and a flag for its parent directory.
 */
module StateStore {
  import opened Wrappers

  type State = map<string, string>

  class Store {
    /** The content of the state file, `None` while it does not exist. */
    var persisted: Option<State>
    /** Whether the directory holding the state file exists. */
    var parentExists: bool
    /** How often the state has been read and written. */
    ghost var loads: nat
    ghost var saves: nat

    /** A store whose file does not exist yet. */
    constructor Empty()
      ensures persisted == None && !parentExists && loads == 0 && saves == 0
    {
      persisted := None;
      parentExists := false;
      loads := 0;
      saves := 0;
    }

    /** What `load_state()` returns: the persisted map, or the empty map when there is none. */
    function Current(): (m: State)
      reads this
      ensures persisted.None? ==> m == map[]
      ensures persisted.Some? ==> m == persisted.value
    {
      if persisted.Some? then persisted.value else map[]
    }

    /** `load_state()`. */
    method Load() returns (m: State)
      modifies this
      ensures m == old(Current())
      ensures persisted == old(persisted) && parentExists == old(parentExists)
      ensures loads == old(loads) + 1 && saves == old(saves)
    {
      if persisted.None? {
        m := map[];
      } else {
        m := persisted.value;
      }
      loads := loads + 1;
    }

    /** `save_state(state)`: the directory is created when missing and the whole file is
        replaced by `state`. */
    method Save(state: State)
      modifies this
      ensures persisted == Some(state) && parentExists
      ensures saves == old(saves) + 1 && loads == old(loads)
    {
      parentExists := true;
      persisted := Some(state);
      saves := saves + 1;
    }
  }

  /** Before any save, loading gives the empty map. */
  method LoadBeforeSave() returns (m: State)
    ensures m == map[]
  {
    var store := new Store.Empty();
    m := store.Load();
  }

  /** Saving into a store whose directory is missing succeeds, and loading afterwards gives back
      exactly the saved map. */
  method SaveThenLoad(store: Store, state: State) returns (m: State)
    modifies store
    ensures m == state && store.parentExists
  {
    store.Save(state);
    m := store.Load();
  }

  /** A save replaces what an earlier save wrote: nothing of the earlier map survives unless it
      is in the later one. */
  method SaveOverwrites(store: Store, first: State, second: State) returns (m: State)
    modifies store
    ensures m == second
  {
    store.Save(first);
    store.Save(second);
    m := store.Load();
  }
}
