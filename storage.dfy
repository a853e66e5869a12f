/** The browser's key-value stores (`localStorage`, `sessionStorage`): string values under string
    keys. A store that is not available (storage disabled by the browser) reads as empty, and a
    write to it is lost. */
module Storage {
  import opened Wrappers

  /** The contents of a store and whether the browser lets the page use it. */
  datatype Store = Store(entries: map<string, string>, available: bool)

  /** `getItem(key)`, with `None` for `null`. */
  function Read(st: Store, key: string): Option<string> {
    if st.available && key in st.entries then Some(st.entries[key]) else None
  }

  /** `setItem(key, value)`. */
  function Write(st: Store, key: string, value: string): Store {
    if st.available then st.(entries := st.entries[key := value]) else st
  }

  /** On an available store, a value written is read back under its key, and every other key is
      left as it was; on an unavailable store nothing is ever read. */
  lemma ReadWrite(st: Store, key: string, value: string, other: string)
    ensures st.available ==> Read(Write(st, key, value), key) == Some(value)
    ensures other != key ==> Read(Write(st, key, value), other) == Read(st, other)
    ensures !st.available ==> Read(Write(st, key, value), other) == None
  {
  }

  /** A store shared by the scripts of one page. */
  class KeyValueStore {
    var entries: map<string, string>
    var available: bool

    function State(): Store
      reads this
    {
      Store(entries, available)
    }

    constructor (initial: Store)
      ensures State() == initial
    {
      entries, available := initial.entries, initial.available;
    }

    method GetItem(key: string) returns (value: Option<string>)
      ensures value == Read(State(), key)
    {
      if available && key in entries {
        value := Some(entries[key]);
      } else {
        value := None;
      }
    }

    method SetItem(key: string, value: string)
      modifies this
      ensures State() == Write(old(State()), key, value)
    {
      if available {
        entries := entries[key := value];
      }
    }
  }
}
