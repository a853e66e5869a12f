/** A collapsible sidebar section: it starts open unless session storage says otherwise, toggles,
    and writes its state back to session storage on every change. */
module Sidebar {
  import opened Wrappers
  import opened Storage

  /** `` `flux-sidebar-${id}` ``. */
  function StorageKey(id: string): string {
    "flux-sidebar-" + id
  }

  /** Sections with different ids never share a storage key. */
  lemma StorageKeyInjective(a: string, b: string)
    ensures StorageKey(a) == StorageKey(b) ==> a == b
  {
    if StorageKey(a) == StorageKey(b) {
      assert a == StorageKey(a)[13..];
    }
  }

  /** `stored === null ? true : (stored === 'true')`. */
  function InitialOpen(stored: Option<string>): bool {
    stored.None? || stored.value == "true"
  }

  /** `sessionStorage.setItem(key, val)` stores `String(val)`. */
  function BoolString(b: bool): string {
    if b then "true" else "false"
  }

  /** With nothing stored a section starts open; with a stored value it starts open exactly when the
      value is `true`. */
  lemma InitialOpenSpec(stored: Option<string>)
    ensures stored.None? ==> InitialOpen(stored)
    ensures forall v :: stored == Some(v) ==> (InitialOpen(stored) <==> v == "true")
  {
  }

  /** Round trip: the value a section writes is read back as the same state when a section with the
      same id is set up again, and a section with another id still sees what it saw before. */
  lemma StoredStateRestores(st: Store, id: string, open: bool, otherId: string)
    requires st.available
    ensures InitialOpen(Read(Write(st, StorageKey(id), BoolString(open)), StorageKey(id))) == open
    ensures otherId != id ==>
      InitialOpen(Read(Write(st, StorageKey(id), BoolString(open)), StorageKey(otherId)))
        == InitialOpen(Read(st, StorageKey(otherId)))
  {
    ReadWrite(st, StorageKey(id), BoolString(open), StorageKey(otherId));
    StorageKeyInjective(id, otherId);
  }

  /** The `sidebarSection` component. Its watcher, registered by `init`, writes `String(open)` to
      session storage whenever `open` changes; the only change is `toggle`. */
  class SidebarSection {
    const id: string
    const key: string
    var open: bool
    const storage: KeyValueStore

    /** `Alpine.data('sidebarSection', id => ...)`: the section reads its stored state. Session
        storage must be usable: reading it when it is not throws, and the section is not created. */
    constructor (id: string, storage: KeyValueStore)
      requires storage.available
      ensures this.id == id && key == StorageKey(id) && this.storage == storage
      ensures open == InitialOpen(Read(storage.State(), StorageKey(id)))
    {
      this.id := id;
      key := StorageKey(id);
      this.storage := storage;
      var stored := storage.GetItem(StorageKey(id));
      open := InitialOpen(stored);
    }

    /** `toggle`, followed by the watcher's write. */
    method Toggle()
      modifies this, storage
      ensures open == !old(open)
      ensures storage.State() == Write(old(storage.State()), key, BoolString(open))
    {
      open := !open;
      storage.SetItem(key, BoolString(open));
    }
  }

  /** Toggling twice restores the section's state, and the value stored after each toggle brings
      back that state when the section is set up again. */
  method ToggleTwice(section: SidebarSection)
    requires section.storage.available && section.key == StorageKey(section.id)
    modifies section, section.storage
    ensures section.open == old(section.open)
    ensures InitialOpen(Read(section.storage.State(), StorageKey(section.id))) == section.open
  {
    section.Toggle();
    ghost var between := section.storage.State();
    section.Toggle();
    StoredStateRestores(between, section.id, section.open, section.id);
  }
}
