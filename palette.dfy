/** The palette switcher: it picks the colour palette from the `theme` parameter of the URL hash,
    then from local storage, then from the site's default, shows it through the root element's
    `data-palette` attribute with its key sanitised, and persists every later choice to the
    attribute, the storage and the hash. Hash parameters are a map, their URL encoding aside. */
module Palette {
  import opened Wrappers
  import opened Seqs
  import opened Storage

  const ThemeStorageKey := "flux-palette-theme"
  const ThemeParam := "theme"

  /** `[a-zA-Z0-9_-]`. */
  predicate IsKeyChar(c: char) {
    ('a' <= c <= 'z') || ('A' <= c <= 'Z') || ('0' <= c <= '9') || c == '_' || c == '-'
  }

  /** `String(key).replace(/[^a-zA-Z0-9_-]/g, '')`. */
  function Sanitize(s: string): (r: string)
    ensures |r| <= |s|
    ensures forall i :: 0 <= i < |r| ==> IsKeyChar(r[i])
  {
    if s == [] then [] else (if IsKeyChar(s[0]) then [s[0]] else []) + Sanitize(s[1..])
  }

  /** Sanitising text piece by piece is sanitising it whole. */
  lemma {:induction false} SanitizeAppend(a: string, b: string)
    ensures Sanitize(a + b) == Sanitize(a) + Sanitize(b)
  {
    if a != [] {
      assert (a + b)[1..] == a[1..] + b;
      SanitizeAppend(a[1..], b);
    } else {
      assert a + b == b;
    }
  }

  /** The sanitised key is the input with every character outside `[a-zA-Z0-9_-]` removed: its
      remaining characters in their order, and every allowed character kept. */
  lemma {:induction false} SanitizeRemovesOnlyOthers(s: string)
    ensures IsSubseq(Sanitize(s), s)
    ensures forall i :: 0 <= i < |s| && IsKeyChar(s[i]) ==> s[i] in Sanitize(s)
  {
    if s != [] {
      SanitizeRemovesOnlyOthers(s[1..]);
      var rest := Sanitize(s[1..]);
      if IsKeyChar(s[0]) {
        assert Sanitize(s) == [s[0]] + rest;
        assert Sanitize(s)[1..] == rest;
      } else {
        assert Sanitize(s) == rest;
        SkipHeadSubseq(rest, s);
      }
      forall i | 0 <= i < |s| && IsKeyChar(s[i]) ensures s[i] in Sanitize(s) {
        if i > 0 { assert s[i] == s[1..][i - 1]; }
      }
    }
  }

  /** A key made of allowed characters only is left as it is, and only such a key: so sanitising
      twice is sanitising once. */
  lemma {:induction false} SanitizeFixedIff(s: string)
    ensures Sanitize(s) == s <==> forall i :: 0 <= i < |s| ==> IsKeyChar(s[i])
  {
    if s != [] {
      SanitizeFixedIff(s[1..]);
      if IsKeyChar(s[0]) {
        assert Sanitize(s) == [s[0]] + Sanitize(s[1..]);
        assert (forall i :: 0 <= i < |s| ==> IsKeyChar(s[i])) <==> forall i :: 0 <= i < |s[1..]| ==> IsKeyChar(s[1..][i]) by {
          if forall i :: 0 <= i < |s[1..]| ==> IsKeyChar(s[1..][i]) {
            forall i | 0 <= i < |s| ensures IsKeyChar(s[i]) { if i > 0 { assert s[i] == s[1..][i - 1]; } }
          }
        }
      } else {
        assert |Sanitize(s)| < |s|;
      }
    }
  }

  lemma SanitizeIdempotent(s: string)
    ensures Sanitize(Sanitize(s)) == Sanitize(s)
  {
    SanitizeFixedIff(Sanitize(s));
  }

  /** `x || y` on strings that may be missing. */
  function Truthy(v: Option<string>): bool {
    v.Some? && v.value != ""
  }

  /** `hashget.get('theme') || localStorage.getItem('flux-palette-theme') || defaultKey`. */
  function InitialKey(hashTheme: Option<string>, stored: Option<string>, defaultKey: string): string {
    if Truthy(hashTheme) then hashTheme.value else if Truthy(stored) then stored.value else defaultKey
  }

  /** The hash's `theme` parameter wins when it is non-empty; otherwise the stored key when it is
      non-empty; otherwise the default. */
  lemma InitialKeyPrecedence(hashTheme: Option<string>, stored: Option<string>, defaultKey: string)
    ensures forall h :: hashTheme == Some(h) && h != "" ==> InitialKey(hashTheme, stored, defaultKey) == h
    ensures !Truthy(hashTheme) ==>
      forall v :: stored == Some(v) && v != "" ==> InitialKey(hashTheme, stored, defaultKey) == v
    ensures !Truthy(hashTheme) && !Truthy(stored) ==> InitialKey(hashTheme, stored, defaultKey) == defaultKey
  {
  }

  function HashGet(params: map<string, string>, name: string): Option<string> {
    if name in params then Some(params[name]) else None
  }

  /** What the page shows and stores after `apply(key)`: the attribute, the storage and the hash
      parameters. */
  datatype Shown = Shown(attribute: Option<string>, store: Store, hash: map<string, string>)

  function Applied(s: Shown, key: string): Shown {
    if key == "" then s
    else
      var clean := Sanitize(key);
      Shown(Some(clean), Write(s.store, ThemeStorageKey, clean), s.hash[ThemeParam := clean])
  }

  /** `apply` with an empty key changes nothing; otherwise the attribute, the stored key (when the
      storage is available) and the hash's `theme` all hold the same sanitised key, and no other
      stored key or hash parameter changes. */
  lemma AppliedSpec(s: Shown, key: string, otherKey: string, otherParam: string)
    ensures key == "" ==> Applied(s, key) == s
    ensures key != "" ==> var t := Applied(s, key);
      && t.attribute == Some(Sanitize(key))
      && HashGet(t.hash, ThemeParam) == Some(Sanitize(key))
      && (s.store.available ==> Read(t.store, ThemeStorageKey) == Some(Sanitize(key)))
      && (otherKey != ThemeStorageKey ==> Read(t.store, otherKey) == Read(s.store, otherKey))
      && (otherParam != ThemeParam ==> HashGet(t.hash, otherParam) == HashGet(s.hash, otherParam))
  {
    if key != "" {
      ReadWrite(s.store, ThemeStorageKey, Sanitize(key), otherKey);
    }
  }

  /** Round trip: after `apply(key)`, the switcher set up again on the same page starts with the
      sanitised key, or with the default when nothing of the key survives sanitising. */
  lemma ApplyThenInit(s: Shown, key: string, defaultKey: string)
    requires key != ""
    ensures var t := Applied(s, key);
      InitialKey(HashGet(t.hash, ThemeParam), Read(t.store, ThemeStorageKey), defaultKey)
        == (if Sanitize(key) != "" then Sanitize(key) else defaultKey)
  {
    ReadWrite(s.store, ThemeStorageKey, Sanitize(key), ThemeStorageKey);
  }

  /** The `paletteSwitcher` component, with the parts of the page it writes: the root element's
      `data-palette` attribute, the URL hash's parameters, and local storage. */
  class PaletteSwitcher {
    var currentPalette: string
    var attribute: Option<string>
    var hash: map<string, string>
    const storage: KeyValueStore
    const defaultKey: string

    function Page(): Shown
      reads this, storage
    {
      Shown(attribute, storage.State(), hash)
    }

    /** `Alpine.data('paletteSwitcher', (palettes, defaultKey) => ...)` on a page whose hash has the
        parameters `hash` and whose root element has the attribute `attribute`. */
    constructor (defaultKey: string, storage: KeyValueStore, hash: map<string, string>, attribute: Option<string>)
      ensures this.defaultKey == defaultKey && this.storage == storage
      ensures currentPalette == defaultKey && this.hash == hash && this.attribute == attribute
    {
      this.defaultKey := defaultKey;
      this.storage := storage;
      this.hash := hash;
      this.attribute := attribute;
      currentPalette := defaultKey;
    }

    /** `init`: picks the key by precedence; `currentPalette` gets the key as it is, the attribute
        the sanitised key. */
    method Init()
      modifies this
      ensures currentPalette == InitialKey(HashGet(old(hash), ThemeParam), Read(storage.State(), ThemeStorageKey), defaultKey)
      ensures attribute == Some(Sanitize(currentPalette))
      ensures hash == old(hash)
    {
      var stored := storage.GetItem(ThemeStorageKey);
      var key := InitialKey(HashGet(hash, ThemeParam), stored, defaultKey);
      currentPalette := key;
      attribute := Some(Sanitize(key));
    }

    /** `apply(key)`. */
    method Apply(key: string)
      modifies this, storage
      ensures Page() == Applied(old(Page()), key)
      ensures currentPalette == old(currentPalette)
    {
      if key == "" {
        return;
      }
      var cleanKey := Sanitize(key);
      attribute := Some(cleanKey);
      storage.SetItem(ThemeStorageKey, cleanKey);
      hash := hash[ThemeParam := cleanKey];
    }

    /** The user picks a palette: `currentPalette` changes and the watcher registered by `init`
        applies the new key (Alpine runs a watcher only when the value changes). */
    method Choose(newKey: string)
      modifies this, storage
      ensures currentPalette == newKey
      ensures Page() == if newKey == old(currentPalette) then old(Page()) else Applied(old(Page()), newKey)
    {
      if newKey != currentPalette {
        currentPalette := newKey;
        Apply(newKey);
      }
    }
  }
}
