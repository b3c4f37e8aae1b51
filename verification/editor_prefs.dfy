/**
 The editor's persistent preference store, reduced to its boolean entries.
 Keys that were never written are absent; a read of an absent key yields the
 caller's default.
 */
module EditorPrefs {

  type Store = map<string, bool>

  /** Reads `key`, falling back to `default` when the key was never written. */
  function GetBool(store: Store, key: string, default: bool): (r: bool)
    ensures key in store ==> r == store[key]
    ensures key !in store ==> r == default
  {
    if key in store then store[key] else default
  }

  /** Writes `value` under `key`; every other key keeps its entry. */
  function SetBool(store: Store, key: string, value: bool): (r: Store)
    ensures r.Keys == store.Keys + {key}
    ensures r[key] == value
    ensures forall k :: k in store && k != key ==> r[k] == store[k]
  {
    store[key := value]
  }

  /** A read after a write returns the written value, whatever the default. */
  lemma ReadYourWrite(store: Store, key: string, value: bool, default: bool)
    ensures GetBool(SetBool(store, key, value), key, default) == value
  {
  }

  /** A write under one key is invisible to reads of every other key. */
  lemma WriteIsolated(store: Store, key: string, other: string, value: bool, default: bool)
    requires other != key
    ensures GetBool(SetBool(store, key, value), other, default) == GetBool(store, other, default)
  {
  }
}
