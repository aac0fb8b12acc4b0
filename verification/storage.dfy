/** The per-yard slot store over the device's key-value storage, and the
    load fallback both screens apply to what it returns. */
module Storage {
  import opened Options
  import opened Slots

  /** Namespace of every slot-list key. */
  const KeyPrefix: string := "slots_"

  /** The key both `getSlots` and `saveSlots` derive from a yard id. */
  function StorageKey(patioId: string): (k: string)
    ensures |k| == |KeyPrefix| + |patioId|
    ensures k[..|KeyPrefix|] == KeyPrefix
    ensures k[|KeyPrefix|..] == patioId
  {
    KeyPrefix + patioId
  }

  /** The prefix is fixed, so distinct yard ids never share a key. */
  lemma StorageKeyInjective(a: string, b: string)
    ensures StorageKey(a) == StorageKey(b) <==> a == b
  {
    if StorageKey(a) == StorageKey(b) {
      assert a == StorageKey(a)[|KeyPrefix|..];
    }
  }

  /** A value held by the key-value storage, classified by what reading it
      gives. `Serialized(l)` is any text the JSON parser turns into the slot
      list `l`, whatever its spacing or key order; the text `saveSlots`
      writes for `l` is one of them. `Text(t)` is text that reads as no data:
      the empty string (falsy), text the parser rejects, or `null`. */
  datatype Raw = Serialized(slots: seq<Slot>) | Text(text: string)

  /** The device's key-value storage. Keys outside the `slots_` namespace may
      be present; the slot store never touches them. */
  type Store = map<string, Raw>

  /** `getSlots(patioId)`. `readFails` stands for the storage adapter
      rejecting the read. Every failure reads as "nothing stored"; none
      escapes. The store is a parameter only: reading never changes it. */
  function GetSlots(store: Store, patioId: string, readFails: bool): (r: Option<seq<Slot>>)
    ensures r.Some? <==> !readFails && StorageKey(patioId) in store && store[StorageKey(patioId)].Serialized?
    ensures r.Some? ==> r.value == store[StorageKey(patioId)].slots
  {
    var key := StorageKey(patioId);
    if readFails then None
    else if key !in store then None
    else match store[key]
      case Serialized(l) => Some(l)
      case Text(_) => None
  }

  /** `saveSlots(patioId, slots)`: the whole list replaces whatever was stored
      for the yard. `writeFails` stands for the adapter rejecting the write;
      the error is swallowed, so the caller sees no difference, and the store
      keeps its previous contents. */
  function SaveSlots(store: Store, patioId: string, slots: seq<Slot>, writeFails: bool): (r: Store)
    ensures writeFails ==> r == store
    ensures !writeFails ==> r.Keys == store.Keys + {StorageKey(patioId)}
    ensures !writeFails ==> r[StorageKey(patioId)] == Serialized(slots)
    ensures forall k :: k in store && k != StorageKey(patioId) ==> k in r && r[k] == store[k]
  {
    if writeFails then store else store[StorageKey(patioId) := Serialized(slots)]
  }

  /** A saved list reads back unchanged, an empty list included. */
  lemma SaveThenGet(store: Store, patioId: string, slots: seq<Slot>)
    ensures GetSlots(SaveSlots(store, patioId, slots, false), patioId, false) == Some(slots)
  {
  }

  /** The last write wins, and writing the same list twice is writing it once. */
  lemma SaveLastWins(store: Store, patioId: string, first: seq<Slot>, second: seq<Slot>)
    ensures SaveSlots(SaveSlots(store, patioId, first, false), patioId, second, false)
         == SaveSlots(store, patioId, second, false)
    ensures SaveSlots(SaveSlots(store, patioId, second, false), patioId, second, false)
         == SaveSlots(store, patioId, second, false)
  {
  }

  /** Saving one yard leaves what every other yard reads unchanged. */
  lemma SaveKeepsOtherYards(store: Store, patioId: string, other: string, slots: seq<Slot>,
                            writeFails: bool, readFails: bool)
    requires other != patioId
    ensures GetSlots(SaveSlots(store, patioId, slots, writeFails), other, readFails)
         == GetSlots(store, other, readFails)
  {
    StorageKeyInjective(patioId, other);
  }

  /** A failed write changes nothing a later read can see. */
  lemma FailedSaveIsInvisible(store: Store, patioId: string, other: string, slots: seq<Slot>, readFails: bool)
    ensures GetSlots(SaveSlots(store, patioId, slots, true), other, readFails) == GetSlots(store, other, readFails)
  {
  }

  /** `stored ?? seeds[patioId] ?? []`: the persisted list when there is one,
      else the seed list for the yard, else nothing. */
  function ResolveSlots(stored: Option<seq<Slot>>, seeds: map<string, seq<Slot>>, patioId: string): (r: seq<Slot>)
    ensures stored.Some? ==> r == stored.value
    ensures stored.None? && patioId in seeds ==> r == seeds[patioId]
    ensures stored.None? && patioId !in seeds ==> r == []
  {
    match stored
    case Some(l) => l
    case None => if patioId in seeds then seeds[patioId] else []
  }

  /** Loading right after a successful save gives the saved list whatever the
      seeds say, even when the saved list is empty. */
  lemma LoadAfterSave(store: Store, seeds: map<string, seq<Slot>>, patioId: string, slots: seq<Slot>)
    ensures ResolveSlots(GetSlots(SaveSlots(store, patioId, slots, false), patioId, false), seeds, patioId) == slots
  {
    SaveThenGet(store, patioId, slots);
  }

  /** When nothing readable is stored (absent key, empty or unparsable text,
      or a failed read), loading gives the seed list or else the empty list. */
  lemma LoadWithoutData(store: Store, seeds: map<string, seq<Slot>>, patioId: string, readFails: bool)
    requires readFails || StorageKey(patioId) !in store || store[StorageKey(patioId)].Text?
    ensures ResolveSlots(GetSlots(store, patioId, readFails), seeds, patioId)
         == if patioId in seeds then seeds[patioId] else []
  {
  }
}
