# Yard slot occupancy, modelled in Dafny

The application manages motorcycle parking yards ("pátios"). Each yard has a
list of parking slots, and each slot is free or holds a described motorcycle.
This project models the part of the app that has real state-management rules:

- **Slot store** (`storage.dfy`, module `Storage`). This is a per-yard cache
  over the device's key-value storage. The key is `"slots_" + patioId`.
  Reading gives the stored list. A missing key, an empty or unparsable value,
  or a failed read all give "nothing stored". Writing replaces the yard's
  whole list. A failed write is swallowed.
- **Load fallback** (`Storage.ResolveSlots`). Both screens use the persisted
  list if there is one. Otherwise they use the screen's compile-time seed list
  for the yard, and otherwise the empty list.
- **Slot mutations** (`slots.dfy`, module `Slots`). *Assign* marks every slot
  whose id matches as occupied and overwrites its four vehicle properties
  (brand, plate, color, model). *Vacate* resets every matching slot to
  `{ id, occupied: false }`, with all four properties absent. Every other slot
  is unchanged. The module also has the slot lookup behind the map screen's
  selected slot and the free-slot filter behind the entry screen.
- **Yard map screen** (`patio_map.dfy`, module `PatioMap`). This holds the seed
  table for yards `p1`, `p2` and `p3`, and the screen as a record: yard,
  slots, picked id and form. Its handlers are tap, dismiss, type, save (assign)
  and vacate. Each mutation persists the whole new list.
- **Entry screen** (`form_entry.dfy`, module `FormEntry`). It covers choosing
  a yard (which resets the pick and the form), toggling a slot pick, and
  checking a save before it happens:
  - a pick is required, and both `null` and the empty id fail the check;
  - all four fields must be non-empty.

  A valid save assigns the vehicle, persists the list and recomputes the free
  slots.

The device storage is a `map<string, Raw>`. `Raw` classifies a stored text by
what reading it gives: either text that parses to a slot list (in any
spelling, the one `saveSlots` writes included), or text that reads as no data
(empty, unparsable, or `null`). Adapter failures are boolean parameters
(`readFails`, `writeFails`). React state is an explicit record, and each
handler is a pure function from (screen, storage) to (screen, storage).

Behaviour modelled as the code has it:

- `saveSlots` never reports failure. The caller sets its new list, clears its
  pick and, on the entry screen, shows the success alert, whether or not the
  write succeeded. In that case the storage keeps its previous contents.
- The map screen's save does not check that the four fields are non-empty.
  Only the entry screen does. Empty strings are stored as present, empty
  properties.
- The entry screen's save does not check that the picked slot exists or is
  free. The buttons only offer free slots, but the handler assigns to
  whatever id is picked.
- The entry screen's own seed table has three empty placeholder lists. With
  nothing persisted, it offers no slot, even for a yard whose map screen seed
  has free slots (`FormEntry.NoSpotsWithoutData`).
- Pressing the entry screen's current yard button again does not re-run the
  load, so nothing is reset (`FormEntry.ChoosePatio`).
- Seed lookup is by exact yard id among the seed table's own keys (p1, p2,
  p3); every other id, except the names of inherited `Object.prototype`
  members (see Left out), falls back to the empty list. The app only opens these
  three yards (src/screens/PatioList.tsx lists them).

## Model

| member | source | states |
|---|---|---|
| Slots.EditForm | src/screens/PatioMap.tsx:142-163 | typing sets exactly the chosen form field and keeps the other three |
| Slots.FreeConsistentIsFreeSlot | src/storage/storage.ts:3-10 | a free slot with no vehicle property is exactly `{ id, occupied: false }` |
| Slots.Assign | src/screens/PatioMap.tsx:67-69 | same length and ids; every slot with the target id becomes occupied with the four form values present; every other slot is unchanged |
| Slots.Vacate | src/screens/PatioMap.tsx:78-80 | same length; every slot with the target id becomes `{ id, occupied: false }` with all four vehicle properties absent; every other slot is unchanged |
| Slots.NoMatchIsIdentity | src/screens/PatioMap.tsx:67-69 | when no slot carries the id, Assign and Vacate return the list unchanged |
| Slots.VacateUndoesAssign | src/screens/PatioMap.tsx:67-80 | Vacate after Assign restores slots that were `{ id, occupied: false }` |
| Slots.AssignLastWins | src/screens/PatioMap.tsx:67-69 | a second assignment to the same id fully overwrites the first |
| Slots.VacateIdempotent | src/screens/PatioMap.tsx:78-80 | vacating twice equals vacating once |
| Slots.MutationsPreserveWellFormed | src/screens/PatioMap.tsx:67-80 | unique ids and "occupied with all four properties, or free with none" survive both mutations |
| Slots.FindById | src/screens/PatioMap.tsx:54 | `find` gives nothing exactly when no slot has the id; otherwise it gives the slot at the first index carrying the id |
| Slots.Available | src/screens/FormEntry.tsx:42 | a slot is in the result exactly when it is in the list and not occupied |
| Slots.AvailableAppend | src/screens/FormEntry.tsx:42 | the filter distributes over concatenation, so it keeps the original order |
| Slots.AssignHidesTarget | src/screens/FormEntry.tsx:58-64 | after an assignment, no free slot carries the assigned id |
| Slots.AssignTakesSpotAt | src/screens/FormEntry.tsx:58-64 | in a list with distinct ids, assigning to the free slot at index i turns the free list "free slots before i, that slot, free slots after i" into "free slots before i, free slots after i": exactly that slot leaves, the others stay in order |
| Slots.AssignShrinksAvailable | src/screens/FormEntry.tsx:58-64 | assigning to a free slot, in a list with distinct ids, shrinks the free list by exactly one |
| Storage.StorageKey | src/storage/storage.ts:12-21 | the key is the fixed `slots_` prefix followed by the yard id |
| Storage.StorageKeyInjective | src/storage/storage.ts:21-40 | two yard ids share a key exactly when they are equal |
| Storage.GetSlots | src/storage/storage.ts:19-30 | gives a list exactly when the read works and the key holds text that parses to a slot list, and then gives that list; absence, empty or unparsable text and adapter errors all give nothing |
| Storage.SaveSlots | src/storage/storage.ts:37-44 | a working write puts the serialised list under the yard's key; a failed one leaves the store as it was; no other key changes |
| Storage.SaveThenGet | src/storage/storage.ts:19-41 | reading after a working save gives back the saved list |
| Storage.SaveLastWins | src/storage/storage.ts:39-40 | of two saves to one yard the second wins, and saving a list twice equals saving it once |
| Storage.SaveKeepsOtherYards | src/storage/storage.ts:40 | saving one yard never changes what another yard reads |
| Storage.FailedSaveIsInvisible | src/storage/storage.ts:41-43 | a failed save changes no later read |
| Storage.ResolveSlots | src/screens/PatioMap.tsx:60 | `stored ?? seeds[id] ?? []`: a persisted list (an empty one included) wins; with none, the yard's seed list; with neither, the empty list |
| Slots.MapMatching | src/screens/PatioMap.tsx:67-80 | the shared `slots.map(s => s.id === id ? … : s)`: same length, every slot with the id replaced by its mutated form, every other slot kept at its index |
| Storage.LoadAfterSave | src/screens/PatioMap.tsx:59-60 | after a working save the load fallback gives the saved list (an empty one included) whatever the seeds say |
| Storage.LoadWithoutData | src/screens/PatioMap.tsx:59-60 | with nothing readable stored, the load fallback gives the seed list, or the empty list for an unseeded yard |
| PatioMap.SeedsWellFormed | src/screens/PatioMap.tsx:18-43 | the seeds cover exactly p1, p2 and p3; each has six slots with distinct ids, each occupied with all four properties or free with none |
| PatioMap.SeedsOfferFreeSlots | src/screens/PatioMap.tsx:18-43 | every seed yard has a free slot |
| PatioMap.Open | src/screens/PatioMap.tsx:57-63 | the loaded screen shows the persisted list if readable, else the yard's seed, else nothing; no pick, empty form |
| PatioMap.FirstVisit | src/screens/PatioMap.tsx:59-60 | on a first visit a seeded yard shows its seed unchanged, any other yard shows no slot, and the result is well formed |
| PatioMap.Tap | src/screens/PatioMap.tsx:103 | tapping picks the slot's id and changes nothing else |
| PatioMap.Dismiss | src/screens/PatioMap.tsx:170 | closing drops the pick and keeps slots and form |
| PatioMap.Type | src/screens/PatioMap.tsx:142-163 | typing changes only the chosen field of the form |
| PatioMap.SelectedSlot | src/screens/PatioMap.tsx:54 | no selected slot exactly when nothing is picked or no slot has the picked id; otherwise the slot at the first index carrying the picked id |
| PatioMap.Save | src/screens/PatioMap.tsx:65-74 | with no selected slot, screen and storage are unchanged; otherwise the list is assigned, saved whole under the yard, and pick and form are reset |
| PatioMap.VacateSelected | src/screens/PatioMap.tsx:76-84 | with no selected slot, screen and storage are unchanged; otherwise the list is vacated, saved whole under the yard, and the pick dropped |
| PatioMap.MutationPersists | src/screens/PatioMap.tsx:70-82 | after either handler and a working write, the yard's stored list equals the screen's new list, and other yards are unchanged |
| PatioMap.ReopenShowsMutation | src/screens/PatioMap.tsx:57-82 | reopening the yard after a mutation shows the mutated list |
| PatioMap.ParkThenVacate | src/screens/PatioMap.tsx:65-84 | parking on free slots and vacating them restores the list, and the stored list equals the original |
| PatioMap.ParkInA2 | src/screens/PatioMap.tsx:19-26 | assigning Honda/ABC-1234/Red/CG160 to A2 of p1 sets exactly A2 to occupied with those values |
| FormEntry.Load | src/screens/FormEntry.tsx:37-47 | after loading, the free list matches the slots; pick and form are reset; slots are the persisted list, else empty |
| FormEntry.Open | src/screens/FormEntry.tsx:17-47 | the mounted screen is on yard p1 with no pick, an empty form, its free list in step, and the persisted list or else nothing |
| FormEntry.NoSpotsWithoutData | src/screens/FormEntry.tsx:23-42 | with nothing persisted the screen offers no slot, while every map screen seed offers one |
| FormEntry.ChoosePatio | src/screens/FormEntry.tsx:77-81 | choosing the current yard changes nothing; another yard reloads |
| FormEntry.SwitchingYardResets | src/screens/FormEntry.tsx:43-44 | switching yard drops the pick and empties all four fields |
| FormEntry.Toggle | src/screens/FormEntry.tsx:96 | tapping the picked slot drops the pick, and tapping any other slot picks it; nothing else changes |
| FormEntry.ToggleTwice | src/screens/FormEntry.tsx:96 | tapping one slot twice ends with no pick, unless it was picked before; from no pick, or from that pick, the screen is restored |
| FormEntry.Type | src/screens/FormEntry.tsx:111-135 | typing changes only the chosen field of the form |
| FormEntry.Save | src/screens/FormEntry.tsx:49-68 | no pick (null or empty id) gives SelectSpot; an empty field gives FillAllFields; neither changes screen or storage. Otherwise the slots are assigned and saved whole, the free list recomputed, pick and form reset, and Saved shown |
| FormEntry.OperationsKeepSynced | src/screens/FormEntry.tsx:40-64 | yard choice, toggling, typing and saving all keep the free list equal to the filter of the slots |
| FormEntry.RejectedSaveChangesNothing | src/screens/FormEntry.tsx:50-57 | a save that is not Saved leaves screen and storage unchanged |
| FormEntry.SaveAgreesWithPatioMap | src/screens/FormEntry.tsx:58-62 | a valid save on an existing slot gives the same list and storage as the map screen's save |
| FormEntry.SaveThenOpenMap | src/screens/FormEntry.tsx:58-67 | after a valid save with a working write, the map screen opened for the yard shows the saved list |
| FormEntry.SaveTakesSpot | src/screens/FormEntry.tsx:58-64 | a valid save into a free slot, in a list with distinct ids, removes exactly that slot from the offered free slots: the others stay in order, the list shrinks by one, and no free slot keeps the id |

## Left out

- PatioMap.Open: yard ids that name an inherited `Object.prototype` member (`"constructor"`, `"toString"`, `"__proto__"`, …) are not modelled. In the code `patiosData[patioId]` finds that member, so the fallback does not apply and the later `slots.find` throws. The model gives the empty list for them. No caller passes such an id.
- PatioMap.FirstVisit: the same ids that name an inherited `Object.prototype` member (`"constructor"`, `"toString"`, `"__proto__"`, …) are not modelled; the lemma's "any other yard shows no slot" covers only the remaining ids.
- Storage.LoadWithoutData: the same ids that name an inherited `Object.prototype` member (`"constructor"`, `"toString"`, `"__proto__"`, …) are not modelled; a seed map here has only its own keys, while the code's object literal also answers inherited names.
- FormEntry.Load: the same ids that name an inherited `Object.prototype` member (`"constructor"`, `"toString"`, `"__proto__"`, …) are not modelled; `patiosData[selectedPatio]` at src/screens/FormEntry.tsx:40 finds the inherited member instead of falling back.
- FormEntry.NoSpotsWithoutData: the same ids that name an inherited `Object.prototype` member (`"constructor"`, `"toString"`, `"__proto__"`, …) are not modelled; for them the code's load does not give the empty list.
- JSON serialisation: the storage holds the slot list a text parses to (`Raw.Serialized`) or marks text that reads as no data (`Raw.Text`); the parser itself is not modelled. Text that parses to JSON that is neither a slot list nor `null` (`"5"`, `"{}"`) is passed on unchecked by the TypeScript cast; the model does not cover that case.
- Strings: a Dafny `string` is a sequence of Unicode scalar values, while a JavaScript string is a sequence of UTF-16 code units and may hold lone surrogates, which the model cannot represent. The core only compares ids, tests strings for emptiness and builds the key by concatenation, so no stated property depends on the difference.
- The asynchronous storage adapter and the `await` ordering: reads and writes are sequential functions on a map. Adapter errors are the `readFails` and `writeFails` parameters.
- `console.error` logging on both storage paths.
- React rendering, styles, modals and hooks. The map screen shows the save form only for a free slot and the vacate button only for an occupied one, but the handlers do not check this, and the model follows the handlers.
- Alert texts, translation (`t(...)`), and navigation. `Alert.Saved` stands for the success alert and the navigation to the map screen that follows it. The entry screen's cancel button only navigates back.
- The other screens (login, home, yard list, users, units, register, preferences), the HTTP services, push notifications, theme and i18n set-up: these are network calls, UI or platform wrappers with no slot state.
