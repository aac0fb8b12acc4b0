/** The vehicle entry screen: the user picks a yard, picks one of its free
    slots, fills in the four vehicle fields and saves. */
module FormEntry {
  import opened Options
  import opened Slots
  import opened Storage
  import PatioMap

  /** The yards offered by the screen's buttons, the first one preselected. */
  const Patios: seq<string> := ["p1", "p2", "p3"]

  /** This screen's own seed table: the three yards are present, each with
      an empty placeholder list. */
  const EntrySeeds: map<string, seq<Slot>> := map["p1" := [], "p2" := [], "p3" := []]

  /** The screen's state. `available` is a separate piece of state that the
      screen recomputes from `slots` whenever it sets `slots`. */
  datatype EntryScreen = EntryScreen(
    patioId: string,
    slots: seq<Slot>,
    available: seq<Slot>,
    selectedId: Option<string>,
    form: VehicleForm)

  /** The alert a save attempt shows. */
  datatype Alert = SelectSpot | FillAllFields | Saved

  /** What a save attempt leaves behind. On `Saved` the screen also navigates
      to the yard map of `screen.patioId`. */
  datatype EntryStep = EntryStep(screen: EntryScreen, store: Store, alert: Alert)

  /** The screen's invariant: the free-slot list is the filter of the slot list. */
  predicate Synced(screen: EntryScreen)
  {
    screen.available == Available(screen.slots)
  }

  /** The load effect for `patioId`: the persisted list or, with nothing
      persisted, this screen's (empty) seed; the free slots recomputed; the
      pick and the form reset. */
  function Load(store: Store, patioId: string, readFails: bool): (r: EntryScreen)
    ensures Synced(r)
    ensures r.patioId == patioId && r.selectedId == None && r.form == EmptyForm
    ensures GetSlots(store, patioId, readFails).Some? ==> r.slots == GetSlots(store, patioId, readFails).value
    ensures GetSlots(store, patioId, readFails).None? ==> r.slots == []
  {
    var base := ResolveSlots(GetSlots(store, patioId, readFails), EntrySeeds, patioId);
    EntryScreen(patioId, base, Available(base), None, EmptyForm)
  }

  /** The screen as it is once mounted: the first yard loaded. */
  function Open(store: Store, readFails: bool): (r: EntryScreen)
    ensures r.patioId == "p1" && Synced(r) && r.selectedId == None && r.form == EmptyForm
    ensures GetSlots(store, "p1", readFails).Some? ==> r.slots == GetSlots(store, "p1", readFails).value
    ensures GetSlots(store, "p1", readFails).None? ==> r.slots == []
  {
    Load(store, Patios[0], readFails)
  }

  /** With nothing persisted this screen offers no slot at all, even for the
      yards the yard map seeds with free slots. */
  lemma NoSpotsWithoutData(store: Store, patioId: string, readFails: bool)
    requires readFails || StorageKey(patioId) !in store
    ensures Load(store, patioId, readFails).slots == []
    ensures Load(store, patioId, readFails).available == []
    ensures patioId in PatioMap.PatioSeeds ==> Available(PatioMap.PatioSeeds[patioId]) != []
  {
    PatioMap.SeedsOfferFreeSlots();
  }

  /** Pressing a yard button. The load effect only runs when the yard
      changes, so pressing the current yard's button changes nothing. */
  function ChoosePatio(screen: EntryScreen, store: Store, patioId: string, readFails: bool): (r: EntryScreen)
    ensures patioId == screen.patioId ==> r == screen
    ensures patioId != screen.patioId ==> r == Load(store, patioId, readFails)
  {
    if patioId == screen.patioId then screen else Load(store, patioId, readFails)
  }

  /** Switching yards drops the pick and clears all four fields. */
  lemma SwitchingYardResets(screen: EntryScreen, store: Store, patioId: string, readFails: bool)
    requires patioId != screen.patioId
    ensures ChoosePatio(screen, store, patioId, readFails).selectedId == None
    ensures ChoosePatio(screen, store, patioId, readFails).form == EmptyForm
    ensures ChoosePatio(screen, store, patioId, readFails).patioId == patioId
  {
  }

  /** Tapping a free slot: `prev === id ? null : id`. */
  function Toggle(screen: EntryScreen, id: string): (r: EntryScreen)
    ensures screen.selectedId == Some(id) ==> r.selectedId == None
    ensures screen.selectedId != Some(id) ==> r.selectedId == Some(id)
    ensures r.patioId == screen.patioId && r.slots == screen.slots
    ensures r.available == screen.available && r.form == screen.form
  {
    screen.(selectedId := if screen.selectedId == Some(id) then None else Some(id))
  }

  /** Tapping the same slot twice ends with nothing picked unless that slot
      was the one picked at the start, in which case it is picked again. */
  lemma ToggleTwice(screen: EntryScreen, id: string)
    ensures Toggle(Toggle(screen, id), id).selectedId ==
      if screen.selectedId == Some(id) then Some(id) else None
    ensures screen.selectedId.None? || screen.selectedId == Some(id) ==>
      Toggle(Toggle(screen, id), id) == screen
  {
  }

  /** Typing into one of the four inputs. */
  function Type(screen: EntryScreen, field: Field, text: string): (r: EntryScreen)
    ensures FieldValue(r.form, field) == text
    ensures forall g :: g != field ==> FieldValue(r.form, g) == FieldValue(screen.form, g)
    ensures r.patioId == screen.patioId && r.slots == screen.slots
    ensures r.available == screen.available && r.selectedId == screen.selectedId
  {
    screen.(form := EditForm(screen.form, field, text))
  }

  /** The truthiness test on the picked id: null and the empty string both fail. */
  predicate HasPick(selectedId: Option<string>)
  {
    selectedId.Some? && selectedId.value != ""
  }

  /** The truthiness test on the four fields: every one non-empty. */
  predicate Filled(form: VehicleForm)
  {
    form.brand != "" && form.plate != "" && form.color != "" && form.model != ""
  }

  /** `handleSave`. Without a pick, or with any field empty, it only alerts.
      Otherwise it assigns the vehicle to the picked id (neither the slot's
      presence nor its being free is checked again here), persists the whole
      list under the current yard, recomputes the free slots, drops the pick
      and clears the form. The write's failure is swallowed, so `Saved` is
      shown either way. */
  function Save(screen: EntryScreen, store: Store, writeFails: bool): (r: EntryStep)
    ensures !HasPick(screen.selectedId) ==> r == EntryStep(screen, store, SelectSpot)
    ensures HasPick(screen.selectedId) && !Filled(screen.form) ==> r == EntryStep(screen, store, FillAllFields)
    ensures HasPick(screen.selectedId) && Filled(screen.form) ==>
      && r.alert == Saved
      && r.screen.patioId == screen.patioId
      && r.screen.slots == Assign(screen.slots, screen.selectedId.value, screen.form)
      && Synced(r.screen)
      && r.screen.selectedId == None
      && r.screen.form == EmptyForm
      && r.store == SaveSlots(store, screen.patioId, r.screen.slots, writeFails)
  {
    if screen.selectedId.None? || screen.selectedId.value == "" then
      EntryStep(screen, store, SelectSpot)
    else if screen.form.brand == "" || screen.form.plate == "" || screen.form.color == "" || screen.form.model == "" then
      EntryStep(screen, store, FillAllFields)
    else
      var updated := Assign(screen.slots, screen.selectedId.value, screen.form);
      EntryStep(EntryScreen(screen.patioId, updated, Available(updated), None, EmptyForm),
                SaveSlots(store, screen.patioId, updated, writeFails),
                Saved)
  }

  /** Every operation keeps the free-slot list in step with the slot list. */
  lemma OperationsKeepSynced(screen: EntryScreen, store: Store, patioId: string, id: string,
                             field: Field, text: string, readFails: bool, writeFails: bool)
    requires Synced(screen)
    ensures Synced(ChoosePatio(screen, store, patioId, readFails))
    ensures Synced(Toggle(screen, id))
    ensures Synced(Type(screen, field, text))
    ensures Synced(Save(screen, store, writeFails).screen)
  {
  }

  /** A rejected save changes neither the screen nor the storage. */
  lemma RejectedSaveChangesNothing(screen: EntryScreen, store: Store, writeFails: bool)
    requires Save(screen, store, writeFails).alert != Saved
    ensures Save(screen, store, writeFails).screen == screen
    ensures Save(screen, store, writeFails).store == store
  {
  }

  /** A valid save on a slot that exists is the yard map's save on the same
      yard, slots, pick and form: the same list, stored the same way. */
  lemma SaveAgreesWithPatioMap(screen: EntryScreen, store: Store, writeFails: bool)
    requires HasPick(screen.selectedId) && Filled(screen.form)
    requires HasId(screen.slots, screen.selectedId.value)
    ensures
      var m := PatioMap.Save(PatioMap.MapScreen(screen.patioId, screen.slots, screen.selectedId, screen.form),
                             store, writeFails);
      && Save(screen, store, writeFails).screen.slots == m.screen.slots
      && Save(screen, store, writeFails).store == m.store
  {
  }

  /** After a valid save with a working write, the yard map opened for the
      same yard shows exactly the list this screen produced. */
  lemma SaveThenOpenMap(screen: EntryScreen, store: Store)
    requires HasPick(screen.selectedId) && Filled(screen.form)
    ensures
      var r := Save(screen, store, false);
      PatioMap.Open(r.store, r.screen.patioId, false).slots == r.screen.slots
  {
    var r := Save(screen, store, false);
    SaveThenGet(store, screen.patioId, r.screen.slots);
  }

  /** Saving a vehicle into a free slot, in a list with distinct ids, removes
      exactly that slot from the offered free slots and keeps the others in
      order. */
  lemma SaveTakesSpot(screen: EntryScreen, store: Store, writeFails: bool)
    requires Synced(screen) && UniqueIds(screen.slots)
    requires HasPick(screen.selectedId) && Filled(screen.form)
    requires exists i :: (0 <= i < |screen.slots| && screen.slots[i].id == screen.selectedId.value &&
                          !screen.slots[i].occupied)
    ensures var r := Save(screen, store, writeFails).screen;
      && |r.available| == |screen.available| - 1
      && (forall s :: s in r.available ==> s.id != screen.selectedId.value)
      && forall i :: 0 <= i < |screen.slots| && screen.slots[i].id == screen.selectedId.value ==>
           && screen.available == Available(screen.slots[..i]) + [screen.slots[i]] + Available(screen.slots[i + 1..])
           && r.available == Available(screen.slots[..i]) + Available(screen.slots[i + 1..])
  {
    var slots, id := screen.slots, screen.selectedId.value;
    forall i | 0 <= i < |slots| && slots[i].id == id
      ensures Available(slots) == Available(slots[..i]) + [slots[i]] + Available(slots[i + 1..])
      ensures Available(Assign(slots, id, screen.form)) == Available(slots[..i]) + Available(slots[i + 1..])
    {
      var j :| 0 <= j < |slots| && slots[j].id == id && !slots[j].occupied;
      assert i == j;
      AssignTakesSpotAt(slots, i, screen.form);
    }
    AssignShrinksAvailable(screen.slots, screen.selectedId.value, screen.form);
    AssignHidesTarget(screen.slots, screen.selectedId.value, screen.form);
  }
}
