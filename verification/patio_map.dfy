/** The yard map screen: its seed table, the list it loads for a yard, the
    slot the user has picked, and its two mutations, each persisting the
    whole new list. */
module PatioMap {
  import opened Options
  import opened Slots
  import opened Storage

  /** A seed slot holding a motorcycle. */
  function Parked(id: string, brand: string, plate: string, color: string, model: string): Slot
  {
    Slot(id, true, Some(brand), Some(plate), Some(color), Some(model))
  }

  /** The seed list of yard `p1`. */
  const SeedP1: seq<Slot> := [
      Parked("A1", "Honda", "ABC-1234", "Vermelho", "CG 160"),
      FreeSlot("A2"),
      Parked("B1", "Yamaha", "XYZ-5678", "Preto", "YZF R3"),
      FreeSlot("B2"),
      Parked("C1", "Suzuki", "JKL-9012", "Azul", "GSX-S750"),
      FreeSlot("C2")]

  const SeedP2: seq<Slot> := [
      Parked("D1", "Ducati", "DUC-2025", "Branco", "Panigale V4"),
      Parked("D2", "Kawasaki", "KAW-4455", "Verde", "Ninja ZX-10R"),
      FreeSlot("E1"),
      FreeSlot("E2"),
      Parked("F1", "BMW", "BMW-7890", "Preto", "S1000RR"),
      FreeSlot("F2")]

  const SeedP3: seq<Slot> := [
      FreeSlot("G1"),
      FreeSlot("G2"),
      Parked("H1", "Triumph", "TRI-3333", "Azul", "Street Triple"),
      Parked("H2", "Harley", "HAR-6666", "Preto", "Iron 883"),
      FreeSlot("I1"),
      Parked("I2", "KTM", "KTM-1111", "Laranja", "Duke 390")]

  /** The compile-time seed lists, keyed by yard id. */
  const PatioSeeds: map<string, seq<Slot>> := map["p1" := SeedP1, "p2" := SeedP2, "p3" := SeedP3]

  /** Every seed yard has six slots with distinct ids, each slot either
      occupied with all four vehicle properties or free with none. */
  lemma SeedsWellFormed()
    ensures PatioSeeds.Keys == {"p1", "p2", "p3"}
    ensures forall y :: y in PatioSeeds ==> |PatioSeeds[y]| == 6 && WellFormedYard(PatioSeeds[y])
  {
    forall y | y in PatioSeeds ensures WellFormedYard(PatioSeeds[y]) {
      var slots := PatioSeeds[y];
      forall i, j | 0 <= i < j < |slots| ensures slots[i].id != slots[j].id {
        assert slots[i].id[0] != slots[j].id[0] || slots[i].id[1] != slots[j].id[1];
      }
    }
  }

  /** Every seed yard has at least one free slot to offer. */
  lemma SeedsOfferFreeSlots()
    ensures forall y :: y in PatioSeeds ==> Available(PatioSeeds[y]) != []
  {
    forall y | y in PatioSeeds ensures Available(PatioSeeds[y]) != [] {
      var seed, k := PatioSeeds[y], if y == "p1" then 1 else if y == "p2" then 2 else 0;
      assert !seed[k].occupied;
      FreeSlotIsOffered(seed, k);
    }
  }

  /** The screen's state: its yard, its copy of the yard's slots, the id of
      the slot the user picked, and the form of the assignment dialog. */
  datatype MapScreen = MapScreen(patioId: string, slots: seq<Slot>, selectedId: Option<string>, form: VehicleForm)

  /** What a handler leaves behind: the screen and the device storage. */
  datatype MapStep = MapStep(screen: MapScreen, store: Store)

  /** The screen for `patioId` once its load effect has run: nothing picked,
      an empty form, and the persisted list, the seed, or the empty list. */
  function Open(store: Store, patioId: string, readFails: bool): (r: MapScreen)
    ensures r.patioId == patioId && r.selectedId == None && r.form == EmptyForm
    ensures GetSlots(store, patioId, readFails).Some? ==> r.slots == GetSlots(store, patioId, readFails).value
    ensures GetSlots(store, patioId, readFails).None? ==>
      r.slots == if patioId in PatioSeeds then PatioSeeds[patioId] else []
  {
    MapScreen(patioId, ResolveSlots(GetSlots(store, patioId, readFails), PatioSeeds, patioId), None, EmptyForm)
  }

  /** On a first visit (nothing persisted) a seeded yard shows its seed list
      and any other yard shows no slot. */
  lemma FirstVisit(store: Store, patioId: string)
    requires StorageKey(patioId) !in store
    ensures patioId in PatioSeeds ==> Open(store, patioId, false).slots == PatioSeeds[patioId]
    ensures patioId !in PatioSeeds ==> Open(store, patioId, false).slots == []
    ensures WellFormedYard(Open(store, patioId, false).slots)
  {
    SeedsWellFormed();
  }

  /** Tapping a slot in the grid picks it. */
  function Tap(screen: MapScreen, id: string): (r: MapScreen)
    ensures r.selectedId == Some(id)
    ensures r.patioId == screen.patioId && r.slots == screen.slots && r.form == screen.form
  {
    screen.(selectedId := Some(id))
  }

  /** Closing the dialog drops the pick; the form is kept. */
  function Dismiss(screen: MapScreen): (r: MapScreen)
    ensures r.selectedId == None
    ensures r.patioId == screen.patioId && r.slots == screen.slots && r.form == screen.form
  {
    screen.(selectedId := None)
  }

  /** Typing into the assignment dialog. */
  function Type(screen: MapScreen, field: Field, text: string): (r: MapScreen)
    ensures FieldValue(r.form, field) == text
    ensures forall g :: g != field ==> FieldValue(r.form, g) == FieldValue(screen.form, g)
    ensures r.patioId == screen.patioId && r.slots == screen.slots && r.selectedId == screen.selectedId
  {
    screen.(form := EditForm(screen.form, field, text))
  }

  /** `selectedSlot`: the first slot whose id is the picked id, if any. */
  function SelectedSlot(screen: MapScreen): (r: Option<Slot>)
    ensures r.None? <==> screen.selectedId.None? || !HasId(screen.slots, screen.selectedId.value)
    ensures r.Some? ==> r.value in screen.slots && r.value.id == screen.selectedId.value
    ensures r.Some? ==> exists i :: FirstWithId(screen.slots, screen.selectedId.value, i) && screen.slots[i] == r.value
  {
    match screen.selectedId
    case None => None
    case Some(id) => FindById(screen.slots, id)
  }

  /** `handleSave`: with a slot picked, assign the form's vehicle to it (the
      four values are not checked here, so empty strings are stored as they
      are), persist the whole list, then drop the pick and clear the form.
      With nothing picked it does nothing at all. */
  function Save(screen: MapScreen, store: Store, writeFails: bool): (r: MapStep)
    ensures SelectedSlot(screen).None? ==> r == MapStep(screen, store)
    ensures SelectedSlot(screen).Some? ==>
      var id := screen.selectedId.value;
      && r.screen.patioId == screen.patioId
      && r.screen.slots == Assign(screen.slots, id, screen.form)
      && r.screen.selectedId == None
      && r.screen.form == EmptyForm
      && r.store == SaveSlots(store, screen.patioId, r.screen.slots, writeFails)
  {
    match SelectedSlot(screen)
    case None => MapStep(screen, store)
    case Some(s) =>
      var updated := Assign(screen.slots, s.id, screen.form);
      MapStep(MapScreen(screen.patioId, updated, None, EmptyForm),
              SaveSlots(store, screen.patioId, updated, writeFails))
  }

  /** `handleVacate`: with a slot picked, reset it to `{ id, occupied: false }`,
      persist the whole list and drop the pick; the form is left as it is.
      With nothing picked it does nothing at all. */
  function VacateSelected(screen: MapScreen, store: Store, writeFails: bool): (r: MapStep)
    ensures SelectedSlot(screen).None? ==> r == MapStep(screen, store)
    ensures SelectedSlot(screen).Some? ==>
      var id := screen.selectedId.value;
      && r.screen.patioId == screen.patioId
      && r.screen.slots == Vacate(screen.slots, id)
      && r.screen.selectedId == None
      && r.screen.form == screen.form
      && r.store == SaveSlots(store, screen.patioId, r.screen.slots, writeFails)
  {
    match SelectedSlot(screen)
    case None => MapStep(screen, store)
    case Some(s) =>
      var cleared := Vacate(screen.slots, s.id);
      MapStep(screen.(slots := cleared, selectedId := None),
              SaveSlots(store, screen.patioId, cleared, writeFails))
  }

  /** After either mutation, a successful write leaves the storage holding
      exactly the list the screen now shows, and every other yard as it was. */
  lemma MutationPersists(screen: MapScreen, store: Store, other: string, readFails: bool)
    requires other != screen.patioId
    ensures GetSlots(Save(screen, store, false).store, screen.patioId, false) ==
      if SelectedSlot(screen).Some? then Some(Save(screen, store, false).screen.slots)
      else GetSlots(store, screen.patioId, false)
    ensures GetSlots(VacateSelected(screen, store, false).store, screen.patioId, false) ==
      if SelectedSlot(screen).Some? then Some(VacateSelected(screen, store, false).screen.slots)
      else GetSlots(store, screen.patioId, false)
    ensures GetSlots(Save(screen, store, false).store, other, readFails) == GetSlots(store, other, readFails)
    ensures GetSlots(VacateSelected(screen, store, false).store, other, readFails) == GetSlots(store, other, readFails)
  {
    var s := Save(screen, store, false);
    var v := VacateSelected(screen, store, false);
    SaveKeepsOtherYards(store, screen.patioId, other, s.screen.slots, false, readFails);
    SaveKeepsOtherYards(store, screen.patioId, other, v.screen.slots, false, readFails);
  }

  /** Reopening the yard after a mutation shows what the mutation produced. */
  lemma ReopenShowsMutation(screen: MapScreen, store: Store)
    requires SelectedSlot(screen).Some?
    ensures Open(Save(screen, store, false).store, screen.patioId, false).slots ==
      Save(screen, store, false).screen.slots
    ensures Open(VacateSelected(screen, store, false).store, screen.patioId, false).slots ==
      VacateSelected(screen, store, false).screen.slots
  {
  }

  /** Picking an id whose slots are all `{ id, occupied: false }`, saving a
      vehicle there, then picking it again and vacating gives back the
      starting slots, and the storage then holds exactly that list. */
  lemma ParkThenVacate(screen: MapScreen, store: Store, id: string, form: VehicleForm)
    requires HasId(screen.slots, id)
    requires forall i :: 0 <= i < |screen.slots| && screen.slots[i].id == id ==> screen.slots[i] == FreeSlot(id)
    ensures
      var parked := Save(Tap(screen, id).(form := form), store, false);
      var freed := VacateSelected(Tap(parked.screen, id), parked.store, false);
      freed.screen.slots == screen.slots
      && GetSlots(freed.store, screen.patioId, false) == Some(screen.slots)
  {
    var parked := Save(Tap(screen, id).(form := form), store, false);
    assert SelectedSlot(Tap(screen, id).(form := form)).Some?;
    assert parked.screen.slots == Assign(screen.slots, id, form);
    assert HasId(parked.screen.slots, id) by {
      var i :| 0 <= i < |screen.slots| && screen.slots[i].id == id;
      assert parked.screen.slots[i].id == id;
    }
    VacateUndoesAssign(screen.slots, id, form);
  }

  /** On the example yard `p1`, assigning a Honda to `A2` marks exactly `A2`
      occupied with those four values and leaves the other five slots alone. */
  lemma ParkInA2()
    ensures
      var r := Assign(SeedP1, "A2", VehicleForm("Honda", "ABC-1234", "Red", "CG160"));
      && r[1] == Slot("A2", true, Some("Honda"), Some("ABC-1234"), Some("Red"), Some("CG160"))
      && r[0] == SeedP1[0] && r[2] == SeedP1[2] && r[3] == SeedP1[3]
      && r[4] == SeedP1[4] && r[5] == SeedP1[5]
  {
    var ids := ["A1", "A2", "B1", "B2", "C1", "C2"];
    assert forall i :: 0 <= i < 6 ==> SeedP1[i].id == ids[i];
  }
}
