/** The slot value type and the list transformations both yard screens apply
    to a yard's slot list: assigning a vehicle, vacating a slot, looking a slot
    up by id and filtering the free ones. */
module Slots {
  import opened Options

  /** One parking space. The four vehicle properties are optional: a free
      slot normally carries none of them. */
  datatype Slot = Slot(
    id: string,
    occupied: bool,
    brand: Option<string>,
    plate: Option<string>,
    color: Option<string>,
    model: Option<string>)

  /** The four text inputs of a screen's vehicle form. */
  datatype VehicleForm = VehicleForm(brand: string, plate: string, color: string, model: string)

  /** The form every screen starts with and is reset to. */
  const EmptyForm: VehicleForm := VehicleForm("", "", "", "")

  datatype Field = Brand | Plate | Color | Model

  function FieldValue(form: VehicleForm, field: Field): string
  {
    match field
    case Brand => form.brand
    case Plate => form.plate
    case Color => form.color
    case Model => form.model
  }

  /** Typing into one input: `setForm({ ...form, brand: text })` and its three siblings. */
  function EditForm(form: VehicleForm, field: Field, text: string): (r: VehicleForm)
    ensures FieldValue(r, field) == text
    ensures forall g :: g != field ==> FieldValue(r, g) == FieldValue(form, g)
  {
    match field
    case Brand => form.(brand := text)
    case Plate => form.(plate := text)
    case Color => form.(color := text)
    case Model => form.(model := text)
  }

  /** `{ id, occupied: false }`: free, with every vehicle property absent. */
  function FreeSlot(id: string): Slot
  {
    Slot(id, false, None, None, None, None)
  }

  /** A slot that is either occupied with all four vehicle properties present,
      or free with none of them present. */
  predicate Consistent(s: Slot)
  {
    if s.occupied then s.brand.Some? && s.plate.Some? && s.color.Some? && s.model.Some?
    else s.brand.None? && s.plate.None? && s.color.None? && s.model.None?
  }

  predicate HasId(slots: seq<Slot>, id: string)
  {
    exists i :: 0 <= i < |slots| && slots[i].id == id
  }

  predicate UniqueIds(slots: seq<Slot>)
  {
    forall i, j :: 0 <= i < j < |slots| ==> slots[i].id != slots[j].id
  }

  /** The shape every seed yard has: unique ids and consistent slots. */
  predicate WellFormedYard(slots: seq<Slot>)
  {
    UniqueIds(slots) && forall i :: 0 <= i < |slots| ==> Consistent(slots[i])
  }

  /** A consistent free slot is exactly `{ id, occupied: false }`. */
  lemma FreeConsistentIsFreeSlot(s: Slot)
    ensures (Consistent(s) && !s.occupied) <==> s == FreeSlot(s.id)
  {
  }

  /** What a screen does to one matching slot. */
  datatype Mutation = Park(form: VehicleForm) | Clear

  /** `Park(form)` is `{ ...s, occupied: true, ...form }`: the id is kept and
      the four form values overwrite the vehicle properties, present even when
      a value is the empty string. `Clear` is `{ id: s.id, occupied: false }`. */
  function Apply(m: Mutation, s: Slot): Slot
  {
    match m
    case Park(f) =>
      s.(occupied := true, brand := Some(f.brand), plate := Some(f.plate),
         color := Some(f.color), model := Some(f.model))
    case Clear => FreeSlot(s.id)
  }

  /** `slots.map(s => s.id === id ? <mutated s> : s)`: a new list, the old one untouched. */
  function MapMatching(slots: seq<Slot>, id: string, m: Mutation): (r: seq<Slot>)
    ensures |r| == |slots|
    ensures forall i :: 0 <= i < |slots| && slots[i].id == id ==> r[i] == Apply(m, slots[i])
    ensures forall i :: 0 <= i < |slots| && slots[i].id != id ==> r[i] == slots[i]
  {
    if |slots| == 0 then []
    else [if slots[0].id == id then Apply(m, slots[0]) else slots[0]] + MapMatching(slots[1..], id, m)
  }

  /** Assigning a vehicle to every slot whose id is `id`. */
  function Assign(slots: seq<Slot>, id: string, form: VehicleForm): (r: seq<Slot>)
    ensures |r| == |slots|
    ensures forall i :: 0 <= i < |slots| ==> r[i].id == slots[i].id
    ensures forall i :: 0 <= i < |slots| && slots[i].id == id ==>
      && r[i].occupied
      && r[i].brand == Some(form.brand) && r[i].plate == Some(form.plate)
      && r[i].color == Some(form.color) && r[i].model == Some(form.model)
    ensures forall i :: 0 <= i < |slots| && slots[i].id != id ==> r[i] == slots[i]
  {
    MapMatching(slots, id, Park(form))
  }

  /** Vacating every slot whose id is `id`. */
  function Vacate(slots: seq<Slot>, id: string): (r: seq<Slot>)
    ensures |r| == |slots|
    ensures forall i :: 0 <= i < |slots| && slots[i].id == id ==>
      && r[i].id == id && !r[i].occupied
      && r[i].brand.None? && r[i].plate.None? && r[i].color.None? && r[i].model.None?
    ensures forall i :: 0 <= i < |slots| && slots[i].id != id ==> r[i] == slots[i]
  {
    MapMatching(slots, id, Clear)
  }

  /** With no slot carrying the id, both mutations give back the same list. */
  lemma NoMatchIsIdentity(slots: seq<Slot>, id: string, form: VehicleForm)
    requires !HasId(slots, id)
    ensures Assign(slots, id, form) == slots
    ensures Vacate(slots, id) == slots
  {
  }

  /** Vacating undoes an assignment to slots that were `{ id, occupied: false }`. */
  lemma VacateUndoesAssign(slots: seq<Slot>, id: string, form: VehicleForm)
    requires forall i :: 0 <= i < |slots| && slots[i].id == id ==> slots[i] == FreeSlot(id)
    ensures Vacate(Assign(slots, id, form), id) == slots
  {
  }

  /** Assigning twice to the same id keeps only the second vehicle. */
  lemma AssignLastWins(slots: seq<Slot>, id: string, first: VehicleForm, second: VehicleForm)
    ensures Assign(Assign(slots, id, first), id, second) == Assign(slots, id, second)
  {
  }

  /** Vacating twice is vacating once. */
  lemma VacateIdempotent(slots: seq<Slot>, id: string)
    ensures Vacate(Vacate(slots, id), id) == Vacate(slots, id)
  {
  }

  /** Both mutations keep a yard well formed: ids are untouched, an assigned
      slot carries all four properties and a vacated one carries none. */
  lemma MutationsPreserveWellFormed(slots: seq<Slot>, id: string, form: VehicleForm)
    requires WellFormedYard(slots)
    ensures WellFormedYard(Assign(slots, id, form))
    ensures WellFormedYard(Vacate(slots, id))
  {
  }

  /** Index `i` holds the first slot carrying `id`. */
  predicate FirstWithId(slots: seq<Slot>, id: string, i: int)
  {
    0 <= i < |slots| && slots[i].id == id && forall j :: 0 <= j < i ==> slots[j].id != id
  }

  /** `slots.find(slot => slot.id === id)`: the first slot carrying the id. */
  function FindById(slots: seq<Slot>, id: string): (r: Option<Slot>)
    ensures r.None? <==> !HasId(slots, id)
    ensures r.Some? ==> r.value.id == id
    ensures r.Some? ==> exists i :: FirstWithId(slots, id, i) && slots[i] == r.value
  {
    if |slots| == 0 then None
    else if slots[0].id == id then Some(slots[0])
    else
      var r := FindById(slots[1..], id);
      assert HasId(slots[1..], id) ==> HasId(slots, id) by {
        if HasId(slots[1..], id) {
          var k :| 0 <= k < |slots[1..]| && slots[1..][k].id == id;
          assert slots[k + 1].id == id;
        }
      }
      if r.Some? then
        var k :| FirstWithId(slots[1..], id, k) && slots[1..][k] == r.value;
        assert slots[k + 1] == r.value;
        assert forall j :: 0 <= j < k + 1 ==> slots[j].id != id by {
          forall j | 0 <= j < k + 1 ensures slots[j].id != id {
            if j > 0 { assert slots[j] == slots[1..][j - 1]; }
          }
        }
        assert FirstWithId(slots, id, k + 1);
        r
      else
        r
  }

  /** `slots.filter(s => !s.occupied)`: the free slots. */
  function Available(slots: seq<Slot>): (r: seq<Slot>)
    ensures forall s :: s in r <==> s in slots && !s.occupied
    ensures |r| <= |slots|
  {
    if |slots| == 0 then []
    else (if slots[0].occupied then [] else [slots[0]]) + Available(slots[1..])
  }

  /** A free slot in the list makes the free list non-empty. */
  lemma FreeSlotIsOffered(slots: seq<Slot>, i: int)
    requires 0 <= i < |slots| && !slots[i].occupied
    ensures slots[i] in Available(slots)
  {
  }

  /** Filtering distributes over concatenation, so it keeps the original order. */
  lemma {:induction false} AvailableAppend(a: seq<Slot>, b: seq<Slot>)
    ensures Available(a + b) == Available(a) + Available(b)
  {
    if |a| == 0 {
      assert a + b == b;
    } else {
      assert (a + b)[1..] == a[1..] + b;
      AvailableAppend(a[1..], b);
    }
  }

  /** After an assignment no slot carrying the id is free any more. */
  lemma AssignHidesTarget(slots: seq<Slot>, id: string, form: VehicleForm)
    ensures forall s :: s in Available(Assign(slots, id, form)) ==> s.id != id
  {
    var r := Assign(slots, id, form);
    forall s | s in Available(r) ensures s.id != id {
      var k :| 0 <= k < |r| && r[k] == s;
    }
  }

  /** The free list of one slot. */
  lemma AvailableSingleton(s: Slot)
    ensures Available([s]) == if s.occupied then [] else [s]
  {
    assert [s][1..] == [];
  }

  /** A list is its part before `i`, its element at `i` and its part after `i`. */
  lemma SplitAround<T>(s: seq<T>, i: int)
    requires 0 <= i < |s|
    ensures s == s[..i] + ([s[i]] + s[i + 1..])
  {
  }

  /** Filtering distributes over a concatenation of three lists. */
  lemma AvailableAppendThree(a: seq<Slot>, b: seq<Slot>, c: seq<Slot>)
    ensures Available(a + (b + c)) == Available(a) + Available(b) + Available(c)
  {
    AvailableAppend(a, b + c);
    AvailableAppend(b, c);
  }

  /** The free list of a list split around index `i` is the free list of
      the part before, that of the slot at `i`, then that of the part after. */
  lemma AvailableAround(slots: seq<Slot>, i: int)
    requires 0 <= i < |slots|
    ensures Available(slots) == Available(slots[..i]) + Available([slots[i]]) + Available(slots[i + 1..])
  {
    SplitAround(slots, i);
    AvailableAppendThree(slots[..i], [slots[i]], slots[i + 1..]);
  }

  /** In a list with distinct ids, assigning to the id of the slot at `i`
      changes no slot before or after `i`. */
  lemma AssignOnlyTouches(slots: seq<Slot>, i: int, form: VehicleForm)
    requires UniqueIds(slots)
    requires 0 <= i < |slots|
    ensures Assign(slots, slots[i].id, form)[..i] == slots[..i]
    ensures Assign(slots, slots[i].id, form)[i + 1..] == slots[i + 1..]
  {
    var r := Assign(slots, slots[i].id, form);
    forall k | 0 <= k < |slots| && k != i ensures r[k] == slots[k] {
      assert slots[k].id != slots[i].id;
    }
  }

  /** Assigning a vehicle to the free slot at index `i`, in a list with
      distinct ids, removes exactly that slot from the free list: the free
      slots before it and after it stay, in order. */
  lemma AssignTakesSpotAt(slots: seq<Slot>, i: int, form: VehicleForm)
    requires UniqueIds(slots)
    requires 0 <= i < |slots| && !slots[i].occupied
    ensures Available(slots) == Available(slots[..i]) + [slots[i]] + Available(slots[i + 1..])
    ensures Available(Assign(slots, slots[i].id, form)) == Available(slots[..i]) + Available(slots[i + 1..])
  {
    AvailableAround(slots, i);
    AvailableSingleton(slots[i]);
    AssignedSpotLeavesAvailable(slots, i, form);
  }

  /** Occupying the slot at `i`, with every other slot kept, drops from the
      free list whatever the slot at `i` contributed. */
  lemma OccupiedAtLeavesAvailable(a: seq<Slot>, b: seq<Slot>, i: int)
    requires 0 <= i < |a| == |b|
    requires a[..i] == b[..i] && a[i + 1..] == b[i + 1..] && b[i].occupied
    ensures Available(b) == Available(a[..i]) + Available(a[i + 1..])
  {
    AvailableAround(b, i);
    AvailableSingleton(b[i]);
    assert Available(b[..i]) + [] == Available(b[..i]);
  }

  lemma AssignedSpotLeavesAvailable(slots: seq<Slot>, i: int, form: VehicleForm)
    requires UniqueIds(slots)
    requires 0 <= i < |slots|
    ensures Available(Assign(slots, slots[i].id, form)) == Available(slots[..i]) + Available(slots[i + 1..])
  {
    AssignOnlyTouches(slots, i, form);
    OccupiedAtLeavesAvailable(slots, Assign(slots, slots[i].id, form), i);
  }

  /** Assigning a vehicle to the one free slot carrying a unique id removes
      exactly that slot from the free list, so the list shrinks by one. */
  lemma AssignShrinksAvailable(slots: seq<Slot>, id: string, form: VehicleForm)
    requires UniqueIds(slots)
    requires exists i :: 0 <= i < |slots| && slots[i].id == id && !slots[i].occupied
    ensures |Available(Assign(slots, id, form))| == |Available(slots)| - 1
  {
    var i :| 0 <= i < |slots| && slots[i].id == id && !slots[i].occupied;
    AssignTakesSpotAt(slots, i, form);
  }
}
