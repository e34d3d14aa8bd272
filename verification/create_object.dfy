/**
 * The data behind Anytype's "create object" form: four remembered selections
 * (space, type, template, list), each loaded once from local storage and then
 * written back on every change; the object types offered; the objects and
 * members offered together; and the overall loading flag.
 */
module CreateObject {

  import opened Base
  import opened Seqs

  // ---------------------------------------------------------------------
  // One remembered selection
  // ---------------------------------------------------------------------

  /** What local storage reports for one key: still loading, or ready with its value (`None` is undefined). */
  datatype Storage = Storage(loading: bool, value: Option<string>)

  /**
   * One selection and its effects' state. `initial` is the form's initial
   * value, "" when absent or empty (both are falsy); `writes` lists every
   * value written to storage, oldest first.
   */
  datatype Field = Field(initial: string, selected: string, hasLoaded: bool, storage: Storage, writes: seq<string>)

  /** Storage finishing its load, or the user (or form) setting the selection. */
  datatype FieldEvent = StorageReady(stored: Option<string>) | Select(choice: string)

  /** A stored value JavaScript treats as true: present and non-empty. */
  predicate Truthy(v: Option<string>)
  {
    v.Some? && v.value != ""
  }

  /**
   * The load effect: the first time storage is ready, a truthy stored value
   * becomes the selection when there is no initial value and nothing is
   * selected; either way the field is marked loaded.
   */
  function LoadEffect(f: Field): (g: Field)
    ensures g.hasLoaded == (f.hasLoaded || !f.storage.loading)
    ensures g.initial == f.initial && g.storage == f.storage && g.writes == f.writes
    ensures g.selected != f.selected ==>
              && !f.hasLoaded && f.initial == "" && f.selected == ""
              && Truthy(f.storage.value) && g.selected == f.storage.value.value
  {
    if !f.storage.loading && !f.hasLoaded then
      var adopt := f.initial == "" && Truthy(f.storage.value) && f.selected == "";
      f.(selected := if adopt then f.storage.value.value else f.selected, hasLoaded := true)
    else f
  }

  /** `setStoredValue(selected)`: storage now holds the selection. */
  function Write(f: Field): Field
  {
    f.(storage := f.storage.(value := Some(f.selected)), writes := f.writes + [f.selected])
  }

  /**
   * The effects after a render whose previous committed state was `before`:
   * the load effect, then the persist effect, which runs when `hasLoaded` or
   * the selection changed and writes only once the field is loaded.
   */
  function Settle(f: Field, before: Field): Field
  {
    var g := LoadEffect(f);
    if g.hasLoaded && (!before.hasLoaded || g.selected != before.selected) then Write(g) else g
  }

  /** The state change an event makes before the effects run; storage answers only once. */
  function Apply(f: Field, e: FieldEvent): Field
  {
    match e
    case StorageReady(v) => if f.storage.loading then f.(storage := Storage(false, v)) else f
    case Select(v) => f.(selected := v)
  }

  /** One event followed by the effects. */
  function Step(f: Field, e: FieldEvent): Field
  {
    Settle(Apply(f, e), f)
  }

  /** The first render (`useState(initial || "")`) and its effects. */
  function Mount(initial: string, storage: Storage): Field
  {
    var f := Field(initial, initial, false, storage, []);
    Settle(f, f)
  }

  function Run(f: Field, events: seq<FieldEvent>): Field
    decreases |events|
  {
    if |events| == 0 then f else Run(Step(f, events[0]), events[1..])
  }

  /**
   * What holds between events: the field is loaded exactly when storage is;
   * nothing is written before that; afterwards storage holds the selection,
   * which is also the last value written.
   */
  predicate Inv(f: Field)
  {
    && (f.hasLoaded <==> !f.storage.loading)
    && (!f.hasLoaded ==> f.writes == [])
    && (f.hasLoaded ==> |f.writes| > 0 && f.writes[|f.writes| - 1] == f.selected && f.storage.value == Some(f.selected))
  }

  lemma MountInv(initial: string, storage: Storage)
    ensures Inv(Mount(initial, storage))
  {
  }

  lemma StepInv(f: Field, e: FieldEvent)
    requires Inv(f)
    ensures Inv(Step(f, e))
  {
  }

  lemma {:induction false} RunInv(f: Field, events: seq<FieldEvent>)
    requires Inv(f)
    ensures Inv(Run(f, events))
    decreases |events|
  {
    if |events| > 0 {
      StepInv(f, events[0]);
      RunInv(Step(f, events[0]), events[1..]);
    }
  }

  /** Once loaded, a field stays loaded, and what was written stays written. */
  lemma LoadedStaysLoaded(f: Field, e: FieldEvent)
    ensures f.hasLoaded ==> Step(f, e).hasLoaded
    ensures f.writes <= Step(f, e).writes
  {
  }

  /** Before storage is ready nothing is written, whatever is selected. */
  lemma NoWriteWhileLoading(f: Field, v: string)
    requires Inv(f) && f.storage.loading
    ensures Step(f, Select(v)).writes == []
    ensures Step(f, Select(v)).selected == v
  {
  }

  /** After loading, a new selection is written through at once; re-selecting the same value writes nothing. */
  lemma WriteThrough(f: Field, v: string)
    requires Inv(f) && f.hasLoaded
    ensures v != f.selected ==> Step(f, Select(v)).writes == f.writes + [v]
    ensures v == f.selected ==> Step(f, Select(v)).writes == f.writes
    ensures Step(f, Select(v)).storage.value == Some(v)
  {
  }

  /** Without an initial value or selection, a truthy stored value becomes the selection when storage is ready. */
  lemma AdoptsStoredValue(f: Field, v: string)
    requires Inv(f) && f.storage.loading && f.initial == "" && f.selected == "" && v != ""
    ensures Step(f, StorageReady(Some(v))).selected == v
    ensures Step(f, StorageReady(Some(v))).writes == [v]
  {
  }

  /** Events that only come from storage. */
  predicate NoSelections(events: seq<FieldEvent>)
  {
    forall i :: 0 <= i < |events| ==> events[i].StorageReady?
  }

  /** A non-empty initial value is never replaced by a stored one. */
  lemma {:induction false} InitialValueKept(f: Field, events: seq<FieldEvent>)
    requires f.initial != "" && f.selected == f.initial
    requires NoSelections(events)
    ensures Run(f, events).selected == f.initial
    decreases |events|
  {
    if |events| > 0 {
      var g := Step(f, events[0]);
      assert g.selected == f.initial;
      InitialValueKept(g, events[1..]);
    }
  }

  /** Mounting over ready storage that holds "stored-type-id" selects it when no initial value is given. */
  lemma StoredTypeAdopted()
    ensures Mount("", Storage(false, Some("stored-type-id"))).selected == "stored-type-id"
  {
  }

  /** An initial "initial-type-id" survives a stored "stored-type-id". */
  lemma InitialTypeWins(events: seq<FieldEvent>)
    requires NoSelections(events)
    ensures Mount("initial-type-id", Storage(false, Some("stored-type-id"))).selected == "initial-type-id"
    ensures Run(Mount("initial-type-id", Storage(false, Some("stored-type-id"))), events).selected == "initial-type-id"
  {
    InitialValueKept(Mount("initial-type-id", Storage(false, Some("stored-type-id"))), events);
  }

  /** Selecting "new-type-id" over empty ready storage writes it. */
  lemma NewTypeWritten()
    ensures Step(Mount("", Storage(false, None)), Select("new-type-id")).writes == ["", "new-type-id"]
  {
  }

  // ---------------------------------------------------------------------
  // The four selections
  // ---------------------------------------------------------------------

  datatype Slot = SpaceSlot | TypeSlot | TemplateSlot | ListSlot

  /** The local-storage key of each selection. */
  function StorageKey(s: Slot): string
  {
    match s
    case SpaceSlot => "create-object-space-id"
    case TypeSlot => "create-object-type-id"
    case TemplateSlot => "create-object-template-id"
    case ListSlot => "create-object-list-id"
  }

  /** The four selections use four different storage keys, so they never share a stored value. */
  lemma StorageKeysDistinct(a: Slot, b: Slot)
    requires a != b
    ensures StorageKey(a) != StorageKey(b)
  {
    var ka, kb := StorageKey(a), StorageKey(b);
    assert ka[..14] == "create-object-";
    assert kb[..14] == "create-object-";
    assert ka[14] != kb[14] || ka[15] != kb[15];
  }

  datatype Form = Form(space: Field, objectType: Field, template: Field, list: Field)

  function Get(form: Form, s: Slot): Field
  {
    match s
    case SpaceSlot => form.space
    case TypeSlot => form.objectType
    case TemplateSlot => form.template
    case ListSlot => form.list
  }

  /** An event for one selection runs that selection's machine only. */
  function FormStep(form: Form, s: Slot, e: FieldEvent): (r: Form)
    ensures Get(r, s) == Step(Get(form, s), e)
    ensures forall t :: t != s ==> Get(r, t) == Get(form, t)
  {
    match s
    case SpaceSlot => form.(space := Step(form.space, e))
    case TypeSlot => form.(objectType := Step(form.objectType, e))
    case TemplateSlot => form.(template := Step(form.template, e))
    case ListSlot => form.(list := Step(form.list, e))
  }

  predicate FormInv(form: Form)
  {
    forall s :: Inv(Get(form, s))
  }

  /** The form invariant holds after any event on any selection. */
  lemma FormStepInv(form: Form, s: Slot, e: FieldEvent)
    requires FormInv(form)
    ensures FormInv(FormStep(form, s, e))
  {
    forall t
      ensures Inv(Get(FormStep(form, s, e), t))
    {
      if t == s {
        StepInv(Get(form, s), e);
      }
    }
  }

  // ---------------------------------------------------------------------
  // Derived lists and the loading flag
  // ---------------------------------------------------------------------

  /** The bundled type keys the hook reads; their values live in a module outside this model. */
  datatype BundledKeys = BundledKeys(
    audio: string, chat: string, file: string, image: string, objectType: string,
    tag: string, template: string, video: string, participant: string)

  /** The nine types no object can be created from. */
  function RestrictedTypes(k: BundledKeys): seq<string>
  {
    [k.audio, k.chat, k.file, k.image, k.objectType, k.tag, k.template, k.video, k.participant]
  }

  datatype ObjectType = ObjectType(id: string, key: string, name: string)

  /** `types`: the fetched types without the restricted ones, in order; nothing before the fetch answers. */
  function Types(allTypes: Option<seq<ObjectType>>, k: BundledKeys): (r: seq<ObjectType>)
    ensures allTypes.None? ==> r == []
    ensures forall t :: t in r <==> allTypes.Some? && t in allTypes.value && t.key !in RestrictedTypes(k)
  {
    match allTypes
    case None => []
    case Some(ts) => Filter(ts, (t: ObjectType) => t.key !in RestrictedTypes(k))
  }

  /** Filtering types commutes with concatenating fetched pages, so order is kept. */
  lemma TypesOfConcat(a: seq<ObjectType>, b: seq<ObjectType>, k: BundledKeys)
    ensures Types(Some(a + b), k) == Types(Some(a), k) + Types(Some(b), k)
  {
    FilterConcat(a, b, (t: ObjectType) => t.key !in RestrictedTypes(k));
  }

  /** A fetch with no restricted type comes through unchanged. */
  lemma TypesKeepAllowed(ts: seq<ObjectType>, k: BundledKeys)
    requires forall i :: 0 <= i < |ts| ==> ts[i].key !in RestrictedTypes(k)
    ensures Types(Some(ts), k) == ts
  {
    FilterAll(ts, (t: ObjectType) => t.key !in RestrictedTypes(k));
  }

  /** A restricted type is dropped with all its copies; any other keeps all of them. */
  lemma TypesCount(ts: seq<ObjectType>, k: BundledKeys, t: ObjectType)
    ensures multiset(Types(Some(ts), k))[t] == if t.key in RestrictedTypes(k) then 0 else multiset(ts)[t]
  {
    FilterCount(ts, (t: ObjectType) => t.key !in RestrictedTypes(k), t);
  }

  /**
   * `combinedObjects`: the search results (none when undefined) followed by
   * the members `matches` accepts; `matches` stands for the search-text test.
   */
  function CombinedObjects<T(!new)>(objects: Option<seq<T>>, members: seq<T>, matches: T -> bool): (r: seq<T>)
    ensures |r| == |objects.GetOr([])| + |Filter(members, matches)|
    ensures r[..|objects.GetOr([])|] == objects.GetOr([])
    ensures r[|objects.GetOr([])|..] == Filter(members, matches)
  {
    objects.GetOr([]) + Filter(members, matches)
  }

  /** An entry is offered exactly when it is a search result or a matching member. */
  lemma CombinedContents<T(!new)>(objects: Option<seq<T>>, members: seq<T>, matches: T -> bool, x: T)
    ensures x in CombinedObjects(objects, members, matches) <==>
              x in objects.GetOr([]) || (x in members && matches(x))
  {
  }

  /** The six remote loading flags. */
  datatype RemoteLoading = RemoteLoading(
    spaces: bool, types: bool, templates: bool, lists: bool, objects: bool, members: bool)

  /** `isLoadingData`: any remote fetch or any of the four storage reads still loading. */
  function IsLoadingData(remote: RemoteLoading, form: Form): (r: bool)
    ensures !r <==> && !remote.spaces && !remote.types && !remote.templates && !remote.lists
                    && !remote.objects && !remote.members
                    && !Get(form, SpaceSlot).storage.loading && !Get(form, TypeSlot).storage.loading
                    && !Get(form, TemplateSlot).storage.loading && !Get(form, ListSlot).storage.loading
  {
    || remote.spaces || remote.types || remote.templates || remote.lists || remote.objects || remote.members
    || form.space.storage.loading || form.objectType.storage.loading
    || form.template.storage.loading || form.list.storage.loading
  }

  /** When nothing is loading, every selection has been loaded and written back. */
  lemma IdleMeansLoaded(remote: RemoteLoading, form: Form, s: Slot)
    requires FormInv(form) && !IsLoadingData(remote, form)
    ensures Get(form, s).hasLoaded
    ensures Get(form, s).storage.value == Some(Get(form, s).selected)
  {
    assert Inv(Get(form, s));
  }
}
