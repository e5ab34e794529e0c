/** The assignments form (client/src/components/assignments/AssignmentsForm.js): validating and
    adding a ministry field, the `assign` and remove handlers, the selects each workbook item
    gets, and the congregation and chairman choices. */
module AssignmentsForm {
  import opened Js
  import opened Text
  import opened RootContext
  import AssignmentsPreview

  const FieldPrefix := "field_service_conductor_"
  const DuplicateMessage := "Este arranjo já foi informado."
  const MissingMessage := "Arranjo de campo não foi informado."

  /** `s.replace(/\s+/, '')`: without the `g` flag only the first whitespace run goes. */
  function RemoveFirstSpaceRun(s: string): (r: string)
    ensures |r| <= |s|
    ensures (forall i :: 0 <= i < |s| ==> IsSpace(s[i])) ==> r == []
    ensures (exists i :: 0 <= i < |s| && !IsSpace(s[i])) ==> exists j :: 0 <= j < |r| && !IsSpace(r[j])
  {
    if s == [] then []
    else if IsSpace(s[0]) then
      var r := TrimStart(s);
      assert forall i :: 0 <= i < |s| && !IsSpace(s[i]) ==> r[i - (|s| - |r|)] == s[i];
      r
    else
      var rest := RemoveFirstSpaceRun(s[1..]);
      assert forall i :: 1 <= i < |s| ==> s[i] == s[1..][i - 1];
      assert ([s[0]] + rest)[0] == s[0];
      [s[0]] + rest
  }

  /** `!text || !String(text).replace(/\s+/, '').trim()`; `None` is an absent input. */
  predicate IsBlank(text: Option<string>) {
    text.None? || text.value == "" || Trim(RemoveFirstSpaceRun(text.value)) == ""
  }

  /** A description is blank exactly when it is absent or all whitespace: removing only the first
      run loses nothing, because `trim` would remove it anyway. */
  lemma BlankIffWhitespace(text: Option<string>)
    ensures IsBlank(text) <==> text.None? || forall i :: 0 <= i < |text.value| ==> IsSpace(text.value[i])
  {
    if text.Some? && exists i :: 0 <= i < |text.value| && !IsSpace(text.value[i]) {
      var r := RemoveFirstSpaceRun(text.value);
      var j :| 0 <= j < |r| && !IsSpace(r[j]);
      assert Trim(r) != [];
    }
  }

  /** `String(text)` for the modal's input. */
  function InputString(text: Option<string>): string {
    if text.Some? then text.value else "undefined"
  }

  /** Some cached field's lowercased text equals the lowercased, trimmed description. */
  predicate IsDuplicate(cache: map<string, Assignment>, text: Option<string>) {
    exists k | k in cache :: Lower(cache[k].text) == Trim(Lower(InputString(text)))
  }

  /** `Object.keys(cache).sort().pop()`: the greatest key in string order. */
  function LastKey(order: seq<string>): (r: string)
    requires order != []
    ensures r in order && forall k :: k in order ==> LexLe(k, r)
  {
    if |order| == 1 then LexLeTotal(order[0], order[0]); order[0]
    else
      var m := LastKey(order[1..]);
      LexLeTotal(order[0], m);
      assert forall k :: k in order ==> k == order[0] || k in order[1..];
      if LexLe(order[0], m) then m
      else
        forall k | k in order ensures LexLe(k, order[0]) {
          if k != order[0] {
            LexLeTransitive(k, m, order[0]);
          } else {
            LexLeTotal(k, k);
          }
        }
        order[0]
  }

  /** The id `createNewMinistryField` builds as written: the prefix and one more than the suffix
      of the greatest key in string order, or `NaN` when that suffix is not a number. */
  function NextFieldIdAsWritten(order: seq<string>): string {
    var last := if order == [] then "0" else LastKey(order);
    var suffix := ReplaceFirst(if last == "" then "0" else last, FieldPrefix, "");
    match ToNumber(suffix)
    case Some(n) => FieldPrefix + NatToString(n + 1)
    case None => FieldPrefix + "NaN"
  }

  /** Dropping a common prefix does not change string order. */
  lemma {:induction false} LexLeCommonPrefix(p: string, a: string, b: string)
    ensures LexLe(p + a, p + b) <==> LexLe(a, b)
    decreases |p|
  {
    if p != [] {
      assert (p + a)[0] == p[0] == (p + b)[0];
      assert (p + a)[1..] == p[1..] + a;
      assert (p + b)[1..] == p[1..] + b;
      LexLeCommonPrefix(p[1..], a, b);
    } else {
      assert p + a == a && p + b == b;
    }
  }

  lemma ReplacePrefix(suffix: string)
    ensures ReplaceFirst(FieldPrefix + suffix, FieldPrefix, "") == suffix
  {
    var s := FieldPrefix + suffix;
    assert OccursAt(s, FieldPrefix, 0);
    assert s[|FieldPrefix|..] == suffix;
  }

  /** With fields `_9` and `_10` (ten fields added, the first eight removed), `_9` is the greatest
      key in string order, so the next id is `_10`, which already exists: adding the new field
      overwrites the existing one. */
  lemma NextFieldIdAsWrittenCollides()
    ensures var order := [FieldPrefix + "9", FieldPrefix + "10"];
      NextFieldIdAsWritten(order) == FieldPrefix + "10" && NextFieldIdAsWritten(order) in order
  {
    var order := [FieldPrefix + "9", FieldPrefix + "10"];
    LastKeyOfNineAndTen();
    var last := LastKey(order);
    assert last != "";
    ReplacePrefix("9");
    assert ToNumber("9") == Some(9);
    assert NatToString(10) == "10";
    assert order[1] == FieldPrefix + "10";
  }

  /** `_9` sorts after `_10`. */
  lemma LastKeyOfNineAndTen()
    ensures LastKey([FieldPrefix + "9", FieldPrefix + "10"]) == FieldPrefix + "9"
  {
    var order := [FieldPrefix + "9", FieldPrefix + "10"];
    LexLeCommonPrefix(FieldPrefix, "9", "10");
    assert !LexLe("9", "10");
    assert order[1..] == [FieldPrefix + "10"];
  }

  /** The numeric suffix of a key made of the prefix and decimal digits. */
  predicate NumberedKey(k: string) {
    HasPrefix(k, FieldPrefix) && AllDigits(k[|FieldPrefix|..])
  }

  /** The greatest number among the numbered keys, 0 when there is none. */
  function MaxSuffix(order: seq<string>): (m: nat)
    ensures forall k :: k in order && NumberedKey(k) ==> DigitsValue(k[|FieldPrefix|..]) <= m
  {
    if order == [] then 0
    else
      var rest := MaxSuffix(order[1..]);
      assert forall k :: k in order ==> k == order[0] || k in order[1..];
      if NumberedKey(order[0]) && DigitsValue(order[0][|FieldPrefix|..]) > rest then DigitsValue(order[0][|FieldPrefix|..])
      else rest
  }

  /** The id the author intended: one more than the greatest numeric suffix. */
  function NextFieldId(order: seq<string>): string {
    FieldPrefix + NatToString(MaxSuffix(order) + 1)
  }

  /** The intended id is never an existing key, and the first one is `..._1`. */
  lemma NextFieldIdFresh(order: seq<string>)
    ensures NextFieldId(order) !in order
    ensures order == [] ==> NextFieldId(order) == FieldPrefix + "1"
  {
    var m := MaxSuffix(order);
    var id := NextFieldId(order);
    NatToStringRoundTrip(m + 1);
    assert id[|FieldPrefix|..] == NatToString(m + 1);
    assert NumberedKey(id) && DigitsValue(id[|FieldPrefix|..]) == m + 1;
  }

  /** What validating a description leads to. */
  datatype FieldOutcome = Added(id: string, field: Assignment) | Refused(message: string)

  /** `validateFieldDescription` as a function of the cache (whose keys `order` lists) and the
      modal's input. */
  function ValidateField(cache: map<string, Assignment>, order: seq<string>, text: Option<string>): (r: FieldOutcome)
    requires ListsKeys(cache, order)
    ensures r.Refused? <==> IsBlank(text) || IsDuplicate(cache, text)
    ensures r.Refused? ==> r.message == if IsDuplicate(cache, text) then DuplicateMessage else MissingMessage
    ensures r.Added? ==> r.id !in cache && HasPrefix(r.id, FieldPrefix)
    ensures r.Added? ==> text.Some? && r.field == Assignment(r.id, Trim(text.value), "", None)
  {
    if !IsBlank(text) && !IsDuplicate(cache, text) then
      var id := NextFieldId(order);
      NextFieldIdFresh(order);
      Added(id, Assignment(id, Trim(text.value), "", None))
    else Refused(if IsDuplicate(cache, text) then DuplicateMessage else MissingMessage)
  }

  /** A new field is stored, unassigned, under a key no field had, and every earlier field is
      kept. */
  lemma AddedFieldIsNew(s: AssignmentsState, order: seq<string>, text: string)
    requires ListsKeys(s.ministryFieldsCache, order)
    ensures var id := NextFieldId(order);
      var cache := Reduce(s, AddMinistryFieldCache(map[id := Assignment(id, text, "", None)])).ministryFieldsCache;
      && id !in s.ministryFieldsCache
      && |cache| == |s.ministryFieldsCache| + 1
      && cache[id].text == text && cache[id].value == ""
      && forall k :: k in s.ministryFieldsCache ==> k in cache && cache[k] == s.ministryFieldsCache[k]
  {
    var id := NextFieldId(order);
    NextFieldIdFresh(order);
    AddMinistryFieldCacheMerges(s, map[id := Assignment(id, text, "", None)]);
    var cache := Reduce(s, AddMinistryFieldCache(map[id := Assignment(id, text, "", None)])).ministryFieldsCache;
    assert cache == s.ministryFieldsCache[id := Assignment(id, text, "", None)];
  }

  /** `createNewMinistryField(text)`, building the id as intended. */
  method CreateNewMinistryField(store: AssignmentsStore, order: seq<string>, text: string)
    modifies store
    ensures var id := NextFieldId(order);
      store.state == Reduce(old(store.state), AddMinistryFieldCache(map[id := Assignment(id, text, "", None)]))
  {
    var id := NextFieldId(order);
    store.Dispatch(AddMinistryFieldCache(map[id := Assignment(id, text, "", None)]));
  }

  /** `validateFieldDescription(text)`: `accepted` is its result and `message` the content of the
      error modal it opens, if any. */
  method ValidateFieldDescription(store: AssignmentsStore, order: seq<string>, text: Option<string>)
    returns (accepted: bool, message: Option<string>)
    requires ListsKeys(store.state.ministryFieldsCache, order)
    modifies store
    ensures var r := ValidateField(old(store.state.ministryFieldsCache), order, text);
      && accepted == r.Added?
      && message == (if r.Refused? then Some(r.message) else None)
      && store.state == if r.Added? then Reduce(old(store.state), AddMinistryFieldCache(map[r.id := r.field]))
                        else old(store.state)
  {
    var cache := store.state.ministryFieldsCache;
    var isEmpty := IsBlank(text);
    var isDuplicated := IsDuplicate(cache, text);
    if !isEmpty && !isDuplicated {
      CreateNewMinistryField(store, order, Trim(text.value));
      return true, None;
    }
    return false, Some(if isDuplicated then DuplicateMessage else MissingMessage);
  }

  /** `assign(type, id, data)`: mark the preview outdated, then merge `{ [id]: data }`. */
  function Assigned(s: AssignmentsState, b: Bucket, id: string, data: Assignment): AssignmentsState {
    Reduce(Reduce(s, SetPreviewOutdated), AssignTo(b, map[id := data]))
  }

  /** `assign` puts `data` under `id` in its bucket, marks the preview outdated and changes
      nothing else. */
  lemma AssignedEffect(s: AssignmentsState, b: Bucket, id: string, data: Assignment)
    ensures var r := Assigned(s, b, id, data);
      && BucketOf(r.assignedParts, b) == BucketOf(s.assignedParts, b)[id := data]
      && (forall c :: c != b ==> BucketOf(r.assignedParts, c) == BucketOf(s.assignedParts, c))
      && r.preview == Preview(s.preview.html, true)
      && r.(assignedParts := s.assignedParts, preview := s.preview) == s
  {
    var r := Assigned(s, b, id, data);
    assert BucketOf(r.assignedParts, b) == Merge(BucketOf(s.assignedParts, b), map[id := data]);
  }

  method Assign(store: AssignmentsStore, b: Bucket, id: string, data: Assignment)
    modifies store
    ensures store.state == Assigned(old(store.state), b, id, data)
  {
    store.Dispatch(SetPreviewOutdated);
    store.Dispatch(AssignTo(b, map[id := data]));
  }

  /** `removeMinistryFieldCache(id)`. */
  function FieldRemoved(s: AssignmentsState, id: string): AssignmentsState {
    Reduce(Reduce(Reduce(s, SetPreviewOutdated), Action.RemoveMinistryFieldCache(id)), UnassignFromMinistry(id))
  }

  /** Removing a field drops it from the cache and from the ministry assignments, keeps every
      other field and assignment, and marks the preview outdated. */
  lemma FieldRemovedEffect(s: AssignmentsState, id: string)
    ensures var r := FieldRemoved(s, id);
      && id !in r.ministryFieldsCache && id !in r.assignedParts.ministry
      && (forall k :: k != id && k in s.ministryFieldsCache ==>
            k in r.ministryFieldsCache && r.ministryFieldsCache[k] == s.ministryFieldsCache[k])
      && (forall k :: k != id && k in s.assignedParts.ministry ==>
            k in r.assignedParts.ministry && r.assignedParts.ministry[k] == s.assignedParts.ministry[k])
      && r.ministryFieldsCache.Keys == s.ministryFieldsCache.Keys - {id}
      && r.assignedParts.ministry.Keys == s.assignedParts.ministry.Keys - {id}
      && (forall c :: c != Ministry ==> BucketOf(r.assignedParts, c) == BucketOf(s.assignedParts, c))
      && r.preview == Preview(s.preview.html, true)
      && r.(assignedParts := s.assignedParts, preview := s.preview, ministryFieldsCache := s.ministryFieldsCache) == s
  {
  }

  method RemoveMinistryFieldCache(store: AssignmentsStore, id: string)
    modifies store
    ensures store.state == FieldRemoved(old(store.state), id)
  {
    store.Dispatch(SetPreviewOutdated);
    store.Dispatch(Action.RemoveMinistryFieldCache(id));
    store.Dispatch(UnassignFromMinistry(id));
  }

  /** A select an item row shows: its element id, label, whether it is disabled, and the key its
      change assigns in the week bucket. */
  datatype Select = Select(id: string, caption: string, disabled: bool, assigns: string)

  const AutoassignId := "chairman_autoassign"

  /** The main select: the disabled automatic one for an item the chairman takes, the editable
      one for any other assignable item, none for an item that is not assignable. */
  function MainSelect(sectionId: string, item: PartItem): Option<Select> {
    if !item.isAssignable then None
    else if item.chairmanAssigned then Some(Select(AutoassignId, "Designação automática", true, item.id))
    else Some(Select(item.id, if sectionId == "living" && item.hasPair then "Dirigente" else "Designado", false, item.id))
  }

  /** The pair select, for an item with a pair. */
  function PairSelect(sectionId: string, item: PartItem): Option<Select> {
    if item.hasPair then Some(Select(item.id + "-pair", if sectionId == "living" then "Leitor" else "Ajudante", false, item.id + "-pair"))
    else None
  }

  /** The selects of one item row, in order. */
  function ItemSelects(sectionId: string, item: PartItem): (r: seq<Select>)
    ensures |r| == (if item.isAssignable then 1 else 0) + (if item.hasPair then 1 else 0)
    ensures forall i, j :: 0 <= i < j < |r| ==> r[i].id != r[j].id
    ensures forall i :: 0 <= i < |r| ==> (r[i].disabled ==> r[i].id == AutoassignId)
  {
    var main := MainSelect(sectionId, item);
    var pair := PairSelect(sectionId, item);
    assert pair.Some? ==> pair.value.id[|pair.value.id| - 1] == 'r';
    (if main.Some? then [main.value] else []) + (if pair.Some? then [pair.value] else [])
  }

  /** An assignable item gets exactly one main select, disabled iff the chairman takes it; the
      main label is `Dirigente` iff the section is `living` and the item has a pair; the pair
      select, with id `<item id>-pair`, appears iff the item has a pair, labelled `Leitor` in
      `living` and `Ajudante` elsewhere. */
  lemma SelectRules(sectionId: string, item: PartItem)
    ensures MainSelect(sectionId, item).Some? <==> item.isAssignable
    ensures MainSelect(sectionId, item).Some? ==> (MainSelect(sectionId, item).value.disabled <==> item.chairmanAssigned)
    ensures MainSelect(sectionId, item).Some? && !item.chairmanAssigned ==>
      (MainSelect(sectionId, item).value.caption == "Dirigente" <==> sectionId == "living" && item.hasPair)
    ensures PairSelect(sectionId, item).Some? <==> item.hasPair
    ensures PairSelect(sectionId, item).Some? ==> PairSelect(sectionId, item).value.id == item.id + "-pair"
    ensures PairSelect(sectionId, item).Some? ==> (PairSelect(sectionId, item).value.caption == "Leitor" <==> sectionId == "living")
  {
  }

  /** The week entry a change of `sel` assigns. */
  function SelectEntry(sectionId: string, item: PartItem, sel: Select, value: string): Assignment {
    Assignment(sel.assigns, item.text, value, Some(sectionId))
  }

  /** A value chosen in the pair select is an entry the preview skips and is the one it takes as
      the item's pair; one chosen in the editable main select names the item, so the preview gives
      it that value as assignee. */
  lemma SelectsFeedPreview(sectionId: string, item: PartItem, value: string)
    ensures PairSelect(sectionId, item).Some? ==>
      var e := SelectEntry(sectionId, item, PairSelect(sectionId, item).value, value);
      && AssignmentsPreview.Skipped(e)
      && AssignmentsPreview.PairValue([e], item.id) == Str(value)
    ensures (MainSelect(sectionId, item).Some? && !item.chairmanAssigned && sectionId != "chairman"
      && !Contains(item.id, "-pair")) ==>
      var e := SelectEntry(sectionId, item, MainSelect(sectionId, item).value, value);
      && !AssignmentsPreview.Skipped(e)
      && AssignmentsPreview.TouchItem(item, e, [e], None, AssignmentsPreview.Slot(Undefined, Undefined)).0.assignee == Str(value)
  {
    if item.hasPair {
      var id := item.id + "-pair";
      assert id[|item.id|..|item.id| + 5] == "-pair";
      assert OccursAt(id, "-pair", |item.id|);
    }
  }

  const MainCongregation := "nordeste"
  const CleaningText := "Congregação responsável da semana"

  /** The congregation select's change: assign `cleaning_1`, and for a congregation other than
      the main one reset `cleaning_group_2` (an entry with no text, stored here with text ""). */
  function CongregationChosen(s: AssignmentsState, value: string): AssignmentsState {
    var s1 := Assigned(s, Cleaning, "cleaning_1", Assignment("cleaning_1", CleaningText, value, None));
    if value != MainCongregation then
      Assigned(s1, Cleaning, "cleaning_group_2", Assignment("cleaning_group_2", "", "", None))
    else s1
  }

  /** The chosen congregation is stored; another congregation than the main one empties the
      cleaning group, so the preview's copy of the cleaning assignments leaves it out; choosing
      the main congregation keeps the group as it was. */
  lemma CongregationEffect(s: AssignmentsState, value: string)
    ensures var r := CongregationChosen(s, value).assignedParts.cleaning;
      && "cleaning_1" in r && r["cleaning_1"].value == value
      && (value != MainCongregation ==> "cleaning_group_2" !in AssignmentsPreview.CleaningCopy(r))
      && (value == MainCongregation ==>
            ("cleaning_group_2" in r <==> "cleaning_group_2" in s.assignedParts.cleaning)
            && ("cleaning_group_2" in r ==> r["cleaning_group_2"] == s.assignedParts.cleaning["cleaning_group_2"]))
  {
    AssignedEffect(s, Cleaning, "cleaning_1", Assignment("cleaning_1", CleaningText, value, None));
    var s1 := Assigned(s, Cleaning, "cleaning_1", Assignment("cleaning_1", CleaningText, value, None));
    if value != MainCongregation {
      AssignedEffect(s1, Cleaning, "cleaning_group_2", Assignment("cleaning_group_2", "", "", None));
    }
  }

  method SelectCongregation(store: AssignmentsStore, value: string)
    modifies store
    ensures store.state == CongregationChosen(old(store.state), value)
  {
    Assign(store, Cleaning, "cleaning_1", Assignment("cleaning_1", CleaningText, value, None));
    if value != MainCongregation {
      Assign(store, Cleaning, "cleaning_group_2", Assignment("cleaning_group_2", "", "", None));
    }
  }

  /** `contacts.find(c => c.value === value)`. */
  function FindContact(contacts: seq<ContactOption>, value: string): (r: Option<ContactOption>)
    ensures r.None? <==> forall i :: 0 <= i < |contacts| ==> contacts[i].value != value
    ensures r.Some? ==> r.value in contacts && r.value.value == value
  {
    if contacts == [] then None
    else if contacts[0].value == value then Some(contacts[0])
    else
      var r := FindContact(contacts[1..], value);
      assert forall i :: 1 <= i < |contacts| ==> contacts[i] == contacts[1..][i - 1];
      r
  }

  function ChairmanEntry(value: string): Assignment {
    Assignment("chairman", "Presidente", value, Some("chairman"))
  }

  /** The chairman select's change. */
  function ChairmanChosen(s: AssignmentsState, value: string): AssignmentsState {
    var found := FindContact(s.contacts, value);
    if found.Some? then Assigned(s, Week, "chairman", ChairmanEntry(found.value.value)) else s
  }

  /** The chairman is assigned exactly when the chosen value is some contact's address, and then
      it is the week's chairman for the preview, whose own entry assigns no workbook item. */
  lemma ChairmanEffect(s: AssignmentsState, value: string)
    ensures ChairmanChosen(s, value) != s ==> exists i :: 0 <= i < |s.contacts| && s.contacts[i].value == value
    ensures (forall i :: 0 <= i < |s.contacts| ==> s.contacts[i].value != value) ==> ChairmanChosen(s, value) == s
    ensures (exists i :: 0 <= i < |s.contacts| && s.contacts[i].value == value) ==>
      var week := ChairmanChosen(s, value).assignedParts.week;
      && AssignmentsPreview.ChairmanOf(week) == Some(ChairmanEntry(value))
      && AssignmentsPreview.Skipped(ChairmanEntry(value))
  {
    var found := FindContact(s.contacts, value);
    if found.Some? {
      AssignedEffect(s, Week, "chairman", ChairmanEntry(value));
    }
  }

  method SelectChairman(store: AssignmentsStore, value: string)
    modifies store
    ensures store.state == ChairmanChosen(old(store.state), value)
  {
    var found := FindContact(store.state.contacts, value);
    if found.Some? {
      Assign(store, Week, "chairman", ChairmanEntry(found.value.value));
    }
  }
}
