/** The client's assignments store (client/src/components/RootContext.js): its initial state, the
    `assignmentsReducer` that computes the next state from an action, and the store object that
    components dispatch actions to. */
module RootContext {
  import opened Js
  import opened Text

  /** A contact as the select boxes list it: `text` is the name, `value` the address. */
  datatype ContactOption = ContactOption(id: string, text: string, value: string)

  datatype ContactGroup = ContactGroup(id: string, name: string, contacts: seq<string>)

  /** A cleaning group option: `value` is the group id, `text` its name. */
  datatype GroupOption = GroupOption(value: string, text: string)

  /** An entry of an `assignedParts` bucket or of the ministry field cache: the select's id, the
      described part, the chosen value and, for week entries, the section. */
  datatype Assignment = Assignment(id: string, text: string, value: string, section: Option<string>)

  /** An item of a workbook section as the client holds it. The preview request writes
      `assignee` and `pair` into these objects in place, so they are objects, not values. */
  class PartItem {
    const id: string
    const text: string
    const hasPair: bool
    const isAssignable: bool
    const chairmanAssigned: bool
    var assignee: Value
    var pair: Value

    constructor(id: string, text: string, hasPair: bool, isAssignable: bool, chairmanAssigned: bool)
      ensures this.id == id && this.text == text && this.hasPair == hasPair
      ensures this.isAssignable == isAssignable && this.chairmanAssigned == chairmanAssigned
      ensures assignee == Undefined && pair == Undefined
    {
      this.id := id;
      this.text := text;
      this.hasPair := hasPair;
      this.isAssignable := isAssignable;
      this.chairmanAssigned := chairmanAssigned;
      assignee := Undefined;
      pair := Undefined;
    }
  }

  /** A workbook section as the client holds it. */
  datatype Part = Part(id: string, title: string, items: seq<PartItem>)

  datatype Preview = Preview(html: string, shouldRefresh: bool)

  datatype AssignedParts = AssignedParts(
    weekend: map<string, Assignment>, week: map<string, Assignment>,
    cleaning: map<string, Assignment>, ministry: map<string, Assignment>)

  datatype AssignmentsState = AssignmentsState(
    emailSent: bool, parts: seq<Part>, contacts: seq<ContactOption>, contactGroups: seq<ContactGroup>,
    cleaningGroups: seq<GroupOption>, ministryFieldsCache: map<string, Assignment>,
    preview: Preview, assignedParts: AssignedParts)

  /** `assignmentsInitialState`. */
  const InitialState := AssignmentsState(
    false, [], [], [], [], map[], Preview("", false), AssignedParts(map[], map[], map[], map[]))

  datatype Bucket = Weekend | Week | Cleaning | Ministry

  /** The reducer's actions. A falsy `data` of `SET_CONTACTS` or `SET_CONTACT_GROUPS` is `None`;
      any other action type is `Unknown`. */
  datatype Action =
    | SetEmailSent(flag: Value)
    | SetParts(parts: seq<Part>)
    | SetContacts(contacts: Option<seq<ContactOption>>)
    | AddContact(id: string, name: string, address: string)
    | RemoveContact(contactId: string)
    | SetContactGroups(groups: Option<seq<ContactGroup>>)
    | AddContactGroup(groupId: string, groupName: string, members: seq<string>)
    | RemoveContactGroup(groupId: string)
    | SetCleaningGroups(cleaningGroups: seq<GroupOption>)
    | AddMinistryFieldCache(fields: map<string, Assignment>)
    | RemoveMinistryFieldCache(key: string)
    | AssignTo(bucket: Bucket, entries: map<string, Assignment>)
    | UnassignFromMinistry(key: string)
    | SetPreviewContent(html: string)
    | SetPreviewOutdated
    | Unknown(name: string)

  /** `order` lists every key of `m` once: the order `Object.keys` and `Object.values` visit
      them in. */
  ghost predicate ListsKeys(m: map<string, Assignment>, order: seq<string>) {
    && (forall k :: k in m <==> k in order)
    && (forall i, j :: 0 <= i < j < |order| ==> order[i] != order[j])
  }

  /** `s` is ordered by `key` under string comparison. */
  ghost predicate SortedBy<T>(s: seq<T>, key: T -> string) {
    forall i, j :: 0 <= i < j < |s| ==> LexLe(key(s[i]), key(s[j]))
  }

  /** `x` inserted into `s` before the first element whose key is greater. */
  function Insert<T>(x: T, s: seq<T>, key: T -> string): (r: seq<T>)
    ensures |r| == |s| + 1 && multiset(r) == multiset(s) + multiset{x}
    decreases |s|
  {
    if s == [] then [x]
    else if !LexLe(key(x), key(s[0])) || key(x) == key(s[0]) then
      assert s == [s[0]] + s[1..];
      [s[0]] + Insert(x, s[1..], key)
    else [x] + s
  }

  lemma {:induction false} InsertSorted<T>(x: T, s: seq<T>, key: T -> string)
    requires SortedBy(s, key)
    ensures SortedBy(Insert(x, s, key), key)
    decreases |s|
  {
    if s != [] {
      if !LexLe(key(x), key(s[0])) || key(x) == key(s[0]) {
        var rest := Insert(x, s[1..], key);
        InsertSorted(x, s[1..], key);
        LexLeTotal(key(x), key(s[0]));
        forall j | 0 <= j < |rest| ensures LexLe(key(s[0]), key(rest[j])) {
          assert rest[j] in multiset(rest);
          assert rest[j] == x || rest[j] in multiset(s[1..]);
          if rest[j] != x {
            var k :| 0 <= k < |s[1..]| && s[1..][k] == rest[j];
            assert s[k + 1] == rest[j];
          }
        }
      } else {
        forall j | 0 <= j < |s| ensures LexLe(key(x), key(s[j])) {
          if j > 0 {
            LexLeTransitive(key(x), key(s[0]), key(s[j]));
          }
        }
        assert forall j :: 1 <= j <= |s| ==> ([x] + s)[j] == s[j - 1];
      }
    }
  }

  /** `s.sort((a, b) => key(a) > key(b) ? 1 : -1)`, as an insertion sort. */
  function SortBy<T>(s: seq<T>, key: T -> string): (r: seq<T>)
    ensures |r| == |s| && multiset(r) == multiset(s)
    decreases |s|
  {
    if s == [] then []
    else
      assert s == [s[0]] + s[1..];
      Insert(s[0], SortBy(s[1..], key), key)
  }

  /** The sort orders by key. */
  lemma {:induction false} SortBySorted<T>(s: seq<T>, key: T -> string)
    ensures SortedBy(SortBy(s, key), key)
    decreases |s|
  {
    if s != [] {
      SortBySorted(s[1..], key);
      InsertSorted(s[0], SortBy(s[1..], key), key);
    }
  }

  function ContactKey(c: ContactOption): string {
    Upper(c.text)
  }

  function GroupKey(g: ContactGroup): string {
    Upper(g.name)
  }

  /** `contacts.filter(c => c.id !== id)`. */
  function WithoutContact(contacts: seq<ContactOption>, id: string): (r: seq<ContactOption>)
    ensures forall c :: c in r <==> c in contacts && c.id != id
    ensures |contacts| == 1 ==> r == if contacts[0].id != id then contacts else []
    decreases |contacts|
  {
    if contacts == [] then []
    else
      var rest := WithoutContact(contacts[1..], id);
      assert forall c :: c in contacts <==> c == contacts[0] || c in contacts[1..];
      if contacts[0].id != id then [contacts[0]] + rest else rest
  }

  /** `groups.filter(cg => cg.id !== id)`. */
  function WithoutGroup(groups: seq<ContactGroup>, id: string): (r: seq<ContactGroup>)
    ensures forall g :: g in r <==> g in groups && g.id != id
    ensures |groups| == 1 ==> r == if groups[0].id != id then groups else []
    decreases |groups|
  {
    if groups == [] then []
    else
      var rest := WithoutGroup(groups[1..], id);
      assert forall g :: g in groups <==> g == groups[0] || g in groups[1..];
      if groups[0].id != id then [groups[0]] + rest else rest
  }

  /** Filtering works element by element and keeps the order: the filter of a concatenation is
      the concatenation of the filters. */
  lemma {:induction false} WithoutContactConcat(a: seq<ContactOption>, b: seq<ContactOption>, id: string)
    ensures WithoutContact(a + b, id) == WithoutContact(a, id) + WithoutContact(b, id)
    decreases |a|
  {
    if a == [] {
      assert a + b == b;
    } else {
      assert (a + b)[0] == a[0] && (a + b)[1..] == a[1..] + b;
      WithoutContactConcat(a[1..], b, id);
    }
  }

  lemma {:induction false} WithoutGroupConcat(a: seq<ContactGroup>, b: seq<ContactGroup>, id: string)
    ensures WithoutGroup(a + b, id) == WithoutGroup(a, id) + WithoutGroup(b, id)
    decreases |a|
  {
    if a == [] {
      assert a + b == b;
    } else {
      assert (a + b)[0] == a[0] && (a + b)[1..] == a[1..] + b;
      WithoutGroupConcat(a[1..], b, id);
    }
  }

  /** `{ ...old, ...data }`. */
  function Merge(prior: map<string, Assignment>, data: map<string, Assignment>): (r: map<string, Assignment>)
    ensures r.Keys == prior.Keys + data.Keys
    ensures forall k :: k in data ==> r[k] == data[k]
    ensures forall k :: k in prior && k !in data ==> r[k] == prior[k]
  {
    prior + data
  }

  function BucketOf(p: AssignedParts, b: Bucket): map<string, Assignment> {
    match b
    case Weekend => p.weekend
    case Week => p.week
    case Cleaning => p.cleaning
    case Ministry => p.ministry
  }

  function WithBucket(p: AssignedParts, b: Bucket, m: map<string, Assignment>): (r: AssignedParts)
    ensures BucketOf(r, b) == m
    ensures forall c :: c != b ==> BucketOf(r, c) == BucketOf(p, c)
  {
    match b
    case Weekend => p.(weekend := m)
    case Week => p.(week := m)
    case Cleaning => p.(cleaning := m)
    case Ministry => p.(ministry := m)
  }

  /** `assignmentsReducer(s, a)`: the state after the action. An unknown action returns the old
      state; `ReduceWritesOwnPart` shows that every other action writes only the part of the state
      it is named after. */
  function Reduce(s: AssignmentsState, a: Action): (r: AssignmentsState)
    ensures a.Unknown? ==> r == s
  {
    match a
    case SetEmailSent(flag) => s.(emailSent := Truthy(flag))
    case SetParts(parts) => s.(parts := parts)
    case SetContacts(contacts) =>
      s.(contacts := SortBy(if contacts.Some? then contacts.value else [], ContactKey))
    case AddContact(id, name, address) =>
      s.(contacts := SortBy(s.contacts + [ContactOption(id, name, address)], ContactKey))
    case RemoveContact(id) => s.(contacts := WithoutContact(s.contacts, id))
    case SetContactGroups(groups) => s.(contactGroups := if groups.Some? then groups.value else [])
    case AddContactGroup(id, name, members) =>
      s.(contactGroups := SortBy(s.contactGroups + [ContactGroup(id, name, members)], GroupKey))
    case RemoveContactGroup(id) => s.(contactGroups := WithoutGroup(s.contactGroups, id))
    case SetCleaningGroups(groups) => s.(cleaningGroups := groups)
    case AddMinistryFieldCache(fields) => s.(ministryFieldsCache := Merge(s.ministryFieldsCache, fields))
    case RemoveMinistryFieldCache(key) => s.(ministryFieldsCache := s.ministryFieldsCache - {key})
    case AssignTo(b, entries) =>
      s.(assignedParts := WithBucket(s.assignedParts, b, Merge(BucketOf(s.assignedParts, b), entries)))
    case UnassignFromMinistry(key) =>
      s.(assignedParts := s.assignedParts.(ministry := s.assignedParts.ministry - {key}))
    case SetPreviewContent(html) => s.(preview := Preview(html, false))
    case SetPreviewOutdated => s.(preview := s.preview.(shouldRefresh := true))
    case Unknown(_) => s
  }

  /** Each action writes only the part of the state it is named after. */
  lemma ReduceWritesOwnPart(s: AssignmentsState, a: Action)
    ensures var r := Reduce(s, a);
      && (r.emailSent != s.emailSent ==> a.SetEmailSent?)
      && (r.parts != s.parts ==> a.SetParts?)
      && (r.contacts != s.contacts ==> a.SetContacts? || a.AddContact? || a.RemoveContact?)
      && (r.contactGroups != s.contactGroups ==>
            a.SetContactGroups? || a.AddContactGroup? || a.RemoveContactGroup?)
      && (r.cleaningGroups != s.cleaningGroups ==> a.SetCleaningGroups?)
      && (r.ministryFieldsCache != s.ministryFieldsCache ==>
            a.AddMinistryFieldCache? || a.RemoveMinistryFieldCache?)
      && (r.assignedParts != s.assignedParts ==> a.AssignTo? || a.UnassignFromMinistry?)
      && (r.preview != s.preview ==> a.SetPreviewContent? || a.SetPreviewOutdated?)
  {
  }

  /** `SET_EMAIL_SENT` stores the truth value of its data and nothing else. */
  lemma SetEmailSentStoresBoolean(s: AssignmentsState, flag: Value)
    ensures Reduce(s, SetEmailSent(flag)).emailSent <==> Truthy(flag)
    ensures Reduce(s, SetEmailSent(flag)).(emailSent := s.emailSent) == s
  {
  }

  /** `SET_CONTACT_GROUPS` stores its data, or `[]` when the data is falsy. */
  lemma SetContactGroupsDefaultsToEmpty(s: AssignmentsState, groups: Option<seq<ContactGroup>>)
    ensures groups.None? ==> Reduce(s, SetContactGroups(groups)).contactGroups == []
    ensures groups.Some? ==> Reduce(s, SetContactGroups(groups)).contactGroups == groups.value
    ensures Reduce(s, SetContactGroups(groups)).(contactGroups := s.contactGroups) == s
  {
  }

  /** `SET_CONTACTS` stores the data ordered by upper-cased name. */
  lemma SetContactsSorts(s: AssignmentsState, contacts: seq<ContactOption>)
    ensures var r := Reduce(s, SetContacts(Some(contacts))).contacts;
      multiset(r) == multiset(contacts) && SortedBy(r, ContactKey)
  {
    SortBySorted(contacts, ContactKey);
  }

  /** `ADD_CONTACT` adds exactly the new contact and keeps the list ordered by upper-cased name. */
  lemma AddContactInsertsOne(s: AssignmentsState, id: string, name: string, address: string)
    ensures var r := Reduce(s, AddContact(id, name, address));
      && |r.contacts| == |s.contacts| + 1
      && multiset(r.contacts) == multiset(s.contacts) + multiset{ContactOption(id, name, address)}
      && SortedBy(r.contacts, ContactKey)
      && r.(contacts := s.contacts) == s
  {
    SortBySorted(s.contacts + [ContactOption(id, name, address)], ContactKey);
  }

  /** `ADD_CONTACT_GROUP` adds exactly the new group and keeps the list ordered by upper-cased name. */
  lemma AddContactGroupInsertsOne(s: AssignmentsState, id: string, name: string, members: seq<string>)
    ensures var r := Reduce(s, AddContactGroup(id, name, members));
      && |r.contactGroups| == |s.contactGroups| + 1
      && multiset(r.contactGroups) == multiset(s.contactGroups) + multiset{ContactGroup(id, name, members)}
      && SortedBy(r.contactGroups, GroupKey)
      && r.(contactGroups := s.contactGroups) == s
  {
    SortBySorted(s.contactGroups + [ContactGroup(id, name, members)], GroupKey);
  }

  /** `REMOVE_CONTACT` drops exactly the contacts with that id. */
  lemma RemoveContactFilters(s: AssignmentsState, id: string)
    ensures var r := Reduce(s, RemoveContact(id));
      && (forall c :: c in r.contacts <==> c in s.contacts && c.id != id)
      && r.contacts == WithoutContact(s.contacts, id)
      && |r.contacts| <= |s.contacts|
      && r.(contacts := s.contacts) == s
  {
    WithoutContactShrinks(s.contacts, id);
  }

  lemma {:induction false} WithoutContactShrinks(contacts: seq<ContactOption>, id: string)
    ensures |WithoutContact(contacts, id)| <= |contacts|
    ensures (forall c :: c in contacts ==> c.id != id) ==> WithoutContact(contacts, id) == contacts
    decreases |contacts|
  {
    if contacts != [] {
      WithoutContactShrinks(contacts[1..], id);
      assert contacts == [contacts[0]] + contacts[1..];
    }
  }

  /** `REMOVE_CONTACT_GROUP` drops exactly the groups with that id. */
  lemma RemoveContactGroupFilters(s: AssignmentsState, id: string)
    ensures var r := Reduce(s, RemoveContactGroup(id));
      && (forall g :: g in r.contactGroups <==> g in s.contactGroups && g.id != id)
      && r.contactGroups == WithoutGroup(s.contactGroups, id)
      && r.(contactGroups := s.contactGroups) == s
  {
  }

  /** `ADD_MINISTRY_FIELD_CACHE` merges: the data's keys are overwritten, the others kept. */
  lemma AddMinistryFieldCacheMerges(s: AssignmentsState, fields: map<string, Assignment>)
    ensures var r := Reduce(s, AddMinistryFieldCache(fields)).ministryFieldsCache;
      && r.Keys == s.ministryFieldsCache.Keys + fields.Keys
      && (forall k :: k in fields ==> r[k] == fields[k])
      && (forall k :: k in s.ministryFieldsCache && k !in fields ==> r[k] == s.ministryFieldsCache[k])
    ensures Reduce(s, AddMinistryFieldCache(fields)).(ministryFieldsCache := s.ministryFieldsCache) == s
  {
  }

  /** Removing a key from the ministry field cache or from the ministry bucket leaves every other
      key as it was. */
  lemma RemoveKeyKeepsOthers(s: AssignmentsState, key: string)
    ensures var r := Reduce(s, RemoveMinistryFieldCache(key));
      && key !in r.ministryFieldsCache
      && (forall k :: k != key ==> (k in r.ministryFieldsCache <==> k in s.ministryFieldsCache))
      && (forall k :: k != key && k in s.ministryFieldsCache ==> r.ministryFieldsCache[k] == s.ministryFieldsCache[k])
      && r.(ministryFieldsCache := s.ministryFieldsCache) == s
    ensures var r := Reduce(s, UnassignFromMinistry(key));
      && key !in r.assignedParts.ministry
      && (forall k :: k != key ==> (k in r.assignedParts.ministry <==> k in s.assignedParts.ministry))
      && (forall k :: k != key && k in s.assignedParts.ministry ==> r.assignedParts.ministry[k] == s.assignedParts.ministry[k])
      && r.(assignedParts := s.assignedParts) == s
  {
  }

  /** An `ASSIGN_TO_*` action merges its data into its own bucket and leaves the other three
      buckets and the rest of the state unchanged. */
  lemma AssignToTouchesOneBucket(s: AssignmentsState, b: Bucket, entries: map<string, Assignment>)
    ensures var r := Reduce(s, AssignTo(b, entries));
      && BucketOf(r.assignedParts, b) == Merge(BucketOf(s.assignedParts, b), entries)
      && (forall c :: c != b ==> BucketOf(r.assignedParts, c) == BucketOf(s.assignedParts, c))
      && r.(assignedParts := s.assignedParts) == s
  {
  }

  /** New preview content is up to date; marking the preview outdated keeps its content. */
  lemma PreviewFlags(s: AssignmentsState, html: string)
    ensures Reduce(s, SetPreviewContent(html)).preview == Preview(html, false)
    ensures Reduce(s, SetPreviewOutdated).preview == Preview(s.preview.html, true)
    ensures Reduce(s, SetPreviewContent(html)).(preview := s.preview) == s
    ensures Reduce(s, SetPreviewOutdated).(preview := s.preview) == s
  {
  }

  /** The store components read and dispatch to. The reducer carries out some actions by
      deleting keys or assigning fields of the old state object in place and others by building a
      new object; either way the state the store holds next is `Reduce(old state, action)`. */
  class AssignmentsStore {
    var state: AssignmentsState

    constructor()
      ensures state == InitialState
    {
      state := InitialState;
    }

    /** `dispatch(action)`. */
    method Dispatch(a: Action)
      modifies this
      ensures state == Reduce(old(state), a)
    {
      match a
      case RemoveMinistryFieldCache(key) =>
        state := state.(ministryFieldsCache := state.ministryFieldsCache - {key});
      case UnassignFromMinistry(key) =>
        state := state.(assignedParts := state.assignedParts.(ministry := state.assignedParts.ministry - {key}));
      case SetPreviewOutdated =>
        state := state.(preview := state.preview.(shouldRefresh := true));
      case Unknown(_) =>
      case _ =>
        state := Reduce(state, a);
    }
  }
}
