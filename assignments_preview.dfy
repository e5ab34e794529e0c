/** The assignments preview step (client/src/components/assignments/AssignmentsPreview.js): before
    asking the server for a preview, `fetchPreview` writes each week assignment into the workbook
    items the store holds, then posts the week, the weekend, the ministry and a copy of the cleaning
    assignments. */
module AssignmentsPreview {
  import opened Js
  import opened Text
  import opened RootContext

  /** The two fields of a workbook item that `fetchPreview` writes. */
  datatype Slot = Slot(assignee: Value, pair: Value)

  function SlotsOf(items: seq<PartItem>): (r: seq<Slot>)
    reads items
    ensures |r| == |items|
  {
    seq(|items|, i reads items requires 0 <= i < |items| => Slot(items[i].assignee, items[i].pair))
  }

  /** Every item object appears once across all parts. */
  ghost predicate DistinctItems(parts: seq<Part>) {
    && (forall p, i, j :: 0 <= p < |parts| && 0 <= i < j < |parts[p].items| ==>
          parts[p].items[i] != parts[p].items[j])
    && (forall p, p', i, j :: 0 <= p < p' < |parts| && 0 <= i < |parts[p].items| && 0 <= j < |parts[p'].items| ==>
          parts[p].items[i] != parts[p'].items[j])
  }

  ghost function AllItems(parts: seq<Part>): set<PartItem> {
    set p, i | 0 <= p < |parts| && 0 <= i < |parts[p].items| :: parts[p].items[i]
  }

  function AllSlots(parts: seq<Part>): (r: seq<seq<Slot>>)
    reads AllItems(parts)
    ensures |r| == |parts|
  {
    seq(|parts|, p reads AllItems(parts) requires 0 <= p < |parts| => SlotsOf(parts[p].items))
  }

  /** Slot tables shaped like the parts' items. */
  predicate Shaped(parts: seq<Part>, slots: seq<seq<Slot>>) {
    |slots| == |parts| && forall p :: 0 <= p < |parts| ==> |slots[p]| == |parts[p].items|
  }

  /** `(weekAsArray.find(pair => pair.id === `${id}-pair`) || {}).value`. */
  function PairValue(entries: seq<Assignment>, itemId: string): (r: Value)
    ensures r == Undefined <==> forall k :: 0 <= k < |entries| ==> entries[k].id != itemId + "-pair"
    ensures r != Undefined ==> exists k :: (0 <= k < |entries| && entries[k].id == itemId + "-pair"
      && r == Str(entries[k].value) && forall k' :: 0 <= k' < k ==> entries[k'].id != itemId + "-pair")
  {
    if entries == [] then Undefined
    else if entries[0].id == itemId + "-pair" then Str(entries[0].value)
    else
      var r := PairValue(entries[1..], itemId);
      assert forall k :: 1 <= k < |entries| ==> entries[k] == entries[1..][k - 1];
      r
  }

  /** Entries that assign nothing: pair readers and the chairman. */
  predicate Skipped(e: Assignment) {
    Contains(e.id, "-pair") || e.section == Some("chairman")
  }

  /** One item of the `forEach` for entry `e`: the new slot and whether the item was processed
      without an exception. A chairman-assigned item reads `week.chairman.value`, which throws when
      the week has no chairman entry; the pair has already been written by then. */
  function TouchItem(item: PartItem, e: Assignment, entries: seq<Assignment>, chairman: Option<Assignment>, s: Slot): (Slot, bool) {
    if !item.isAssignable || (item.id != e.id && !item.chairmanAssigned) then (s, true)
    else
      var paired := if item.hasPair then s.(pair := PairValue(entries, item.id)) else s;
      if !item.chairmanAssigned then (paired.(assignee := Str(e.value)), true)
      else if chairman.Some? then (paired.(assignee := Str(chairman.value.value)), true)
      else (paired, false)
  }

  /** The first `n` items of the `forEach`; an exception ends it. */
  function TouchItems(items: seq<PartItem>, e: Assignment, entries: seq<Assignment>, chairman: Option<Assignment>,
                      slots: seq<Slot>, n: nat): (r: (seq<Slot>, bool))
    requires n <= |items| == |slots|
    ensures |r.0| == |slots|
  {
    if n == 0 then (slots, true)
    else
      var prev := TouchItems(items, e, entries, chairman, slots, n - 1);
      if !prev.1 then prev
      else
        var t := TouchItem(items[n - 1], e, entries, chairman, prev.0[n - 1]);
        (prev.0[n - 1 := t.0], t.1)
  }

  /** `wp.find(p => section === p.id)`: the index of the first part with that id. */
  function FirstPart(parts: seq<Part>, section: Option<string>): (r: Option<nat>)
    ensures r.None? <==> forall p :: 0 <= p < |parts| ==> section != Some(parts[p].id)
    ensures r.Some? ==> r.value < |parts| && section == Some(parts[r.value].id)
    ensures r.Some? ==> forall p :: 0 <= p < r.value ==> section != Some(parts[p].id)
  {
    if parts == [] then None
    else if section == Some(parts[0].id) then Some(0)
    else
      var r := FirstPart(parts[1..], section);
      assert forall p :: 1 <= p < |parts| ==> parts[p] == parts[1..][p - 1];
      if r.Some? then Some(r.value + 1) else None
  }

  /** One step of the `reduce`: the slots after entry `e` and whether it threw. An entry whose
      section names no part throws. */
  function StepEntry(parts: seq<Part>, e: Assignment, entries: seq<Assignment>, chairman: Option<Assignment>,
                     slots: seq<seq<Slot>>): (r: (seq<seq<Slot>>, bool))
    requires Shaped(parts, slots)
    ensures Shaped(parts, r.0)
  {
    if Skipped(e) then (slots, true)
    else
      match FirstPart(parts, e.section)
      case None => (slots, false)
      case Some(p) =>
        var t := TouchItems(parts[p].items, e, entries, chairman, slots[p], |parts[p].items|);
        (slots[p := t.0], t.1)
  }

  /** The `reduce` over the first `n` week entries: the slots of every part and whether no
      exception was thrown. */
  function ResolveWeek(parts: seq<Part>, entries: seq<Assignment>, chairman: Option<Assignment>,
                       slots: seq<seq<Slot>>, n: nat): (r: (seq<seq<Slot>>, bool))
    requires n <= |entries| && Shaped(parts, slots)
    ensures Shaped(parts, r.0)
  {
    if n == 0 then (slots, true)
    else
      var prev := ResolveWeek(parts, entries, chairman, slots, n - 1);
      if !prev.1 then prev
      else StepEntry(parts, entries[n - 1], entries, chairman, prev.0)
  }

  /** A pair-reader or chairman entry assigns nothing. */
  lemma SkippedEntryAssignsNothing(parts: seq<Part>, entries: seq<Assignment>, chairman: Option<Assignment>,
                                   slots: seq<seq<Slot>>, n: nat)
    requires 0 < n <= |entries| && Shaped(parts, slots) && Skipped(entries[n - 1])
    ensures ResolveWeek(parts, entries, chairman, slots, n) == ResolveWeek(parts, entries, chairman, slots, n - 1)
  {
  }

  /** What may happen to one item's slot under one entry: an item that is not assignable keeps
      its slot; the pair changes only for an item with a pair, to its pair entry's value; the
      assignee changes only for an item the entry names, to the entry's value, or for a
      chairman-assigned item, to the chairman's value. */
  ghost predicate AllowedChange(item: PartItem, entries: seq<Assignment>, chairman: Option<Assignment>, before: Slot, after: Slot) {
    && (!item.isAssignable ==> after == before)
    && (after.pair != before.pair ==> item.hasPair && after.pair == PairValue(entries, item.id))
    && (after.assignee != before.assignee ==>
          if item.chairmanAssigned then chairman.Some? && after.assignee == Str(chairman.value.value)
          else exists k :: (0 <= k < |entries| && !Skipped(entries[k]) && entries[k].id == item.id
            && after.assignee == Str(entries[k].value)))
  }

  lemma {:induction false} TouchItemsAllowed(items: seq<PartItem>, e: Assignment, entries: seq<Assignment>,
                                             chairman: Option<Assignment>, slots: seq<Slot>, n: nat, k: nat)
    requires n <= |items| == |slots| && k < |entries| && entries[k] == e && !Skipped(e)
    ensures forall q :: 0 <= q < |items| ==> AllowedChange(items[q], entries, chairman, slots[q],
      TouchItems(items, e, entries, chairman, slots, n).0[q])
  {
    if n > 0 {
      TouchItemsAllowed(items, e, entries, chairman, slots, n - 1, k);
      var prev := TouchItems(items, e, entries, chairman, slots, n - 1);
      if prev.1 {
        var r := TouchItems(items, e, entries, chairman, slots, n);
        var item := items[n - 1];
        var t := TouchItem(item, e, entries, chairman, prev.0[n - 1]);
        if t.0.assignee != slots[n - 1].assignee && !item.chairmanAssigned && t.0.assignee != prev.0[n - 1].assignee {
          assert item.id == e.id;
        }
        assert r.0[n - 1] == t.0;
      }
    }
  }

  /** AllowedChange composes: a change allowed after an allowed change is allowed. */
  lemma AllowedChangeComposes(item: PartItem, entries: seq<Assignment>, chairman: Option<Assignment>, a: Slot, b: Slot, c: Slot)
    requires AllowedChange(item, entries, chairman, a, b) && AllowedChange(item, entries, chairman, b, c)
    ensures AllowedChange(item, entries, chairman, a, c)
  {
  }

  /** However many entries are processed, every item's slot changes only as AllowedChange permits. */
  lemma {:induction false} ResolveWeekAllowed(parts: seq<Part>, entries: seq<Assignment>, chairman: Option<Assignment>,
                                              slots: seq<seq<Slot>>, n: nat)
    requires n <= |entries| && Shaped(parts, slots)
    ensures forall p, q :: 0 <= p < |parts| && 0 <= q < |parts[p].items| ==>
      AllowedChange(parts[p].items[q], entries, chairman, slots[p][q], ResolveWeek(parts, entries, chairman, slots, n).0[p][q])
  {
    if n > 0 {
      ResolveWeekAllowed(parts, entries, chairman, slots, n - 1);
      var prev := ResolveWeek(parts, entries, chairman, slots, n - 1);
      var e := entries[n - 1];
      if prev.1 && !Skipped(e) && FirstPart(parts, e.section).Some? {
        var p := FirstPart(parts, e.section).value;
        var items := parts[p].items;
        TouchItemsAllowed(items, e, entries, chairman, prev.0[p], |items|, n - 1);
        var r := ResolveWeek(parts, entries, chairman, slots, n);
        forall p', q | 0 <= p' < |parts| && 0 <= q < |parts[p'].items|
          ensures AllowedChange(parts[p'].items[q], entries, chairman, slots[p'][q], r.0[p'][q])
        {
          if p' == p {
            AllowedChangeComposes(parts[p].items[q], entries, chairman, slots[p][q], prev.0[p][q], r.0[p][q]);
          }
        }
      }
    }
  }

  lemma {:induction false} TouchItemsSucceed(items: seq<PartItem>, e: Assignment, entries: seq<Assignment>,
                                             chairman: Option<Assignment>, slots: seq<Slot>, n: nat)
    requires n <= |items| == |slots| && chairman.Some?
    ensures TouchItems(items, e, entries, chairman, slots, n).1
  {
    if n > 0 {
      TouchItemsSucceed(items, e, entries, chairman, slots, n - 1);
    }
  }

  /** With a chairman entry, and every assigning entry's section naming a part, no exception is
      thrown; an entry whose section names no part makes the whole `reduce` throw. */
  lemma {:induction false} ResolveWeekSucceeds(parts: seq<Part>, entries: seq<Assignment>, chairman: Option<Assignment>,
                                               slots: seq<seq<Slot>>, n: nat)
    requires n <= |entries| && Shaped(parts, slots)
    ensures chairman.Some? && (forall k :: 0 <= k < n && !Skipped(entries[k]) ==> FirstPart(parts, entries[k].section).Some?)
      ==> ResolveWeek(parts, entries, chairman, slots, n).1
    ensures (exists k :: 0 <= k < n && !Skipped(entries[k]) && FirstPart(parts, entries[k].section).None?)
      ==> !ResolveWeek(parts, entries, chairman, slots, n).1
  {
    if n > 0 {
      ResolveWeekSucceeds(parts, entries, chairman, slots, n - 1);
      var prev := ResolveWeek(parts, entries, chairman, slots, n - 1);
      var e := entries[n - 1];
      if chairman.Some? && prev.1 && !Skipped(e) && FirstPart(parts, e.section).Some? {
        var p := FirstPart(parts, e.section).value;
        TouchItemsSucceed(parts[p].items, e, entries, chairman, prev.0[p], |parts[p].items|);
      }
    }
  }

  lemma {:induction false} TouchItemsStops(items: seq<PartItem>, e: Assignment, entries: seq<Assignment>,
                                           chairman: Option<Assignment>, slots: seq<Slot>, n: nat, m: nat)
    requires n <= m <= |items| == |slots| && !TouchItems(items, e, entries, chairman, slots, n).1
    ensures TouchItems(items, e, entries, chairman, slots, m) == TouchItems(items, e, entries, chairman, slots, n)
    decreases m
  {
    if m > n {
      TouchItemsStops(items, e, entries, chairman, slots, n, m - 1);
    }
  }

  /** Entry `e` writes into `item` of part `p`: it assigns, its section's first part is `p`, and
      the item is assignable and either named by the entry or chairman-assigned. */
  predicate Touches(parts: seq<Part>, e: Assignment, p: nat, item: PartItem) {
    && !Skipped(e) && FirstPart(parts, e.section) == Some(p)
    && item.isAssignable && (item.id == e.id || item.chairmanAssigned)
  }

  /** The last of the first `n` entries that writes into `item` of part `p`. */
  function LastTouch(parts: seq<Part>, entries: seq<Assignment>, p: nat, item: PartItem, n: nat): (r: Option<nat>)
    requires n <= |entries|
    ensures r.Some? ==> (r.value < n && Touches(parts, entries[r.value], p, item)
      && forall k :: r.value < k < n ==> !Touches(parts, entries[k], p, item))
    ensures r.None? ==> forall k :: 0 <= k < n ==> !Touches(parts, entries[k], p, item)
  {
    if n == 0 then None
    else if Touches(parts, entries[n - 1], p, item) then Some(n - 1)
    else LastTouch(parts, entries, p, item, n - 1)
  }

  /** When the `forEach` over the first `n` items completes, each of them went through
      `TouchItem` once and the others are as they were. */
  lemma {:induction false} TouchItemsResult(items: seq<PartItem>, e: Assignment, entries: seq<Assignment>,
                                            chairman: Option<Assignment>, slots: seq<Slot>, n: nat)
    requires n <= |items| == |slots| && TouchItems(items, e, entries, chairman, slots, n).1
    ensures forall q :: 0 <= q < |items| ==> (TouchItems(items, e, entries, chairman, slots, n).0[q]
      == if q < n then TouchItem(items[q], e, entries, chairman, slots[q]).0 else slots[q])
    ensures forall q :: 0 <= q < n ==> TouchItem(items[q], e, entries, chairman, slots[q]).1
  {
    if n > 0 {
      var prev := TouchItems(items, e, entries, chairman, slots, n - 1);
      TouchItemsResult(items, e, entries, chairman, slots, n - 1);
    }
  }

  /** In a `reduce` that completes, each assignable item ends up written by the last entry that
      reaches it: a chairman-assigned item holds the chairman's value, any other item the value
      of the last assigning entry with its id, and an item with a pair holds its pair entry's
      value; an item no entry reaches keeps its slot. */
  lemma {:induction false} ResolveWeekAssigns(parts: seq<Part>, entries: seq<Assignment>, chairman: Option<Assignment>,
                                              slots: seq<seq<Slot>>, n: nat, p: nat, q: nat)
    requires n <= |entries| && Shaped(parts, slots) && p < |parts| && q < |parts[p].items|
    requires ResolveWeek(parts, entries, chairman, slots, n).1
    ensures var item := parts[p].items[q];
      var before, after := slots[p][q], ResolveWeek(parts, entries, chairman, slots, n).0[p][q];
      var last := LastTouch(parts, entries, p, item, n);
      && (last.None? ==> after == before)
      && (last.Some? && item.chairmanAssigned ==> chairman.Some? && after.assignee == Str(chairman.value.value))
      && (last.Some? && !item.chairmanAssigned ==> after.assignee == Str(entries[last.value].value))
      && (last.Some? && item.hasPair ==> after.pair == PairValue(entries, item.id))
      && (!item.hasPair ==> after.pair == before.pair)
  {
    if n > 0 {
      ResolveWeekStep(parts, entries, chairman, slots, n, p, q);
      ResolveWeekAssigns(parts, entries, chairman, slots, n - 1, p, q);
    }
  }

  /** One entry of the `reduce`: the slot of item `q` of part `p` goes through `TouchItem` when
      the entry writes into it, and is kept otherwise. */
  lemma ResolveWeekStep(parts: seq<Part>, entries: seq<Assignment>, chairman: Option<Assignment>,
                        slots: seq<seq<Slot>>, n: nat, p: nat, q: nat)
    requires 0 < n <= |entries| && Shaped(parts, slots) && p < |parts| && q < |parts[p].items|
    requires ResolveWeek(parts, entries, chairman, slots, n).1
    ensures var prev := ResolveWeek(parts, entries, chairman, slots, n - 1);
      var after := ResolveWeek(parts, entries, chairman, slots, n).0[p][q];
      var t := TouchItem(parts[p].items[q], entries[n - 1], entries, chairman, prev.0[p][q]);
      && prev.1
      && (Touches(parts, entries[n - 1], p, parts[p].items[q]) ==> after == t.0 && t.1)
      && (!Touches(parts, entries[n - 1], p, parts[p].items[q]) ==> after == prev.0[p][q])
  {
    var prev := ResolveWeek(parts, entries, chairman, slots, n - 1);
    assert prev.1;
    var e := entries[n - 1];
    if !Skipped(e) {
      var p0 := FirstPart(parts, e.section).value;
      if p0 == p {
        var items := parts[p].items;
        TouchItemsResult(items, e, entries, chairman, prev.0[p], |items|);
      }
    }
  }

  /** The `forEach` over one part's items for entry `e`; `ok` is false when it threw. */
  method TouchPart(items: seq<PartItem>, e: Assignment, entries: seq<Assignment>, chairman: Option<Assignment>)
    returns (ok: bool)
    requires forall i, j :: 0 <= i < j < |items| ==> items[i] != items[j]
    modifies items
    ensures (SlotsOf(items), ok) == TouchItems(items, e, entries, chairman, old(SlotsOf(items)), |items|)
  {
    ghost var start := SlotsOf(items);
    ok := true;
    var q := 0;
    while q < |items| && ok
      invariant 0 <= q <= |items|
      invariant (SlotsOf(items), ok) == TouchItems(items, e, entries, chairman, start, q)
    {
      ghost var before := SlotsOf(items);
      var item := items[q];
      if item.isAssignable && (item.id == e.id || item.chairmanAssigned) {
        if item.hasPair {
          item.pair := PairValue(entries, item.id);
        }
        if !item.chairmanAssigned {
          item.assignee := Str(e.value);
        } else if chairman.Some? {
          item.assignee := Str(chairman.value.value);
        } else {
          ok := false;
        }
      }
      assert SlotsOf(items) == before[q := Slot(item.assignee, item.pair)];
      q := q + 1;
    }
    if !ok {
      TouchItemsStops(items, e, entries, chairman, start, q, |items|);
    }
  }

  lemma {:induction false} ResolveWeekStops(parts: seq<Part>, entries: seq<Assignment>, chairman: Option<Assignment>,
                                            slots: seq<seq<Slot>>, n: nat, m: nat)
    requires n <= m <= |entries| && Shaped(parts, slots) && !ResolveWeek(parts, entries, chairman, slots, n).1
    ensures ResolveWeek(parts, entries, chairman, slots, m) == ResolveWeek(parts, entries, chairman, slots, n)
    decreases m
  {
    if m > n {
      ResolveWeekStops(parts, entries, chairman, slots, n, m - 1);
    }
  }

  /** One step of the `reduce`, writing into the items of the part the entry's section names. */
  method ApplyEntry(parts: seq<Part>, e: Assignment, entries: seq<Assignment>, chairman: Option<Assignment>)
    returns (ok: bool)
    requires DistinctItems(parts)
    modifies AllItems(parts)
    ensures (AllSlots(parts), ok) == StepEntry(parts, e, entries, chairman, old(AllSlots(parts)))
  {
    if Skipped(e) {
      return true;
    }
    var found := FirstPart(parts, e.section);
    if found.None? {
      return false;
    }
    var p := found.value;
    ghost var before := AllSlots(parts);
    assert forall i :: 0 <= i < |parts[p].items| ==> parts[p].items[i] in AllItems(parts);
    ok := TouchPart(parts[p].items, e, entries, chairman);
    forall p' | 0 <= p' < |parts| && p' != p
      ensures SlotsOf(parts[p'].items) == before[p']
    {
      assert forall i :: 0 <= i < |parts[p'].items| ==> parts[p'].items[i] !in parts[p].items;
    }
    assert AllSlots(parts) == before[p := SlotsOf(parts[p].items)];
  }

  /** The `reduce` over the week entries, writing into the items of `parts`; `ok` is false when it
      threw, and the items written before the exception keep their new values. */
  method ApplyWeek(parts: seq<Part>, entries: seq<Assignment>, chairman: Option<Assignment>) returns (ok: bool)
    requires DistinctItems(parts)
    modifies AllItems(parts)
    ensures (AllSlots(parts), ok) == ResolveWeek(parts, entries, chairman, old(AllSlots(parts)), |entries|)
  {
    ghost var start := AllSlots(parts);
    ok := true;
    var n := 0;
    while n < |entries| && ok
      invariant 0 <= n <= |entries|
      invariant (AllSlots(parts), ok) == ResolveWeek(parts, entries, chairman, start, n)
    {
      ok := ApplyEntry(parts, entries[n], entries, chairman);
      n := n + 1;
    }
    if !ok {
      ResolveWeekStops(parts, entries, chairman, start, n, |entries|);
    }
  }

  /** `{ ...cleaning }` without `cleaning_group_2` when that entry's value is empty. */
  function CleaningCopy(cleaning: map<string, Assignment>): (r: map<string, Assignment>)
    ensures "cleaning_group_2" in r <==> "cleaning_group_2" in cleaning && cleaning["cleaning_group_2"].value != ""
    ensures forall k :: k != "cleaning_group_2" ==> (k in r <==> k in cleaning)
    ensures forall k :: k in r ==> k in cleaning && r[k] == cleaning[k]
  {
    if "cleaning_group_2" in cleaning && cleaning["cleaning_group_2"].value == "" then
      cleaning - {"cleaning_group_2"}
    else cleaning
  }

  /** `Object.values(week)`. */
  function Values(week: map<string, Assignment>, order: seq<string>): (r: seq<Assignment>)
    requires ListsKeys(week, order)
    ensures |r| == |order| && forall i :: 0 <= i < |order| ==> r[i] == week[order[i]]
  {
    seq(|order|, i requires 0 <= i < |order| => week[order[i]])
  }

  /** `week.chairman`. */
  function ChairmanOf(week: map<string, Assignment>): (r: Option<Assignment>)
    ensures r.Some? <==> "chairman" in week
    ensures r.Some? ==> r.value == week["chairman"]
  {
    if "chairman" in week then Some(week["chairman"]) else None
  }

  /** The posted body and query. `week` is the parts followed by `week.chairman`, kept apart here
      as `chairman`. */
  datatype PreviewRequest = PreviewRequest(
    weekend: map<string, Assignment>, ministry: map<string, Assignment>, week: seq<Part>,
    chairman: Option<Assignment>, cleaning: map<string, Assignment>, isMobile: bool)

  /** `fetchPreview`. `response` is the server's HTML, or `None` when the request failed; the
      method returns the request it posts, or `None` when the week transformation threw before
      posting. */
  method FetchPreview(store: AssignmentsStore, order: seq<string>, isMobile: bool, response: Option<string>)
    returns (request: Option<PreviewRequest>)
    requires ListsKeys(store.state.assignedParts.week, order)
    requires DistinctItems(store.state.parts)
    modifies store, AllItems(store.state.parts)
    ensures var s := old(store.state);
      var entries := Values(s.assignedParts.week, order);
      var chairman := ChairmanOf(s.assignedParts.week);
      var resolved := ResolveWeek(s.parts, entries, chairman, old(AllSlots(store.state.parts)), |entries|);
      && AllSlots(s.parts) == resolved.0
      && (request.Some? <==> resolved.1)
      && (resolved.1 ==> request.value == PreviewRequest(
            s.assignedParts.weekend, s.assignedParts.ministry, s.parts, chairman,
            CleaningCopy(s.assignedParts.cleaning), isMobile))
      && store.state == if resolved.1 && response.Some? then Reduce(s, SetPreviewContent(response.value)) else s
  {
    var s := store.state;
    var cleaning := CleaningCopy(s.assignedParts.cleaning);
    var entries := Values(s.assignedParts.week, order);
    var chairman := ChairmanOf(s.assignedParts.week);
    var ok := ApplyWeek(s.parts, entries, chairman);
    if !ok {
      return None;
    }
    request := Some(PreviewRequest(s.assignedParts.weekend, s.assignedParts.ministry, s.parts, chairman, cleaning, isMobile));
    if response.Some? {
      store.Dispatch(SetPreviewContent(response.value));
    }
  }

  /** The effect's condition for asking for a new preview. */
  predicate ShouldRefetch(p: Preview) {
    p.html == "" || p.shouldRefresh
  }

  /** A fresh store refetches; new non-empty content stops refetching until the preview is marked
      outdated, which always makes it refetch. */
  lemma RefetchFollowsStore(s: AssignmentsState, html: string)
    ensures ShouldRefetch(InitialState.preview)
    ensures ShouldRefetch(Reduce(s, SetPreviewContent(html)).preview) <==> html == ""
    ensures ShouldRefetch(Reduce(s, SetPreviewOutdated).preview)
  {
  }
}
