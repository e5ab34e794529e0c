/** The preview and send handlers of server/api.js. The database collections are in-memory
    values: the contacts and cleaning groups are read-only inputs, and the preview cache is a
    store whose records the handlers read, delete and overwrite. The week span comes from
    `getWeekSpan` and is passed in, and the page rendering is replaced by the data handed to the
    template. */
module PreviewApi {
  import opened Js
  import opened Text
  import ServerUtils

  /** A contact (`address`, `name`) or a cleaning group (`groupId`, `name`). A document whose key
      field is missing has `None` there. */
  datatype Named = Named(key: Option<string>, name: string)

  /** `c.key === v`: a missing key is `undefined` and matches only `undefined`. */
  predicate KeyMatches(key: Option<string>, v: Value) {
    match key
    case None => v == Undefined
    case Some(s) => v == Str(s)
  }

  /** The first position at or after `from` whose key matches `v`. */
  function FirstMatchFrom(docs: seq<Named>, v: Value, from: nat): (r: Option<nat>)
    requires from <= |docs|
    ensures r.Some? ==> from <= r.value < |docs| && KeyMatches(docs[r.value].key, v)
    ensures r.Some? ==> forall i :: from <= i < r.value ==> !KeyMatches(docs[i].key, v)
    ensures r.None? ==> forall i :: from <= i < |docs| ==> !KeyMatches(docs[i].key, v)
    decreases |docs| - from
  {
    if from == |docs| then None
    else if KeyMatches(docs[from].key, v) then Some(from)
    else FirstMatchFrom(docs, v, from + 1)
  }

  /** `(docs.find(c => c.key === v) || { name: '' }).name.toLowerCase()`. */
  function ResolveName(docs: seq<Named>, v: Value): (r: string)
    ensures (forall i :: 0 <= i < |docs| ==> !KeyMatches(docs[i].key, v)) ==> r == ""
    ensures forall i :: (0 <= i < |docs| && KeyMatches(docs[i].key, v) &&
      forall j :: 0 <= j < i ==> !KeyMatches(docs[j].key, v)) ==> r == Lower(docs[i].name)
    ensures forall i :: 0 <= i < |r| ==> !IsUpperLetter(r[i])
  {
    match FirstMatchFrom(docs, v, 0)
    case None => ""
    case Some(i) => Lower(docs[i].name)
  }

  /** A ministry field of the request: its description and the conductor's address. */
  datatype MinistryField = MinistryField(text: Value, value: Value)

  /** An item of a week section in the request (the other item fields pass through untouched
      and are not modelled). */
  datatype PreviewItem = PreviewItem(id: string, hasPair: bool, assignee: Value, pair: Value)

  /** An entry of the request's `week` array: a workbook section with its items, or the
      chairman entry, whose `value` is the chairman's address. */
  datatype WeekEntry = WeekEntry(id: string, value: Value, items: Option<seq<PreviewItem>>)

  /** The reduced week: the chairman's name, set by a `chairman` entry, and the sections by id. */
  datatype PreviewWeek = PreviewWeek(chairman: Option<string>, sections: map<string, WeekEntry>)

  /** The request body; a missing `cleaning` or `week` is `None`, a missing `weekend` or
      `ministry` an empty map. The `weekend` and `cleaning` maps hold the `value` of each entry. */
  datatype PreviewRequest = PreviewRequest(
    weekend: map<string, Value>, ministry: map<string, MinistryField>,
    week: Option<seq<WeekEntry>>, cleaning: Option<map<string, Value>>)

  /** A stored preview; `isMobile` is never part of it. */
  datatype CacheRecord = CacheRecord(
    dayWeekBegins: string, dayWeekEnds: string, loggedUser: string,
    weekend: map<string, Value>, ministry: map<string, MinistryField>,
    cleaning: map<string, Value>, week: PreviewWeek)

  /** The data handed to the template: the record plus the `isMobile` query flag. */
  datatype PreviewData = PreviewData(record: CacheRecord, isMobile: Value)

  datatype PreviewOutcome = Rendered(data: PreviewData) | Failed(status: nat, message: string)

  const LoggedUser := "Guilherme Cerva"
  const PreviewError := "Erro ao gerar designações da semana"

  /** The item with its assignee resolved, and its pair too when it has one. */
  function ResolveItem(contacts: seq<Named>, i: PreviewItem): (r: PreviewItem)
    ensures r.id == i.id && r.hasPair == i.hasPair
    ensures r.assignee == Str(ResolveName(contacts, i.assignee))
    ensures i.hasPair ==> r.pair == Str(ResolveName(contacts, i.pair))
    ensures !i.hasPair ==> r.pair == i.pair
  {
    var withAssignee := i.(assignee := Str(ResolveName(contacts, i.assignee)));
    if i.hasPair then withAssignee.(pair := Str(ResolveName(contacts, i.pair))) else withAssignee
  }

  /** A section entry with `items` replaced by its resolved items (`[]` when it had none). */
  function ResolveSection(contacts: seq<Named>, e: WeekEntry): (r: WeekEntry)
    ensures r.id == e.id && r.value == e.value && r.items.Some?
    ensures e.items.None? ==> r.items.value == []
    ensures e.items.Some? ==> |r.items.value| == |e.items.value|
    ensures e.items.Some? ==>
      forall j :: 0 <= j < |r.items.value| ==> r.items.value[j] == ResolveItem(contacts, e.items.value[j])
  {
    var items := if e.items.Some? then e.items.value else [];
    e.(items := Some(seq(|items|, j requires 0 <= j < |items| => ResolveItem(contacts, items[j]))))
  }

  /** One step of the `week.reduce`. */
  function WeekStep(contacts: seq<Named>, w: PreviewWeek, e: WeekEntry): PreviewWeek {
    if e.id == "chairman" then w.(chairman := Some(ResolveName(contacts, e.value)))
    else w.(sections := w.sections[e.id := ResolveSection(contacts, e)])
  }

  /** `week.reduce(..., {})` over the entries in order. */
  function WeekFold(contacts: seq<Named>, week: seq<WeekEntry>): PreviewWeek
    decreases |week|
  {
    if week == [] then PreviewWeek(None, map[])
    else WeekStep(contacts, WeekFold(contacts, week[..|week| - 1]), week[|week| - 1])
  }

  /** The last position before `n` whose entry has id `k`. */
  predicate LastWithId(week: seq<WeekEntry>, k: string, i: nat, n: nat)
    requires n <= |week|
  {
    i < n && week[i].id == k && forall j :: i < j < n ==> week[j].id != k
  }

  /** The reduced week holds a section under exactly the ids of the non-chairman entries, and
      the chairman exactly when there is a chairman entry. */
  lemma {:induction false} WeekFoldKeys(contacts: seq<Named>, week: seq<WeekEntry>)
    ensures "chairman" !in WeekFold(contacts, week).sections
    ensures forall k :: k in WeekFold(contacts, week).sections <==>
      k != "chairman" && exists i :: 0 <= i < |week| && week[i].id == k
    ensures WeekFold(contacts, week).chairman.Some? <==> exists i :: 0 <= i < |week| && week[i].id == "chairman"
    decreases |week|
  {
    if week != [] {
      var n := |week|;
      var init := week[..n - 1];
      var w0 := WeekFold(contacts, init);
      assert WeekFold(contacts, week) == WeekStep(contacts, w0, week[n - 1]);
      WeekFoldKeys(contacts, init);
      WeekStepKeys(contacts, w0, week[n - 1]);
      assert week == init + [week[n - 1]];
      forall k ensures k in WeekFold(contacts, week).sections <==>
        k != "chairman" && exists i :: 0 <= i < n && week[i].id == k
      {
        IdOccursSplit(init, week[n - 1], k);
      }
      IdOccursSplit(init, week[n - 1], "chairman");
    }
  }

  /** One step adds the entry's id to the sections, or sets the chairman. */
  lemma WeekStepKeys(contacts: seq<Named>, w: PreviewWeek, e: WeekEntry)
    ensures forall k :: k in WeekStep(contacts, w, e).sections <==>
      k in w.sections || (e.id != "chairman" && k == e.id)
    ensures WeekStep(contacts, w, e).chairman.Some? <==> w.chairman.Some? || e.id == "chairman"
  {
  }

  /** An id occurs in `init + [last]` when it occurs in `init` or is the id of `last`. */
  lemma IdOccursSplit(init: seq<WeekEntry>, last: WeekEntry, k: string)
    ensures (exists i :: 0 <= i < |init + [last]| && (init + [last])[i].id == k) <==>
      (exists i :: 0 <= i < |init| && init[i].id == k) || last.id == k
  {
    var week := init + [last];
    if exists i :: 0 <= i < |week| && week[i].id == k {
      var i :| 0 <= i < |week| && week[i].id == k;
      if i < |init| {
        assert init[i].id == k;
      }
    }
    if exists i :: 0 <= i < |init| && init[i].id == k {
      var i :| 0 <= i < |init| && init[i].id == k;
      assert week[i].id == k;
    }
    assert week[|init|] == last;
  }

  /** The section stored under id `k` is the last entry with that id, resolved; the chairman is
      the last chairman entry's resolved name. */
  lemma {:induction false} WeekFoldLast(contacts: seq<Named>, week: seq<WeekEntry>, k: string, i: nat)
    requires i < |week| && LastWithId(week, k, i, |week|)
    ensures k != "chairman" ==>
      k in WeekFold(contacts, week).sections && WeekFold(contacts, week).sections[k] == ResolveSection(contacts, week[i])
    ensures k == "chairman" ==> WeekFold(contacts, week).chairman == Some(ResolveName(contacts, week[i].value))
    decreases |week|
  {
    var n := |week|;
    var init := week[..n - 1];
    assert WeekFold(contacts, week) == WeekStep(contacts, WeekFold(contacts, init), week[n - 1]);
    if i < n - 1 {
      assert LastWithId(init, k, i, n - 1);
      WeekFoldLast(contacts, init, k, i);
      WeekStepKeeps(contacts, WeekFold(contacts, init), week[n - 1], k);
    }
  }

  /** A step for another id leaves the section (or chairman) under `k` as it was. */
  lemma WeekStepKeeps(contacts: seq<Named>, w: PreviewWeek, e: WeekEntry, k: string)
    requires e.id != k
    ensures k != "chairman" && k in w.sections ==>
      k in WeekStep(contacts, w, e).sections && WeekStep(contacts, w, e).sections[k] == w.sections[k]
    ensures k == "chairman" ==> WeekStep(contacts, w, e).chairman == w.chairman
  {
  }

  /** The `week.reduce`: walks the entries, resolving the chairman and each section's items. */
  method ReduceWeek(contacts: seq<Named>, week: seq<WeekEntry>) returns (w: PreviewWeek)
    ensures w == WeekFold(contacts, week)
  {
    w := PreviewWeek(None, map[]);
    for n := 0 to |week|
      invariant w == WeekFold(contacts, week[..n])
    {
      assert week[..n + 1][..n] == week[..n];
      var section := week[n];
      if section.id == "chairman" {
        w := w.(chairman := Some(ResolveName(contacts, section.value)));
      } else {
        w := w.(sections := w.sections[section.id := ResolveSection(contacts, section)]);
      }
    }
    assert week[..|week|] == week;
  }

  /** A ministry field with its text lower-cased and its conductor resolved. */
  function ResolveMinistryField(contacts: seq<Named>, f: MinistryField): (r: MinistryField)
    ensures r.text.Str? && Lower(r.text.s) == r.text.s && |r.text.s| == |ToJsString(f.text)|
    ensures r.text == Str(Lower(ToJsString(f.text)))
    ensures r.value == Str(ResolveName(contacts, f.value))
  {
    var text := Lower(ToJsString(f.text));
    ServerUtils.LowerIdempotent(ToJsString(f.text));
    MinistryField(Str(text), Str(ResolveName(contacts, f.value)))
  }

  /** The `for (let m in ministry)` loop: every field is rewritten, no key is added or lost. */
  method ResolveMinistry(contacts: seq<Named>, ministry: map<string, MinistryField>)
    returns (r: map<string, MinistryField>)
    ensures r.Keys == ministry.Keys
    ensures forall m :: m in r ==> r[m] == ResolveMinistryField(contacts, ministry[m])
  {
    r := ministry;
    var pending := ministry.Keys;
    while pending != {}
      invariant pending <= ministry.Keys && r.Keys == ministry.Keys
      invariant forall m :: m in ministry && m !in pending ==> r[m] == ResolveMinistryField(contacts, ministry[m])
      invariant forall m :: m in pending ==> r[m] == ministry[m]
      decreases pending
    {
      var m :| m in pending;
      r := r[m := ResolveMinistryField(contacts, r[m])];
      pending := pending - {m};
    }
  }

  /** The records that survive `deleteMany({ dayWeekBegins: { $nin: [d] } })`, in order. */
  function Purged(records: seq<CacheRecord>, d: string): (r: seq<CacheRecord>)
    ensures |r| <= |records|
    ensures forall x :: x in r ==> x in records && x.dayWeekBegins == d
    ensures forall x :: x in records && x.dayWeekBegins == d ==> x in r
    ensures |records| == 1 ==> r == if records[0].dayWeekBegins == d then records else []
    decreases |records|
  {
    if records == [] then []
    else
      var n := |records|;
      var init := Purged(records[..n - 1], d);
      assert forall x :: x in records ==> x in records[..n - 1] || x == records[n - 1];
      if records[n - 1].dayWeekBegins == d then init + [records[n - 1]] else init
  }

  /** The purge keeps the surviving records in their order: purging a concatenation purges each
      part. */
  lemma {:induction false} PurgedConcat(a: seq<CacheRecord>, b: seq<CacheRecord>, d: string)
    ensures Purged(a + b, d) == Purged(a, d) + Purged(b, d)
    decreases |b|
  {
    if b == [] {
      assert a + b == a;
    } else {
      var n := |b|;
      assert (a + b)[..|a + b| - 1] == a + b[..n - 1] && (a + b)[|a + b| - 1] == b[n - 1];
      PurgedConcat(a, b[..n - 1], d);
    }
  }

  /** The first position of a record for week `d`. */
  function FirstOfWeek(records: seq<CacheRecord>, d: string, from: nat): (r: Option<nat>)
    requires from <= |records|
    ensures r.Some? ==> from <= r.value < |records| && records[r.value].dayWeekBegins == d
    ensures r.Some? ==> forall i :: from <= i < r.value ==> records[i].dayWeekBegins != d
    ensures r.None? ==> forall i :: from <= i < |records| ==> records[i].dayWeekBegins != d
    decreases |records| - from
  {
    if from == |records| then None
    else if records[from].dayWeekBegins == d then Some(from)
    else FirstOfWeek(records, d, from + 1)
  }

  /** The stored record `stored` after `save()` with the new preview's fields copied in; its week
      bounds stay as they were. */
  function Overwritten(stored: CacheRecord, p: CacheRecord): (r: CacheRecord)
    ensures r.dayWeekBegins == stored.dayWeekBegins && r.dayWeekEnds == stored.dayWeekEnds
    ensures r.weekend == p.weekend && r.ministry == p.ministry && r.cleaning == p.cleaning
    ensures r.week == p.week && r.loggedUser == p.loggedUser
  {
    stored.(weekend := p.weekend, ministry := p.ministry, cleaning := p.cleaning, week := p.week,
         loggedUser := p.loggedUser)
  }

  /** The records after the preview `p` is stored: appended when its week has no record, else
      copied into the first record of its week. */
  function Upserted(records: seq<CacheRecord>, p: CacheRecord): (r: seq<CacheRecord>)
    ensures FirstOfWeek(records, p.dayWeekBegins, 0).None? ==> r == records + [p]
    ensures FirstOfWeek(records, p.dayWeekBegins, 0).Some? ==>
      var k := FirstOfWeek(records, p.dayWeekBegins, 0).value;
      |r| == |records| && r[k] == Overwritten(records[k], p) &&
      forall i :: 0 <= i < |r| && i != k ==> r[i] == records[i]
  {
    match FirstOfWeek(records, p.dayWeekBegins, 0)
    case None => records + [p]
    case Some(k) => records[k := Overwritten(records[k], p)]
  }

  /** After the purge and the upsert, the cache holds only records of the preview's week, at
      least one, and the first carries the new preview. */
  lemma StoredPreview(records: seq<CacheRecord>, p: CacheRecord)
    ensures var r := Upserted(Purged(records, p.dayWeekBegins), p);
      && |r| >= 1
      && (forall i :: 0 <= i < |r| ==> r[i].dayWeekBegins == p.dayWeekBegins)
      && r[0].weekend == p.weekend && r[0].ministry == p.ministry && r[0].cleaning == p.cleaning
      && r[0].week == p.week && r[0].loggedUser == p.loggedUser
  {
    var kept := Purged(records, p.dayWeekBegins);
    var r := Upserted(kept, p);
    if kept != [] {
      assert kept[0] in kept;
      assert FirstOfWeek(kept, p.dayWeekBegins, 0) == Some(0);
    }
    forall i | 0 <= i < |r| ensures r[i].dayWeekBegins == p.dayWeekBegins {
      if i < |kept| {
        assert kept[i] in kept;
      }
    }
  }

  /** The subject of the assignments e-mail. */
  function Subject(dayWeekBegins: string, dayWeekEnds: string): (s: string)
    ensures |s| == 27 + |dayWeekBegins| + |dayWeekEnds|
    ensures HasPrefix(s, "DESIGNAÇÕES DA SEMANA (")
    ensures s[|s| - 1] == ')'
    ensures s[23..23 + |dayWeekBegins|] == dayWeekBegins
    ensures s[|s| - 1 - |dayWeekEnds|..|s| - 1] == dayWeekEnds
    ensures s[23 + |dayWeekBegins|..26 + |dayWeekBegins|] == " - "
  {
    var s := "DESIGNAÇÕES DA SEMANA (" + dayWeekBegins + " - " + dayWeekEnds + ")";
    assert s[..23] == "DESIGNAÇÕES DA SEMANA (";
    s
  }

  /** A recipient of the e-mail. */
  datatype Recipient = Recipient(name: string, email: string)

  /** The contacts whose address is among `to`, in contact order. */
  function Recipients(contacts: seq<Named>, to: seq<string>): (r: seq<Recipient>)
    ensures |r| <= |contacts|
    ensures forall x :: x in r ==> x.email in to && Named(Some(x.email), x.name) in contacts
    ensures forall c :: c in contacts && c.key.Some? && c.key.value in to ==> Recipient(c.name, c.key.value) in r
    decreases |contacts|
  {
    if contacts == [] then []
    else
      var c := contacts[0];
      var rest := Recipients(contacts[1..], to);
      assert forall x :: x in contacts ==> x == c || x in contacts[1..];
      if c.key.Some? && c.key.value in to then [Recipient(c.name, c.key.value)] + rest else rest
  }

  const SendFailed := "Não foi possível enviar as designações"
  const SendDone := "Designações enviadas por email"

  /** The e-mail the send handler hands to the mailer: recipients, subject and the record the
      page is rendered from. */
  datatype Email = Email(recipients: seq<Recipient>, subject: string, preview: CacheRecord)

  datatype SendOutcome = SendOutcome(email: Option<Email>, status: nat, message: string)

  /** `POST /assignments`. `delivered` is the mailer's answer for the e-mail, when one is sent. */
  function Send(records: seq<CacheRecord>, contacts: seq<Named>, to: seq<string>,
                dayWeekBegins: string, dayWeekEnds: string, delivered: bool): (r: SendOutcome)
    ensures FirstOfWeek(records, dayWeekBegins, 0).None? <==> r.email.None?
    ensures r.email.None? ==> r.status == 400 && r.message == SendFailed
    ensures r.email.Some? ==>
      && r.email.value.subject == Subject(dayWeekBegins, dayWeekEnds)
      && r.email.value.preview.dayWeekBegins == dayWeekBegins
      && r.email.value.preview == records[FirstOfWeek(records, dayWeekBegins, 0).value]
      && r.email.value.recipients == Recipients(contacts, to)
    ensures r.status == 200 <==> r.email.Some? && delivered
    ensures r.status == 200 || (r.status == 400 && r.message == SendFailed)
  {
    match FirstOfWeek(records, dayWeekBegins, 0)
    case None => SendOutcome(None, 400, SendFailed)
    case Some(k) =>
      var email := Email(Recipients(contacts, to), Subject(dayWeekBegins, dayWeekEnds), records[k]);
      if delivered then SendOutcome(Some(email), 200, SendDone) else SendOutcome(Some(email), 400, SendFailed)
  }

  /** The preview cache collection. */
  class PreviewCache {
    var records: seq<CacheRecord>

    constructor(records: seq<CacheRecord>)
      ensures this.records == records
    {
      this.records := records;
    }

    /** Deletes every record of another week, keeping the order of the rest. */
    method PurgeOthers(d: string)
      modifies this
      ensures records == Purged(old(records), d)
    {
      var all := records;
      var kept := [];
      for n := 0 to |all|
        invariant kept == Purged(all[..n], d)
      {
        assert all[..n + 1][..n] == all[..n];
        if all[n].dayWeekBegins == d {
          kept := kept + [all[n]];
        }
      }
      assert all[..|all|] == all;
      records := kept;
    }

    /** Creates the record, or overwrites the first record of its week. */
    method Upsert(p: CacheRecord)
      modifies this
      ensures records == Upserted(old(records), p)
    {
      var k := 0;
      while k < |records| && records[k].dayWeekBegins != p.dayWeekBegins
        invariant k <= |records|
        invariant FirstOfWeek(records, p.dayWeekBegins, 0) == FirstOfWeek(records, p.dayWeekBegins, k)
      {
        k := k + 1;
      }
      if k == |records| {
        records := records + [p];
      } else {
        records := records[k := Overwritten(records[k], p)];
      }
    }

    /** `POST /assignments/preview`. `isMobile` is the parsed query flag, `None` when it does not
        parse; `dayWeekBegins` and `dayWeekEnds` are the current week span. */
    method Preview(contacts: seq<Named>, groups: seq<Named>, request: PreviewRequest, isMobile: Option<Value>,
                   dayWeekBegins: string, dayWeekEnds: string) returns (out: PreviewOutcome)
      modifies this
      ensures out.Failed? <==>
        || "chairman_1" !in request.weekend || "reader_2" !in request.weekend
        || request.cleaning.None? || request.week.None? || isMobile.None?
      ensures out.Failed? ==> out.status == 400 && out.message == PreviewError && records == old(records)
      ensures out.Rendered? ==>
        var rec := out.data.record;
        && out.data.isMobile == isMobile.value
        && rec.dayWeekBegins == dayWeekBegins && rec.dayWeekEnds == dayWeekEnds && rec.loggedUser == LoggedUser
        && rec.weekend == request.weekend["chairman_1" := Str(ResolveName(contacts, request.weekend["chairman_1"]))]
                                         ["reader_2" := Str(ResolveName(contacts, request.weekend["reader_2"]))]
        && rec.cleaning == (if "cleaning_group_2" in request.cleaning.value
                            then request.cleaning.value["cleaning_group_2" :=
                              Str(ResolveName(groups, request.cleaning.value["cleaning_group_2"]))]
                            else request.cleaning.value)
        && rec.ministry.Keys == request.ministry.Keys
        && (forall m :: m in rec.ministry ==> rec.ministry[m] == ResolveMinistryField(contacts, request.ministry[m]))
        && rec.week == WeekFold(contacts, request.week.value)
        && records == Upserted(Purged(old(records), dayWeekBegins), rec)
    {
      if "chairman_1" !in request.weekend || "reader_2" !in request.weekend {
        return Failed(400, PreviewError);
      }
      var weekend := request.weekend;
      weekend := weekend["chairman_1" := Str(ResolveName(contacts, weekend["chairman_1"]))];
      weekend := weekend["reader_2" := Str(ResolveName(contacts, weekend["reader_2"]))];
      if request.cleaning.None? {
        return Failed(400, PreviewError);
      }
      var cleaning := request.cleaning.value;
      if "cleaning_group_2" in cleaning {
        cleaning := cleaning["cleaning_group_2" := Str(ResolveName(groups, cleaning["cleaning_group_2"]))];
      }
      var ministry := ResolveMinistry(contacts, request.ministry);
      if request.week.None? {
        return Failed(400, PreviewError);
      }
      var week := ReduceWeek(contacts, request.week.value);
      if isMobile.None? {
        return Failed(400, PreviewError);
      }
      var rec := CacheRecord(dayWeekBegins, dayWeekEnds, LoggedUser, weekend, ministry, cleaning, week);
      PurgeOthers(dayWeekBegins);
      Upsert(rec);
      out := Rendered(PreviewData(rec, isMobile.value));
    }
  }
}
