/** The `/meeting-workbook` handler of server/api.js: the four skeleton sections are numbered 1..4,
    and the program fragments found under each become its items, numbered 1..n. The page download
    and the HTML selection are replaced by their results: one title and one list of fragment texts
    per section. */
module WorkbookApi {
  import opened Js
  import opened Text
  import opened ServerHelpers

  /** An item of the returned workbook. */
  datatype Item = Item(
    id: string, text: string, hasPair: bool, isAssignable: bool, chairmanAssigned: bool, position: nat)

  /** A section of the returned workbook; the template's item selector is no longer present. */
  datatype Section = Section(
    kind: SectionKind, id: string, color: string, tone: string, itemsTone: string,
    title: string, position: nat, items: seq<Item>)

  /** `fullText.replace(/\n/g, '').trim()`. */
  function PrepareFragment(raw: string): (r: string)
    ensures |r| <= |raw| && '\n' !in r
    ensures r == [] || (!IsSpace(r[0]) && !IsSpace(r[|r| - 1]))
    ensures r == Trim(RemoveChars(raw, "\n"))
  {
    var joined := RemoveChars(raw, "\n");
    var r := Trim(joined);
    TrimKeeps(joined, c => c != '\n');
    r
  }

  /** The item made from the `position`-th fragment `raw` of a section of kind `kind`. */
  function ItemFor(kind: SectionKind, raw: string, position: nat): (r: Item)
    ensures var w := ToWorkbookItem(PrepareFragment(raw));
      r.id == w.id + "_" + NatToString(position) && r.text == w.text && r.hasPair == w.hasPair
    ensures r.isAssignable == IsAssignable(kind, r.text)
    ensures r.chairmanAssigned == ChairmanAssigned(kind, raw)
    ensures r.position == position
  {
    var w := ToWorkbookItem(PrepareFragment(raw));
    Item(w.id + "_" + NatToString(position), w.text, w.hasPair,
         IsAssignable(kind, w.text), ChairmanAssigned(kind, raw), position)
  }

  /** `f` applied to each fragment together with its position, counted from 1. */
  function Numbered<T>(f: (string, nat) -> T, fragments: seq<string>): (r: seq<T>)
    ensures |r| == |fragments|
    ensures forall j :: 0 <= j < |r| ==> r[j] == f(fragments[j], j + 1)
  {
    seq(|fragments|, j requires 0 <= j < |fragments| => f(fragments[j], j + 1))
  }

  lemma NumberedSnoc<T>(f: (string, nat) -> T, fragments: seq<string>, i: nat)
    requires i < |fragments|
    ensures Numbered(f, fragments[..i + 1]) == Numbered(f, fragments[..i]) + [f(fragments[i], i + 1)]
  {
  }

  /** The items of a section of kind `kind` whose fragments are `fragments`. */
  function SectionItems(kind: SectionKind, fragments: seq<string>): (r: seq<Item>)
    ensures |r| == |fragments|
    ensures forall j :: 0 <= j < |r| ==> r[j] == ItemFor(kind, fragments[j], j + 1)
  {
    var f := (raw: string, position: nat) => ItemFor(kind, raw, position);
    var r := Numbered(f, fragments);
    assert forall j :: 0 <= j < |r| ==> r[j] == f(fragments[j], j + 1);
    r
  }

  /** Builds one section's items in fragment order, numbering them from 1. */
  method BuildItems(kind: SectionKind, fragments: seq<string>) returns (items: seq<Item>)
    ensures items == SectionItems(kind, fragments)
  {
    ghost var f := (raw: string, position: nat) => ItemFor(kind, raw, position);
    items := [];
    for itemPosition := 0 to |fragments|
      invariant items == Numbered(f, fragments[..itemPosition])
    {
      NumberedSnoc(f, fragments, itemPosition);
      items := items + [ItemFor(kind, fragments[itemPosition], itemPosition + 1)];
    }
    assert fragments[..|fragments|] == fragments;
  }

  /** Assembles the workbook from the per-section titles and fragment lists, in skeleton order. */
  method AssembleWorkbook(titles: seq<string>, fragments: seq<seq<string>>) returns (sections: seq<Section>)
    requires |titles| == 4 && |fragments| == 4
    ensures |sections| == 4
    ensures forall i :: 0 <= i < 4 ==>
      var t := WorkbookSkeleton()[i];
      && sections[i].position == i + 1
      && sections[i].kind == t.kind && sections[i].id == t.id && sections[i].title == titles[i]
      && sections[i].color == t.color && sections[i].tone == t.tone && sections[i].itemsTone == t.itemsTone
      && sections[i].items == SectionItems(t.kind, fragments[i])
  {
    var skeleton := WorkbookSkeleton();
    sections := [];
    var sectionPosition := 1;
    while sectionPosition <= 4
      invariant 1 <= sectionPosition <= 5 && |sections| == sectionPosition - 1
      invariant forall i :: 0 <= i < sectionPosition - 1 ==>
        sections[i] == Section(skeleton[i].kind, skeleton[i].id, skeleton[i].color, skeleton[i].tone,
                               skeleton[i].itemsTone, titles[i], i + 1, SectionItems(skeleton[i].kind, fragments[i]))
    {
      var t := skeleton[sectionPosition - 1];
      var items := BuildItems(t.kind, fragments[sectionPosition - 1]);
      var section := Section(t.kind, t.id, t.color, t.tone, t.itemsTone, titles[sectionPosition - 1],
                             sectionPosition, items);
      sections := sections + [section];
      sectionPosition := sectionPosition + 1;
    }
  }

  /** Appending `_<n>` makes ids unique: two item ids with different positions differ, whatever
      the slugs they were made from. */
  lemma PositionSuffixesDiffer(a: string, b: string, m: nat, n: nat)
    requires m != n
    ensures a + "_" + NatToString(m) != b + "_" + NatToString(n)
  {
    var x, y := NatToString(m), NatToString(n);
    var u, v := a + "_" + x, b + "_" + y;
    if |x| == |y| {
      if u == v {
        assert x == u[|u| - |x|..] && y == v[|v| - |y|..];
        NatToStringInjective(m, n);
      }
    } else if |x| < |y| {
      assert u[|u| - |x| - 1] == '_';
      assert v[|v| - |x| - 1] == y[|y| - |x| - 1] && IsDigit(y[|y| - |x| - 1]);
    } else {
      assert v[|v| - |y| - 1] == '_';
      assert u[|u| - |y| - 1] == x[|x| - |y| - 1] && IsDigit(x[|x| - |y| - 1]);
    }
  }

  /** Items at different positions have different ids, whatever their fragments. */
  lemma ItemIdsDistinct(kind: SectionKind, s: string, t: string, m: nat, n: nat)
    requires m != n
    ensures ItemFor(kind, s, m).id != ItemFor(kind, t, n).id
  {
    PositionSuffixesDiffer(ToWorkbookItem(PrepareFragment(s)).id, ToWorkbookItem(PrepareFragment(t)).id, m, n);
  }

  /** When `f` gives different ids at different positions, the numbered results have distinct ids. */
  lemma NumberedIdsDistinct(f: (string, nat) -> Item, fragments: seq<string>)
    requires forall s, t, m, n :: m != n ==> f(s, m).id != f(t, n).id
    ensures forall j, k :: 0 <= j < k < |fragments| ==> Numbered(f, fragments)[j].id != Numbered(f, fragments)[k].id
  {
  }

  /** Within a section every item has its own id. */
  lemma SectionItemIdsDistinct(kind: SectionKind, fragments: seq<string>)
    ensures forall j, k :: 0 <= j < k < |fragments| ==>
      SectionItems(kind, fragments)[j].id != SectionItems(kind, fragments)[k].id
  {
    var f: (string, nat) -> Item := (raw: string, position: nat) => ItemFor(kind, raw, position);
    forall s, t, m: nat, n: nat | m != n
      ensures f(s, m).id != f(t, n).id
    {
      ItemIdsDistinct(kind, s, t, m, n);
    }
    NumberedIdsDistinct(f, fragments);
  }
}
