/**
 * js/ui.js: `updatePreview`, `addSection` and `removeSection` as transitions of
 * the page. The page is reduced to the section containers in document order,
 * each holding the form fieldsets appended to it, and to the preview pane,
 * with its rendered content and its class list. The form values that
 * `updatePreview` reads from the page arrive as a parameter.
 */
module Ui {
  import opened Text
  import opened JsValues
  import opened Data
  import opened Templates

  // =====================================================================
  // The page
  // =====================================================================

  /** An element with id `${type}s-list` and the fieldsets inside it. */
  datatype Container = Container(id: string, fieldsets: seq<Fieldset>)

  /** `${type}s-list` */
  function ContainerId(k: SectionKind): string {
    k.Name() + "s-list"
  }

  /** The first position of `s` whose element satisfies `p`. */
  function FirstWhere<T>(s: seq<T>, p: T -> bool): (r: Option<nat>)
    ensures r.Some? ==> r.value < |s| && p(s[r.value]) && forall j :: 0 <= j < r.value ==> !p(s[j])
    ensures r.None? ==> forall j :: 0 <= j < |s| ==> !p(s[j])
    decreases |s|
  {
    if s == [] then None
    else if p(s[0]) then Some(0)
    else match FirstWhere(s[1..], p)
      case None => None
      case Some(j) => Some(j + 1)
  }

  /** `document.getElementById(containerId)` among the containers: the
      first one in document order with that id. */
  function FindContainer(cs: seq<Container>, id: string): (r: Option<nat>)
    ensures r.Some? ==> r.value < |cs| && cs[r.value].id == id && forall c :: 0 <= c < r.value ==> cs[c].id != id
    ensures r.None? ==> forall c :: 0 <= c < |cs| ==> cs[c].id != id
  {
    FirstWhere(cs, (x: Container) => x.id == id)
  }

  /** A position (container, fieldset) of the page. */
  predicate IsPosition(cs: seq<Container>, c: int, j: int) {
    0 <= c < |cs| && 0 <= j < |cs[c].fieldsets|
  }

  /** `document.getElementById(elementId)` among the fieldsets: the first
      fieldset with that id in document order. */
  function FindFieldset(cs: seq<Container>, id: string): (r: Option<(nat, nat)>)
    ensures r.Some? ==> IsPosition(cs, r.value.0, r.value.1) && cs[r.value.0].fieldsets[r.value.1].id == id
    ensures r.Some? ==> forall c, j :: IsPosition(cs, c, j) && (c < r.value.0 || (c == r.value.0 && j < r.value.1)) ==>
      cs[c].fieldsets[j].id != id
    ensures r.None? ==> forall c, j :: IsPosition(cs, c, j) ==> cs[c].fieldsets[j].id != id
    decreases |cs|
  {
    if cs == [] then None
    else match FirstWhere(cs[0].fieldsets, (f: Fieldset) => f.id == id)
      case Some(j) => Some((0, j))
      case None =>
        match FindFieldset(cs[1..], id)
        case None => None
        case Some(p) =>
          assert forall c, j :: IsPosition(cs[1..], c, j) ==> IsPosition(cs, c + 1, j) && cs[1..][c] == cs[c + 1];
          Some((p.0 + 1, p.1))
  }

  /** `container.insertAdjacentHTML("beforeend", sectionHtml)`: a fieldset
      goes to the end of container `c`; the empty string adds nothing. */
  function Insert(cs: seq<Container>, c: nat, m: Markup): seq<Container>
    requires c < |cs|
  {
    if m.Section? then cs[c := Container(cs[c].id, cs[c].fieldsets + [m.fieldset])] else cs
  }

  /** `element.remove()` for the fieldset at position (c, j). */
  function RemoveAt(cs: seq<Container>, c: nat, j: nat): seq<Container>
    requires IsPosition(cs, c, j)
  {
    cs[c := Container(cs[c].id, cs[c].fieldsets[..j] + cs[c].fieldsets[j + 1..])]
  }

  /** The containers after `addSection(type)` with `index` as the counter. */
  function AfterAdd(cs: seq<Container>, kind: SectionKind, index: nat): seq<Container> {
    match FindContainer(cs, ContainerId(kind))
    case None => cs
    case Some(c) => Insert(cs, c, GenerateSectionHTML(kind.Name(), index))
  }

  /** The counters after `addSection(type)`: one more for `type` when its
      container exists. */
  function AfterAddCounts(cs: seq<Container>, counts: map<SectionKind, nat>, kind: SectionKind): map<SectionKind, nat>
    requires kind in counts
  {
    if FindContainer(cs, ContainerId(kind)).Some? then counts[kind := counts[kind] + 1] else counts
  }

  /** The containers after `removeSection(elementId)`. */
  function AfterRemove(cs: seq<Container>, id: string): seq<Container> {
    match FindFieldset(cs, id)
    case None => cs
    case Some(p) => RemoveAt(cs, p.0, p.1)
  }

  // =====================================================================
  // updatePreview
  // =====================================================================

  /** The template `updatePreview(format)` renders with. */
  function Render(format: string, data: ResumeData): Outcome<Preview> {
    if format == "company" then CompanyPreview(data) else GeneralPreview(data)
  }

  /** The class list after `updatePreview(format)` renders. */
  function FormatClasses(classes: set<string>, format: string): set<string> {
    if format == "company" then classes + {"format-company"} - {"format-general"}
    else classes + {"format-general"} - {"format-company"}
  }

  /** After a render exactly one of the two format classes is present, the
      one named by the format, and every other class is kept. */
  lemma FormatClassesExclusive(classes: set<string>, format: string)
    ensures var r := FormatClasses(classes, format);
      && ("format-company" in r <==> format == "company")
      && ("format-general" in r <==> format != "company")
      && forall x :: x != "format-company" && x != "format-general" ==> (x in r <==> x in classes)
  {
  }

  /** The company template is used exactly for the format "company". */
  lemma RenderFormat(format: string, data: ResumeData)
    ensures format == "company" ==> Render(format, data) == CompanyPreview(data)
    ensures format != "company" ==> Render(format, data) == GeneralPreview(data)
  {
  }

  /** The section containers and the preview pane `#resume-preview`. */
  class Page {
    var containers: seq<Container>
    /** What the preview shows; `None` until the first render. */
    var shown: Option<Preview>
    var classes: set<string>

    /** A page whose containers, with the given ids, are empty. */
    constructor(ids: seq<string>)
      ensures |containers| == |ids|
      ensures forall c :: 0 <= c < |ids| ==> containers[c] == Container(ids[c], [])
      ensures shown == None && classes == {}
    {
      containers := seq(|ids|, c requires 0 <= c < |ids| => Container(ids[c], []));
      shown := None;
      classes := {};
    }

    /** `updatePreview(format)` with `data` the current form values. `ok` is
        false when the template throws; the preview then keeps its content
        and classes, as the assignment and the class changes are never
        reached. */
    method UpdatePreview(format: string, data: ResumeData) returns (ok: bool)
      modifies this
      ensures containers == old(containers)
      ensures ok <==> Render(format, data).Ok?
      ensures ok ==> shown == Some(Render(format, data).value) && classes == FormatClasses(old(classes), format)
      ensures !ok ==> shown == old(shown) && classes == old(classes)
    {
      if format == "company" {
        var r := RenderCompany(data);
        if r.Throws? {
          return false;
        }
        shown := Some(r.value);
        classes := classes + {"format-company"};
        classes := classes - {"format-general"};
      } else {
        var r := RenderGeneral(data);
        if r.Throws? {
          return false;
        }
        shown := Some(r.value);
        classes := classes + {"format-general"};
        classes := classes - {"format-company"};
      }
      ok := true;
    }
  }

  // =====================================================================
  // addSection and removeSection
  // =====================================================================

  /** `addSection(type, currentFormat)`. When the container `${type}s-list`
      exists, the section for the current counter is appended, the counter
      goes up by one and the preview is rendered; `ok` is false when that
      render throws. Without the container nothing changes. */
  method AddSection(counters: SectionCounters, page: Page, kind: SectionKind, format: string, data: ResumeData)
    returns (ok: bool)
    modifies counters, page
    requires counters.Valid()
    ensures counters.Valid()
    ensures page.containers == AfterAdd(old(page.containers), kind, old(counters.counts[kind]))
    ensures counters.counts == AfterAddCounts(old(page.containers), old(counters.counts), kind)
    ensures FindContainer(old(page.containers), ContainerId(kind)).None? ==>
      ok && page.shown == old(page.shown) && page.classes == old(page.classes)
    ensures FindContainer(old(page.containers), ContainerId(kind)).Some? ==>
      && (ok <==> Render(format, data).Ok?)
      && (ok ==> page.shown == Some(Render(format, data).value) && page.classes == FormatClasses(old(page.classes), format))
      && (!ok ==> page.shown == old(page.shown) && page.classes == old(page.classes))
    ensures old(Consistent(counters, page)) ==> Consistent(counters, page)
  {
    var found := AppendSection(counters, page, kind);
    ok := true;
    if found {
      ok := page.UpdatePreview(format, data);
    }
  }

  /** The part of `addSection` before the render: the section for the current
      counter goes at the end of the container `${type}s-list` and that
      counter goes up by one, or, without the container, nothing changes. */
  method AppendSection(counters: SectionCounters, page: Page, kind: SectionKind) returns (found: bool)
    modifies counters, page
    requires counters.Valid()
    ensures counters.Valid()
    ensures found <==> FindContainer(old(page.containers), ContainerId(kind)).Some?
    ensures page.containers == AfterAdd(old(page.containers), kind, old(counters.counts[kind]))
    ensures counters.counts == AfterAddCounts(old(page.containers), old(counters.counts), kind)
    ensures page.shown == old(page.shown) && page.classes == old(page.classes)
    ensures old(Consistent(counters, page)) ==> Consistent(counters, page)
  {
    ghost var cs, counts := page.containers, counters.counts;
    ghost var wasConsistent := Consistent(counters, page);
    var index := counters.Get(kind);
    var sectionHtml := GenerateSectionHTML(kind.Name(), index);
    var container := FindContainer(page.containers, ContainerId(kind));
    found := container.Some?;
    if found {
      page.containers := Insert(page.containers, container.value, sectionHtml);
      counters.Increment(kind);
    }
    if wasConsistent {
      AddKeepsInvariant(cs, counts, kind);
    }
  }

  /** `removeSection(elementId, currentFormat)`: the first fieldset with that
      id goes, if there is one, and the preview is rendered. The counters are
      not among the things it may change. */
  method RemoveSection(counters: SectionCounters, page: Page, elementId: string, format: string, data: ResumeData)
    returns (ok: bool)
    modifies page
    ensures page.containers == AfterRemove(old(page.containers), elementId)
    ensures ok <==> Render(format, data).Ok?
    ensures ok ==> page.shown == Some(Render(format, data).value) && page.classes == FormatClasses(old(page.classes), format)
    ensures !ok ==> page.shown == old(page.shown) && page.classes == old(page.classes)
    ensures old(Consistent(counters, page)) ==> Consistent(counters, page)
  {
    ghost var wasConsistent := Consistent(counters, page);
    ghost var cs := page.containers;
    var element := FindFieldset(page.containers, elementId);
    if element.Some? {
      page.containers := RemoveAt(page.containers, element.value.0, element.value.1);
    }
    if wasConsistent {
      RemoveKeepsInvariant(cs, counters.counts, elementId);
    }
    ok := page.UpdatePreview(format, data);
  }

  // =====================================================================
  // What the transitions change
  // =====================================================================

  /** `addSection` with its container present appends the section of the
      current index to that container alone (nothing for skill, hobby and
      experience); every other container is kept. Without the container
      nothing changes. */
  lemma AddSectionSpec(cs: seq<Container>, kind: SectionKind, index: nat)
    ensures var r := AfterAdd(cs, kind, index);
      && |r| == |cs|
      && (forall c :: 0 <= c < |cs| ==> r[c].id == cs[c].id)
      && match FindContainer(cs, ContainerId(kind))
         case None => r == cs
         case Some(c) =>
           && (forall c' :: 0 <= c' < |cs| && c' != c ==> r[c'] == cs[c'])
           && (HasTemplate(kind.Name()) ==>
                 r[c].fieldsets == cs[c].fieldsets + [GenerateSectionHTML(kind.Name(), index).fieldset])
           && (!HasTemplate(kind.Name()) ==> r[c].fieldsets == cs[c].fieldsets)
  {
  }

  /** `addSection` moves only its own counter, by exactly one, and only when
      the container exists. */
  lemma AddSectionCounts(cs: seq<Container>, counts: map<SectionKind, nat>, kind: SectionKind)
    requires kind in counts
    ensures var r := AfterAddCounts(cs, counts, kind);
      && r.Keys == counts.Keys
      && (forall k :: k in counts && k != kind ==> r[k] == counts[k])
      && (FindContainer(cs, ContainerId(kind)).Some? ==> r[kind] == counts[kind] + 1)
      && (FindContainer(cs, ContainerId(kind)).None? ==> r[kind] == counts[kind])
  {
  }

  /** `removeSection` takes out one fieldset, the first with that id, from
      its container and keeps the rest in order; with no such fieldset
      nothing changes. */
  lemma RemoveSectionSpec(cs: seq<Container>, id: string)
    ensures var r := AfterRemove(cs, id);
      && |r| == |cs|
      && (forall c :: 0 <= c < |cs| ==> r[c].id == cs[c].id)
      && match FindFieldset(cs, id)
         case None => r == cs
         case Some(p) =>
           && cs[p.0].fieldsets[p.1].id == id
           && (forall c :: 0 <= c < |cs| && c != p.0 ==> r[c] == cs[c])
           && r[p.0].fieldsets == cs[p.0].fieldsets[..p.1] + cs[p.0].fieldsets[p.1 + 1..]
  {
  }

  // =====================================================================
  // Fieldset ids stay distinct
  // =====================================================================

  /** No two fieldsets of the page share an id. */
  ghost predicate IdsDistinct(cs: seq<Container>) {
    forall c, j, c', j' :: IsPosition(cs, c, j) && IsPosition(cs, c', j') && (c != c' || j != j') ==>
      cs[c].fieldsets[j].id != cs[c'].fieldsets[j'].id
  }

  /** `f` is the fieldset of a kind with a template and an index below that
      kind's counter. */
  ghost predicate Issued(f: Fieldset, counts: map<SectionKind, nat>) {
    exists k: SectionKind, i: nat :: k in counts && i < counts[k] && GenerateSectionHTML(k.Name(), i) == Section(f)
  }

  /** Every fieldset on the page was handed out by the counters. */
  ghost predicate Generated(cs: seq<Container>, counts: map<SectionKind, nat>) {
    forall c, j :: IsPosition(cs, c, j) ==> Issued(cs[c].fieldsets[j], counts)
  }

  /** Raising counters keeps every handed-out fieldset handed out. */
  lemma GeneratedGrows(cs: seq<Container>, counts: map<SectionKind, nat>, kind: SectionKind)
    requires kind in counts
    requires Generated(cs, counts)
    ensures Generated(cs, counts[kind := counts[kind] + 1])
  {
    var counts' := counts[kind := counts[kind] + 1];
    forall c, j | IsPosition(cs, c, j) ensures Issued(cs[c].fieldsets[j], counts') {
      var k: SectionKind, i: nat :| k in counts && i < counts[k] && GenerateSectionHTML(k.Name(), i) == Section(cs[c].fieldsets[j]);
      assert k in counts' && i < counts'[k];
    }
  }

  /** The fieldset for a kind's current counter has an id that no handed-out
      fieldset has. */
  lemma FreshId(cs: seq<Container>, counts: map<SectionKind, nat>, kind: SectionKind)
    requires kind in counts && HasTemplate(kind.Name())
    requires Generated(cs, counts)
    ensures forall c, j :: IsPosition(cs, c, j) ==>
      cs[c].fieldsets[j].id != GenerateSectionHTML(kind.Name(), counts[kind]).fieldset.id
  {
    var n := counts[kind];
    forall c, j | IsPosition(cs, c, j) ensures cs[c].fieldsets[j].id != GenerateSectionHTML(kind.Name(), n).fieldset.id {
      var g := cs[c].fieldsets[j];
      var k: SectionKind, i: nat :| k in counts && i < counts[k] && GenerateSectionHTML(k.Name(), i) == Section(g);
      assert g.id == FieldsetId(k.Name(), i);
      if g.id == FieldsetId(kind.Name(), n) {
        FieldsetIdsDistinct(k.Name(), i, kind.Name(), n);
        NameInjective(k, kind);
        assert false;
      }
    }
  }

  lemma InsertKeepsDistinct(cs: seq<Container>, c: nat, f: Fieldset)
    requires c < |cs| && IdsDistinct(cs)
    requires forall c', j' :: IsPosition(cs, c', j') ==> cs[c'].fieldsets[j'].id != f.id
    ensures IdsDistinct(Insert(cs, c, Section(f)))
  {
    var r := Insert(cs, c, Section(f));
    var n := |cs[c].fieldsets|;
    assert forall c', j' :: IsPosition(r, c', j') && (c' != c || j' < n) ==>
      IsPosition(cs, c', j') && r[c'].fieldsets[j'] == cs[c'].fieldsets[j'];
    assert forall c', j' :: IsPosition(r, c', j') && c' == c && j' == n ==> r[c'].fieldsets[j'] == f;
  }

  lemma InsertKeepsGenerated(cs: seq<Container>, counts: map<SectionKind, nat>, c: nat, f: Fieldset)
    requires c < |cs| && Generated(cs, counts) && Issued(f, counts)
    ensures Generated(Insert(cs, c, Section(f)), counts)
  {
    var r := Insert(cs, c, Section(f));
    var n := |cs[c].fieldsets|;
    forall c', j' | IsPosition(r, c', j') ensures Issued(r[c'].fieldsets[j'], counts) {
      if c' != c || j' < n {
        assert IsPosition(cs, c', j') && r[c'].fieldsets[j'] == cs[c'].fieldsets[j'];
      } else {
        assert r[c'].fieldsets[j'] == f;
      }
    }
  }

  /** Where the fieldset at position (c', j') after removing (c, j) was
      before. */
  function Before(c: nat, j: nat, c': nat, j': nat): nat {
    if c' == c && j' >= j then j' + 1 else j'
  }

  lemma RemoveAtPositions(cs: seq<Container>, c: nat, j: nat)
    requires IsPosition(cs, c, j)
    ensures var r := RemoveAt(cs, c, j);
      forall c', j' :: IsPosition(r, c', j') ==>
        IsPosition(cs, c', Before(c, j, c', j')) && r[c'].fieldsets[j'] == cs[c'].fieldsets[Before(c, j, c', j')]
  {
    var r := RemoveAt(cs, c, j);
    var fs := cs[c].fieldsets;
    forall c', j' | IsPosition(r, c', j')
      ensures IsPosition(cs, c', Before(c, j, c', j')) && r[c'].fieldsets[j'] == cs[c'].fieldsets[Before(c, j, c', j')]
    {
      if c' == c {
        assert r[c].fieldsets == fs[..j] + fs[j + 1..];
      }
    }
  }

  lemma RemoveKeepsDistinct(cs: seq<Container>, c: nat, j: nat)
    requires IsPosition(cs, c, j) && IdsDistinct(cs)
    ensures IdsDistinct(RemoveAt(cs, c, j))
  {
    RemoveAtPositions(cs, c, j);
  }

  lemma RemoveKeepsGenerated(cs: seq<Container>, counts: map<SectionKind, nat>, c: nat, j: nat)
    requires IsPosition(cs, c, j) && Generated(cs, counts)
    ensures Generated(RemoveAt(cs, c, j), counts)
  {
    RemoveAtPositions(cs, c, j);
  }

  /** `addSection` keeps the fieldsets handed out by the counters and their
      ids pairwise distinct: a counter never goes back, so a new fieldset
      never repeats an id. */
  lemma AddKeepsInvariant(cs: seq<Container>, counts: map<SectionKind, nat>, kind: SectionKind)
    requires kind in counts && Generated(cs, counts) && IdsDistinct(cs)
    ensures Generated(AfterAdd(cs, kind, counts[kind]), AfterAddCounts(cs, counts, kind))
    ensures IdsDistinct(AfterAdd(cs, kind, counts[kind]))
  {
    var n := counts[kind];
    var m := GenerateSectionHTML(kind.Name(), n);
    match FindContainer(cs, ContainerId(kind))
    case None =>
    case Some(c) =>
      assert AfterAdd(cs, kind, n) == Insert(cs, c, m);
      assert AfterAddCounts(cs, counts, kind) == counts[kind := n + 1];
      GeneratedGrows(cs, counts, kind);
      if m.Section? {
        AddFieldsetKeepsInvariant(cs, counts, kind, c);
      }
  }

  lemma AddFieldsetKeepsInvariant(cs: seq<Container>, counts: map<SectionKind, nat>, kind: SectionKind, c: nat)
    requires kind in counts && HasTemplate(kind.Name()) && c < |cs|
    requires Generated(cs, counts) && Generated(cs, counts[kind := counts[kind] + 1]) && IdsDistinct(cs)
    ensures var f := GenerateSectionHTML(kind.Name(), counts[kind]).fieldset;
      Generated(Insert(cs, c, Section(f)), counts[kind := counts[kind] + 1]) && IdsDistinct(Insert(cs, c, Section(f)))
  {
    var counts' := counts[kind := counts[kind] + 1];
    var f := GenerateSectionHTML(kind.Name(), counts[kind]).fieldset;
    CurrentIssued(counts, kind);
    FreshId(cs, counts, kind);
    InsertKeepsDistinct(cs, c, f);
    InsertKeepsGenerated(cs, counts', c, f);
  }

  /** Once its counter has moved on, the section of a kind's current index is
      among the handed-out ones. */
  lemma CurrentIssued(counts: map<SectionKind, nat>, kind: SectionKind)
    requires kind in counts && HasTemplate(kind.Name())
    ensures Issued(GenerateSectionHTML(kind.Name(), counts[kind]).fieldset, counts[kind := counts[kind] + 1])
  {
    var n := counts[kind];
    var counts' := counts[kind := n + 1];
    var f := GenerateSectionHTML(kind.Name(), n).fieldset;
    assert kind in counts' && n < counts'[kind] && GenerateSectionHTML(kind.Name(), n) == Section(f);
  }

  /** `removeSection` keeps the invariant, and afterwards no fieldset has the
      removed id. */
  lemma RemoveKeepsInvariant(cs: seq<Container>, counts: map<SectionKind, nat>, id: string)
    requires Generated(cs, counts) && IdsDistinct(cs)
    ensures Generated(AfterRemove(cs, id), counts)
    ensures IdsDistinct(AfterRemove(cs, id))
    ensures forall c, j :: IsPosition(AfterRemove(cs, id), c, j) ==> AfterRemove(cs, id)[c].fieldsets[j].id != id
  {
    match FindFieldset(cs, id)
    case None =>
    case Some(p) =>
      RemoveKeepsDistinct(cs, p.0, p.1);
      RemoveKeepsGenerated(cs, counts, p.0, p.1);
      RemoveAtPositions(cs, p.0, p.1);
      var r := RemoveAt(cs, p.0, p.1);
      forall c, j | IsPosition(r, c, j) ensures r[c].fieldsets[j].id != id {
        var b := Before(p.0, p.1, c, j);
        assert c != p.0 || b != p.1;
      }
  }

  /** The invariant between the counters and the page. */
  ghost predicate Consistent(counters: SectionCounters, page: Page)
    reads counters, page
  {
    counters.Valid() && Generated(page.containers, counters.counts) && IdsDistinct(page.containers)
  }

  /** The state the module starts from: every counter at zero and the section
      containers, with the given ids, empty. It is consistent, so with
      `AddSection` and `RemoveSection` every state reached from it is too. */
  method InitialState(ids: seq<string>) returns (counters: SectionCounters, page: Page)
    ensures forall k: SectionKind :: k in counters.counts && counters.counts[k] == 0
    ensures |page.containers| == |ids| && forall c :: 0 <= c < |ids| ==> page.containers[c] == Container(ids[c], [])
    ensures page.shown == None
    ensures Consistent(counters, page)
  {
    counters := new SectionCounters();
    page := new Page(ids);
    assert forall c, j :: !IsPosition(page.containers, c, j);
  }

  // =====================================================================
  // A section's lifecycle
  // =====================================================================

  /** The first section goes into its empty container. */
  lemma FirstSectionAdded(kind: SectionKind)
    requires HasTemplate(kind.Name())
    ensures var id, f0 := ContainerId(kind), GenerateSectionHTML(kind.Name(), 0).fieldset;
      && FindContainer([Container(id, [])], id) == Some(0)
      && AfterAdd([Container(id, [])], kind, 0) == [Container(id, [f0])]
  {
    var f0 := GenerateSectionHTML(kind.Name(), 0).fieldset;
    assert [] + [f0] == [f0];
  }

  /** The second section goes after the first. */
  lemma SecondSectionAdded(kind: SectionKind)
    requires HasTemplate(kind.Name())
    ensures var id := ContainerId(kind);
      var f0, f1 := GenerateSectionHTML(kind.Name(), 0).fieldset, GenerateSectionHTML(kind.Name(), 1).fieldset;
      && FindContainer([Container(id, [f0])], id) == Some(0)
      && AfterAdd([Container(id, [f0])], kind, 1) == [Container(id, [f0, f1])]
  {
    var f0, f1 := GenerateSectionHTML(kind.Name(), 0).fieldset, GenerateSectionHTML(kind.Name(), 1).fieldset;
    assert [f0] + [f1] == [f0, f1];
  }

  /** Removing the first section by its id leaves the second alone. */
  lemma FirstSectionRemoved(kind: SectionKind)
    requires HasTemplate(kind.Name())
    ensures var id := ContainerId(kind);
      var f0, f1 := GenerateSectionHTML(kind.Name(), 0).fieldset, GenerateSectionHTML(kind.Name(), 1).fieldset;
      AfterRemove([Container(id, [f0, f1])], f0.id) == [Container(id, [f1])]
  {
    var t := kind.Name();
    var f0, f1 := GenerateSectionHTML(t, 0).fieldset, GenerateSectionHTML(t, 1).fieldset;
    var cs := [Container(ContainerId(kind), [f0, f1])];
    assert f0.id != f1.id by {
      if f0.id == f1.id {
        FieldsetIdsDistinct(t, 0, t, 1);
      }
    }
    assert FindFieldset(cs, f0.id) == Some((0, 0));
    assert [f0, f1][..0] + [f0, f1][1..] == [f1];
  }

  /** Two sections of a kind with a template are added and the first is
      removed: the second stays, as it was, and the next section of that kind
      gets index 2, not a reused one. */
  method SectionLifecycle(kind: SectionKind, data: ResumeData) returns (remaining: seq<Container>, next: nat)
    requires HasTemplate(kind.Name())
    ensures remaining == [Container(ContainerId(kind), [GenerateSectionHTML(kind.Name(), 1).fieldset])]
    ensures next == 2
  {
    var id := ContainerId(kind);
    var counters := new SectionCounters();
    var page := new Page([id]);
    var f0 := GenerateSectionHTML(kind.Name(), 0).fieldset;
    var f1 := GenerateSectionHTML(kind.Name(), 1).fieldset;
    assert page.containers == [Container(id, [])];
    FirstSectionAdded(kind);
    var _ := AddSection(counters, page, kind, "general", data);
    assert page.containers == [Container(id, [f0])];
    assert counters.counts[kind] == 1;
    SecondSectionAdded(kind);
    var _ := AddSection(counters, page, kind, "general", data);
    assert page.containers == [Container(id, [f0, f1])];
    assert counters.counts[kind] == 2;
    FirstSectionRemoved(kind);
    var _ := RemoveSection(counters, page, f0.id, "general", data);
    remaining := page.containers;
    next := counters.Get(kind);
  }
}
