/**
 * js/templates.js: the form fieldset that `generateSectionHTML` emits for a
 * section kind and index, the profile username shown in the preview header,
 * and which preview blocks `generateGeneralHTML` and
 * `generateCompanySpecificHTML` emit and in what order. The markup itself is
 * reduced to abstract fieldsets, headers, blocks and entries; values are
 * carried verbatim, without escaping, as the templates interpolate them.
 */
module Templates {
  import opened Text
  import opened JsValues
  import opened Data
  import Seqs
  import Utils

  // =====================================================================
  // generateSectionHTML
  // =====================================================================

  /** `type.substring(0, 3)` */
  function Prefix3(t: string): string {
    if |t| <= 3 then t else t[..3]
  }

  /** `${type.substring(0, 3)}_fieldset_${index}` */
  function FieldsetId(t: string, index: nat): string {
    Prefix3(t) + "_fieldset_" + NatToString(index)
  }

  /** A form fieldset: its id, its legend text, the `data-target` of its
      remove button and the ids of its inputs, in markup order. */
  datatype Fieldset = Fieldset(id: string, legend: string, removeTarget: string, inputIds: seq<string>)

  /** The markup of `generateSectionHTML`: the empty string or one fieldset. */
  datatype Markup = NoMarkup | Section(fieldset: Fieldset)

  /** The four types that have a template. */
  predicate HasTemplate(t: string) {
    t == "project" || t == "education" || t == "achievement" || t == "certification"
  }

  /** Legend word of each template. */
  function LegendWord(t: string): string {
    if t == "project" then "Project"
    else if t == "education" then "Education"
    else if t == "achievement" then "Achievement"
    else "Certification"
  }

  /** Input id stems of each template, in markup order; the id of an input
      is its stem, `_` and the index. */
  function InputStems(t: string): seq<string> {
    if t == "project" then ["project_title", "project_date", "project_tech", "project_desc"]
    else if t == "education" then ["edu_school", "edu_location", "edu_degree", "edu_dates"]
    else if t == "achievement" then ["ach_title", "ach_date"]
    else ["cert_title", "cert_date"]
  }

  /** The ids `${stem}_${index}` of a template's inputs. */
  function InputIds(stems: seq<string>, index: nat): seq<string> {
    seq(|stems|, j requires 0 <= j < |stems| => stems[j] + "_" + NatToString(index))
  }

  /** `generateSectionHTML(type, index)`: the `switch` on the four types; any
      other type gives the empty string. */
  function GenerateSectionHTML(t: string, index: nat): (r: Markup)
    ensures r.Section? <==> HasTemplate(t)
  {
    var fieldsetId := FieldsetId(t, index);
    if HasTemplate(t) then
      Section(Fieldset(
        fieldsetId,
        LegendWord(t) + " " + NatToString(index + 1),
        fieldsetId,
        InputIds(InputStems(t), index)))
    else NoMarkup
  }

  /** The remove button targets its own fieldset, the legend counts from one,
      and the fieldset id and every input id end in `_` and the index. */
  lemma SectionShape(t: string, index: nat)
    requires HasTemplate(t)
    ensures var f := GenerateSectionHTML(t, index).fieldset;
      && f.removeTarget == f.id
      && f.id == Prefix3(t) + "_fieldset_" + NatToString(index)
      && f.legend == LegendWord(t) + " " + NatToString(index + 1)
      && |f.inputIds| == |InputStems(t)|
      && forall j :: 0 <= j < |f.inputIds| ==> f.inputIds[j] == InputStems(t)[j] + "_" + NatToString(index)
  {
  }

  /** The text after the last `_` of a generated id is the numeral of the
      index, so the index can be read back from every id of a section. */
  lemma {:induction false} IndexFromId(prefix: string, index: nat)
    ensures ParseNat(AfterLast(prefix + "_" + NatToString(index), '_')) == Some(index)
  {
    var d := NatToString(index);
    assert '_' !in d by {
      assert forall i :: 0 <= i < |d| ==> IsDigit(d[i]);
    }
    AfterLastAppend(prefix, '_', d);
    assert prefix + "_" + d == prefix + ['_'] + d;
    ParseNatToString(index);
  }

  /** The legend reads back as index + 1. */
  lemma LegendNumber(t: string, index: nat)
    requires HasTemplate(t)
    ensures ParseNat(AfterLast(GenerateSectionHTML(t, index).fieldset.legend, ' ')) == Some(index + 1)
  {
    var d := NatToString(index + 1);
    assert ' ' !in d by {
      assert forall i :: 0 <= i < |d| ==> IsDigit(d[i]);
    }
    AfterLastAppend(LegendWord(t), ' ', d);
    assert LegendWord(t) + " " + d == LegendWord(t) + [' '] + d;
    ParseNatToString(index + 1);
  }

  /** Every id `${stem}_${index}` carries the index. */
  lemma InputIdsCarryIndex(stems: seq<string>, index: nat)
    ensures forall j :: 0 <= j < |InputIds(stems, index)| ==> ParseNat(AfterLast(InputIds(stems, index)[j], '_')) == Some(index)
  {
    forall j | 0 <= j < |stems| ensures ParseNat(AfterLast(InputIds(stems, index)[j], '_')) == Some(index) {
      IndexFromId(stems[j], index);
    }
  }

  /** Each id of a section, fieldset or input, carries the section's index. */
  lemma SectionIdsCarryIndex(t: string, index: nat)
    requires HasTemplate(t)
    ensures var f := GenerateSectionHTML(t, index).fieldset;
      && ParseNat(AfterLast(f.id, '_')) == Some(index)
      && forall j :: 0 <= j < |f.inputIds| ==> ParseNat(AfterLast(f.inputIds[j], '_')) == Some(index)
  {
    FieldsetIdCarriesIndex(t, index);
    InputIdsCarryIndex(InputStems(t), index);
  }

  lemma FieldsetIdCarriesIndex(t: string, index: nat)
    ensures ParseNat(AfterLast(FieldsetId(t, index), '_')) == Some(index)
  {
    var p := Prefix3(t) + "_fieldset";
    assert "_fieldset_" == "_fieldset" + "_";
    assert FieldsetId(t, index) == p + "_" + NatToString(index);
    IndexFromId(p, index);
  }

  /** Distinct (type, index) pairs of the four templates give distinct
      fieldset ids. */
  lemma FieldsetIdsDistinct(t: string, i: nat, t': string, i': nat)
    requires HasTemplate(t) && HasTemplate(t')
    requires FieldsetId(t, i) == FieldsetId(t', i')
    ensures t == t' && i == i'
  {
    var a, a' := Prefix3(t) + "_fieldset_", Prefix3(t') + "_fieldset_";
    var id := FieldsetId(t, i);
    assert |a| == 13 && |a'| == 13;
    assert id == a + NatToString(i) && id == a' + NatToString(i');
    assert id[..3] == Prefix3(t) && id[..3] == Prefix3(t');
    assert t == t' by {
      assert Prefix3("project") == "pro" && Prefix3("education") == "edu";
      assert Prefix3("achievement") == "ach" && Prefix3("certification") == "cer";
    }
    assert id[13..] == NatToString(i) && id[13..] == NatToString(i');
    NatToStringInjective(i, i');
  }

  // =====================================================================
  // The username shown for a profile URL
  // =====================================================================

  /** `pieces.filter(Boolean)` for strings. */
  function NonEmpty(pieces: seq<string>): seq<string>
    decreases |pieces|
  {
    if pieces == [] then []
    else (if pieces[0] != "" then [pieces[0]] else []) + NonEmpty(pieces[1..])
  }

  /** `url.split("/").filter(Boolean).pop()`; `None` is `undefined`. */
  function Username(url: string): Option<string> {
    var ps := NonEmpty(Split(url, '/'));
    if ps == [] then None else Some(ps[|ps| - 1])
  }

  /** `${user}`: a missing username prints as `undefined`. */
  function Shown(user: Option<string>): string {
    if user.Some? then user.value else "undefined"
  }

  lemma {:induction false} NonEmptySpec(pieces: seq<string>)
    ensures forall i :: 0 <= i < |NonEmpty(pieces)| ==> NonEmpty(pieces)[i] != "" && NonEmpty(pieces)[i] in pieces
    ensures forall i :: 0 <= i < |pieces| && pieces[i] != "" ==> pieces[i] in NonEmpty(pieces)
    ensures NonEmpty(pieces) == [] <==> forall i :: 0 <= i < |pieces| ==> pieces[i] == ""
    decreases |pieces|
  {
    if pieces != [] {
      NonEmptySpec(pieces[1..]);
      var r := NonEmpty(pieces);
      var h := if pieces[0] != "" then [pieces[0]] else [];
      assert r == h + NonEmpty(pieces[1..]);
      forall i | 0 <= i < |pieces| && pieces[i] != "" ensures pieces[i] in r {
        if i > 0 {
          assert pieces[1..][i - 1] == pieces[i];
        }
      }
      forall i | 0 <= i < |r| ensures r[i] != "" && r[i] in pieces {
        if i >= |h| {
          assert r[i] == NonEmpty(pieces[1..])[i - |h|];
          assert r[i] in pieces[1..];
        }
      }
      if forall i :: 1 <= i < |pieces| ==> pieces[i] == "" {
        assert forall i :: 0 <= i < |pieces[1..]| ==> pieces[1..][i] == pieces[i + 1];
      } else {
        var i :| 1 <= i < |pieces| && pieces[i] != "";
        assert pieces[1..][i - 1] != "";
      }
    }
  }

  /** One piece is kept exactly when it is not empty; with `NonEmptyConcat`
      this fixes the order of the kept pieces. */
  lemma NonEmptySingle(p: string)
    ensures NonEmpty([p]) == (if p == "" then [] else [p])
  {
    assert [p][1..] == [];
  }

  lemma {:induction false} NonEmptyConcat(a: seq<string>, b: seq<string>)
    ensures NonEmpty(a + b) == NonEmpty(a) + NonEmpty(b)
    decreases |a|
  {
    if a == [] {
      assert a + b == b;
    } else {
      assert (a + b)[0] == a[0];
      assert (a + b)[1..] == a[1..] + b;
      NonEmptyConcat(a[1..], b);
      var h := if a[0] != "" then [a[0]] else [];
      calc {
        NonEmpty(a + b);
        h + NonEmpty(a[1..] + b);
        h + (NonEmpty(a[1..]) + NonEmpty(b));
        (h + NonEmpty(a[1..])) + NonEmpty(b);
      }
    }
  }

  /** A username is a non-empty run without `/`. */
  lemma UsernameNoSlash(url: string)
    ensures Username(url).Some? ==> Username(url).value != "" && '/' !in Username(url).value
  {
    NonEmptySpec(Split(url, '/'));
  }

  /** The username is the run after the last `/` (or the whole URL when it has
      no `/`), when that run is not empty. */
  lemma UsernameLastSegment(p: string, u: string)
    requires u != "" && '/' !in u
    requires p == "" || p[|p| - 1] == '/'
    ensures Username(p + u) == Some(u)
  {
    if p == "" {
      assert p + u == u;
      UsernameWhole(u);
    } else {
      var q := p[..|p| - 1];
      assert p + u == q + "/" + u;
      UsernameAfterSlash(q, u);
    }
  }

  /** A URL without `/` is its own username. */
  lemma UsernameWhole(u: string)
    requires u != "" && '/' !in u
    ensures Username(u) == Some(u)
  {
    SplitNoSep(u, '/');
    NonEmptySingle(u);
  }

  lemma UsernameAfterSlash(q: string, u: string)
    requires u != "" && '/' !in u
    ensures Username(q + "/" + u) == Some(u)
  {
    assert q + "/" + u == q + ['/'] + u;
    SplitConcat(q, u, '/');
    SplitNoSep(u, '/');
    NonEmptySingle(u);
    NonEmptyConcat(Split(q, '/'), [u]);
    var ps := NonEmpty(Split(q + "/" + u, '/'));
    assert ps == NonEmpty(Split(q, '/')) + [u];
  }

  /** Trailing slashes are skipped. */
  lemma UsernameTrailingSlash(url: string)
    ensures Username(url + "/") == Username(url)
  {
    assert url + "/" == url + ['/'] + [];
    SplitConcat(url, [], '/');
    NonEmptyConcat(Split(url, '/'), [[]]);
    assert NonEmpty([[]]) == [];
  }

  lemma {:induction false} SplitAllSeparators(s: string, sep: char)
    requires forall i :: 0 <= i < |s| ==> s[i] == sep
    ensures forall i :: 0 <= i < |Split(s, sep)| ==> Split(s, sep)[i] == ""
    decreases |s|
  {
    if s != [] {
      SplitAllSeparators(s[1..], sep);
    }
  }

  lemma {:induction false} JoinEmptyPieces(parts: seq<string>, sep: char)
    requires |parts| >= 1
    requires forall i :: 0 <= i < |parts| ==> parts[i] == ""
    ensures forall i :: 0 <= i < |Join(parts, sep)| ==> Join(parts, sep)[i] == sep
    decreases |parts|
  {
    if |parts| > 1 {
      JoinEmptyPieces(parts[1..], sep);
      assert Join(parts, sep) == [sep] + Join(parts[1..], sep);
    }
  }

  /** There is no username exactly when the URL is made of slashes only (the
      empty URL included). */
  lemma UsernameAbsentIff(url: string)
    ensures Username(url).None? <==> forall i :: 0 <= i < |url| ==> url[i] == '/'
  {
    var ps := Split(url, '/');
    NonEmptySpec(ps);
    if forall i :: 0 <= i < |url| ==> url[i] == '/' {
      SplitAllSeparators(url, '/');
    }
    if Username(url).None? {
      JoinEmptyPieces(ps, '/');
      SplitJoin(url, '/');
    }
  }

  // =====================================================================
  // The two preview formats
  // =====================================================================

  datatype BlockKind = SkillsBlock | ProjectsBlock | CertificationsBlock | AchievementsBlock | EducationBlock | HobbiesBlock

  datatype Entry =
    | SkillLine(caption: string, value: string)
    | ProjectEntry(title: string, date: string, tech: string, bullets: seq<string>)
    | DatedEntry(title: string, date: string)
    | EducationEntry(school: string, location: string, degree: string, dates: string)
    | HobbyEntry(text: string)

  datatype Block = Block(kind: BlockKind, entries: seq<Entry>)

  /** The header texts of each format, in markup order; `href`s included. */
  datatype Header =
    | GeneralHeader(name: string, linkedin: string, linkedinUser: string, github: string,
                    githubUser: string, email: string, mobile: string)
    | CompanyHeader(name: string, location: string, mobile: string, email: string,
                    linkedin: string, linkedinText: string, github: string, githubText: string)

  datatype Preview = Preview(header: Header, blocks: seq<Block>)

  const SkillKeys: seq<string> := ["languages", "frameworks", "databases", "tools", "softskills"]
  const GeneralSkillLabels: seq<string> := ["Languages", "Frameworks", "Databases", "Tools", "Other Skills"]
  const CompanySkillLabels: seq<string> := ["Languages", "Libraries/Frameworks", "Databases", "Tools", "Skills"]

  /** `${data.skills.languages}` and the four lines after it: reading a
      property of null or undefined throws; a missing one prints `undefined`. */
  function SkillLines(skills: JsValue, labels: seq<string>): (r: Outcome<seq<Entry>>)
    requires |labels| == |SkillKeys|
    // neither nullish nor an object: none of the five properties exists
    ensures !Nullish(skills) && !skills.Obj? ==>
      r.Ok? && |r.value| == |SkillKeys| && forall i :: 0 <= i < |SkillKeys| ==> r.value[i] == SkillLine(labels[i], "undefined")
    // an object: line `i` shows property `i`, its text when it is a string, `undefined` when it is missing
    ensures skills.Obj? ==> r.Ok? && |r.value| == |SkillKeys|
    ensures skills.Obj? ==> forall i :: 0 <= i < |SkillKeys| && SkillKeys[i] in skills.props && skills.props[SkillKeys[i]].Str? ==>
      r.value[i] == SkillLine(labels[i], skills.props[SkillKeys[i]].s)
    ensures skills.Obj? ==> forall i :: 0 <= i < |SkillKeys| && SkillKeys[i] !in skills.props ==>
      r.value[i] == SkillLine(labels[i], "undefined")
  {
    if Nullish(skills) then Throws
    else Ok(seq(|SkillKeys|, i requires 0 <= i < |SkillKeys| =>
      SkillLine(labels[i], ToJsString(GetProperty(skills, SkillKeys[i]).value))))
  }

  function ProjectEntryOf(p: ProjectItem): Entry {
    ProjectEntry(p.title, p.date, p.tech, p.desc)
  }

  function DatedEntryOf(c: DatedItem): Entry {
    DatedEntry(c.title, c.date)
  }

  function EducationEntryOf(e: EducationItem): Entry {
    EducationEntry(e.school, e.location, e.degree, e.dates)
  }

  function HobbyEntryOf(piece: string): Entry {
    HobbyEntry(Trim(piece))
  }

  /** `data.hobbies.split(",").map((hobby) => ... hobby.trim() ...)` */
  function HobbyEntries(hobbies: string): seq<Entry> {
    Seqs.Map(HobbyEntryOf, Split(hobbies, ','))
  }

  /** A block that is emitted only when its list is non-empty. */
  function BlockIfAny(kind: BlockKind, entries: seq<Entry>): seq<Block> {
    if entries == [] then [] else [Block(kind, entries)]
  }

  function GeneralHeaderOf(p: Personal): Header {
    GeneralHeader(p.name, p.linkedin, Shown(Username(p.linkedin)), p.github,
                  Shown(Username(p.github)), p.email, p.mobile)
  }

  function CompanyHeaderOf(p: Personal): Header {
    CompanyHeader(p.name, p.location, p.mobile, p.email,
                  p.linkedin, "linkedin.com/in/" + Shown(Username(p.linkedin)),
                  p.github, "github.com/" + Shown(Username(p.github)))
  }

  function ProjectsPart(d: ResumeData): seq<Block> {
    BlockIfAny(ProjectsBlock, Seqs.Map(ProjectEntryOf, d.projects))
  }

  function CertificationsPart(d: ResumeData): seq<Block> {
    BlockIfAny(CertificationsBlock, Seqs.Map(DatedEntryOf, d.certifications))
  }

  function AchievementsPart(d: ResumeData): seq<Block> {
    BlockIfAny(AchievementsBlock, Seqs.Map(DatedEntryOf, d.achievements))
  }

  function EducationPart(d: ResumeData): seq<Block> {
    BlockIfAny(EducationBlock, Seqs.Map(EducationEntryOf, d.education))
  }

  /** `if (data.hobbies) { ... }` for a string `hobbies`. */
  function HobbiesPart(d: ResumeData): seq<Block> {
    if Truthy(d.hobbies) && d.hobbies.Str? then [Block(HobbiesBlock, HobbyEntries(d.hobbies.s))] else []
  }

  /** What `generateGeneralHTML(data)` renders. It throws when `skills` is
      null or undefined, and when `hobbies` is truthy but not a string, as
      `split` is then not a function. */
  function GeneralPreview(d: ResumeData): Outcome<Preview> {
    var skills := SkillLines(d.skills, GeneralSkillLabels);
    if skills.Throws? then Throws
    else if Truthy(d.hobbies) && !d.hobbies.Str? then Throws
    else
      Ok(Preview(GeneralHeaderOf(d.personal),
        [Block(SkillsBlock, skills.value)] + ProjectsPart(d) + CertificationsPart(d)
        + AchievementsPart(d) + EducationPart(d) + HobbiesPart(d)))
  }

  /** What `generateCompanySpecificHTML(data)` renders; it throws only when
      `skills` is null or undefined. */
  function CompanyPreview(d: ResumeData): Outcome<Preview> {
    var skills := SkillLines(d.skills, CompanySkillLabels);
    if skills.Throws? then Throws
    else
      Ok(Preview(CompanyHeaderOf(d.personal),
        ProjectsPart(d) + CertificationsPart(d) + [Block(SkillsBlock, skills.value)] + EducationPart(d)))
  }

  /** `list.forEach((x) => { html += ... })`: one entry per element, in order. */
  method CollectEntries<T>(items: seq<T>, entryOf: T -> Entry) returns (entries: seq<Entry>)
    ensures entries == Seqs.Map(entryOf, items)
  {
    entries := [];
    for i := 0 to |items|
      invariant entries == Seqs.Map(entryOf, items[..i])
    {
      Seqs.MapSnoc(entryOf, items, i);
      entries := entries + [entryOf(items[i])];
    }
    assert items[..|items|] == items;
  }

  /** `generateGeneralHTML(data)`, accumulating blocks as the template
      accumulates markup. */
  method RenderGeneral(d: ResumeData) returns (r: Outcome<Preview>)
    ensures r == GeneralPreview(d)
  {
    var skills := SkillLines(d.skills, GeneralSkillLabels);
    if skills.Throws? {
      return Throws;
    }
    var blocks := [Block(SkillsBlock, skills.value)];
    if |d.projects| > 0 {
      var entries := CollectEntries(d.projects, ProjectEntryOf);
      blocks := blocks + [Block(ProjectsBlock, entries)];
    }
    assert blocks == [Block(SkillsBlock, skills.value)] + ProjectsPart(d);
    ghost var b1 := blocks;
    if |d.certifications| > 0 {
      var entries := CollectEntries(d.certifications, DatedEntryOf);
      blocks := blocks + [Block(CertificationsBlock, entries)];
    }
    assert blocks == b1 + CertificationsPart(d);
    ghost var b2 := blocks;
    if |d.achievements| > 0 {
      var entries := CollectEntries(d.achievements, DatedEntryOf);
      blocks := blocks + [Block(AchievementsBlock, entries)];
    }
    assert blocks == b2 + AchievementsPart(d);
    ghost var b3 := blocks;
    if |d.education| > 0 {
      var entries := CollectEntries(d.education, EducationEntryOf);
      blocks := blocks + [Block(EducationBlock, entries)];
    }
    assert blocks == b3 + EducationPart(d);
    ghost var b4 := blocks;
    if Truthy(d.hobbies) {
      if !d.hobbies.Str? {
        return Throws;
      }
      blocks := blocks + [Block(HobbiesBlock, HobbyEntries(d.hobbies.s))];
    }
    assert blocks == b4 + HobbiesPart(d);
    return Ok(Preview(GeneralHeaderOf(d.personal), blocks));
  }

  /** `generateCompanySpecificHTML(data)` */
  method RenderCompany(d: ResumeData) returns (r: Outcome<Preview>)
    ensures r == CompanyPreview(d)
  {
    var blocks: seq<Block> := [];
    if |d.projects| > 0 {
      var entries := CollectEntries(d.projects, ProjectEntryOf);
      blocks := blocks + [Block(ProjectsBlock, entries)];
    }
    assert blocks == ProjectsPart(d);
    ghost var b1 := blocks;
    if |d.certifications| > 0 {
      var entries := CollectEntries(d.certifications, DatedEntryOf);
      blocks := blocks + [Block(CertificationsBlock, entries)];
    }
    assert blocks == b1 + CertificationsPart(d);
    var skills := SkillLines(d.skills, CompanySkillLabels);
    if skills.Throws? {
      return Throws;
    }
    blocks := blocks + [Block(SkillsBlock, skills.value)];
    ghost var b2 := blocks;
    if |d.education| > 0 {
      var entries := CollectEntries(d.education, EducationEntryOf);
      blocks := blocks + [Block(EducationBlock, entries)];
    }
    assert blocks == b2 + EducationPart(d);
    return Ok(Preview(CompanyHeaderOf(d.personal), blocks));
  }

  // =====================================================================
  // Which blocks appear, and in what order
  // =====================================================================

  function Kinds(bs: seq<Block>): (ks: seq<BlockKind>)
    ensures |ks| == |bs| && forall i :: 0 <= i < |bs| ==> ks[i] == bs[i].kind
  {
    seq(|bs|, i requires 0 <= i < |bs| => bs[i].kind)
  }

  function KindIf(present: bool, k: BlockKind): seq<BlockKind> {
    if present then [k] else []
  }

  lemma KindsConcat(a: seq<Block>, b: seq<Block>)
    ensures Kinds(a + b) == Kinds(a) + Kinds(b)
  {
  }

  /** A conditional block is present exactly when it has entries. */
  lemma BlockIfAnySpec(kind: BlockKind, entries: seq<Entry>)
    ensures Kinds(BlockIfAny(kind, entries)) == KindIf(entries != [], kind)
    ensures forall b :: b in BlockIfAny(kind, entries) ==> b.entries == entries
  {
  }

  lemma KindsConcat4(a: seq<Block>, b: seq<Block>, c: seq<Block>, d: seq<Block>)
    ensures Kinds(a + b + c + d) == Kinds(a) + Kinds(b) + Kinds(c) + Kinds(d)
  {
    KindsConcat(a, b);
    KindsConcat(a + b, c);
    KindsConcat(a + b + c, d);
  }

  lemma KindsConcat6(a: seq<Block>, b: seq<Block>, c: seq<Block>, d: seq<Block>, e: seq<Block>, f: seq<Block>)
    ensures Kinds(a + b + c + d + e + f) == Kinds(a) + Kinds(b) + Kinds(c) + Kinds(d) + Kinds(e) + Kinds(f)
  {
    KindsConcat4(a, b, c, d);
    KindsConcat(a + b + c + d, e);
    KindsConcat(a + b + c + d + e, f);
  }

  /** Each optional part is one block of its kind, present exactly when its
      list is non-empty, holding one entry per element in list order. */
  lemma PartsSpec(d: ResumeData)
    ensures Kinds(ProjectsPart(d)) == KindIf(|d.projects| > 0, ProjectsBlock)
    ensures Kinds(CertificationsPart(d)) == KindIf(|d.certifications| > 0, CertificationsBlock)
    ensures Kinds(AchievementsPart(d)) == KindIf(|d.achievements| > 0, AchievementsBlock)
    ensures Kinds(EducationPart(d)) == KindIf(|d.education| > 0, EducationBlock)
    ensures Kinds(HobbiesPart(d)) == KindIf(Truthy(d.hobbies) && d.hobbies.Str?, HobbiesBlock)
    ensures forall b :: b in ProjectsPart(d) ==> b.entries == Seqs.Map(ProjectEntryOf, d.projects)
    ensures forall b :: b in CertificationsPart(d) ==> b.entries == Seqs.Map(DatedEntryOf, d.certifications)
    ensures forall b :: b in AchievementsPart(d) ==> b.entries == Seqs.Map(DatedEntryOf, d.achievements)
    ensures forall b :: b in EducationPart(d) ==> b.entries == Seqs.Map(EducationEntryOf, d.education)
  {
    BlockIfAnySpec(ProjectsBlock, Seqs.Map(ProjectEntryOf, d.projects));
    BlockIfAnySpec(CertificationsBlock, Seqs.Map(DatedEntryOf, d.certifications));
    BlockIfAnySpec(AchievementsBlock, Seqs.Map(DatedEntryOf, d.achievements));
    BlockIfAnySpec(EducationBlock, Seqs.Map(EducationEntryOf, d.education));
  }

  /** The general format throws exactly when `skills` is null or undefined
      or `hobbies` is truthy but not a string. */
  lemma GeneralThrowsIff(d: ResumeData)
    ensures GeneralPreview(d).Throws? <==> Nullish(d.skills) || (Truthy(d.hobbies) && !d.hobbies.Str?)
  {
  }

  /** The company format throws exactly when `skills` is null or undefined. */
  lemma CompanyThrowsIff(d: ResumeData)
    ensures CompanyPreview(d).Throws? <==> Nullish(d.skills)
  {
  }

  /** The general format: skills first and always; then projects,
      certifications, achievements and education, each exactly when its list
      is non-empty; hobbies last, exactly when `hobbies` is truthy. */
  lemma GeneralBlocks(d: ResumeData)
    requires GeneralPreview(d).Ok?
    ensures Kinds(GeneralPreview(d).value.blocks) ==
      [SkillsBlock]
      + KindIf(|d.projects| > 0, ProjectsBlock)
      + KindIf(|d.certifications| > 0, CertificationsBlock)
      + KindIf(|d.achievements| > 0, AchievementsBlock)
      + KindIf(|d.education| > 0, EducationBlock)
      + KindIf(Truthy(d.hobbies), HobbiesBlock)
  {
    var s := [Block(SkillsBlock, SkillLines(d.skills, GeneralSkillLabels).value)];
    var p, c, a, e, h := ProjectsPart(d), CertificationsPart(d), AchievementsPart(d), EducationPart(d), HobbiesPart(d);
    assert GeneralPreview(d).value.blocks == s + p + c + a + e + h;
    KindsConcat6(s, p, c, a, e, h);
    PartsSpec(d);
    assert Kinds(s) == [SkillsBlock];
  }

  /** The company format: projects and certifications when non-empty, then
      skills always, then education when non-empty. */
  lemma CompanyBlocks(d: ResumeData)
    requires CompanyPreview(d).Ok?
    ensures Kinds(CompanyPreview(d).value.blocks) ==
      KindIf(|d.projects| > 0, ProjectsBlock)
      + KindIf(|d.certifications| > 0, CertificationsBlock)
      + [SkillsBlock]
      + KindIf(|d.education| > 0, EducationBlock)
  {
    var s := [Block(SkillsBlock, SkillLines(d.skills, CompanySkillLabels).value)];
    var p, c, e := ProjectsPart(d), CertificationsPart(d), EducationPart(d);
    assert CompanyPreview(d).value.blocks == p + c + s + e;
    KindsConcat4(p, c, s, e);
    PartsSpec(d);
    assert Kinds(s) == [SkillsBlock];
  }

  lemma GeneralKindsPresence(p: bool, c: bool, a: bool, e: bool, h: bool)
    ensures var ks := [SkillsBlock] + KindIf(p, ProjectsBlock) + KindIf(c, CertificationsBlock)
                      + KindIf(a, AchievementsBlock) + KindIf(e, EducationBlock) + KindIf(h, HobbiesBlock);
      && SkillsBlock in ks
      && (ProjectsBlock in ks <==> p)
      && (CertificationsBlock in ks <==> c)
      && (AchievementsBlock in ks <==> a)
      && (EducationBlock in ks <==> e)
      && (HobbiesBlock in ks <==> h)
  {
  }

  /** Presence in the general format: skills always; projects,
      certifications, achievements and education iff their list is
      non-empty; hobbies iff `hobbies` is truthy. */
  lemma GeneralPresence(d: ResumeData)
    requires GeneralPreview(d).Ok?
    ensures var ks := Kinds(GeneralPreview(d).value.blocks);
      && SkillsBlock in ks
      && (ProjectsBlock in ks <==> |d.projects| > 0)
      && (CertificationsBlock in ks <==> |d.certifications| > 0)
      && (AchievementsBlock in ks <==> |d.achievements| > 0)
      && (EducationBlock in ks <==> |d.education| > 0)
      && (HobbiesBlock in ks <==> Truthy(d.hobbies))
  {
    GeneralBlocks(d);
    GeneralKindsPresence(|d.projects| > 0, |d.certifications| > 0, |d.achievements| > 0,
      |d.education| > 0, Truthy(d.hobbies));
  }

  /** Presence in the company format: skills always; projects,
      certifications and education iff their list is non-empty; never
      achievements or hobbies. */
  lemma CompanyPresence(d: ResumeData)
    requires CompanyPreview(d).Ok?
    ensures var ks := Kinds(CompanyPreview(d).value.blocks);
      && SkillsBlock in ks
      && (ProjectsBlock in ks <==> |d.projects| > 0)
      && (CertificationsBlock in ks <==> |d.certifications| > 0)
      && (EducationBlock in ks <==> |d.education| > 0)
      && AchievementsBlock !in ks && HobbiesBlock !in ks
  {
    CompanyBlocks(d);
    CompanyKindsPresence(|d.projects| > 0, |d.certifications| > 0, |d.education| > 0);
  }

  lemma CompanyKindsPresence(p: bool, c: bool, e: bool)
    ensures var ks := KindIf(p, ProjectsBlock) + KindIf(c, CertificationsBlock) + [SkillsBlock] + KindIf(e, EducationBlock);
      && SkillsBlock in ks
      && (ProjectsBlock in ks <==> p)
      && (CertificationsBlock in ks <==> c)
      && (EducationBlock in ks <==> e)
      && AchievementsBlock !in ks && HobbiesBlock !in ks
  {
  }

  function GeneralRank(k: BlockKind): nat {
    match k
    case SkillsBlock => 0
    case ProjectsBlock => 1
    case CertificationsBlock => 2
    case AchievementsBlock => 3
    case EducationBlock => 4
    case HobbiesBlock => 5
  }

  function CompanyRank(k: BlockKind): nat {
    match k
    case ProjectsBlock => 0
    case CertificationsBlock => 1
    case SkillsBlock => 2
    case EducationBlock => 3
    case AchievementsBlock => 4
    case HobbiesBlock => 5
  }

  /** Each kind at most once, in the order `rank` gives. */
  predicate InOrder(rank: BlockKind -> nat, ks: seq<BlockKind>) {
    forall a, b :: 0 <= a < b < |ks| ==> rank(ks[a]) < rank(ks[b])
  }

  lemma AppendInOrder(rank: BlockKind -> nat, ks: seq<BlockKind>, present: bool, k: BlockKind)
    requires InOrder(rank, ks)
    requires forall i :: 0 <= i < |ks| ==> rank(ks[i]) < rank(k)
    ensures InOrder(rank, ks + KindIf(present, k))
    ensures forall i :: 0 <= i < |ks + KindIf(present, k)| ==> rank((ks + KindIf(present, k))[i]) <= rank(k)
  {
  }

  lemma GeneralKindsOrder(p: bool, c: bool, a: bool, e: bool, h: bool)
    ensures InOrder(GeneralRank, [SkillsBlock] + KindIf(p, ProjectsBlock) + KindIf(c, CertificationsBlock)
                    + KindIf(a, AchievementsBlock) + KindIf(e, EducationBlock) + KindIf(h, HobbiesBlock))
  {
    var k0 := [SkillsBlock];
    AppendInOrder(GeneralRank, k0, p, ProjectsBlock);
    var k1 := k0 + KindIf(p, ProjectsBlock);
    AppendInOrder(GeneralRank, k1, c, CertificationsBlock);
    var k2 := k1 + KindIf(c, CertificationsBlock);
    AppendInOrder(GeneralRank, k2, a, AchievementsBlock);
    var k3 := k2 + KindIf(a, AchievementsBlock);
    AppendInOrder(GeneralRank, k3, e, EducationBlock);
    var k4 := k3 + KindIf(e, EducationBlock);
    AppendInOrder(GeneralRank, k4, h, HobbiesBlock);
  }

  lemma CompanyKindsOrder(p: bool, c: bool, e: bool)
    ensures InOrder(CompanyRank, KindIf(p, ProjectsBlock) + KindIf(c, CertificationsBlock)
                    + [SkillsBlock] + KindIf(e, EducationBlock))
  {
    var k0: seq<BlockKind> := [];
    AppendInOrder(CompanyRank, k0, p, ProjectsBlock);
    var k1 := k0 + KindIf(p, ProjectsBlock);
    AppendInOrder(CompanyRank, k1, c, CertificationsBlock);
    var k2 := k1 + KindIf(c, CertificationsBlock);
    AppendInOrder(CompanyRank, k2, true, SkillsBlock);
    var k3 := k2 + KindIf(true, SkillsBlock);
    AppendInOrder(CompanyRank, k3, e, EducationBlock);
    assert k0 + KindIf(p, ProjectsBlock) == KindIf(p, ProjectsBlock);
    assert KindIf(true, SkillsBlock) == [SkillsBlock];
  }

  /** Blocks appear in the fixed order of each format, none twice. */
  lemma GeneralBlockOrder(d: ResumeData)
    requires GeneralPreview(d).Ok?
    ensures InOrder(GeneralRank, Kinds(GeneralPreview(d).value.blocks))
  {
    GeneralBlocks(d);
    GeneralKindsOrder(|d.projects| > 0, |d.certifications| > 0, |d.achievements| > 0,
      |d.education| > 0, Truthy(d.hobbies));
  }

  lemma CompanyBlockOrder(d: ResumeData)
    requires CompanyPreview(d).Ok?
    ensures InOrder(CompanyRank, Kinds(CompanyPreview(d).value.blocks))
  {
    CompanyBlocks(d);
    CompanyKindsOrder(|d.projects| > 0, |d.certifications| > 0, |d.education| > 0);
  }

  /** The entries of a list block are the list's elements, in list order. */
  lemma GeneralEntriesInListOrder(d: ResumeData)
    requires GeneralPreview(d).Ok?
    ensures forall b :: b in GeneralPreview(d).value.blocks ==>
      && (b.kind == ProjectsBlock ==> b.entries == Seqs.Map(ProjectEntryOf, d.projects))
      && (b.kind == CertificationsBlock ==> b.entries == Seqs.Map(DatedEntryOf, d.certifications))
      && (b.kind == AchievementsBlock ==> b.entries == Seqs.Map(DatedEntryOf, d.achievements))
      && (b.kind == EducationBlock ==> b.entries == Seqs.Map(EducationEntryOf, d.education))
  {
    var s := [Block(SkillsBlock, SkillLines(d.skills, GeneralSkillLabels).value)];
    var p, c, a, e, h := ProjectsPart(d), CertificationsPart(d), AchievementsPart(d), EducationPart(d), HobbiesPart(d);
    assert GeneralPreview(d).value.blocks == s + p + c + a + e + h;
    PartsSpec(d);
    forall b: Block | b in s + p + c + a + e + h
      ensures b.kind == ProjectsBlock ==> b.entries == Seqs.Map(ProjectEntryOf, d.projects)
      ensures b.kind == CertificationsBlock ==> b.entries == Seqs.Map(DatedEntryOf, d.certifications)
      ensures b.kind == AchievementsBlock ==> b.entries == Seqs.Map(DatedEntryOf, d.achievements)
      ensures b.kind == EducationBlock ==> b.entries == Seqs.Map(EducationEntryOf, d.education)
    {
      KindOfMember(p, b);
      KindOfMember(c, b);
      KindOfMember(a, b);
      KindOfMember(e, b);
      KindOfMember(h, b);
    }
  }

  lemma CompanyEntriesInListOrder(d: ResumeData)
    requires CompanyPreview(d).Ok?
    ensures forall b :: b in CompanyPreview(d).value.blocks ==>
      && (b.kind == ProjectsBlock ==> b.entries == Seqs.Map(ProjectEntryOf, d.projects))
      && (b.kind == CertificationsBlock ==> b.entries == Seqs.Map(DatedEntryOf, d.certifications))
      && (b.kind == EducationBlock ==> b.entries == Seqs.Map(EducationEntryOf, d.education))
  {
    var lines := SkillLines(d.skills, CompanySkillLabels).value;
    assert CompanyPreview(d).value.blocks == ProjectsPart(d) + CertificationsPart(d) + [Block(SkillsBlock, lines)] + EducationPart(d);
    EntriesByKind(ProjectsBlock, CertificationsBlock, EducationBlock, Seqs.Map(ProjectEntryOf, d.projects),
                  Seqs.Map(DatedEntryOf, d.certifications), Seqs.Map(EducationEntryOf, d.education), lines);
  }

  /** In the company layout's arrangement of parts, a block of one of the
      three listed kinds carries that kind's entries. */
  lemma EntriesByKind(k1: BlockKind, k2: BlockKind, k3: BlockKind,
                      x1: seq<Entry>, x2: seq<Entry>, x3: seq<Entry>, lines: seq<Entry>)
    requires k1 != SkillsBlock && k2 != SkillsBlock && k3 != SkillsBlock
    requires k1 != k2 && k2 != k3 && k1 != k3
    ensures forall b :: b in BlockIfAny(k1, x1) + BlockIfAny(k2, x2) + [Block(SkillsBlock, lines)] + BlockIfAny(k3, x3) ==>
      && (b.kind == k1 ==> b.entries == x1)
      && (b.kind == k2 ==> b.entries == x2)
      && (b.kind == k3 ==> b.entries == x3)
  {
  }

  /** A block of a part has the part's kind. */
  lemma KindOfMember(part: seq<Block>, b: Block)
    ensures b in part ==> b.kind in Kinds(part)
  {
    if b in part {
      var i :| 0 <= i < |part| && part[i] == b;
      assert Kinds(part)[i] == b.kind;
    }
  }

  /** One hobby per comma-separated piece, each trimmed. */
  lemma HobbyItems(hobbies: string)
    ensures |HobbyEntries(hobbies)| == Count(hobbies, ',') + 1
    ensures forall i :: 0 <= i < |HobbyEntries(hobbies)| ==>
      var t := HobbyEntries(hobbies)[i].text;
      && t == Trim(Split(hobbies, ',')[i])
      && (t == [] || (!IsSpace(t[0]) && !IsSpace(t[|t| - 1])))
  {
    SplitLength(hobbies, ',');
    var ps := Split(hobbies, ',');
    var es := HobbyEntries(hobbies);
    assert es == Seqs.Map(HobbyEntryOf, ps);
    forall i | 0 <= i < |es|
      ensures var t := es[i].text; t == Trim(ps[i]) && (t == [] || (!IsSpace(t[0]) && !IsSpace(t[|t| - 1])))
    {
      assert es[i] == HobbyEntryOf(ps[i]);
      TrimEdges(ps[i]);
    }
  }

  /** With the record the form produces, `hobbies` is an array, so the
      general format always throws: `data.hobbies.split` is not a function. */
  lemma FormDataGeneralThrows(d: ResumeData)
    requires d.skills.Arr? && d.hobbies.Arr?
    ensures GeneralPreview(d).Throws?
  {
    GeneralThrowsIff(d);
  }

  /** An array has none of the skill properties, so every skill line of the
      form's record reads `undefined`. */
  lemma FormDataSkillLines(skills: JsValue, labels: seq<string>)
    requires skills.Arr? && |labels| == |SkillKeys|
    ensures SkillLines(skills, labels).Ok?
    ensures forall j :: 0 <= j < |SkillLines(skills, labels).value| ==>
      SkillLines(skills, labels).value[j].value == "undefined"
  {
  }

  /** The company format renders the form's record, with every skill line
      reading `undefined`. */
  lemma FormDataCompanyRenders(d: ResumeData)
    requires d.skills.Arr?
    ensures CompanyPreview(d).Ok?
    ensures forall b :: b in CompanyPreview(d).value.blocks && b.kind == SkillsBlock ==>
      forall j :: 0 <= j < |b.entries| ==> b.entries[j].value == "undefined"
  {
    FormDataSkillLines(d.skills, CompanySkillLabels);
    var lines := SkillLines(d.skills, CompanySkillLabels).value;
    assert CompanyPreview(d).value.blocks ==
      ProjectsPart(d) + CertificationsPart(d) + [Block(SkillsBlock, lines)] + EducationPart(d);
    OnlySkillsBlock(ProjectsBlock, CertificationsBlock, EducationBlock, Seqs.Map(ProjectEntryOf, d.projects),
      Seqs.Map(DatedEntryOf, d.certifications), Seqs.Map(EducationEntryOf, d.education), lines);
  }

  /** Between optional blocks of other kinds, the one skills block is the
      only block of its kind. */
  lemma OnlySkillsBlock(k1: BlockKind, k2: BlockKind, k3: BlockKind,
                        x1: seq<Entry>, x2: seq<Entry>, x3: seq<Entry>, lines: seq<Entry>)
    requires k1 != SkillsBlock && k2 != SkillsBlock && k3 != SkillsBlock
    ensures forall b :: (b in BlockIfAny(k1, x1) + BlockIfAny(k2, x2) + [Block(SkillsBlock, lines)] + BlockIfAny(k3, x3)
      && b.kind == SkillsBlock) ==> b.entries == lines
  {
  }

  /** The templates interpolate the form's values as they are: the name in
      either header is the name typed in, so markup in it (a `<`) reaches the
      preview, where `escapeHtml` would have removed it. */
  lemma TemplatesDoNotEscape(p: Personal)
    requires exists i :: 0 <= i < |p.name| && p.name[i] == '<'
    ensures GeneralHeaderOf(p).name == p.name && CompanyHeaderOf(p).name == p.name
    ensures !Utils.WellEscaped(GeneralHeaderOf(p).name)
    ensures p.name != Utils.EscapeHtml(Str(p.name))
  {
    Utils.EscapeHtmlWellEscaped(Str(p.name));
  }

  /** The fallback record renders, in the company format, a header whose
      profile texts end in `undefined` and a skills block alone. */
  lemma EmptyFormValuesPreview()
    ensures GeneralPreview(EmptyFormValues).Throws?
    ensures CompanyPreview(EmptyFormValues).Ok?
    ensures Kinds(CompanyPreview(EmptyFormValues).value.blocks) == [SkillsBlock]
    ensures CompanyPreview(EmptyFormValues).value.header.linkedinText == "linkedin.com/in/undefined"
  {
    GeneralThrowsIff(EmptyFormValues);
    CompanyThrowsIff(EmptyFormValues);
    CompanyBlocks(EmptyFormValues);
    assert Username("") == None by {
      assert Split("", '/') == [""];
    }
  }
}
