/**
 * The data layer of js/data.js: the per-kind section counters, the index
 * range and description-line helpers, the record that the form produces, and
 * the accept/reject rules of loading, saving and clearing the saved résumé in
 * a key/value store.
 */
module Data {
  import opened Text
  import opened JsValues

  // =====================================================================
  // Section kinds and sectionCounters
  // =====================================================================

  /** The seven keys of `sectionCounters`. */
  datatype SectionKind = Project | Education | Achievement | Certification | Skill | Hobby | Experience
  {
    /** The key text, also the `type` argument of `addSection`. */
    function Name(): string {
      match this
      case Project => "project"
      case Education => "education"
      case Achievement => "achievement"
      case Certification => "certification"
      case Skill => "skill"
      case Hobby => "hobby"
      case Experience => "experience"
    }
  }

  /** Distinct kinds have distinct key texts. */
  lemma NameInjective(k: SectionKind, k': SectionKind)
    requires k.Name() == k'.Name()
    ensures k == k'
  {
  }

  /** `[0, 1, ..., n - 1]` */
  function Range(n: nat): (r: seq<nat>)
    ensures |r| == n
    ensures forall i :: 0 <= i < n ==> r[i] == i
  {
    if n == 0 then [] else Range(n - 1) + [n - 1]
  }

  /** The module-level table of next indices, one per section kind. */
  class SectionCounters {
    var counts: map<SectionKind, nat>

    /** Every kind has a counter. */
    ghost predicate Valid()
      reads this
    {
      forall k: SectionKind :: k in counts
    }

    /** The table as initialised: all seven counters at zero. */
    constructor()
      ensures Valid()
      ensures forall k: SectionKind :: counts[k] == 0
    {
      counts := map[Project := 0, Education := 0, Achievement := 0, Certification := 0,
                    Skill := 0, Hobby := 0, Experience := 0];
      new;
      forall k: SectionKind ensures k in counts && counts[k] == 0 {
        match k
        case Project =>
        case Education =>
        case Achievement =>
        case Certification =>
        case Skill =>
        case Hobby =>
        case Experience =>
      }
    }

    /** `sectionCounters[type]` */
    function Get(k: SectionKind): nat
      reads this
      requires Valid()
    {
      counts[k]
    }

    /** `sectionCounters[type]++`: that counter goes up by one, no other moves. */
    method Increment(k: SectionKind)
      modifies this
      requires Valid()
      ensures Valid()
      ensures counts == old(counts)[k := old(counts)[k] + 1]
    {
      counts := counts[k := counts[k] + 1];
    }

    /** `getIndices(type)`: the indices handed out so far for `k`. */
    function Indices(k: SectionKind): (r: seq<nat>)
      reads this
      requires Valid()
      ensures |r| == counts[k]
      ensures forall i :: 0 <= i < |r| ==> r[i] == i
    {
      Range(counts[k])
    }
  }

  /** Handing out one more index extends the range by exactly that index. */
  lemma RangeGrows(n: nat)
    ensures Range(n + 1) == Range(n) + [n]
  {
  }

  /** Every index in the range is below the counter, so the counter itself is
      an index that has not been handed out. */
  lemma RangeFresh(n: nat)
    ensures n !in Range(n)
    ensures forall i: nat :: i in Range(n) <==> i < n
  {
    forall i: nat ensures i in Range(n) <==> i < n {
      if i < n {
        assert Range(n)[i] == i;
      }
      if i in Range(n) {
        var j :| 0 <= j < |Range(n)| && Range(n)[j] == i;
      }
    }
  }

  // =====================================================================
  // parseDescriptionLines
  // =====================================================================

  /** `lines.filter(line => line.trim())` */
  function NonBlank(lines: seq<string>): seq<string>
    decreases |lines|
  {
    if lines == [] then []
    else (if Trim(lines[0]) != "" then [lines[0]] else []) + NonBlank(lines[1..])
  }

  /** `parseDescriptionLines(text)`: the `'\n'`-separated pieces whose trim
      is non-empty, untrimmed and in their original order. */
  function ParseDescriptionLines(text: string): (r: seq<string>)
    ensures text == "" ==> r == []
  {
    if text == "" then [] else NonBlank(Split(text, '\n'))
  }

  lemma {:induction false} NonBlankSpec(lines: seq<string>)
    ensures forall i :: 0 <= i < |NonBlank(lines)| ==>
      NonBlank(lines)[i] in lines && !AllSpace(NonBlank(lines)[i])
    decreases |lines|
  {
    if lines != [] {
      NonBlankSpec(lines[1..]);
      TrimEmptyIff(lines[0]);
      var head := if Trim(lines[0]) != "" then [lines[0]] else [];
      var r := NonBlank(lines);
      forall i | 0 <= i < |r| ensures r[i] in lines && !AllSpace(r[i]) {
        if i < |head| {
          assert r[i] == lines[0];
        } else {
          assert r[i] == NonBlank(lines[1..])[i - |head|];
          assert r[i] in lines[1..];
        }
      }
    }
  }

  /** Every result line is one of the pieces between newlines, so it holds no
      `'\n'`, and it has a character other than whitespace. */
  lemma DescriptionLinesAreNonBlankPieces(text: string)
    ensures forall i :: 0 <= i < |ParseDescriptionLines(text)| ==>
      ParseDescriptionLines(text)[i] in Split(text, '\n') &&
      '\n' !in ParseDescriptionLines(text)[i] &&
      !AllSpace(ParseDescriptionLines(text)[i])
  {
    if text != "" {
      NonBlankSpec(Split(text, '\n'));
    }
  }

  lemma {:induction false} NonBlankConcat(a: seq<string>, b: seq<string>)
    ensures NonBlank(a + b) == NonBlank(a) + NonBlank(b)
    decreases |a|
  {
    if a == [] {
      assert a + b == b;
    } else {
      assert (a + b)[0] == a[0];
      assert (a + b)[1..] == a[1..] + b;
      NonBlankConcat(a[1..], b);
      var h := if Trim(a[0]) != "" then [a[0]] else [];
      calc {
        NonBlank(a + b);
        h + NonBlank(a[1..] + b);
        h + (NonBlank(a[1..]) + NonBlank(b));
        (h + NonBlank(a[1..])) + NonBlank(b);
      }
    }
  }

  /** The lines of two texts joined by a newline are the lines of the first
      followed by the lines of the second. */
  lemma DescriptionLinesConcat(a: string, b: string)
    ensures ParseDescriptionLines(a + "\n" + b) == ParseDescriptionLines(a) + ParseDescriptionLines(b)
  {
    SplitConcat(a, b, '\n');
    NonBlankConcat(Split(a, '\n'), Split(b, '\n'));
    if a == "" {
      assert Split(a, '\n') == [""];
    }
    if b == "" {
      assert Split(b, '\n') == [""];
    }
  }

  /** A text without a newline is one line, kept exactly when it is not all
      whitespace. */
  lemma DescriptionLinesSingle(s: string)
    requires '\n' !in s
    ensures ParseDescriptionLines(s) == if AllSpace(s) then [] else [s]
  {
    SplitNoSep(s, '\n');
    TrimEmptyIff(s);
    assert [s][1..] == [];
    assert NonBlank([s]) == (if Trim(s) != "" then [s] else []) + NonBlank([]);
  }

  // =====================================================================
  // The record getFormValues produces
  // =====================================================================

  datatype Personal = Personal(name: string, email: string, mobile: string,
                               linkedin: string, github: string, location: string)
  datatype ProjectItem = ProjectItem(title: string, date: string, tech: string, desc: seq<string>)
  datatype EducationItem = EducationItem(school: string, location: string, degree: string,
                                         dates: string, grade: string, gradeType: string)
  datatype DatedItem = DatedItem(title: string, date: string)
  datatype ExperienceItem = ExperienceItem(title: string, startDate: string, endDate: string, desc: seq<string>)

  /** The object `getFormValues` returns. `skills` and `hobbies` are kept as
      JavaScript values because the preview templates read them as an object
      and as a string, while the form produces arrays of objects for both. */
  datatype ResumeData = ResumeData(
    personal: Personal,
    skills: JsValue,
    hobbies: JsValue,
    projects: seq<ProjectItem>,
    education: seq<EducationItem>,
    achievements: seq<DatedItem>,
    certifications: seq<DatedItem>,
    experiences: seq<ExperienceItem>)

  /** The fallback record of `getFormValues`. */
  const EmptyFormValues: ResumeData :=
    ResumeData(Personal("", "", "", "", "", ""), Arr([]), Arr([]), [], [], [], [], [])

  function Strings(s: seq<string>): seq<JsValue> {
    seq(|s|, i requires 0 <= i < |s| => Str(s[i]))
  }

  /** The record as the JavaScript object that is saved. */
  function ToJs(d: ResumeData): (v: JsValue)
    ensures v.Obj? && "personal" in v.props && v.props["personal"].Obj?
  {
    var p := d.personal;
    Obj(map[
      "personal" := Obj(map["name" := Str(p.name), "email" := Str(p.email), "mobile" := Str(p.mobile),
                            "linkedin" := Str(p.linkedin), "github" := Str(p.github),
                            "location" := Str(p.location)]),
      "skills" := d.skills,
      "hobbies" := d.hobbies,
      "projects" := Arr(seq(|d.projects|, i requires 0 <= i < |d.projects| =>
        Obj(map["title" := Str(d.projects[i].title), "date" := Str(d.projects[i].date),
                "tech" := Str(d.projects[i].tech), "desc" := Arr(Strings(d.projects[i].desc))]))),
      "education" := Arr(seq(|d.education|, i requires 0 <= i < |d.education| =>
        Obj(map["school" := Str(d.education[i].school), "location" := Str(d.education[i].location),
                "degree" := Str(d.education[i].degree), "dates" := Str(d.education[i].dates),
                "grade" := Str(d.education[i].grade), "gradeType" := Str(d.education[i].gradeType)]))),
      "achievements" := Arr(seq(|d.achievements|, i requires 0 <= i < |d.achievements| =>
        Obj(map["title" := Str(d.achievements[i].title), "date" := Str(d.achievements[i].date)]))),
      "certifications" := Arr(seq(|d.certifications|, i requires 0 <= i < |d.certifications| =>
        Obj(map["title" := Str(d.certifications[i].title), "date" := Str(d.certifications[i].date)]))),
      "experiences" := Arr(seq(|d.experiences|, i requires 0 <= i < |d.experiences| =>
        Obj(map["title" := Str(d.experiences[i].title), "startDate" := Str(d.experiences[i].startDate),
                "endDate" := Str(d.experiences[i].endDate), "desc" := Arr(Strings(d.experiences[i].desc))])))
    ])
  }

  // =====================================================================
  // Persistence over an abstract store
  // =====================================================================

  /** `STORAGE_KEYS.RESUME_DATA` */
  const StorageKey := "resumeBuilderData"

  /** A value that JSON can carry exactly: no `undefined` anywhere in it. */
  predicate JsonValue(v: JsValue)
    decreases v
  {
    match v
    case Undefined => false
    case Arr(items) => forall i :: 0 <= i < |items| ==> JsonValue(items[i])
    case Obj(props) => forall k :: k in props ==> JsonValue(props[k])
    case _ => true
  }

  /** `JSON.stringify` and `JSON.parse`; a parse that throws gives `None`. */
  datatype Codec = Codec(stringify: JsValue -> string, parse: string -> Option<JsValue>)

  /** What the model assumes of the codec: parsing the text of a JSON value
      gives the value back, and that text is never empty. */
  ghost predicate Lawful(c: Codec) {
    forall v {:trigger c.stringify(v)} :: JsonValue(v) ==> c.parse(c.stringify(v)) == Some(v) && c.stringify(v) != ""
  }

  /** A value that load hands back: an object with a truthy `personal`. */
  predicate Accepted(v: JsValue) {
    v.Obj? && "personal" in v.props && Truthy(v.props["personal"])
  }

  /** `loadDataFromLocalStorage()`; `None` is `null`. A missing or empty
      entry, a parse error and a value without a truthy `personal` all give
      `None`; reading `personal` of a parsed `null` throws and is caught. */
  function LoadFrom(entries: map<string, string>, codec: Codec): (r: Option<JsValue>)
  {
    if StorageKey !in entries || entries[StorageKey] == "" then None
    else
      var parsed := codec.parse(entries[StorageKey]);
      if parsed.None? || !IsObjectType(parsed.value) then None
      else
        var personal := GetProperty(parsed.value, "personal");
        if personal.Throws? || !Truthy(personal.value) then None
        else parsed
  }

  /** Load gives back exactly the stored value that has a truthy `personal`,
      and `None` in every other case. */
  lemma LoadFromIff(entries: map<string, string>, codec: Codec)
    ensures LoadFrom(entries, codec).Some? <==>
      StorageKey in entries && entries[StorageKey] != "" &&
      codec.parse(entries[StorageKey]).Some? && Accepted(codec.parse(entries[StorageKey]).value)
    ensures LoadFrom(entries, codec).Some? ==>
      LoadFrom(entries, codec) == codec.parse(entries[StorageKey]) &&
      Accepted(LoadFrom(entries, codec).value)
  {
  }

  /** Save accepts a truthy object (arrays included) and stores its JSON text. */
  predicate Saveable(data: JsValue) {
    Truthy(data) && IsObjectType(data)
  }

  /** After saving a JSON value, load gives it back when it has a truthy
      `personal`, and `None` otherwise (an array, say, is saved but never
      loaded). */
  lemma SaveThenLoad(entries: map<string, string>, codec: Codec, data: JsValue)
    requires Lawful(codec) && JsonValue(data) && Saveable(data)
    ensures LoadFrom(entries[StorageKey := codec.stringify(data)], codec) ==
      if Accepted(data) then Some(data) else None
  {
    assert codec.parse(codec.stringify(data)) == Some(data) && codec.stringify(data) != "";
  }

  /** After clearing, load gives `None`. */
  lemma ClearThenLoad(entries: map<string, string>, codec: Codec)
    ensures LoadFrom(entries - {StorageKey}, codec) == None
  {
  }

  /** Every record the form produces is accepted by load: its `personal` is an
      object, hence truthy. */
  lemma FormValuesAccepted(d: ResumeData)
    ensures Saveable(ToJs(d)) && Accepted(ToJs(d))
  {
  }

  /** Saving form values and loading them back gives the same object. */
  lemma FormValuesRoundTrip(entries: map<string, string>, codec: Codec, d: ResumeData)
    requires Lawful(codec) && JsonValue(ToJs(d))
    ensures LoadFrom(entries[StorageKey := codec.stringify(ToJs(d))], codec) == Some(ToJs(d))
  {
    FormValuesAccepted(d);
    SaveThenLoad(entries, codec, ToJs(d));
  }

  /** `DEFAULT_RESUME_DATA.personal`, enough to show that load accepts the
      default record. */
  const DefaultPersonal: JsValue := Obj(map[
    "name" := Str("Alex Griffin"),
    "email" := Str("alex.griffin.dev@example.com"),
    "mobile" := Str("+1 (555) 123-4567"),
    "linkedin" := Str("https://linkedin.com/in/alexgriffindev"),
    "github" := Str("https://github.com/alexgriffindev"),
    "location" := Str("San Francisco, CA")])

  lemma DefaultDataAccepted(rest: map<string, JsValue>)
    ensures Accepted(Obj(rest["personal" := DefaultPersonal]))
  {
  }

  /** The browser's `localStorage`, reduced to its entries. */
  class Store {
    var entries: map<string, string>

    constructor(initial: map<string, string>)
      ensures entries == initial
    {
      entries := initial;
    }

    /** `loadDataFromLocalStorage()`; the store is only read. */
    method Load(codec: Codec) returns (r: Option<JsValue>)
      ensures r == LoadFrom(entries, codec)
      ensures r.Some? ==> Accepted(r.value)
    {
      if StorageKey !in entries || entries[StorageKey] == "" {
        return None;
      }
      var parsed := codec.parse(entries[StorageKey]);
      if parsed.None? {
        return None;
      }
      if !IsObjectType(parsed.value) {
        return None;
      }
      var personal := GetProperty(parsed.value, "personal");
      if personal.Throws? || !Truthy(personal.value) {
        return None;
      }
      return parsed;
    }

    /** `saveDataToLocalStorage(data)`: refuses anything but a truthy object,
        leaving the store as it was; otherwise overwrites the one entry. */
    method Save(data: JsValue, codec: Codec) returns (ok: bool)
      modifies this
      ensures ok <==> Saveable(data)
      ensures ok ==> entries == old(entries)[StorageKey := codec.stringify(data)]
      ensures !ok ==> entries == old(entries)
    {
      if !Truthy(data) || !IsObjectType(data) {
        return false;
      }
      entries := entries[StorageKey := codec.stringify(data)];
      return true;
    }

    /** `clearLocalStorage()`: removes the one entry and reports success. */
    method Clear() returns (ok: bool)
      modifies this
      ensures ok
      ensures entries == old(entries) - {StorageKey}
    {
      entries := entries - {StorageKey};
      return true;
    }
  }
}
