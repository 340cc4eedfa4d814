# Résumé builder core in Dafny

This is a model of the logic of a browser résumé builder, with proofs about that model. The builder is a form with
sections that are added and removed on the fly, a live preview in one of two layouts ("general" and "company"),
and a copy of the form saved in the browser's key/value storage. The model covers five parts:

- **Utilities (js/utils.js).** HTML escaping and its inverse. URL sanitising against the `javascript:`, `data:`
  and `vbscript:` schemes, in any letter case. The email and phone checks, the non-empty check, and the
  required-field and form validators with the exact list and order of their messages.
- **Data (js/data.js).** The per-kind section counters (a class with an in-place increment), `getIndices`,
  description-line parsing, and the record that the form produces. Loading, saving and clearing the saved data,
  as a class over an abstract store and an abstract JSON codec.
- **Templates, section markup (js/templates.js).** The fieldset that `generateSectionHTML` emits: its id, its
  legend, its remove-button target and its input ids. The profile username shown in the header.
- **Templates, previews (js/templates.js).** Which preview blocks each layout emits, and in what order. This
  includes where the templates throw a `TypeError`. Values are interpolated verbatim, as the templates do.
- **View controller (js/ui.js).** `updatePreview`, `addSection` and `removeSection` as transitions over the
  counters, the section containers (in document order) and the preview pane. `Ui.AddSection` and
  `Ui.RemoveSection` each promise to keep the state consistent, and `Ui.InitialState` shows the starting state
  consistent, so every fieldset id on the page stays distinct across any sequence of adds and removes.

Files:

| file | module |
|---|---|
| `text.dfy` | `Text`: the JavaScript string operations used: `trim`, ASCII `toLowerCase`, `split`/`join`, numerals |
| `js_values.dfy` | `JsValues`, `Seqs`: JavaScript values, truthiness, `String(v)`, property reads that throw; `map` |
| `utils.dfy` | `Utils` |
| `data.dfy` | `Data` |
| `templates.dfy` | `Templates` |
| `ui.dfy` | `Ui` |

Where the code departs from its own doc comments or from what its callers hand it, the model follows the code:

- **Escaping.** js/utils.js:7-9 offers `escapeHtml` as the way to make text safe for HTML insertion. The templates
  never call it, nor `sanitizeUrl`, and interpolate every value as it is: `Templates.TemplatesDoNotEscape` shows
  markup in a name reaching the header.
- **Grades.** The record carries `grade` and `gradeType` per education entry (js/data.js:171-172), but the education
  fieldset has no such inputs (js/templates.js:222-225; the grade shares the "Degree/Course & Grade" field), so
  both are always `""` in form data. No template reads them, so the model has no grade rendering.
- **URL sanitising.** The doc comment of `sanitizeUrl` (js/utils.js:29) names the `javascript:` and `data:`
  schemes. The code also blocks `vbscript:` and keeps any other scheme.
- **Non-string input to `escapeHtml`.** The doc comment (js/utils.js:8) types the argument as a string. The code
  gives `""` for `null` and `undefined` and stringifies every other value.
- **Description lines.** The doc comment of `parseDescriptionLines` (js/data.js:108) promises trimmed lines. The
  code (js/data.js:114) only drops blank lines and keeps the others untrimmed (`Data.DescriptionLinesSingle`).
- **The form's record in the previews.** `getFormValues` produces `skills` and `hobbies` as arrays. The templates
  read `data.skills.languages` and call `data.hobbies.split`. As a result:
  - every skill line reads `undefined`;
  - the general layout throws whenever `hobbies` is an array (`Templates.FormDataGeneralThrows`,
    `Templates.FormDataCompanyRenders`).

## Model

| member | source | states |
|---|---|---|
| `Utils.EscapeHtml` | js/utils.js:11-26 | defines `escapeHtml`: `""` for null and undefined, otherwise `String(text)` with each of `& < > " '` replaced by its entity (its properties are the rows below) |
| `Utils.EscapeHtmlWellEscaped` | js/utils.js:11-26 | the output of `escapeHtml` holds no raw `<`, `>`, `"` or `'`, and every `&` in it begins one of the five entities |
| `Utils.UnescapeEscape` | js/utils.js:17-25 | escaping loses nothing: decoding the five entities gives back the input text |
| `Utils.EscapeTextIdentity` | js/utils.js:25 | a text with none of the five special characters is left unchanged |
| `Utils.EscapeTextConcat` | js/utils.js:25 | escaping works character by character: escaping a concatenation is concatenating the escapes |
| `Utils.EscapeNumber` | js/utils.js:16 | a number below 10^21 in magnitude is stringified before escaping, so its decimal numeral is returned unchanged |
| `Utils.EscapeHtmlScript` | js/utils.js:11-26 | `escapeHtml('<script>')` is `&lt;script&gt;` |
| `Utils.EscapeHtmlNullish` | js/utils.js:12-14 | `escapeHtml(null)` and `escapeHtml(undefined)` are `""` |
| `Utils.EscapeHtmlNumber` | js/utils.js:16 | `escapeHtml(123)` is `123` |
| `Utils.EscapeHtmlQuotes` | js/utils.js:17-23 | `&`, `"` and `'` become `&amp;`, `&quot;` and `&#39;` |
| `Utils.SanitizeUrl` | js/utils.js:33-51 | the result is `""` or the trimmed string. It is `""` exactly for a non-string, a blank string, or a trimmed string whose lower-cased form starts with a blocked scheme. The result never starts with a blocked scheme |
| `Utils.BlockedIgnoresCase` | js/utils.js:41-45 | any letter-case variant of a blocked scheme, followed by anything, is blocked |
| `Utils.SanitizeUrlExamples` | js/utils.js:41-47 | `JavaScript:alert(1)` is blocked; `https://x.com` is not |
| `Utils.EscapeHtmlArray` | js/utils.js:58-63 | a non-array gives `[]`; an array gives one escaped string per element, in order |
| `Utils.EscapeHtmlArrayWellEscaped` | js/utils.js:58-63 | every element of `escapeHtmlArray`'s result is well escaped |
| `Utils.ValidateEmail` | js/utils.js:128-135 | defines `validateEmail`: a truthy string whose trimmed text matches the e-mail pattern |
| `Utils.ValidateEmailIff` | js/utils.js:128-135 | the regular expression accepts exactly the strings whose trim has the shape: one `@`, text before it, and a dot with text on both sides after it, with no whitespace |
| `Utils.EmailSingleAt` | js/utils.js:133 | an accepted address holds exactly one `@` |
| `Utils.ValidateEmailAccepts` | js/utils.js:128-135 | `test@example.com` is accepted |
| `Utils.ValidateEmailRejects` | js/utils.js:128-135 | `test@`, `test@example`, `test`, `""` and `null` are rejected |
| `Utils.ValidatePhone` | js/utils.js:142-150 | defines `validatePhone`: a truthy string with 7 to 15 digits once every non-digit is removed |
| `Utils.DigitsOnlySpec` | js/utils.js:148 | removing the non-digits leaves only digits and never lengthens the text |
| `Utils.DigitsOnlyConcat` | js/utils.js:148 | the non-digits of a concatenation are removed piecewise |
| `Utils.DigitsOnlyOfDigits` | js/utils.js:148 | a run of digits is kept whole |
| `Utils.DigitsOnlyOfSeparators` | js/utils.js:148 | a text without digits is removed entirely |
| `Utils.PhoneIgnoresSeparators` | js/utils.js:142-150 | inserting separators that are not digits never changes the phone verdict |
| `Utils.PhoneBoundary` | js/utils.js:149 | a run of digits is a valid phone exactly when it has 7 to 15 digits |
| `Utils.ValidatePhoneAccepts` | js/utils.js:142-150 | `123-456-7890` is accepted |
| `Utils.ValidatePhoneRejectsShort` | js/utils.js:142-150 | `123`, three digits, is rejected |
| `Utils.ValidatePhoneRejectsLetters` | js/utils.js:142-150 | `abcdefghij`, no digits, is rejected |
| `Utils.ValidatePhoneRejectsEmpty` | js/utils.js:142-150 | the empty string is rejected |
| `Utils.IsNotEmpty` | js/utils.js:174-179 | defines `isNotEmpty`: not null or undefined, and `String(value)` not blank after trimming |
| `Utils.IsNotEmptyIff` | js/utils.js:174-179 | a value is non-empty exactly when it is neither null nor undefined and its string has a character other than whitespace |
| `Utils.ValidateRequired` | js/utils.js:186-199 | the errors are `"<field> is required"` for each empty field, in field order; `valid` holds exactly when every field is non-empty |
| `Utils.RequiredErrorsEmptyIff` | js/utils.js:186-199 | there are no errors exactly when every field is non-empty |
| `Utils.RequiredErrorsConcat` | js/utils.js:189-193 | the errors of two groups of fields are those of the first followed by those of the second |
| `Utils.MessageRanks` | js/utils.js:210-224 | the five form messages are told apart by their position in the checks |
| `Utils.CollectSpec` | js/utils.js:206-230 | collecting messages for a row of pass/fail flags lists each failed flag's message exactly once, in flag order |
| `Utils.FormErrorsSpec` | js/utils.js:206-230 | a message is present exactly when its check fails, each at most once, in the order of the checks |
| `Utils.ValidateFormData` | js/utils.js:206-230 | null or undefined data throws. Otherwise the errors are those of `FormErrors` over all five checks (name blank; email, phone, LinkedIn or GitHub present and invalid), which `Utils.FormErrorsSpec` shows to be exactly the failed checks' messages in check order, and `valid` holds exactly when there is none |
| `Data.NameInjective` | js/data.js:10-18 | the seven counter keys are distinct |
| `Data.SectionCounters.constructor` | js/data.js:10-18 | every one of the seven counters starts at zero |
| `Data.SectionCounters.Increment` | js/ui.js:31 | one counter goes up by one and no other changes |
| `Data.SectionCounters.Indices` | js/data.js:101-103 | `getIndices(type)` is `0, 1, …, counter - 1` |
| `Data.Range` | js/data.js:102 | the range has length `n` and holds `i` at position `i` |
| `Data.RangeGrows` | js/data.js:102 | one more index appends exactly that index |
| `Data.RangeFresh` | js/data.js:102 | the range holds exactly the numbers below the counter, so the counter is never a handed-out index |
| `Data.ParseDescriptionLines` | js/data.js:110-115 | an empty text gives no lines |
| `Data.NonBlankSpec` | js/data.js:114 | every kept line is one of the input lines and is not all whitespace |
| `Data.DescriptionLinesAreNonBlankPieces` | js/data.js:110-115 | every result line is a piece between newlines, holds no newline, and is not all whitespace |
| `Data.NonBlankConcat` | js/data.js:114 | filtering works line by line: filtering a concatenation concatenates the filtered parts |
| `Data.DescriptionLinesConcat` | js/data.js:110-115 | the lines of `a + "\n" + b` are the lines of `a` followed by those of `b` |
| `Data.DescriptionLinesSingle` | js/data.js:110-115 | a text without a newline gives itself, untrimmed, unless it is all whitespace, in which case it gives nothing |
| `Data.ToJs` | js/data.js:133-191 | the form's record is an object whose `personal` is an object |
| `Data.LoadFrom` | js/data.js:40-57 | defines what `loadDataFromLocalStorage` returns for given storage entries: `null` for a missing or empty entry, a parse failure, a non-object or a falsy `personal`, otherwise the parsed value |
| `Data.LoadFromIff` | js/data.js:40-57 | load returns a value exactly when the entry exists, is non-empty, parses, and is an object with a truthy `personal`; it then returns the parsed value |
| `Data.SaveThenLoad` | js/data.js:40-80 | under a lawful codec, load after save returns the saved value when it has a truthy `personal`, and null otherwise |
| `Data.ClearThenLoad` | js/data.js:86-94 | after clearing, load returns null |
| `Data.FormValuesAccepted` | js/data.js:40-70 | every record the form produces is accepted by both save and load |
| `Data.FormValuesRoundTrip` | js/data.js:40-80 | saving form values and loading them back gives the same object |
| `Data.DefaultDataAccepted` | js/defaultData.js:1-9 | the default record would be accepted by load |
| `Data.Store.constructor` | js/data.js:8 | the store starts with the entries given |
| `Data.Store.Load` | js/data.js:40-57 | the result is `LoadFrom` of the entries, and a returned value always passes the structure check |
| `Data.Store.Save` | js/data.js:64-80 | accepts exactly a truthy object. On accept it overwrites the one entry with the JSON text, otherwise it leaves the store unchanged |
| `Data.Store.Clear` | js/data.js:86-94 | removes the one entry, keeps all others, and reports success |
| `Templates.GenerateSectionHTML` | js/templates.js:195-259 | a fieldset is emitted exactly for project, education, achievement and certification; any other type gives nothing |
| `Templates.SectionShape` | js/templates.js:196-256 | the fieldset id is `<first 3 letters>_fieldset_<index>`, the remove button targets it, the legend is `<Word> <index + 1>`, and the inputs are the type's stems followed by `_<index>` |
| `Templates.IndexFromId` | js/templates.js:196 | the index can be read back from the text after the last `_` of a generated id |
| `Templates.LegendNumber` | js/templates.js:245-247 | the legend number reads back as index + 1 |
| `Templates.SectionIdsCarryIndex` | js/templates.js:207-253 | the fieldset id and every input id end in `_<index>` |
| `Templates.FieldsetIdsDistinct` | js/templates.js:196 | different (type, index) pairs among the four templates never share a fieldset id |
| `Templates.NonEmptySpec` | js/templates.js:2 | `filter(Boolean)` keeps every non-empty piece and only pieces of the input that are non-empty; the result is empty exactly when every piece is |
| `Templates.NonEmptySingle` | js/templates.js:2 | a single piece is kept exactly when it is non-empty; with `Templates.NonEmptyConcat` this fixes the order of the kept pieces |
| `Templates.NonEmptyConcat` | js/templates.js:2 | filtering a concatenation concatenates the filtered parts |
| `Templates.Username` | js/templates.js:2-3 | defines `url.split("/").filter(Boolean).pop()`: the last non-empty `/`-separated piece, or none (`undefined`) |
| `Templates.UsernameNoSlash` | js/templates.js:2-3 | the username contains no `/` |
| `Templates.UsernameLastSegment` | js/templates.js:2-3 | a non-empty run without `/` at the end of the URL, after a `/` or with nothing before it, is the username |
| `Templates.UsernameTrailingSlash` | js/templates.js:2-3 | a trailing `/` does not change the username |
| `Templates.UsernameAbsentIff` | js/templates.js:2-3 | there is no username exactly when the URL consists of slashes only |
| `Templates.SkillLines` | js/templates.js:24-28 | a `skills` that is neither nullish nor an object gives all five labelled lines, each reading `undefined`; for an object, line `i` shows the text of property `i` when it holds a string, and `undefined` when it is missing |
| `Templates.CollectEntries` | js/templates.js:35-46 | the accumulated entries are one per list element, in list order |
| `Templates.GeneralPreview` | js/templates.js:1-96 | defines the general layout: a throw for nullish `skills` or truthy non-string `hobbies`, otherwise the general header and the blocks skills, projects, certifications, achievements, education, hobbies, each list block only when its list is non-empty and hobbies only for a truthy string |
| `Templates.RenderGeneral` | js/templates.js:1-96 | the string built step by step is the general preview |
| `Templates.CompanyPreview` | js/templates.js:98-193 | defines the company layout: a throw for nullish `skills`, otherwise the company header and the blocks projects, certifications, skills, education, each list block only when its list is non-empty |
| `Templates.RenderCompany` | js/templates.js:98-193 | the string built step by step is the company preview |
| `Templates.PartsSpec` | js/templates.js:33-92 | each optional block is present exactly when its list is non-empty, and holds one entry per element in order |
| `Templates.GeneralThrowsIff` | js/templates.js:80-88 | the general layout throws exactly when `skills` is null or undefined, or `hobbies` is truthy but not a string |
| `Templates.CompanyThrowsIff` | js/templates.js:162 | the company layout throws exactly when `skills` is null or undefined |
| `Templates.GeneralBlocks` | js/templates.js:21-92 | the general blocks are skills, then projects, certifications, achievements and education each when non-empty, then hobbies when truthy |
| `Templates.CompanyBlocks` | js/templates.js:127-189 | the company blocks are projects and certifications when non-empty, then skills, then education when non-empty |
| `Templates.GeneralPresence` | js/templates.js:21-92 | general: skills is always present; each list block is present exactly when its list is non-empty; hobbies exactly when truthy |
| `Templates.CompanyPresence` | js/templates.js:127-189 | company: skills is always present; each list block is present exactly when its list is non-empty; achievements and hobbies never appear |
| `Templates.GeneralBlockOrder` | js/templates.js:21-92 | no general block appears twice, and the blocks keep the layout's fixed order |
| `Templates.CompanyBlockOrder` | js/templates.js:127-189 | no company block appears twice, and the blocks keep the layout's fixed order |
| `Templates.GeneralEntriesInListOrder` | js/templates.js:35-76 | each list block of the general layout holds that list's entries in list order |
| `Templates.CompanyEntriesInListOrder` | js/templates.js:131-187 | each list block of the company layout holds that list's entries in list order |
| `Templates.HobbyItems` | js/templates.js:85-88 | one hobby per comma-separated piece, each the trimmed piece |
| `Templates.FormDataGeneralThrows` | js/templates.js:85-86 | with the form's array `hobbies`, the general layout throws |
| `Templates.FormDataSkillLines` | js/templates.js:24-28 | with an array `skills`, every skill line reads `undefined` |
| `Templates.FormDataCompanyRenders` | js/templates.js:159-168 | the company layout renders the form's record, with every skill line reading `undefined` |
| `Templates.TemplatesDoNotEscape` | js/templates.js:104 | the name is shown exactly as typed, so a `<` in it reaches the preview; `escapeHtml` would have changed it |
| `Templates.EmptyFormValuesPreview` | js/templates.js:98-193 | with the fallback record, the general layout throws; the company layout shows a skills block alone and `linkedin.com/in/undefined` |
| `Ui.FirstWhere` | js/ui.js:27 | finds the first position satisfying the test; none exists when the result is absent |
| `Ui.FindContainer` | js/ui.js:26-27 | `getElementById` returns the first container with the id, in document order, or nothing |
| `Ui.FindFieldset` | js/ui.js:37 | `getElementById` returns the first fieldset with the id, in document order, or nothing |
| `Ui.FormatClassesExclusive` | js/ui.js:14-20 | after a render, exactly one of `format-company` and `format-general` is present (the formatting one), and every other class is kept |
| `Ui.Render` | js/ui.js:12-17 | defines which template `updatePreview` renders with: the company layout for the format `"company"`, the general layout for any other |
| `Ui.RenderFormat` | js/ui.js:12-18 | the company template is used exactly for the format `"company"` |
| `Ui.Page.constructor` | js/ui.js:8 | the page starts with empty containers and a preview not yet rendered |
| `Ui.Page.UpdatePreview` | js/ui.js:10-21 | a successful render replaces the content with the chosen template's preview and sets the format classes. If the template throws, content and classes stay. Containers never change |
| `Ui.AddSection` | js/ui.js:23-34 | with the container present, the section for the current counter is appended, that counter rises by one and the preview is rendered. Without the container nothing changes. From a consistent state (every fieldset issued by the counters, ids pairwise distinct) it leaves a consistent one |
| `Ui.AppendSection` | js/ui.js:24-31 | the steps of an add before the render: `found` exactly when the container exists, in which case the section is appended and the counter rises by one; the preview is untouched; a consistent state stays consistent |
| `Ui.RemoveSection` | js/ui.js:36-42 | removes the first fieldset with the id, or nothing if there is none, then renders. The module's counters are passed in but are outside what it may change. From a consistent state (every fieldset issued by the counters, ids pairwise distinct) it leaves a consistent one |
| `Ui.AddSectionSpec` | js/ui.js:24-31 | an add changes only the container `<type>s-list`, by appending the section's fieldset. For skill, hobby and experience the fieldset is nothing. Without the container, nothing changes |
| `Ui.AddSectionCounts` | js/ui.js:24-31 | an add moves only its own counter, by one, and only when the container exists |
| `Ui.RemoveSectionSpec` | js/ui.js:36-42 | a remove takes out exactly the first fieldset with that id, keeping everything else in order; with none, nothing changes |
| `Ui.FreshId` | js/ui.js:24 | the fieldset for a kind's current counter has an id no handed-out fieldset has |
| `Ui.AddKeepsInvariant` | js/ui.js:23-34 | after an add, every fieldset on the page still comes from the counters, and the ids stay pairwise distinct |
| `Ui.RemoveKeepsInvariant` | js/ui.js:36-42 | after a remove, every fieldset on the page still comes from the counters, the ids stay pairwise distinct, and none has the removed id |
| `Ui.InitialState` | js/data.js:10-18 | the counters as initialised, all at zero, and a page whose containers are empty form a consistent state, the start of any sequence of adds and removes |
| `Ui.SectionLifecycle` | js/ui.js:23-42 | for any section type with a template, add two sections and remove the first: the second remains, unchanged, and the next index of that type is 2 (no reuse) |

## Left out

- `debounce` and `throttle` (js/utils.js:75-117): they are timers and deferred callbacks.
- `validateUrl` (js/utils.js:157-167): the URL parser is foreign code.
  - It is modelled as a parameter `httpUrl` that decides whether the trimmed text parses with an `http:` or
    `https:` scheme.
  - The example `ftp://example.com` therefore depends on that parameter and is not proved.
- `getFormValues` and `getElementValue` (js/data.js:26-34, js/data.js:121-192): they read the live page.
  - The record they produce is the datatype `Data.ResumeData`, or the fallback `Data.EmptyFormValues`.
  - `updatePreview`, `addSection` and `removeSection` take that record as a parameter.
- `localStorage`, `JSON.parse` and `JSON.stringify`:
  - the store is a map from keys to texts;
  - JSON is a pair of functions assumed to round-trip JSON values;
  - quota errors and other exceptions thrown by `setItem` are not modelled, so save and clear never fail for
    these reasons.
- Literal HTML, SVG and CSS classes of the templates: the preview is an abstract header plus blocks of entries,
  with values kept verbatim.
- `Data.Store.Load`, `Data.Store.Save`, `Data.Store.Clear`: the `console.warn` and `console.error` calls on their
  rejection and error paths (js/data.js:49, 54, 67, 73, 76, 91) are logging only and are not modelled.
- js/main.js: event wiring, page population and `window.print`.
- js/config.js and js/defaultData.js: used only for the storage key and as a witness record.
- Numbers are integer-valued: `NaN`, infinities and fractions are not modelled. `String(n)` is modelled as the
  plain decimal numeral, which JavaScript writes only for |n| < 10^21 (from there on it writes exponent form,
  `1e+21`), and integers beyond 2^53, which are not exact JavaScript numbers, are not set apart.
- `toLowerCase` is modelled on ASCII letters only. This is exact for the comparison with the three blocked schemes:
  their letters and `:` are not the lower case of any other character.
- `Utils.ValidateRequired`: `Object.entries(fields)` is given as the sequence of its (name, value) pairs, in
  enumeration order. A null or undefined `fields`, for which `Object.entries` throws, is not modelled; no caller
  in the repository passes one.
- `Ui.RemoveSection`: only fieldset ids are modelled. Called with the id of a container, an input or another
  page element, the model removes nothing, unlike the source, where `element.remove()` deletes that element.
- `Ui.AddSection`: the type is one of the seven counter keys. An unknown type (whose counter would become `NaN`)
  is not modelled.
- `Ui.Page.UpdatePreview`: the rendered markup is the abstract preview. The DOM parsing of `innerHTML` is not
  modelled.
- `Utils.ValidateEmailAccepts`, `Utils.ValidatePhoneAccepts`: each proves one representative accepted input of the
  examples (`test@example.com`, `123-456-7890`), not every listed example.
- The format toggle and the visibility switches of format-specific fields (js/main.js): they are DOM class
  changes outside the modelled core.
