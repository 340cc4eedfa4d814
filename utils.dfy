/**
 * The escaping and validation utilities of js/utils.js: HTML escaping, URL
 * scheme blocking, e-mail and phone shape checks, and the error lists built by
 * `validateRequired` and `validateFormData`.
 */
module Utils {
  import opened Text
  import opened JsValues
  import Seqs

  // =====================================================================
  // escapeHtml
  // =====================================================================

  predicate IsSpecial(c: char) {
    c == '&' || c == '<' || c == '>' || c == '"' || c == '\''
  }

  /** The entity table of `escapeHtml`. */
  function EscapeChar(c: char): string {
    match c
    case '&' => "&amp;"
    case '<' => "&lt;"
    case '>' => "&gt;"
    case '"' => "&quot;"
    case '\'' => "&#39;"
    case _ => [c]
  }

  /** `str.replace(/[&<>"']/g, ...)`: every character replaced by its entry. */
  function EscapeText(s: string): string
    decreases |s|
  {
    if s == [] then [] else EscapeChar(s[0]) + EscapeText(s[1..])
  }

  /** `escapeHtml(text)` */
  function EscapeHtml(text: JsValue): string {
    if Nullish(text) then "" else EscapeText(ToJsString(text))
  }

  const Entities: seq<string> := ["&amp;", "&lt;", "&gt;", "&quot;", "&#39;"]

  /** One of the five entities begins at position `i` of `t`. */
  predicate EntityAt(t: string, i: nat)
    requires i <= |t|
  {
    exists k :: 0 <= k < |Entities| && Entities[k] <= t[i..]
  }

  /** No raw `<`, `>`, `"` or `'`, and every `&` begins an entity. */
  predicate WellEscaped(t: string) {
    forall i :: 0 <= i < |t| ==>
      t[i] != '<' && t[i] != '>' && t[i] != '"' && t[i] != '\'' &&
      (t[i] == '&' ==> EntityAt(t, i))
  }

  lemma WellEscapedConcat(a: string, b: string)
    requires WellEscaped(a) && WellEscaped(b)
    ensures WellEscaped(a + b)
  {
    var t := a + b;
    forall i | 0 <= i < |t| && t[i] == '&' ensures EntityAt(t, i) {
      if i < |a| {
        assert EntityAt(a, i);
        var k :| 0 <= k < |Entities| && Entities[k] <= a[i..];
        assert t[i..] == a[i..] + b;
        assert Entities[k] <= t[i..];
      } else {
        assert t[i] == b[i - |a|];
        assert EntityAt(b, i - |a|);
        assert t[i..] == b[i - |a|..];
      }
    }
  }

  lemma EscapeCharWellEscaped(c: char)
    ensures WellEscaped(EscapeChar(c))
  {
    var t := EscapeChar(c);
    if IsSpecial(c) {
      assert t[0..] == t;
      var k := if c == '&' then 0 else if c == '<' then 1 else if c == '>' then 2 else if c == '"' then 3 else 4;
      assert Entities[k] == t;
    }
  }

  /** The output of `escapeHtml` is safe: no raw `<`, `>`, `"`, `'`, and every
      `&` in it starts one of the five entities. */
  lemma {:induction false} EscapeTextWellEscaped(s: string)
    ensures WellEscaped(EscapeText(s))
    decreases |s|
  {
    if s != [] {
      EscapeCharWellEscaped(s[0]);
      EscapeTextWellEscaped(s[1..]);
      WellEscapedConcat(EscapeChar(s[0]), EscapeText(s[1..]));
    }
  }

  lemma EscapeHtmlWellEscaped(text: JsValue)
    ensures WellEscaped(EscapeHtml(text))
  {
    if !Nullish(text) {
      EscapeTextWellEscaped(ToJsString(text));
    }
  }

  /** Text without any of the five special characters is left unchanged. */
  lemma {:induction false} EscapeTextIdentity(s: string)
    requires forall i :: 0 <= i < |s| ==> !IsSpecial(s[i])
    ensures EscapeText(s) == s
    decreases |s|
  {
    if s != [] {
      EscapeTextIdentity(s[1..]);
      assert !IsSpecial(s[0]);
      assert EscapeChar(s[0]) == [s[0]];
      assert [s[0]] + s[1..] == s;
    }
  }

  /** Escaping is character-wise, so it distributes over concatenation. */
  lemma {:induction false} EscapeTextConcat(a: string, b: string)
    ensures EscapeText(a + b) == EscapeText(a) + EscapeText(b)
    decreases |a|
  {
    if a != [] {
      assert (a + b)[0] == a[0];
      assert (a + b)[1..] == a[1..] + b;
      EscapeTextConcat(a[1..], b);
      var h := EscapeChar(a[0]);
      assert EscapeText(a) == h + EscapeText(a[1..]);
      assert EscapeText(a + b) == h + EscapeText(a[1..] + b);
      assert h + (EscapeText(a[1..]) + EscapeText(b)) == (h + EscapeText(a[1..])) + EscapeText(b);
    } else {
      assert a + b == b;
    }
  }

  /** A number below 10^21 in magnitude, the range where `String(n)` writes
      the plain numeral, is escaped to its decimal numeral. */
  lemma EscapeNumber(n: int)
    requires -1000000000000000000000 < n < 1000000000000000000000
    ensures EscapeHtml(Num(n)) == IntToString(n)
  {
    var s := IntToString(n);
    assert forall i :: 0 <= i < |s| ==> IsDigit(s[i]) || s[i] == '-' by {
      if n < 0 {
        var d := NatToString(-n);
        assert forall i :: 0 < i < |s| ==> s[i] == d[i - 1];
      }
    }
    EscapeTextIdentity(s);
  }

  /** Examples from js/__tests__/utils.test.js. */
  lemma EscapeHtmlScript()
    ensures EscapeHtml(Str("<script>")) == "&lt;script&gt;"
  {
    assert EscapeHtml(Str("<script>")) == EscapeText("<script>");
    assert EscapeText("<script>") == "&lt;script&gt;";
  }

  lemma EscapeHtmlNullish()
    ensures EscapeHtml(Null) == "" && EscapeHtml(Undefined) == ""
  {
  }

  lemma EscapeHtmlNumber()
    ensures EscapeHtml(Num(123)) == "123"
  {
    EscapeNumber(123);
    assert NatToString(123) == NatToString(12) + "3";
    assert NatToString(12) == NatToString(1) + "2";
  }

  lemma EscapeHtmlQuotes()
    ensures EscapeHtml(Str("&")) == "&amp;"
    ensures EscapeHtml(Str("\"")) == "&quot;"
    ensures EscapeHtml(Str("'")) == "&#39;"
  {
    assert EscapeText("&") == "&amp;" + EscapeText([]);
    assert EscapeText("\"") == "&quot;" + EscapeText([]);
    assert EscapeText("'") == "&#39;" + EscapeText([]);
  }

  /** The character that the front of a non-empty `t` decodes to, and the
      length of the text it takes. */
  function DecodeHead(t: string): (r: (char, nat))
    requires t != []
    ensures 0 < r.1 <= |t|
  {
    if "&amp;" <= t then ('&', 5)
    else if "&lt;" <= t then ('<', 4)
    else if "&gt;" <= t then ('>', 4)
    else if "&quot;" <= t then ('"', 6)
    else if "&#39;" <= t then ('\'', 5)
    else (t[0], 1)
  }

  /** Decodes the five entities; the reference inverse of `EscapeText`. */
  function Unescape(t: string): string
    decreases |t|
  {
    if t == [] then [] else [DecodeHead(t).0] + Unescape(t[DecodeHead(t).1..])
  }

  /** Decoding sees the entity of `c` at the front and turns it back into `c`. */
  lemma DecodeEscapeChar(c: char, rest: string)
    ensures DecodeHead(EscapeChar(c) + rest) == (c, |EscapeChar(c)|)
  {
    var t := EscapeChar(c) + rest;
    if c == '&' {
      assert t[..5] == "&amp;";
    } else if c == '<' {
      assert t[..4] == "&lt;";
      assert t[1] == 'l';
    } else if c == '>' {
      assert t[..4] == "&gt;";
      assert t[1] == 'g';
    } else if c == '"' {
      assert t[..6] == "&quot;";
      assert t[1] == 'q';
    } else if c == '\'' {
      assert t[..5] == "&#39;";
      assert t[1] == '#';
    } else {
      assert t[0] == c;
    }
  }

  /** Escaping loses no information: decoding the entities gives the input
      back, so `escapeHtml` is injective on strings. */
  lemma {:induction false} UnescapeEscape(s: string)
    ensures Unescape(EscapeText(s)) == s
    decreases |s|
  {
    if s != [] {
      var e := EscapeChar(s[0]);
      var t := e + EscapeText(s[1..]);
      UnescapeEscape(s[1..]);
      DecodeEscapeChar(s[0], EscapeText(s[1..]));
      assert t[|e|..] == EscapeText(s[1..]);
      assert [s[0]] + s[1..] == s;
    }
  }

  // =====================================================================
  // sanitizeUrl
  // =====================================================================

  const DangerousProtocols: seq<string> := ["javascript:", "data:", "vbscript:"]

  /** The lower-cased text starts with one of the blocked schemes. */
  predicate Blocked(t: string) {
    exists j :: 0 <= j < |DangerousProtocols| && DangerousProtocols[j] <= ToLowerAscii(t)
  }

  /** `sanitizeUrl(url)`: the trimmed input unless it is not a non-empty
      string or starts, ignoring ASCII case, with a blocked scheme. */
  method SanitizeUrl(url: JsValue) returns (r: string)
    ensures r == "" || (url.Str? && r == Trim(url.s))
    ensures r == "" <==> !url.Str? || Trim(url.s) == "" || Blocked(Trim(url.s))
    ensures !Blocked(r)
  {
    if !Truthy(url) || !url.Str? {
      return "";
    }
    var trimmedUrl := Trim(url.s);
    var lowerUrl := ToLowerAscii(trimmedUrl);
    for i := 0 to |DangerousProtocols|
      invariant forall j :: 0 <= j < i ==> !(DangerousProtocols[j] <= lowerUrl)
    {
      if DangerousProtocols[i] <= lowerUrl {
        return "";
      }
    }
    return trimmedUrl;
  }

  /** Every case variant of a blocked scheme is blocked, whatever follows it. */
  lemma BlockedIgnoresCase(p: string, rest: string)
    requires |p| == |DangerousProtocols[0]| || |p| == |DangerousProtocols[1]| || |p| == |DangerousProtocols[2]|
    requires exists j :: 0 <= j < |DangerousProtocols| && ToLowerAscii(p) == DangerousProtocols[j]
    ensures Blocked(p + rest)
  {
    var j :| 0 <= j < |DangerousProtocols| && ToLowerAscii(p) == DangerousProtocols[j];
    var lower := ToLowerAscii(p + rest);
    assert lower[..|p|] == ToLowerAscii(p);
    assert DangerousProtocols[j] <= lower;
  }

  lemma SanitizeUrlExamples()
    ensures Blocked("JavaScript:alert(1)")
    ensures !Blocked("https://x.com")
  {
    var lower := ToLowerAscii("JavaScript:alert(1)");
    assert lower[..11] == DangerousProtocols[0];
    var h := ToLowerAscii("https://x.com");
    assert h[0] == 'h';
  }

  // =====================================================================
  // escapeHtmlArray
  // =====================================================================

  /** `escapeHtmlArray(arr)` */
  function EscapeHtmlArray(arr: JsValue): (r: seq<string>)
    ensures !arr.Arr? ==> r == []
    ensures arr.Arr? ==> |r| == |arr.items| && forall i :: 0 <= i < |r| ==> r[i] == EscapeHtml(arr.items[i])
  {
    if arr.Arr? then Seqs.Map(EscapeHtml, arr.items) else []
  }

  lemma EscapeHtmlArrayWellEscaped(arr: JsValue)
    ensures forall i :: 0 <= i < |EscapeHtmlArray(arr)| ==> WellEscaped(EscapeHtmlArray(arr)[i])
  {
    forall i | 0 <= i < |EscapeHtmlArray(arr)| ensures WellEscaped(EscapeHtmlArray(arr)[i]) {
      EscapeHtmlWellEscaped(arr.items[i]);
    }
  }

  // =====================================================================
  // validateEmail
  // =====================================================================

  predicate NoSpaceOrAt(x: string) {
    forall i :: 0 <= i < |x| ==> !IsSpace(x[i]) && x[i] != '@'
  }

  /** An `@` at `k` and a `.` at `j` cut `t` into three non-empty runs free of
      whitespace and `@`. */
  predicate PatternAt(t: string, k: int, j: int) {
    0 < k && k + 1 < j && j + 1 < |t| && t[k] == '@' && t[j] == '.' &&
    NoSpaceOrAt(t[..k]) && NoSpaceOrAt(t[k + 1..j]) && NoSpaceOrAt(t[j + 1..])
  }

  /** The regular expression `^[^\s@]+@[^\s@]+\.[^\s@]+$`. */
  predicate EmailPattern(t: string) {
    exists k, j | 0 <= k < |t| && 0 <= j < |t| :: PatternAt(t, k, j)
  }

  /** `validateEmail(email)` */
  predicate ValidateEmail(email: JsValue) {
    Truthy(email) && email.Str? && EmailPattern(Trim(email.s))
  }

  /** `d` holds a `.` that is neither its first nor its last character. */
  predicate InnerDot(d: string) {
    exists j :: 0 < j < |d| - 1 && d[j] == '.'
  }

  /** The local part `t[..k]` is non-empty, the `@` is at `k`, and the domain
      `t[k + 1..]` has an inner dot; neither part has whitespace or `@`. */
  predicate ShapeAt(t: string, k: int) {
    0 < k < |t| && t[k] == '@' && NoSpaceOrAt(t[..k]) &&
    NoSpaceOrAt(t[k + 1..]) && InnerDot(t[k + 1..])
  }

  /** The shape L@D, independent of the regular expression's wording. */
  predicate EmailShape(t: string) {
    exists k | 0 <= k < |t| :: ShapeAt(t, k)
  }

  lemma NoSpaceOrAtSplit(d: string, j: nat)
    requires j < |d|
    ensures NoSpaceOrAt(d) <==> NoSpaceOrAt(d[..j]) && d[j] != '@' && !IsSpace(d[j]) && NoSpaceOrAt(d[j + 1..])
  {
    if NoSpaceOrAt(d[..j]) && d[j] != '@' && !IsSpace(d[j]) && NoSpaceOrAt(d[j + 1..]) {
      forall i | 0 <= i < |d| ensures !IsSpace(d[i]) && d[i] != '@' {
        if i < j { assert d[i] == d[..j][i]; }
        else if i > j { assert d[i] == d[j + 1..][i - j - 1]; }
      }
    }
  }

  lemma PatternAtToShape(t: string, k: int, j: int)
    requires PatternAt(t, k, j)
    ensures ShapeAt(t, k)
  {
    var d := t[k + 1..];
    assert d[..j - k - 1] == t[k + 1..j];
    assert d[j - k..] == t[j + 1..];
    NoSpaceOrAtSplit(d, j - k - 1);
    assert d[j - k - 1] == '.';
  }

  lemma ShapeToPatternAt(t: string, k: int) returns (j: int)
    requires ShapeAt(t, k)
    ensures PatternAt(t, k, j)
  {
    var d := t[k + 1..];
    var j' :| 0 < j' < |d| - 1 && d[j'] == '.';
    j := k + 1 + j';
    NoSpaceOrAtSplit(d, j');
    assert d[..j'] == t[k + 1..j];
    assert d[j' + 1..] == t[j + 1..];
  }

  /** `validateEmail` accepts exactly the strings whose trimmed text has the
      shape L@D. */
  lemma ValidateEmailIff(email: JsValue)
    ensures ValidateEmail(email) <==> email.Str? && EmailShape(Trim(email.s))
  {
    if email.Str? {
      var t := Trim(email.s);
      if EmailPattern(t) {
        var k, j :| PatternAt(t, k, j);
        PatternAtToShape(t, k, j);
      }
      if EmailShape(t) {
        var k :| ShapeAt(t, k);
        var j := ShapeToPatternAt(t, k);
        assert email.s != "";
      }
    }
  }

  /** A valid address has exactly one `@`. */
  lemma EmailSingleAt(t: string, k: nat, k': nat)
    requires EmailShape(t)
    requires k < |t| && k' < |t| && t[k] == '@' && t[k'] == '@'
    ensures k == k'
  {
    var m :| 0 <= m < |t| && ShapeAt(t, m);
    assert 0 < m < |t| && NoSpaceOrAt(t[..m]) && NoSpaceOrAt(t[m + 1..]);
    forall i | 0 <= i < |t| && i != m ensures t[i] != '@' {
      if i < m { assert t[i] == t[..m][i]; } else { assert t[i] == t[m + 1..][i - m - 1]; }
    }
  }

  lemma ValidateEmailAccepts()
    ensures ValidateEmail(Str("test@example.com"))
  {
    var a := "test@example.com";
    TrimNoop(a);
    assert PatternAt(a, 4, 12);
  }

  lemma ValidateEmailRejects()
    ensures !ValidateEmail(Str("test@")) && !ValidateEmail(Str("test@example"))
    ensures !ValidateEmail(Str("test")) && !ValidateEmail(Str("")) && !ValidateEmail(Null)
  {
    assert Trim("test@") == "test@";
    assert Trim("test@example") == "test@example";
    assert Trim("test") == "test";
  }

  // =====================================================================
  // validatePhone
  // =====================================================================

  /** `phone.replace(/\D/g, '')` */
  function DigitsOnly(s: string): string
    decreases |s|
  {
    if s == [] then [] else (if IsDigit(s[0]) then [s[0]] else []) + DigitsOnly(s[1..])
  }

  /** The kept text is a subsequence of digits. */
  lemma {:induction false} DigitsOnlySpec(s: string)
    ensures AllDigits(DigitsOnly(s)) && |DigitsOnly(s)| <= |s|
    decreases |s|
  {
    if s != [] {
      DigitsOnlySpec(s[1..]);
    }
  }

  /** `validatePhone(phone)` */
  predicate ValidatePhone(phone: JsValue) {
    Truthy(phone) && phone.Str? && 7 <= |DigitsOnly(phone.s)| <= 15
  }

  lemma {:induction false} DigitsOnlyConcat(a: string, b: string)
    ensures DigitsOnly(a + b) == DigitsOnly(a) + DigitsOnly(b)
    decreases |a|
  {
    if a != [] {
      assert (a + b)[0] == a[0];
      assert (a + b)[1..] == a[1..] + b;
      DigitsOnlyConcat(a[1..], b);
      var h := if IsDigit(a[0]) then [a[0]] else [];
      calc {
        DigitsOnly(a + b);
        h + DigitsOnly(a[1..] + b);
        h + (DigitsOnly(a[1..]) + DigitsOnly(b));
        (h + DigitsOnly(a[1..])) + DigitsOnly(b);
      }
    } else {
      assert a + b == b;
    }
  }

  lemma {:induction false} DigitsOnlyOfDigits(s: string)
    requires AllDigits(s)
    ensures DigitsOnly(s) == s
    decreases |s|
  {
    if s != [] {
      DigitsOnlyOfDigits(s[1..]);
      assert [s[0]] + s[1..] == s;
    }
  }

  lemma {:induction false} DigitsOnlyOfSeparators(s: string)
    requires forall i :: 0 <= i < |s| ==> !IsDigit(s[i])
    ensures DigitsOnly(s) == []
    decreases |s|
  {
    if s != [] {
      DigitsOnlyOfSeparators(s[1..]);
    }
  }

  /** Separators (any non-digit text) change nothing. */
  lemma PhoneIgnoresSeparators(a: string, sep: string, b: string)
    requires forall i :: 0 <= i < |sep| ==> !IsDigit(sep[i])
    ensures ValidatePhone(Str(a + sep + b)) == ValidatePhone(Str(a + b))
  {
    DigitsOnlyConcat(a + sep, b);
    DigitsOnlyConcat(a, sep);
    DigitsOnlyConcat(a, b);
    DigitsOnlyOfSeparators(sep);
  }

  /** On digit strings the bounds are 7 and 15 digits, both inclusive. */
  lemma PhoneBoundary(s: string)
    requires AllDigits(s)
    ensures ValidatePhone(Str(s)) <==> 7 <= |s| <= 15
  {
    DigitsOnlyOfDigits(s);
  }

  lemma ValidatePhoneAccepts()
    ensures ValidatePhone(Str("123-456-7890"))
  {
    assert |DigitsOnly("123-456-7890")| == 10;
  }

  lemma ValidatePhoneRejectsShort()
    ensures !ValidatePhone(Str("123"))
  {
    PhoneBoundary("123");
  }

  lemma ValidatePhoneRejectsLetters()
    ensures !ValidatePhone(Str("abcdefghij"))
  {
    assert DigitsOnly("abcdefghij") == [];
  }

  lemma ValidatePhoneRejectsEmpty()
    ensures !ValidatePhone(Str(""))
  {
  }

  // =====================================================================
  // validateUrl (abstract), isNotEmpty, validateRequired, validateFormData
  // =====================================================================

  /** `validateUrl(url)`; `httpUrl(t)` stands for "`new URL(t)` succeeds and its
      protocol is `http:` or `https:`", which the model does not define. */
  predicate ValidateUrl(url: JsValue, httpUrl: string -> bool) {
    Truthy(url) && url.Str? && httpUrl(Trim(url.s))
  }

  /** `isNotEmpty(value)` */
  predicate IsNotEmpty(value: JsValue) {
    !Nullish(value) && Trim(ToJsString(value)) != ""
  }

  /** `isNotEmpty` holds exactly for the values whose string form has a
      non-whitespace character. */
  lemma IsNotEmptyIff(value: JsValue)
    ensures IsNotEmpty(value) <==> !Nullish(value) && !AllSpace(ToJsString(value))
  {
    TrimEmptyIff(ToJsString(value));
  }

  datatype Validation = Validation(valid: bool, errors: seq<string>)

  /** The messages `validateRequired` reports, in entry order. */
  function RequiredErrors(fields: seq<(string, JsValue)>): seq<string>
    decreases |fields|
  {
    if fields == [] then []
    else
      var last := fields[|fields| - 1];
      RequiredErrors(fields[..|fields| - 1]) + (if IsNotEmpty(last.1) then [] else [last.0 + " is required"])
  }

  /** `validateRequired(fields)`, with `fields` given as `Object.entries`. */
  method ValidateRequired(fields: seq<(string, JsValue)>) returns (r: Validation)
    ensures r.errors == RequiredErrors(fields)
    ensures r.valid <==> r.errors == []
    ensures r.valid <==> forall i :: 0 <= i < |fields| ==> IsNotEmpty(fields[i].1)
  {
    var errors: seq<string> := [];
    for i := 0 to |fields|
      invariant errors == RequiredErrors(fields[..i])
    {
      assert fields[..i + 1][..i] == fields[..i];
      var (fieldName, value) := fields[i];
      if !IsNotEmpty(value) {
        errors := errors + [fieldName + " is required"];
      }
    }
    assert fields[..|fields|] == fields;
    RequiredErrorsEmptyIff(fields);
    r := Validation(|errors| == 0, errors);
  }

  lemma {:induction false} RequiredErrorsEmptyIff(fields: seq<(string, JsValue)>)
    ensures RequiredErrors(fields) == [] <==> forall i :: 0 <= i < |fields| ==> IsNotEmpty(fields[i].1)
    decreases |fields|
  {
    if fields != [] {
      var init, last := fields[..|fields| - 1], fields[|fields| - 1];
      RequiredErrorsEmptyIff(init);
      AllNotEmptySnoc(init, last);
      assert init + [last] == fields;
    }
  }

  lemma AllNotEmptySnoc(init: seq<(string, JsValue)>, last: (string, JsValue))
    ensures (forall i :: 0 <= i < |init + [last]| ==> IsNotEmpty((init + [last])[i].1)) <==>
      (forall i :: 0 <= i < |init| ==> IsNotEmpty(init[i].1)) && IsNotEmpty(last.1)
  {
    var s := init + [last];
    assert forall i :: 0 <= i < |init| ==> s[i] == init[i];
    assert s[|init|] == last;
  }

  /** Errors appear in entry order: the list for two runs of entries is the
      list for the first followed by the list for the second. */
  lemma {:induction false} RequiredErrorsConcat(a: seq<(string, JsValue)>, b: seq<(string, JsValue)>)
    ensures RequiredErrors(a + b) == RequiredErrors(a) + RequiredErrors(b)
    decreases |b|
  {
    if b != [] {
      var last := b[|b| - 1];
      assert (a + b)[..|a + b| - 1] == a + b[..|b| - 1];
      assert (a + b)[|a + b| - 1] == last;
      RequiredErrorsConcat(a, b[..|b| - 1]);
      var x := if IsNotEmpty(last.1) then [] else [last.0 + " is required"];
      calc {
        RequiredErrors(a + b);
        RequiredErrors(a + b[..|b| - 1]) + x;
        (RequiredErrors(a) + RequiredErrors(b[..|b| - 1])) + x;
        RequiredErrors(a) + (RequiredErrors(b[..|b| - 1]) + x);
      }
    } else {
      assert a + b == a;
    }
  }

  const FormMessages: seq<string> := [
    "Name is required", "Invalid email format", "Invalid phone number format",
    "Invalid LinkedIn URL", "Invalid GitHub URL"]

  /** Position of a message in `FormMessages`, 5 for any other text. */
  function MessageRank(m: string): nat {
    if m == FormMessages[0] then 0
    else if m == FormMessages[1] then 1
    else if m == FormMessages[2] then 2
    else if m == FormMessages[3] then 3
    else if m == FormMessages[4] then 4
    else 5
  }

  /** Check `i` of `validateFormData` fails for this `personal` value. */
  predicate FormCheckFails(personal: JsValue, httpUrl: string -> bool, i: nat) {
    if i == 0 then !IsNotEmpty(GetOptional(personal, "name"))
    else if i == 1 then Truthy(GetOptional(personal, "email")) && !ValidateEmail(GetOptional(personal, "email"))
    else if i == 2 then Truthy(GetOptional(personal, "mobile")) && !ValidatePhone(GetOptional(personal, "mobile"))
    else if i == 3 then Truthy(GetOptional(personal, "linkedin")) && !ValidateUrl(GetOptional(personal, "linkedin"), httpUrl)
    else if i == 4 then Truthy(GetOptional(personal, "github")) && !ValidateUrl(GetOptional(personal, "github"), httpUrl)
    else false
  }

  /** The outcome of the five checks, in check order. */
  function FailedChecks(personal: JsValue, httpUrl: string -> bool): seq<bool> {
    [FormCheckFails(personal, httpUrl, 0), FormCheckFails(personal, httpUrl, 1),
     FormCheckFails(personal, httpUrl, 2), FormCheckFails(personal, httpUrl, 3),
     FormCheckFails(personal, httpUrl, 4)]
  }

  /** The messages of the first `n` of `fails` that are set, in order. */
  function Collect(fails: seq<bool>, n: nat): seq<string>
    requires n <= |fails| <= 5
  {
    if n == 0 then []
    else Collect(fails, n - 1) + (if fails[n - 1] then [FormMessages[n - 1]] else [])
  }

  /** The messages of the first `n` checks that fail, in check order. */
  function FormErrors(personal: JsValue, httpUrl: string -> bool, n: nat): seq<string>
    requires n <= 5
  {
    Collect(FailedChecks(personal, httpUrl), n)
  }

  lemma MessageRanks()
    ensures forall i :: 0 <= i < 5 ==> MessageRank(FormMessages[i]) == i
  {
  }

  /** `Collect` lists each set flag's message once, in flag order. */
  lemma {:induction false} CollectSpec(fails: seq<bool>, n: nat)
    requires n <= |fails| <= 5
    ensures forall i :: 0 <= i < |fails| ==> (FormMessages[i] in Collect(fails, n) <==> i < n && fails[i])
    ensures forall a :: 0 <= a < |Collect(fails, n)| ==> MessageRank(Collect(fails, n)[a]) < n
    ensures forall a, b :: 0 <= a < b < |Collect(fails, n)| ==>
      MessageRank(Collect(fails, n)[a]) < MessageRank(Collect(fails, n)[b])
  {
    MessageRanks();
    if n > 0 {
      CollectSpec(fails, n - 1);
      var prev := Collect(fails, n - 1);
      var e := Collect(fails, n);
      forall i | 0 <= i < |fails|
        ensures FormMessages[i] in e <==> i < n && fails[i]
      {
        if FormMessages[i] in prev {
          var a :| 0 <= a < |prev| && prev[a] == FormMessages[i];
          assert MessageRank(prev[a]) == i;
        }
      }
      forall a | 0 <= a < |e| ensures MessageRank(e[a]) < n {
        if a < |prev| { assert e[a] == prev[a]; }
      }
      forall a, b | 0 <= a < b < |e| ensures MessageRank(e[a]) < MessageRank(e[b]) {
        if b < |prev| { assert e[a] == prev[a] && e[b] == prev[b]; }
        else { assert e[a] == prev[a]; }
      }
    }
  }

  /** Each failed check contributes its own message, once, and the messages
      keep the order of the checks. */
  lemma FormErrorsSpec(personal: JsValue, httpUrl: string -> bool, n: nat)
    requires n <= 5
    ensures forall i :: 0 <= i < 5 ==>
      (FormMessages[i] in FormErrors(personal, httpUrl, n) <==> i < n && FormCheckFails(personal, httpUrl, i))
    ensures forall a :: 0 <= a < |FormErrors(personal, httpUrl, n)| ==>
      MessageRank(FormErrors(personal, httpUrl, n)[a]) < n
    ensures forall a, b :: 0 <= a < b < |FormErrors(personal, httpUrl, n)| ==>
      MessageRank(FormErrors(personal, httpUrl, n)[a]) < MessageRank(FormErrors(personal, httpUrl, n)[b])
  {
    var fails := FailedChecks(personal, httpUrl);
    CollectSpec(fails, n);
    assert forall i :: 0 <= i < 5 ==> fails[i] == FormCheckFails(personal, httpUrl, i);
  }

  /** `validateFormData(data)`: reading `data.personal` throws when `data` is
      null or undefined; otherwise each failed check adds its message, in the
      fixed order name, email, phone, LinkedIn, GitHub, and an empty (falsy)
      optional field is not checked. */
  method ValidateFormData(data: JsValue, httpUrl: string -> bool) returns (r: Outcome<Validation>)
    ensures r.Throws? <==> Nullish(data)
    ensures r.Ok? ==> r.value.errors == FormErrors(GetProperty(data, "personal").value, httpUrl, 5)
    ensures r.Ok? ==> (r.value.valid <==> r.value.errors == [])
  {
    var personal := GetProperty(data, "personal");
    if personal.Throws? {
      return Throws;
    }
    var p := personal.value;
    ghost var fails := FailedChecks(p, httpUrl);
    var errors: seq<string> := [];
    // name: `isNotEmpty(personal.name)`
    if FormCheckFails(p, httpUrl, 0) {
      errors := errors + ["Name is required"];
    }
    assert errors == Collect(fails, 1);
    // email: checked only when truthy
    if FormCheckFails(p, httpUrl, 1) {
      errors := errors + ["Invalid email format"];
    }
    assert errors == Collect(fails, 2);
    // mobile: checked only when truthy
    if FormCheckFails(p, httpUrl, 2) {
      errors := errors + ["Invalid phone number format"];
    }
    assert errors == Collect(fails, 3);
    // linkedin: checked only when truthy
    if FormCheckFails(p, httpUrl, 3) {
      errors := errors + ["Invalid LinkedIn URL"];
    }
    assert errors == Collect(fails, 4);
    // github: checked only when truthy
    if FormCheckFails(p, httpUrl, 4) {
      errors := errors + ["Invalid GitHub URL"];
    }
    assert errors == Collect(fails, 5);
    r := Ok(Validation(|errors| == 0, errors));
  }
}
