/** The frontend's display helpers (frontend/src/utils/helpers.js): how a
    stay's duration, an amount, a status badge, an occupancy colour and an
    API error are turned into text, and the e-mail shape check. Times are
    integer milliseconds, amounts integer hundredths of a rupee, and the
    clock is a parameter. */
module Helpers {

  import opened Wrappers
  import opened Seqs

  // ---- decimal text ----

  predicate IsDigit(c: char) {
    '0' <= c <= '9'
  }

  predicate AllDigits(s: string) {
    forall i :: 0 <= i < |s| ==> IsDigit(s[i])
  }

  function DigitChar(d: nat): (c: char)
    requires d < 10
    ensures IsDigit(c) && c as int - '0' as int == d
  {
    ('0' as int + d) as char
  }

  /** The number a string of decimal digits denotes. */
  function DigitsValue(s: string): nat
    requires AllDigits(s)
  {
    if s == [] then 0
    else DigitsValue(s[..|s| - 1]) * 10 + (s[|s| - 1] as int - '0' as int)
  }

  /** `String(n)` of a non-negative integer: its decimal digits, with no
      leading zero except for 0 itself. */
  function NatText(n: nat): (s: string)
    ensures AllDigits(s) && |s| > 0
    ensures s[0] == '0' ==> n == 0
    decreases n
  {
    if n < 10 then [DigitChar(n)] else NatText(n / 10) + [DigitChar(n % 10)]
  }

  /** `String(i)` of any integer: a minus sign before a negative one. */
  function IntText(i: int): string {
    if i < 0 then "-" + NatText(-i) else NatText(i)
  }

  /** Reading the digits back gives the number. */
  lemma {:induction false} NatTextValue(n: nat)
    ensures DigitsValue(NatText(n)) == n
  {
    var s := NatText(n);
    if n < 10 {
      assert s[..|s| - 1] == [];
    } else {
      NatTextValue(n / 10);
      assert s[..|s| - 1] == NatText(n / 10);
    }
  }

  // ---- calculateDuration ----

  /** JavaScript's `%`: the remainder takes the sign of the dividend. */
  function JsRem(a: int, b: int): (r: int)
    requires b > 0
    ensures a >= 0 ==> r == a % b
    ensures a < 0 ==> -b < r <= 0
  {
    if a >= 0 then a % b else -((-a) % b)
  }

  datatype Duration = Duration(hours: int, minutes: int)

  /** Whole minutes are `Math.floor(diffMs / 60000)`, hours their floor by
      60 and minutes their JavaScript remainder by 60. (With a positive
      divisor, Dafny's `/` is the floor.) */
  function SplitMinutes(diffMs: int): Duration {
    var mins := diffMs / 60000;
    Duration(mins / 60, JsRem(mins, 60))
  }

  function DurationText(d: Duration): string {
    if d.hours > 0 then IntText(d.hours) + "h " + IntText(d.minutes) + "m"
    else IntText(d.minutes) + "m"
  }

  /** `calculateDuration(start, end)`: "N/A" without a start; the end
      defaults to the current time `now`. */
  function CalculateDuration(start: Option<int>, end: Option<int>, now: int): (r: string)
    ensures start.None? <==> r == "N/A"
  {
    if start.None? then "N/A"
    else
      var text := DurationText(SplitMinutes(end.GetOr(now) - start.value));
      assert text[|text| - 1] == 'm';
      text
  }

  /** For a stay that does not run backwards, the split covers exactly the
      elapsed whole minutes and the minutes stay below an hour. */
  lemma DurationSplits(diffMs: int)
    requires diffMs >= 0
    ensures SplitMinutes(diffMs).hours * 60 + SplitMinutes(diffMs).minutes == diffMs / 60000
    ensures 0 <= SplitMinutes(diffMs).minutes < 60
    ensures SplitMinutes(diffMs).hours >= 0
  {
  }

  predicate IsH(c: char) {
    c == 'h'
  }

  /** Reads "{h}h {m}m" or "{m}m" back into whole minutes. */
  function ParseDuration(t: string): Option<int> {
    if |t| == 0 || t[|t| - 1] != 'm' then None else ParseBody(t[..|t| - 1])
  }

  /** The text before the final 'm': minutes alone, or hours, 'h', a
      space and minutes. */
  function ParseBody(body: string): Option<int> {
    match FirstIndex(body, IsH)
    case None => if body != [] && AllDigits(body) then Some(DigitsValue(body)) else None
    case Some(i) => ParseHours(body[..i], body[i + 1..])
  }

  function ParseHours(hs: string, rest: string): Option<int> {
    if hs != [] && AllDigits(hs) && |rest| > 1 && rest[0] == ' ' && AllDigits(rest[1..])
    then Some(DigitsValue(hs) * 60 + DigitsValue(rest[1..]))
    else None
  }

  lemma {:induction false} MinutesOnlyParses(m: nat)
    ensures ParseDuration(NatText(m) + "m") == Some(m)
  {
    var t := NatText(m) + "m";
    assert t[..|t| - 1] == NatText(m);
    NatTextValue(m);
  }

  /** In "{h}h {m}" the first 'h' follows the hour digits. */
  lemma {:induction false} FirstHAfterDigits(hs: string, ms: string)
    requires AllDigits(hs)
    ensures FirstIndex(hs + "h " + ms, IsH) == Some(|hs|)
  {
    var body := hs + "h " + ms;
    forall j | 0 <= j < |hs|
      ensures !IsH(body[j])
    {
      assert body[j] == hs[j];
    }
    FirstIndexAt(body, IsH, |hs|);
  }

  lemma {:induction false} SpacedMinutesParse(hs: string, ms: string)
    requires AllDigits(hs) && AllDigits(ms) && hs != [] && ms != []
    ensures ParseHours(hs, " " + ms) == Some(DigitsValue(hs) * 60 + DigitsValue(ms))
  {
    assert (" " + ms)[1..] == ms;
  }

  lemma {:induction false} HoursBodyParses(hs: string, ms: string)
    requires AllDigits(hs) && AllDigits(ms) && hs != [] && ms != []
    ensures ParseBody(hs + "h " + ms) == Some(DigitsValue(hs) * 60 + DigitsValue(ms))
  {
    var body := hs + "h " + ms;
    FirstHAfterDigits(hs, ms);
    assert body[..|hs|] == hs;
    assert body[|hs| + 1..] == " " + ms;
    SpacedMinutesParse(hs, ms);
  }

  lemma {:induction false} HoursTextParses(hs: string, ms: string)
    requires AllDigits(hs) && AllDigits(ms) && hs != [] && ms != []
    ensures ParseDuration(hs + "h " + ms + "m") == Some(DigitsValue(hs) * 60 + DigitsValue(ms))
  {
    var t := hs + "h " + ms + "m";
    assert t[..|t| - 1] == hs + "h " + ms;
    HoursBodyParses(hs, ms);
  }

  lemma {:induction false} HoursAndMinutesParse(h: nat, m: nat)
    ensures ParseDuration(NatText(h) + "h " + NatText(m) + "m") == Some(h * 60 + m)
  {
    HoursTextParses(NatText(h), NatText(m));
    NatTextValue(h);
    NatTextValue(m);
  }

  /** The text shown for a stay that does not run backwards reads back as
      its elapsed whole minutes: the hours part appears exactly when there
      is at least one hour, and nothing is lost in between. */
  lemma DurationRoundTrip(start: int, end: Option<int>, now: int)
    requires end.GetOr(now) >= start
    ensures ParseDuration(CalculateDuration(Some(start), end, now)) == Some((end.GetOr(now) - start) / 60000)
  {
    var diffMs := end.GetOr(now) - start;
    DurationSplits(diffMs);
    var d := SplitMinutes(diffMs);
    var text := CalculateDuration(Some(start), end, now);
    assert text == DurationText(d);
    if d.hours > 0 {
      assert text == NatText(d.hours) + "h " + NatText(d.minutes) + "m";
      HoursAndMinutesParse(d.hours, d.minutes);
    } else {
      assert d.hours == 0;
      assert text == NatText(d.minutes) + "m";
      MinutesOnlyParses(d.minutes);
    }
  }

  /** Only the text "N/A" marks a missing start; every computed duration
      ends in "m". */
  lemma NoStartIsNA(end: Option<int>, now: int)
    ensures CalculateDuration(None, end, now) == "N/A"
    ensures forall s :: CalculateDuration(Some(s), end, now)[|CalculateDuration(Some(s), end, now)| - 1] == 'm'
  {
  }

  // ---- formatCurrency ----

  function TwoDigits(n: nat): (s: string)
    requires n < 100
    ensures |s| == 2 && AllDigits(s)
  {
    [DigitChar(n / 10), DigitChar(n % 10)]
  }

  function Abs(i: int): nat {
    if i < 0 then -i else i
  }

  /** `formatCurrency(amount)`: a missing amount shows as "₹0.00"; an amount
      of `cents` hundredths shows with two decimals. */
  function FormatCurrency(amount: Option<int>): (r: string)
    ensures |r| >= 5 && r[0] == '₹' && r[|r| - 3] == '.' && AllDigits(r[|r| - 2..])
  {
    match amount
    case None => "₹0.00"
    case Some(cents) =>
      "₹" + (if cents < 0 then "-" else "") + NatText(Abs(cents) / 100) + "." + TwoDigits(Abs(cents) % 100)
  }

  /** Reads "₹[-]{digits}.{dd}" back into hundredths. */
  function ParseCurrency(t: string): Option<int> {
    if |t| == 0 || t[0] != '₹' then None else ParseSigned(t[1..])
  }

  function ParseSigned(rest: string): Option<int> {
    if |rest| > 0 && rest[0] == '-' then
      match ParseDecimal(rest[1..])
      case None => None
      case Some(v) => Some(-v)
    else ParseDecimal(rest)
  }

  function ParseDecimal(num: string): Option<int> {
    if |num| < 4 || num[|num| - 3] != '.' then None
    else
      var whole, frac := num[..|num| - 3], num[|num| - 2..];
      if AllDigits(whole) && AllDigits(frac) then Some(DigitsValue(whole) * 100 + DigitsValue(frac)) else None
  }

  lemma {:induction false} DecimalParses(ws: string, fs: string)
    requires AllDigits(ws) && AllDigits(fs) && ws != [] && |fs| == 2
    ensures ParseDecimal(ws + "." + fs) == Some(DigitsValue(ws) * 100 + DigitsValue(fs))
  {
    var num := ws + "." + fs;
    assert num[..|num| - 3] == ws;
    assert num[|num| - 2..] == fs;
  }

  lemma TwoDigitsValue(n: nat)
    requires n < 100
    ensures DigitsValue(TwoDigits(n)) == n
  {
    var s := TwoDigits(n);
    var hi := s[..1];
    assert hi == [DigitChar(n / 10)];
    assert hi[..0] == [];
    assert DigitsValue(hi) == n / 10;
    assert s[..|s| - 1] == hi;
  }

  lemma SignedParses(num: string, v: int, neg: bool)
    requires ParseDecimal(num) == Some(v) && |num| > 0 && IsDigit(num[0])
    ensures ParseCurrency("₹" + (if neg then "-" else "") + num) == Some(if neg then -v else v)
  {
    var t := "₹" + (if neg then "-" else "") + num;
    if neg {
      assert t[1..] == "-" + num;
      assert ("-" + num)[1..] == num;
    } else {
      assert t[1..] == num;
    }
  }

  /** The digits of `c` hundredths, with the decimal point, read back as `c`. */
  lemma {:induction false} CentsParse(c: nat)
    ensures ParseDecimal(NatText(c / 100) + "." + TwoDigits(c % 100)) == Some(c)
    ensures IsDigit((NatText(c / 100) + "." + TwoDigits(c % 100))[0])
  {
    NatTextValue(c / 100);
    TwoDigitsValue(c % 100);
    DecimalParses(NatText(c / 100), TwoDigits(c % 100));
  }

  lemma CurrencyShape(amount: Option<int>)
    ensures var cents := amount.GetOr(0);
            FormatCurrency(amount) ==
              "₹" + (if cents < 0 then "-" else "") + (NatText(Abs(cents) / 100) + "." + TwoDigits(Abs(cents) % 100))
  {
    if amount.None? {
      assert NatText(0) == "0";
      assert TwoDigits(0) == "00";
    }
  }

  /** A missing amount reads as zero, and every amount reads back as
      itself. */
  lemma CurrencyRoundTrip(amount: Option<int>)
    ensures ParseCurrency(FormatCurrency(amount)) == Some(amount.GetOr(0))
  {
    var cents := amount.GetOr(0);
    CurrencyShape(amount);
    CentsParse(Abs(cents));
    SignedParses(NatText(Abs(cents) / 100) + "." + TwoDigits(Abs(cents) % 100), Abs(cents), cents < 0);
  }

  // ---- getStatusClass ----

  /** `toLowerCase` on the ASCII letters. */
  function LowerChar(c: char): char {
    if 'A' <= c <= 'Z' then (c as int + 32) as char else c
  }

  function Lower(s: string): (r: string)
    ensures |r| == |s|
    ensures forall i :: 0 <= i < |s| ==> r[i] == LowerChar(s[i])
  {
    seq(|s|, i requires 0 <= i < |s| => LowerChar(s[i]))
  }

  lemma LowerTwice(s: string)
    ensures Lower(Lower(s)) == Lower(s)
  {
    assert forall i :: 0 <= i < |s| ==> Lower(Lower(s))[i] == Lower(s)[i];
  }

  /** The badge classes, keyed by lower-case status. */
  const StatusMap: map<string, string> := map[
    "active" := "bg-success",
    "completed" := "bg-secondary",
    "cancelled" := "bg-danger",
    "pending" := "bg-warning",
    "processing" := "bg-info",
    "done" := "bg-success",
    "failed" := "bg-danger"
  ]

  const DefaultStatusClass := "bg-secondary"

  /** The properties every plain JavaScript object inherits from
      `Object.prototype`; a lookup by any of these names finds a value even
      though the table does not define it. */
  const InheritedKeys: set<string> := {
    "constructor", "__proto__", "hasOwnProperty", "isPrototypeOf",
    "propertyIsEnumerable", "toString", "toLocaleString", "valueOf",
    "__defineGetter__", "__defineSetter__", "__lookupGetter__", "__lookupSetter__"
  }

  /** What the lookup yields: a class name from the table or the default, or
      an inherited property (a function or an object, which `||` keeps). */
  datatype ClassValue = ClassName(name: string) | PrototypeMember(key: string)

  /** The key a status is looked up under: its lower-case form, or
      "undefined" when it is missing (`status?.toLowerCase()`). */
  function StatusKey(status: Option<string>): string {
    if status.Some? then Lower(status.value) else "undefined"
  }

  /** `getStatusClass` as written: the object lookup also finds inherited
      properties. */
  function GetStatusClassAsWritten(status: Option<string>): (r: ClassValue)
    ensures r.PrototypeMember? ==> r.key in InheritedKeys && r.key !in StatusMap
    ensures StatusKey(status) !in InheritedKeys ==> r == ClassName(GetStatusClass(status))
  {
    var key := StatusKey(status);
    if key in StatusMap then ClassName(StatusMap[key])
    else if key in InheritedKeys then PrototypeMember(key)
    else ClassName(DefaultStatusClass)
  }

  /** `getStatusClass` looking up only the table's own entries: the badge
      class for the status in any letter case, "bg-secondary" otherwise. */
  function GetStatusClass(status: Option<string>): (r: string)
    ensures r in StatusMap.Values
  {
    var key := StatusKey(status);
    if key in StatusMap then StatusMap[key]
    else
      assert StatusMap["completed"] == DefaultStatusClass;
      DefaultStatusClass
  }

  /** The class depends only on the status's lower-case form, is the table's
      entry when there is one and "bg-secondary" for an unknown or missing
      status, and is always one of the badge classes. */
  lemma StatusClassChoice(status: Option<string>)
    ensures status.Some? ==> GetStatusClass(status) == GetStatusClass(Some(Lower(status.value)))
    ensures status.Some? && Lower(status.value) in StatusMap ==>
              GetStatusClass(status) == StatusMap[Lower(status.value)]
    ensures status.Some? && Lower(status.value) !in StatusMap ==> GetStatusClass(status) == DefaultStatusClass
    ensures status.None? ==> GetStatusClass(status) == DefaultStatusClass
    ensures GetStatusClass(status) in {"bg-success", "bg-secondary", "bg-danger", "bg-warning", "bg-info"}
  {
    if status.Some? {
      LowerTwice(status.value);
    }
  }

  lemma {:induction false} LowerHasNoCapital(s: string, i: nat)
    requires i < |s|
    ensures !('A' <= Lower(s)[i] <= 'Z')
  {
  }

  /** After lowering, only the two all-lower-case inherited names can be
      hit. */
  lemma ReachableInheritedKeys(s: string)
    requires Lower(s) in InheritedKeys
    ensures Lower(s) in {"constructor", "__proto__"}
  {
    var k := Lower(s);
    if k == "hasOwnProperty" {
      LowerHasNoCapital(s, 3);
    } else if k == "isPrototypeOf" || k == "toString" || k == "toLocaleString" {
      LowerHasNoCapital(s, 2);
    } else if k == "valueOf" {
      LowerHasNoCapital(s, 5);
    } else if k != "constructor" && k != "__proto__" {
      LowerHasNoCapital(s, 8);
    }
  }

  /** The written lookup and the own-entries lookup agree on every status
      except those whose lower-case form is "constructor" or "__proto__". */
  lemma AsWrittenDiffersOnlyOnInherited(status: Option<string>)
    ensures StatusKey(status) !in {"constructor", "__proto__"} ==>
              GetStatusClassAsWritten(status) == ClassName(GetStatusClass(status))
    ensures StatusKey(status) in {"constructor", "__proto__"} ==>
              GetStatusClassAsWritten(status) == PrototypeMember(StatusKey(status))
  {
    if status.Some? && StatusKey(status) in InheritedKeys {
      ReachableInheritedKeys(status.value);
    }
  }

  /** A status "Constructor" gets the inherited `Object` constructor instead
      of a class name; looking up only own entries gives the default. */
  lemma ConstructorStatusGetsNoClass()
    ensures GetStatusClassAsWritten(Some("Constructor")) == PrototypeMember("constructor")
    ensures GetStatusClass(Some("Constructor")) == DefaultStatusClass
  {
    assert Lower("Constructor") == "constructor";
  }

  // ---- getOccupancyClass ----

  /** `getOccupancyClass(rate)` for a rate in percent. */
  function OccupancyClass(rate: real): (r: string)
    ensures r in {"text-success", "text-warning", "text-danger"}
  {
    if rate >= 90.0 then "text-danger"
    else if rate >= 70.0 then "text-warning"
    else "text-success"
  }

  /** How alarming a colour is: success, then warning, then danger. */
  function Severity(cls: string): int {
    if cls == "text-danger" then 2 else if cls == "text-warning" then 1 else 0
  }

  /** Each colour holds on exactly its band of rates. */
  lemma OccupancyBands(rate: real)
    ensures OccupancyClass(rate) == "text-danger" <==> rate >= 90.0
    ensures OccupancyClass(rate) == "text-warning" <==> 70.0 <= rate < 90.0
    ensures OccupancyClass(rate) == "text-success" <==> rate < 70.0
  {
  }

  /** A fuller lot never shows a calmer colour. */
  lemma OccupancyMonotone(a: real, b: real)
    requires a <= b
    ensures Severity(OccupancyClass(a)) <= Severity(OccupancyClass(b))
  {
  }

  // ---- handleApiError ----

  /** The body of an error response, as far as the helper reads it. */
  datatype ResponseData = ResponseData(msg: Option<string>, message: Option<string>)

  /** An axios error: the server's response if one came back, whether a
      request was sent, and the error's own message. */
  datatype ApiError = ApiError(response: Option<ResponseData>, request: bool, message: Option<string>)

  /** A string JavaScript's `||` keeps: present and non-empty. */
  predicate Truthy(s: Option<string>) {
    s.Some? && s.value != ""
  }

  function OrElse(s: Option<string>, fallback: string): string {
    if Truthy(s) then s.value else fallback
  }

  const GenericError := "An error occurred"
  const NoResponse := "No response from server. Please check your connection."
  const UnexpectedError := "An unexpected error occurred"

  /** `handleApiError(error)`: the message to show. */
  function HandleApiError(e: ApiError): (r: string)
    ensures r != ""
    ensures || r in {GenericError, NoResponse, UnexpectedError}
            || Some(r) == e.message
            || (e.response.Some? && (Some(r) == e.response.value.msg || Some(r) == e.response.value.message))
  {
    if e.response.Some? then OrElse(e.response.value.msg, OrElse(e.response.value.message, GenericError))
    else if e.request then NoResponse
    else OrElse(e.message, UnexpectedError)
  }

  /** The messages in the order they are preferred; the last one is always
      there. */
  function Candidates(e: ApiError): seq<Option<string>> {
    if e.response.Some? then [e.response.value.msg, e.response.value.message, Some(GenericError)]
    else if e.request then [Some(NoResponse)]
    else [e.message, Some(UnexpectedError)]
  }

  /** The message shown is the first usable candidate, and it is never
      empty. */
  lemma {:induction false} ApiErrorPicksFirstCandidate(e: ApiError)
    ensures FirstIndex(Candidates(e), Truthy).Some?
    ensures HandleApiError(e) == Candidates(e)[FirstIndex(Candidates(e), Truthy).value].value
    ensures HandleApiError(e) != ""
  {
    var c := Candidates(e);
    if e.response.Some? {
      var data := e.response.value;
      if Truthy(data.msg) {
        FirstIndexAt(c, Truthy, 0);
      } else if Truthy(data.message) {
        FirstIndexAt(c, Truthy, 1);
      } else {
        FirstIndexAt(c, Truthy, 2);
      }
    } else if e.request {
      FirstIndexAt(c, Truthy, 0);
    } else if Truthy(e.message) {
      FirstIndexAt(c, Truthy, 0);
    } else {
      FirstIndexAt(c, Truthy, 1);
    }
  }

  /** Once the server has answered, neither the request nor the error's own
      message affects what is shown; without an answer, a sent request
      always gives the connectivity message. */
  lemma ResponseTakesPrecedence(e: ApiError, sent: bool, own: Option<string>)
    ensures e.response.Some? ==>
              HandleApiError(e.(request := sent, message := own)) == HandleApiError(e)
    ensures e.response.None? && e.request ==> HandleApiError(e) == NoResponse
  {
  }

  // ---- isValidEmail ----

  /** JavaScript's `\s`. */
  predicate IsSpace(c: char) {
    c == '\t' || c == '\n' || c == '\U{000B}' || c == '\U{000C}' || c == '\r' || c == ' ' ||
    c == '\U{00A0}' || c == '\U{1680}' || ('\U{2000}' <= c <= '\U{200A}') ||
    c == '\U{2028}' || c == '\U{2029}' || c == '\U{202F}' || c == '\U{205F}' ||
    c == '\U{3000}' || c == '\U{FEFF}'
  }

  /** A character of the class `[^\s@]`. */
  predicate Plain(c: char) {
    !IsSpace(c) && c != '@'
  }

  predicate AllPlain(s: string) {
    forall j :: 0 <= j < |s| ==> Plain(s[j])
  }

  /** The regular expression `^[^\s@]+@[^\s@]+\.[^\s@]+$`: an '@' at `i`
      and a '.' at `k` split the string into three non-empty runs of plain
      characters. */
  ghost predicate EmailShape(s: string) {
    exists i, k :: 0 < i && i + 1 < k && k + 1 < |s| && s[i] == '@' && s[k] == '.' &&
      AllPlain(s[..i]) && AllPlain(s[i + 1..k]) && AllPlain(s[k + 1..])
  }

  predicate IsAt(c: char) {
    c == '@'
  }

  /** A '.' with text on both sides. */
  predicate HasInnerDot(d: string) {
    exists k :: 0 < k < |d| - 1 && d[k] == '.'
  }

  /** `isValidEmail(email)`: one '@' after a non-empty local part, no
      whitespace, and a domain holding a '.' with text on both sides. */
  function IsValidEmail(s: string): (b: bool)
    ensures b ==> |s| >= 5 && '@' in s && s[0] != '@'
  {
    match FirstIndex(s, IsAt)
    case None => false
    case Some(i) => 0 < i && AllPlain(s[..i]) && AllPlain(s[i + 1..]) && HasInnerDot(s[i + 1..])
  }

  lemma ShapeIsValid(s: string, i: nat, k: nat)
    requires 0 < i && i + 1 < k && k + 1 < |s| && s[i] == '@' && s[k] == '.'
    requires AllPlain(s[..i]) && AllPlain(s[i + 1..k]) && AllPlain(s[k + 1..])
    ensures IsValidEmail(s)
  {
    forall j | 0 <= j < i
      ensures !IsAt(s[j])
    {
      assert s[j] == s[..i][j];
    }
    FirstIndexAt(s, IsAt, i);
    var d := s[i + 1..];
    forall j | 0 <= j < |d|
      ensures Plain(d[j])
    {
      if i + 1 + j < k {
        assert d[j] == s[i + 1..k][j];
      } else if i + 1 + j > k {
        assert d[j] == s[k + 1..][j - (k - i)];
      }
    }
    assert d[k - i - 1] == '.';
  }

  lemma ValidHasShape(s: string)
    requires IsValidEmail(s)
    ensures EmailShape(s)
  {
    var i := FirstIndex(s, IsAt).value;
    var d := s[i + 1..];
    var k :| 0 < k < |d| - 1 && d[k] == '.';
    var m := i + 1 + k;
    assert s[m] == '.';
    var b, c := s[i + 1..m], s[m + 1..];
    forall j | 0 <= j < |b|
      ensures Plain(b[j])
    {
      assert b[j] == d[j];
    }
    forall j | 0 <= j < |c|
      ensures Plain(c[j])
    {
      assert c[j] == d[k + 1 + j];
    }
  }

  /** The computed check accepts exactly the strings the regular expression
      matches. */
  lemma ValidEmailIffShape(s: string)
    ensures IsValidEmail(s) <==> EmailShape(s)
  {
    if IsValidEmail(s) {
      ValidHasShape(s);
    }
    if EmailShape(s) {
      var i, k :| 0 < i && i + 1 < k && k + 1 < |s| && s[i] == '@' && s[k] == '.' &&
        AllPlain(s[..i]) && AllPlain(s[i + 1..k]) && AllPlain(s[k + 1..]);
      ShapeIsValid(s, i, k);
    }
  }

  /** Two addresses as the registration form sees them. */
  lemma EmailExamples()
    ensures IsValidEmail("a@b.co")
    ensures !IsValidEmail("a@b@c.co")
  {
    ShapeIsValid("a@b.co", 1, 3);
    assert "a@b@c.co"[1] == '@';
    FirstIndexAt("a@b@c.co", IsAt, 1);
    assert !Plain("a@b@c.co"[1 + 1..][1]);
  }
}
