/** Deterministic layout repair of a generated application package. */
module LayoutRepair {
  import opened Wrappers
  import opened Text

  // ---------- data ----------

  type ZoneTexts = map<string, string>

  /** The two template documents; `None` where the package holds no dictionary. */
  datatype Zones = Zones(letter: Option<ZoneTexts>, cv: Option<ZoneTexts>)

  datatype Package = Package(
    language: Option<string>,
    contactName: Option<string>,
    zones: Option<Zones>,
    preview: Option<Option<string>>,
    sourceManifest: Option<string>,
    factKeys: Option<seq<string>>)

  /** What the repairs read besides the zones. */
  datatype Env = Env(german: bool, contact: string, company: string, title: string, month: nat)

  datatype Target = Target(companyName: string, compactTitle: string, month: nat)

  datatype Document = Letter | Cv

  datatype Zone = Zone(document: Document, key: string)

  const FOOTER_DATE := "base_cv:p2.footer.date"
  const SALUTATION := "base_application_letter:salutation"
  const CLOSING := "base_application_letter:closing.formula"
  const SUBJECT := "base_application_letter:subject"
  const RECIPIENT := "base_application_letter:recipient.block"
  const LETTER_DATE := "base_application_letter:date"

  const BODY_KEYS: seq<string> := [
    "body.paragraph_1", "body.paragraph_2", "body.paragraph_3",
    "body.paragraph_4", "body.paragraph_5", "body.paragraph_6"]

  /** The zones whose text the drafter owns. */
  const CODEX_ZONES: set<string> := {
    "base_cv:p1.short_profile",
    "base_cv:p1.competency_profile",
    "base_application_letter:body.paragraph_1",
    "base_application_letter:body.paragraph_2",
    "base_application_letter:body.paragraph_3",
    "base_application_letter:body.paragraph_4",
    "base_application_letter:body.paragraph_5",
    "base_application_letter:body.paragraph_6"}

  const CODEX_LETTER_KEYS: set<string> := {
    "body.paragraph_1", "body.paragraph_2", "body.paragraph_3",
    "body.paragraph_4", "body.paragraph_5", "body.paragraph_6"}

  const CODEX_CV_KEYS: set<string> := {"p1.short_profile", "p1.competency_profile"}

  // ---------- texts ----------

  function RightEnd(s: string, e: nat): nat
    requires e <= |s|
  {
    if e > 0 && IsSpace(s[e - 1]) then RightEnd(s, e - 1) else e
  }

  /** `str.strip()` */
  function Strip(s: string): string {
    var a := SkipGap(s, 0);
    var e := RightEnd(s, |s|);
    if a < e && e <= |s| then s[a..e] else ""
  }

  function Get(texts: ZoneTexts, key: string): string {
    if key in texts then texts[key] else ""
  }

  predicate IsDigit(c: char) {
    '0' <= c <= '9'
  }

  predicate AllDigits(s: string) {
    forall i :: 0 <= i < |s| ==> IsDigit(s[i])
  }

  function DigitValue(c: char): nat
    requires IsDigit(c)
  {
    c as int - '0' as int
  }

  /** `f"{n:02d}"` for the numbers that occur in dates. */
  function Two(n: nat): (s: string)
    ensures n < 100 ==> |s| == 2 && AllDigits(s)
  {
    if n < 100 then [('0' as int + n / 10) as char, ('0' as int + n % 10) as char] else "??"
  }

  function CommaFrom(s: string, i: nat): (j: nat)
    requires i <= |s|
    ensures i <= j <= |s| && (j < |s| ==> s[j] == ',')
    decreases |s| - i
  {
    if i == |s| || s[i] == ',' then i else CommaFrom(s, i + 1)
  }

  datatype FooterDate = FooterDate(city: string, day: nat, year: string)

  /** The full match of `([^,]+),\s*(\d{1,2})\.\s+\S+\s+(\d{4})`. */
  function ParseFooter(raw: string): (r: Option<FooterDate>)
    ensures r.Some? ==> r.value.day < 100
  {
    var c := CommaFrom(raw, 0);
    if c == 0 || c == |raw| then None
    else
      var i := SkipGap(raw, c + 1);
      if i == |raw| || !IsDigit(raw[i]) then None
      else
        var two := i + 1 < |raw| && IsDigit(raw[i + 1]);
        var j := if two then i + 2 else i + 1;
        var day := if two then 10 * DigitValue(raw[i]) + DigitValue(raw[i + 1]) else DigitValue(raw[i]);
        if j == |raw| || raw[j] != '.' then None
        else
          var k := SkipGap(raw, j + 1);
          if k == j + 1 then None
          else
            var w := SkipWord(raw, k);
            var y := SkipGap(raw, w);
            if w == k || y == w || |raw| - y != 4 || !AllDigits(raw[y..]) then None
            else Some(FooterDate(raw[..c], day, raw[y..]))
  }

  function CompactFooter(date: FooterDate, month: nat): string {
    date.city + ", " + Two(date.day) + "." + Two(month) + "." + date.year
  }

  /** The full match of `(\d{2})\.(\d{2})\.(\d{4})`. */
  predicate IsLongDate(raw: string) {
    |raw| == 10 && AllDigits(raw[..2]) && raw[2] == '.' && AllDigits(raw[3..5]) && raw[5] == '.' && AllDigits(raw[6..])
  }

  // ---------- one zone ----------

  /** Where a qualified zone that has a repair policy lives. */
  function Policy(qualified: string): Option<Zone> {
    if qualified == FOOTER_DATE then Some(Zone(Cv, "p2.footer.date"))
    else if qualified == SALUTATION then Some(Zone(Letter, "salutation"))
    else if qualified == CLOSING then Some(Zone(Letter, "closing.formula"))
    else if qualified == SUBJECT then Some(Zone(Letter, "subject"))
    else if qualified == RECIPIENT then Some(Zone(Letter, "recipient.block"))
    else if qualified == LETTER_DATE then Some(Zone(Letter, "date"))
    else None
  }

  function RecipientBlock(env: Env): string {
    if env.contact == "" then env.company else Strip(env.company + "\n" + env.contact)
  }

  function Differing(raw: string, replacement: string): Option<string> {
    if raw != replacement then Some(replacement) else None
  }

  /** The replacement text of a zone, if the policy changes it. */
  function Repaired(qualified: string, raw: string, env: Env): Option<string> {
    if qualified == FOOTER_DATE then
      var date := ParseFooter(raw);
      if date.Some? then Some(CompactFooter(date.value, env.month)) else None
    else if qualified == SALUTATION then Differing(raw, if env.german then "Guten Tag," else "Hello,")
    else if qualified == CLOSING then Differing(raw, if env.german then "Freundliche Grüße" else "Kind regards")
    else if qualified == SUBJECT then (if env.title == "" then None else Differing(raw, env.title))
    else if qualified == RECIPIENT then (if RecipientBlock(env) == "" then None else Differing(raw, RecipientBlock(env)))
    else if qualified == LETTER_DATE then (if IsLongDate(raw) then Some(raw[..6] + raw[8..]) else None)
    else None
  }

  // ---------- the package ----------

  /** The package holds both documents, so repairs can be made. */
  predicate Repairable(package: Package) {
    package.zones.Some? && package.zones.value.letter.Some? && package.zones.value.cv.Some?
  }

  function EnvOf(package: Package, target: Target): Env {
    var language := match package.language case Some(text) => (if text == "" then "de" else text) case None => "de";
    var contact := match package.contactName case Some(text) => text case None => "";
    Env(Fold(Strip(language)) == "de", Collapse(contact), Collapse(target.companyName), target.compactTitle, target.month)
  }

  function ValueOf(zones: Zones, zone: Zone): string {
    match zone.document
    case Letter => (match zones.letter case Some(texts) => Get(texts, zone.key) case None => "")
    case Cv => (match zones.cv case Some(texts) => Get(texts, zone.key) case None => "")
  }

  function WithValue(zones: Zones, zone: Zone, value: string): Zones {
    match zone.document
    case Letter => (match zones.letter case Some(texts) => zones.(letter := Some(texts[zone.key := value])) case None => zones)
    case Cv => (match zones.cv case Some(texts) => zones.(cv := Some(texts[zone.key := value])) case None => zones)
  }

  function RepairZone(zones: Zones, qualified: string, env: Env): Option<Zones> {
    match Policy(qualified)
    case None => None
    case Some(zone) =>
      match Repaired(qualified, ValueOf(zones, zone), env)
      case None => None
      case Some(text) => Some(WithValue(zones, zone, text))
  }

  /** The loop over the overflows: the zones it leaves and the repairs it reports. */
  function RepairZones(zones: Zones, overflows: seq<string>, env: Env): (Zones, seq<string>)
    decreases |overflows|
  {
    if overflows == [] then (zones, [])
    else
      match RepairZone(zones, overflows[0], env)
      case None => RepairZones(zones, overflows[1..], env)
      case Some(next) =>
        var (after, repairs) := RepairZones(next, overflows[1..], env);
        (after, [overflows[0]] + repairs)
  }

  function NonEmpty(parts: seq<string>): seq<string> {
    if parts == [] then [] else (if parts[0] == "" then [] else [parts[0]]) + NonEmpty(parts[1..])
  }

  function JoinParagraphs(parts: seq<string>): string {
    if parts == [] then "" else if |parts| == 1 then parts[0] else parts[0] + "\n\n" + JoinParagraphs(parts[1..])
  }

  /** The letter as the preview shows it. */
  function LetterPreview(letter: ZoneTexts): string {
    var parts := [Strip(Get(letter, "salutation"))]
      + seq(|BODY_KEYS|, i requires 0 <= i < |BODY_KEYS| => Strip(Get(letter, BODY_KEYS[i])))
      + [Strip(Get(letter, "closing.formula"))];
    JoinParagraphs(NonEmpty(parts))
  }

  /** `_refresh_application_letter_preview` */
  function RefreshPreview(package: Package): Package {
    if package.preview.Some? && package.zones.Some? && package.zones.value.letter.Some?
    then package.(preview := Some(Some(LetterPreview(package.zones.value.letter.value))))
    else package
  }

  /** `_apply_deterministic_layout_repairs` */
  function Repair(package: Package, overflows: seq<string>, target: Target): (Package, seq<string>) {
    if !Repairable(package) then (package, [])
    else
      var (zones, repairs) := RepairZones(package.zones.value, overflows, EnvOf(package, target));
      var repaired := package.(zones := Some(zones));
      (if repairs == [] then repaired else RefreshPreview(repaired), repairs)
  }

  /** The cached preview shows the letter zones. */
  predicate PreviewCurrent(package: Package) {
    package.preview.Some? && package.zones.Some? && package.zones.value.letter.Some? ==>
      package.preview.value == Some(LetterPreview(package.zones.value.letter.value))
  }

  /** The loop as the source runs it, on the two dictionaries. */
  method ApplyRepairs(package: Package, overflows: seq<string>, target: Target) returns (repaired: Package, repairs: seq<string>)
    ensures (repaired, repairs) == Repair(package, overflows, target)
  {
    if !Repairable(package) { return package, []; }
    var env := EnvOf(package, target);
    var zones := package.zones.value;
    repairs := [];
    ghost var goal := RepairZones(zones, overflows, env);
    assert overflows[0..] == overflows;
    assert [] + goal.1 == goal.1;
    for i := 0 to |overflows|
      invariant goal.0 == RepairZones(zones, overflows[i..], env).0
      invariant goal.1 == repairs + RepairZones(zones, overflows[i..], env).1
    {
      assert overflows[i..][0] == overflows[i] && overflows[i..][1..] == overflows[i + 1..];
      var next := RepairZone(zones, overflows[i], env);
      if next.Some? {
        ghost var rest := RepairZones(next.value, overflows[i + 1..], env).1;
        assert repairs + ([overflows[i]] + rest) == (repairs + [overflows[i]]) + rest;
        zones := next.value;
        repairs := repairs + [overflows[i]];
      }
    }
    assert RepairZones(zones, overflows[|overflows|..], env) == (zones, []);
    assert repairs + [] == repairs;
    repaired := package.(zones := Some(zones));
    if repairs != [] { repaired := RefreshPreview(repaired); }
  }

  // ---------- a repaired zone needs no second repair ----------

  lemma {:induction false} CommaIsFirst(s: string, i: nat, j: nat)
    requires i <= j < |s| && s[j] == ',' && forall k :: i <= k < j ==> s[k] != ','
    ensures CommaFrom(s, i) == j
    decreases j - i
  {
    if i < j { CommaIsFirst(s, i + 1, j); }
  }

  lemma {:induction false} CommaSkips(s: string, i: nat)
    requires i <= |s|
    ensures forall k :: i <= k < CommaFrom(s, i) ==> s[k] != ','
    decreases |s| - i
  {
    if i < |s| && s[i] != ',' { CommaSkips(s, i + 1); }
  }

  /** A compacted footer date has no space behind the day, so it does not match again. */
  lemma {:induction false} CompactFooterIsFinal(raw: string, month: nat)
    requires ParseFooter(raw).Some? && month < 100
    ensures ParseFooter(CompactFooter(ParseFooter(raw).value, month)) == None
  {
    var date := ParseFooter(raw).value;
    var city, d, m := date.city, Two(date.day), Two(month);
    CommaSkips(raw, 0);
    var s := CompactFooter(date, month);
    var n := |city|;
    assert s == city + [','] + [' '] + d + ['.'] + m + ['.'] + date.year;
    CommaIsFirst(s, 0, n);
    assert s[n + 1] == ' ' && s[n + 2] == d[0] && s[n + 3] == d[1] && s[n + 4] == '.' && s[n + 5] == m[0];
    SkipGapEndsAt(s, n + 1, n + 2);
    SkipGapEndsAt(s, n + 5, n + 5);
  }

  lemma {:induction false} RepairIsFinal(qualified: string, raw: string, env: Env)
    requires Repaired(qualified, raw, env).Some? && env.month < 100
    ensures var text := Repaired(qualified, raw, env).value;
      text != raw && Repaired(qualified, text, env) == None
  {
    if qualified == FOOTER_DATE { CompactFooterIsFinal(raw, env.month); }
  }

  // ---------- main results ----------

  /** No repair is left to make in a zone. */
  predicate Settled(zones: Zones, qualified: string, env: Env) {
    RepairZone(zones, qualified, env) == None
  }

  /** Two zones with a policy are different places in the documents. */
  lemma {:induction false} PoliciesAreDistinct(a: string, b: string)
    requires Policy(a).Some? && Policy(b).Some? && Policy(a) == Policy(b)
    ensures a == b
  {
    assert "salutation" != "closing.formula" && "subject" != "salutation" && "date" != "subject" by {
      assert |"salutation"| != |"closing.formula"| && |"subject"| != |"salutation"| && |"date"| != |"subject"|;
    }
    assert |"recipient.block"| == 15 && |"closing.formula"| == 15 && "recipient.block"[0] != "closing.formula"[0];
  }

  /** Repairing one zone changes its text, settles it, and leaves the text of every other zone alone. */
  lemma {:induction false} RepairZoneSettles(zones: Zones, qualified: string, env: Env)
    requires zones.letter.Some? && zones.cv.Some? && env.month < 100
    requires RepairZone(zones, qualified, env).Some?
    ensures var after, zone := RepairZone(zones, qualified, env).value, Policy(qualified).value;
      && after.letter.Some? && after.cv.Some?
      && Settled(after, qualified, env)
      && ValueOf(after, zone) != ValueOf(zones, zone)
      && forall other :: other != zone ==> ValueOf(after, other) == ValueOf(zones, other)
  {
    var zone := Policy(qualified).value;
    RepairIsFinal(qualified, ValueOf(zones, zone), env);
    WithValueWrites(zones, zone, Repaired(qualified, ValueOf(zones, zone), env).value);
  }

  lemma {:induction false} WithValueWrites(zones: Zones, zone: Zone, value: string)
    requires zones.letter.Some? && zones.cv.Some?
    ensures var after := WithValue(zones, zone, value);
      && after.letter.Some? && after.cv.Some? && ValueOf(after, zone) == value
      && forall other :: other != zone ==> ValueOf(after, other) == ValueOf(zones, other)
  {
  }

  lemma {:induction false} RepairZoneIsLocal(zones: Zones, qualified: string, other: string, env: Env)
    requires zones.letter.Some? && zones.cv.Some? && env.month < 100
    requires RepairZone(zones, qualified, env).Some? && other != qualified
    ensures var after := RepairZone(zones, qualified, env).value;
      && (Policy(other).Some? ==> ValueOf(after, Policy(other).value) == ValueOf(zones, Policy(other).value))
      && (Settled(zones, other, env) ==> Settled(after, other, env))
  {
    RepairZoneSettles(zones, qualified, env);
    if Policy(other).Some? && Policy(other) == Policy(qualified) { PoliciesAreDistinct(other, qualified); }
  }

  /** The loop keeps settled zones, and what they say. */
  lemma {:induction false} RepairZonesKeepSettled(zones: Zones, overflows: seq<string>, env: Env, other: string)
    requires zones.letter.Some? && zones.cv.Some? && env.month < 100 && Settled(zones, other, env)
    ensures var after := RepairZones(zones, overflows, env).0;
      && after.letter.Some? && after.cv.Some? && Settled(after, other, env)
      && (Policy(other).Some? ==> ValueOf(after, Policy(other).value) == ValueOf(zones, Policy(other).value))
    decreases |overflows|
  {
    if overflows != [] {
      var next := RepairZone(zones, overflows[0], env);
      if next.Some? {
        RepairZoneSettles(zones, overflows[0], env);
        RepairZoneIsLocal(zones, overflows[0], other, env);
        RepairZonesKeepSettled(next.value, overflows[1..], env, other);
      } else {
        RepairZonesKeepSettled(zones, overflows[1..], env, other);
      }
    }
  }

  /** After the loop every listed zone is settled, and something was reported exactly when something changed. */
  lemma {:induction false} RepairZonesSettle(zones: Zones, overflows: seq<string>, env: Env)
    requires zones.letter.Some? && zones.cv.Some? && env.month < 100
    ensures var (after, repairs) := RepairZones(zones, overflows, env);
      && after.letter.Some? && after.cv.Some?
      && (forall q :: q in overflows ==> Settled(after, q, env))
      && (repairs == [] <==> after == zones)
    decreases |overflows|
  {
    if overflows != [] {
      var q, rest := overflows[0], overflows[1..];
      assert overflows == [q] + rest;
      var next := RepairZone(zones, q, env);
      if next.Some? {
        RepairZoneSettles(zones, q, env);
        RepairZonesSettle(next.value, rest, env);
        RepairZonesKeepSettled(next.value, rest, env, q);
      } else {
        RepairZonesSettle(zones, rest, env);
        RepairZonesKeepSettled(zones, rest, env, q);
      }
    }
  }

  lemma {:induction false} SettledNeedsNothing(zones: Zones, overflows: seq<string>, env: Env)
    requires forall q :: q in overflows ==> Settled(zones, q, env)
    ensures RepairZones(zones, overflows, env) == (zones, [])
  {
    if overflows != [] {
      assert overflows[0] in overflows;
      SettledNeedsNothing(zones, overflows[1..], env);
    }
  }

  /**
   * For a fixed overflow list a second repair finds nothing to do; a repair is reported exactly when
   * the package changed; and the cached preview shows the letter after every reported repair, and
   * whenever it did before.
   */
  lemma {:induction false} RepairIsIdempotent(package: Package, overflows: seq<string>, target: Target)
    requires target.month < 100
    ensures var (repaired, repairs) := Repair(package, overflows, target);
      && Repair(repaired, overflows, target) == (repaired, [])
      && (repairs == [] <==> repaired == package)
      && (repairs != [] || PreviewCurrent(package) ==> PreviewCurrent(repaired))
  {
    if Repairable(package) {
      var env := EnvOf(package, target);
      var (repaired, repairs) := Repair(package, overflows, target);
      RepairZonesSettle(package.zones.value, overflows, env);
      assert EnvOf(repaired, target) == env;
      SettledNeedsNothing(repaired.zones.value, overflows, env);
    }
  }

  ghost predicate SameOn(a: ZoneTexts, b: ZoneTexts, keys: set<string>) {
    forall k :: k in keys ==> (k in a <==> k in b) && (k in a ==> a[k] == b[k])
  }

  lemma {:induction false} PolicyIsNotCodex(qualified: string)
    requires Policy(qualified).Some?
    ensures var zone := Policy(qualified).value;
      (zone.document == Letter ==> zone.key !in CODEX_LETTER_KEYS) && (zone.document == Cv ==> zone.key !in CODEX_CV_KEYS)
  {
    CodexKeys();
    PolicyKeys(qualified);
  }

  lemma {:induction false} CodexKeys()
    ensures forall k :: k in CODEX_LETTER_KEYS ==> |k| == 16
    ensures forall k :: k in CODEX_CV_KEYS ==> |k| > 1 && k[1] == '1'
  {
  }

  lemma {:induction false} PolicyKeys(qualified: string)
    requires Policy(qualified).Some?
    ensures var zone := Policy(qualified).value;
      (zone.document == Letter ==> |zone.key| != 16) && (zone.document == Cv ==> |zone.key| > 1 && zone.key[1] == '2')
  {
  }

  lemma {:induction false} RepairZonesKeepCodex(zones: Zones, overflows: seq<string>, env: Env)
    requires zones.letter.Some? && zones.cv.Some?
    ensures var after := RepairZones(zones, overflows, env).0;
      && after.letter.Some? && after.cv.Some?
      && SameOn(zones.letter.value, after.letter.value, CODEX_LETTER_KEYS)
      && SameOn(zones.cv.value, after.cv.value, CODEX_CV_KEYS)
    decreases |overflows|
  {
    if overflows != [] {
      var next := RepairZone(zones, overflows[0], env);
      if next.Some? {
        PolicyIsNotCodex(overflows[0]);
        RepairZonesKeepCodex(next.value, overflows[1..], env);
      } else {
        RepairZonesKeepCodex(zones, overflows[1..], env);
      }
    }
  }

  /** No repair ever touches a zone the drafter owns. */
  lemma {:induction false} RepairKeepsCodexZones(package: Package, overflows: seq<string>, target: Target)
    requires Repairable(package)
    ensures var after := Repair(package, overflows, target).0;
      && Repairable(after)
      && SameOn(package.zones.value.letter.value, after.zones.value.letter.value, CODEX_LETTER_KEYS)
      && SameOn(package.zones.value.cv.value, after.zones.value.cv.value, CODEX_CV_KEYS)
  {
    RepairZonesKeepCodex(package.zones.value, overflows, EnvOf(package, target));
  }
}
