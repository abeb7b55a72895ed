/** What the repaired zones say afterwards, in the words of the zones before. */
module LayoutTexts {
  import opened Wrappers
  import opened Text
  import opened LayoutRepair

  // ---------- stripping ----------

  lemma {:induction false} RightEndMeans(s: string, e: nat)
    requires e <= |s|
    ensures RightEnd(s, e) <= e && Blank(s[RightEnd(s, e)..e])
    ensures RightEnd(s, e) > 0 ==> !IsSpace(s[RightEnd(s, e) - 1])
  {
    if e > 0 && IsSpace(s[e - 1]) {
      RightEndMeans(s, e - 1);
      var a := RightEnd(s, e - 1);
      assert s[a..e] == s[a..e - 1] + [s[e - 1]];
    }
  }

  /** Stripping cuts blanks off both ends and leaves a text without blanks at its ends, or nothing. */
  lemma {:induction false} StripMeans(s: string) returns (left: string, right: string)
    ensures s == left + Strip(s) + right && Blank(left) && Blank(right)
    ensures Strip(s) == "" || Trimmed(Strip(s))
  {
    var a, e := SkipGap(s, 0), RightEnd(s, |s|);
    BlankEnds(s);
    if a < e {
      left, right := s[..a], s[e..];
      CutAt(s, a, e);
    } else {
      left, right := s, "";
      BlankTogether(s, e);
      assert s + "" + "" == s;
    }
  }

  /** What stripping cuts off is blank. */
  lemma {:induction false} BlankEnds(s: string)
    ensures var a, e := SkipGap(s, 0), RightEnd(s, |s|);
      && e <= |s| && Blank(s[..a]) && Blank(s[e..]) && (e > 0 ==> !IsSpace(s[e - 1]))
      && forall k :: 0 <= k < a ==> IsSpace(s[k])
  {
    SkippedIsGap(s, 0);
    RightEndMeans(s, |s|);
    var e := RightEnd(s, |s|);
    assert s[e..|s|] == s[e..];
  }

  lemma {:induction false} CutAt(s: string, a: nat, e: nat)
    requires a < e <= |s|
    ensures s == s[..a] + s[a..e] + s[e..] && s[a..e][0] == s[a] && s[a..e][|s[a..e]| - 1] == s[e - 1]
  {
  }

  lemma {:induction false} BlankTogether(s: string, e: nat)
    requires e <= |s| && (forall k :: 0 <= k < e ==> IsSpace(s[k])) && Blank(s[e..])
    ensures Blank(s)
  {
    assert forall k :: e <= k < |s| ==> s[k] == s[e..][k - e];
  }

  // ---------- the footer date ----------

  /** City, comma, day, point, month word, year, with any gaps where the pattern allows them. */
  ghost predicate IsFooter(raw: string, city: string, day: string, year: string) {
    exists g1, g2, word, g3 :: FooterParts(raw, city, g1, day, g2, word, g3, year)
  }

  predicate FooterParts(raw: string, city: string, g1: string, day: string, g2: string, word: string, g3: string, year: string) {
    && city != "" && ',' !in city && Blank(g1) && 1 <= |day| <= 2 && AllDigits(day)
    && IsGap(g2) && IsWord(word) && IsGap(g3) && |year| == 4 && AllDigits(year)
    && raw == city + "," + g1 + day + "." + g2 + word + g3 + year
  }

  /** Two digits of a day: a single one gets a zero in front. */
  function TwoDigits(day: string): string {
    if |day| == 1 then "0" + day else day
  }

  lemma {:induction false} TwoOfDay(a: char, b: char)
    requires IsDigit(a) && IsDigit(b)
    ensures Two(DigitValue(a)) == ['0', a] && Two(10 * DigitValue(a) + DigitValue(b)) == [a, b]
  {
    var n := 10 * DigitValue(a) + DigitValue(b);
    assert n / 10 == DigitValue(a) && n % 10 == DigitValue(b);
  }

  function DayNumber(day: string): nat
    requires day != "" && AllDigits(day)
  {
    if |day| == 1 then DigitValue(day[0]) else 10 * DigitValue(day[0]) + DigitValue(day[|day| - 1])
  }

  /** A footer of that form is compacted to `city, DD.MM.YYYY`. */
  lemma {:induction false} FooterIsCompacted(raw: string, city: string, g1: string, day: string, g2: string, word: string,
                                             g3: string, year: string, env: Env)
    requires FooterParts(raw, city, g1, day, g2, word, g3, year)
    ensures Repaired("base_cv:p2.footer.date", raw, env)
      == Some(city + ", " + TwoDigits(day) + "." + Two(env.month) + "." + year)
  {
    FooterParses(raw, city, g1, day, g2, word, g3, year);
    DayIsTwo(day);
  }

  lemma {:induction false} DayIsTwo(day: string)
    requires 1 <= |day| <= 2 && AllDigits(day)
    ensures Two(DayNumber(day)) == TwoDigits(day)
  {
    TwoOfDay(day[0], day[|day| - 1]);
    assert day == if |day| == 1 then [day[0]] else [day[0], day[1]];
  }

  lemma {:induction false} FooterParses(raw: string, city: string, g1: string, day: string, g2: string, word: string, g3: string, year: string)
    requires FooterParts(raw, city, g1, day, g2, word, g3, year)
    ensures ParseFooter(raw) == Some(FooterDate(city, DayNumber(day), year))
  {
    var i := |city| + 1 + |g1|;
    var k := i + |day| + 1 + |g2|;
    FooterPlaces(raw, city, g1, day, g2, word, g3, year);
    FromPlaces(raw, city, day, year, i, k, k + |word|, k + |word| + |g3|);
  }

  /** Every part stands where the lengths of those before it say. */
  ghost predicate StandsAt(raw: string, city: string, day: string, year: string, i: nat, k: nat, w: nat, y: nat) {
    && 0 < |city| < i && 1 <= |day| <= 2 && i + |day| + 1 < k < w < y && |raw| == y + 4
    && raw[..|city|] == city && raw[|city|] == ',' && raw[i..i + |day|] == day && raw[i + |day|] == '.' && raw[y..] == year
    && AllDigits(day) && AllDigits(year)
    && (forall n :: 0 <= n < |city| ==> raw[n] != ',') && (forall n :: |city| < n < i ==> IsSpace(raw[n]))
    && (forall n :: i + |day| < n < k ==> IsSpace(raw[n])) && (forall n :: k <= n < w ==> !IsSpace(raw[n]))
    && forall n :: w <= n < y ==> IsSpace(raw[n])
  }

  lemma {:induction false} FooterPlaces(raw: string, city: string, g1: string, day: string, g2: string, word: string, g3: string, year: string)
    requires FooterParts(raw, city, g1, day, g2, word, g3, year)
    ensures var i := |city| + 1 + |g1|; var k := i + |day| + 1 + |g2|;
      StandsAt(raw, city, day, year, i, k, k + |word|, k + |word| + |g3|)
  {
    Regroup(city, g1, day, g2, word, g3, year);
    var front, behind := city + "," + g1 + day, "." + g2 + word + g3 + year;
    assert |front| == |city| + 1 + |g1| + |day|;
    CityAt(raw, city, g1, day, behind);
    RestAt(raw, front, g2, word, g3, year);
  }

  lemma {:induction false} FromPlaces(raw: string, city: string, day: string, year: string, i: nat, k: nat, w: nat, y: nat)
    requires StandsAt(raw, city, day, year, i, k, w, y)
    ensures ParseFooter(raw) == Some(FooterDate(city, DayNumber(day), year))
  {
    assert raw[i..i + |day|][0] == raw[i] && raw[i..i + |day|][|day| - 1] == raw[i + |day| - 1];
    ParsedAt(raw, |city|, i, i + |day|, k, w, y);
  }

  lemma {:induction false} Regroup(city: string, g1: string, day: string, g2: string, word: string, g3: string, year: string)
    ensures city + "," + g1 + day + "." + g2 + word + g3 + year == city + "," + g1 + day + ("." + g2 + word + g3 + year)
  {
  }

  lemma {:induction false} PartAt(raw: string, before: string, part: string, behind: string)
    requires raw == before + part + behind
    ensures |raw| == |before| + |part| + |behind| && raw[|before|..|before| + |part|] == part
    ensures forall n :: |before| <= n < |before| + |part| ==> raw[n] == part[n - |before|]
  {
  }

  lemma {:induction false} CityAt(raw: string, city: string, g1: string, day: string, behind: string)
    requires raw == city + "," + g1 + day + behind && city != "" && ',' !in city && Blank(g1) && AllDigits(day) && day != ""
    ensures var c, i := |city|, |city| + 1 + |g1|;
      && i + |day| <= |raw| && raw[..c] == city && raw[c] == ',' && (forall n :: 0 <= n < c ==> raw[n] != ',')
      && (forall n :: c < n < i ==> IsSpace(raw[n])) && raw[i..i + |day|] == day
      && forall n :: i <= n < i + |day| ==> raw[n] == day[n - i]
  {
    CityAndComma(raw, city, g1 + day + behind) by { assert raw == city + "," + (g1 + day + behind); }
    assert raw == (city + ",") + g1 + (day + behind);
    PartAt(raw, city + ",", g1, day + behind);
    PartAt(raw, city + "," + g1, day, behind);
  }

  lemma {:induction false} CityAndComma(raw: string, city: string, behind: string)
    requires raw == city + "," + behind && ',' !in city
    ensures |city| < |raw| && raw[..|city|] == city && raw[|city|] == ',' && forall n :: 0 <= n < |city| ==> raw[n] != ','
  {
    assert forall n :: 0 <= n < |city| ==> raw[n] == city[n];
  }

  lemma {:induction false} RestAt(raw: string, before: string, g2: string, word: string, g3: string, year: string)
    requires raw == before + ("." + g2 + word + g3 + year) && IsGap(g2) && IsWord(word) && IsGap(g3) && |year| == 4
    ensures var j := |before|; var k := j + 1 + |g2|; var w := k + |word|; var y := w + |g3|;
      && |raw| == y + 4 && raw[j] == '.' && raw[y..] == year && k > j + 1 && w > k && y > w
      && (forall n :: j < n < k ==> IsSpace(raw[n])) && (forall n :: k <= n < w ==> !IsSpace(raw[n]))
      && forall n :: w <= n < y ==> IsSpace(raw[n])
  {
    var first := before + "." + g2;
    assert raw == first + (word + g3 + year);
    GapAt(raw, before, g2, word + g3 + year);
    assert raw == first + word + (g3 + year);
    PartAt(raw, first, word, g3 + year);
    PartAt(raw, first + word, g3, year);
  }

  lemma {:induction false} GapAt(raw: string, before: string, gap: string, behind: string)
    requires raw == before + "." + gap + behind && IsGap(gap)
    ensures var j := |before|; j + 1 + |gap| <= |raw| && raw[j] == '.' && forall n :: j < n < j + 1 + |gap| ==> IsSpace(raw[n])
  {
    assert forall n :: |before| < n < |before| + 1 + |gap| ==> raw[n] == gap[n - |before| - 1];
  }

  /** What the pattern captures, from where the parts stand. */
  lemma {:induction false} ParsedAt(raw: string, c: nat, i: nat, j: nat, k: nat, w: nat, y: nat)
    requires 0 < c < i < j < k < w < y && |raw| == y + 4 && j - i <= 2
    requires raw[c] == ',' && raw[j] == '.' && AllDigits(raw[i..j]) && AllDigits(raw[y..])
    requires forall n :: 0 <= n < c ==> raw[n] != ','
    requires (forall n :: c < n < i ==> IsSpace(raw[n])) && (forall n :: j < n < k ==> IsSpace(raw[n])) && k > j + 1
    requires (forall n :: k <= n < w ==> !IsSpace(raw[n])) && forall n :: w <= n < y ==> IsSpace(raw[n])
    ensures IsDigit(raw[i]) && IsDigit(raw[j - 1])
    ensures ParseFooter(raw) == Some(FooterDate(raw[..c],
      if j == i + 1 then DigitValue(raw[i]) else 10 * DigitValue(raw[i]) + DigitValue(raw[j - 1]), raw[y..]))
  {
    assert raw[i..j][0] == raw[i] && raw[i..j][j - i - 1] == raw[j - 1] && raw[y..][0] == raw[y];
    CommaIsFirst(raw, 0, c);
    SkipGapEndsAt(raw, c + 1, i);
    SkipGapEndsAt(raw, j + 1, k);
    SkipWordEndsAt(raw, k, w);
    SkipGapEndsAt(raw, w, y);
  }

  /** Anything else in the footer is left alone. */
  lemma {:induction false} FooterIsRecognised(raw: string, env: Env)
    ensures Repaired("base_cv:p2.footer.date", raw, env).Some? ==> exists city, day, year :: IsFooter(raw, city, day, year)
  {
    if ParseFooter(raw).Some? {
      var c, i, j, k, w, y := PlacesOf(raw);
      SlicedFooter(raw, c, i, j, k, w, y);
    }
  }

  /** Where the parts of a footer that parses stand. */
  lemma {:induction false} PlacesOf(raw: string) returns (c: nat, i: nat, j: nat, k: nat, w: nat, y: nat)
    requires ParseFooter(raw).Some?
    ensures 0 < c < i < j < k < w < y && |raw| == y + 4 && j - i <= 2
    ensures raw[c] == ',' && raw[j] == '.' && AllDigits(raw[i..j]) && AllDigits(raw[y..])
    ensures forall n :: 0 <= n < c ==> raw[n] != ','
    ensures (forall n :: c < n < i ==> IsSpace(raw[n])) && (forall n :: j < n < k ==> IsSpace(raw[n])) && k > j + 1
    ensures (forall n :: k <= n < w ==> !IsSpace(raw[n])) && forall n :: w <= n < y ==> IsSpace(raw[n])
  {
    c, i, j, k, w, y := ScanOf(raw);
    CommaSkips(raw, 0);
    SkippedIsGap(raw, c + 1);
    SkippedIsGap(raw, j + 1);
    SkippedIsWord(raw, k);
    SkippedIsGap(raw, w);
  }

  lemma {:induction false} ScanOf(raw: string) returns (c: nat, i: nat, j: nat, k: nat, w: nat, y: nat)
    requires ParseFooter(raw).Some?
    ensures 0 < c < i < j < k < w < y && |raw| == y + 4 && j - i <= 2 && k > j + 1
    ensures raw[c] == ',' && raw[j] == '.' && AllDigits(raw[i..j]) && AllDigits(raw[y..])
    ensures c == CommaFrom(raw, 0) && i == SkipGap(raw, c + 1) && k == SkipGap(raw, j + 1)
    ensures w == SkipWord(raw, k) && y == SkipGap(raw, w)
  {
    c := CommaFrom(raw, 0);
    i := SkipGap(raw, c + 1);
    j := if i + 1 < |raw| && IsDigit(raw[i + 1]) then i + 2 else i + 1;
    k := SkipGap(raw, j + 1);
    w := SkipWord(raw, k);
    y := SkipGap(raw, w);
  }

  lemma {:induction false} SlicedFooter(raw: string, c: nat, i: nat, j: nat, k: nat, w: nat, y: nat)
    requires 0 < c < i < j < k < w < y && |raw| == y + 4 && j - i <= 2 && c + 1 <= i
    requires raw[c] == ',' && raw[j] == '.' && AllDigits(raw[i..j]) && AllDigits(raw[y..])
    requires forall n :: 0 <= n < c ==> raw[n] != ','
    requires (forall n :: c < n < i ==> IsSpace(raw[n])) && (forall n :: j < n < k ==> IsSpace(raw[n])) && k > j + 1
    requires (forall n :: k <= n < w ==> !IsSpace(raw[n])) && forall n :: w <= n < y ==> IsSpace(raw[n])
    ensures IsFooter(raw, raw[..c], raw[i..j], raw[y..])
  {
    assert raw == raw[..c] + [raw[c]] + raw[c + 1..i] + raw[i..j] + [raw[j]] + raw[j + 1..k] + raw[k..w] + raw[w..y] + raw[y..];
    assert FooterParts(raw, raw[..c], raw[c + 1..i], raw[i..j], raw[j + 1..k], raw[k..w], raw[w..y], raw[y..]);
  }

  // ---------- all zones ----------

  /** The loop gives each listed zone the repair of the text it had before, and no other zone anything. */
  lemma {:induction false} RepairZonesApply(zones: Zones, overflows: seq<string>, env: Env, q: string)
    requires zones.letter.Some? && zones.cv.Some? && env.month < 100 && Policy(q).Some?
    ensures var after, place := RepairZones(zones, overflows, env).0, Policy(q).value;
      var raw := ValueOf(zones, place);
      && after.letter.Some? && after.cv.Some?
      && ValueOf(after, place) == if q in overflows && Repaired(q, raw, env).Some? then Repaired(q, raw, env).value else raw
    decreases |overflows|
  {
    if overflows != [] {
      var first, rest := overflows[0], overflows[1..];
      assert overflows == [first] + rest;
      var next := RepairZone(zones, first, env);
      if next.Some? {
        RepairZoneSettles(zones, first, env);
        if first == q {
          var place := Policy(q).value;
          WithValueWrites(zones, place, Repaired(q, ValueOf(zones, place), env).value);
          RepairZonesKeepSettled(next.value, rest, env, q);
        } else {
          RepairZoneIsLocal(zones, first, q, env);
          RepairZonesApply(next.value, rest, env, q);
        }
      } else {
        RepairZonesApply(zones, rest, env, q);
      }
    }
  }

  /** No language, an empty one and any spelling of `de` are German. */
  predicate IsGerman(package: Package) {
    package.language == None || package.language == Some("") || Fold(Strip(package.language.value)) == "de"
  }

  /** Company and contact, one to a line. */
  function Recipient(package: Package, target: Target): string {
    var company := Collapse(target.companyName);
    var contact := if package.contactName.Some? then Collapse(package.contactName.value) else "";
    if contact == "" then company else Strip(company + "\n" + contact)
  }

  lemma {:induction false} EnvMeans(package: Package, target: Target)
    ensures var env := EnvOf(package, target);
      && env.german == IsGerman(package) && env.title == target.compactTitle && env.month == target.month
      && RecipientBlock(env) == Recipient(package, target)
  {
    assert Fold(Strip("de")) == "de" by {
      assert SkipGap("de", 0) == 0 && RightEnd("de", 2) == 2;
      assert Strip("de") == "de";
      assert FoldChar('d') == 'd' && FoldChar('e') == 'e';
    }
    assert Collapse("") == "" by { CollapseBlank(""); }
  }

  /** The text under the key; a missing one reads as empty. */
  function LetterText(package: Package, key: string): string
    requires Repairable(package)
  {
    var letter := package.zones.value.letter.value;
    if key in letter then letter[key] else ""
  }

  /** What four repairable zones of the letter say after a repair: a replacement where listed, the old text elsewhere. */
  lemma {:induction false} LetterTexts(package: Package, overflows: seq<string>, target: Target)
    requires Repairable(package) && target.month < 100
    ensures var after := Repair(package, overflows, target).0;
      && Repairable(after)
      && LetterText(after, "salutation") ==
           (if "base_application_letter:salutation" !in overflows then LetterText(package, "salutation")
            else if IsGerman(package) then "Guten Tag," else "Hello,")
      && LetterText(after, "closing.formula") ==
           (if "base_application_letter:closing.formula" !in overflows then LetterText(package, "closing.formula")
            else if IsGerman(package) then "Freundliche Grüße" else "Kind regards")
      && LetterText(after, "subject") ==
           (if "base_application_letter:subject" !in overflows || target.compactTitle == "" then LetterText(package, "subject")
            else target.compactTitle)
      && LetterText(after, "recipient.block") ==
           (if "base_application_letter:recipient.block" !in overflows || Recipient(package, target) == "" then
              LetterText(package, "recipient.block")
            else Recipient(package, target))
  {
    SalutationText(package, overflows, target);
    ClosingText(package, overflows, target);
    SubjectText(package, overflows, target);
    RecipientText(package, overflows, target);
  }

  lemma {:induction false} SalutationText(package: Package, overflows: seq<string>, target: Target)
    requires Repairable(package) && target.month < 100
    ensures Repairable(Repair(package, overflows, target).0)
    ensures LetterText(Repair(package, overflows, target).0, "salutation") ==
      if "base_application_letter:salutation" !in overflows then LetterText(package, "salutation")
      else if IsGerman(package) then "Guten Tag," else "Hello,"
  {
    EnvMeans(package, target);
    ZoneText(package, overflows, target, SALUTATION);
  }

  lemma {:induction false} ClosingText(package: Package, overflows: seq<string>, target: Target)
    requires Repairable(package) && target.month < 100
    ensures Repairable(Repair(package, overflows, target).0)
    ensures LetterText(Repair(package, overflows, target).0, "closing.formula") ==
      if "base_application_letter:closing.formula" !in overflows then LetterText(package, "closing.formula")
      else if IsGerman(package) then "Freundliche Grüße" else "Kind regards"
  {
    EnvMeans(package, target);
    ZoneText(package, overflows, target, CLOSING);
  }

  lemma {:induction false} SubjectText(package: Package, overflows: seq<string>, target: Target)
    requires Repairable(package) && target.month < 100
    ensures Repairable(Repair(package, overflows, target).0)
    ensures LetterText(Repair(package, overflows, target).0, "subject") ==
      if "base_application_letter:subject" !in overflows || target.compactTitle == "" then LetterText(package, "subject")
      else target.compactTitle
  {
    EnvMeans(package, target);
    ZoneText(package, overflows, target, SUBJECT);
  }

  lemma {:induction false} RecipientText(package: Package, overflows: seq<string>, target: Target)
    requires Repairable(package) && target.month < 100
    ensures Repairable(Repair(package, overflows, target).0)
    ensures LetterText(Repair(package, overflows, target).0, "recipient.block") ==
      if "base_application_letter:recipient.block" !in overflows || Recipient(package, target) == "" then
        LetterText(package, "recipient.block")
      else Recipient(package, target)
  {
    EnvMeans(package, target);
    ZoneText(package, overflows, target, RECIPIENT);
  }

  /** Day, month and year in digits, with points between. */
  predicate DateParts(raw: string, day: string, month: string, year: string) {
    && |day| == 2 && |month| == 2 && |year| == 4 && AllDigits(day) && AllDigits(month) && AllDigits(year)
    && raw == day + "." + month + "." + year
  }

  lemma {:induction false} LongDateParts(raw: string, day: string, month: string, year: string)
    requires DateParts(raw, day, month, year)
    ensures IsLongDate(raw) && raw[..6] + raw[8..] == day + "." + month + "." + year[2..]
  {
    assert raw[..2] == day && raw[3..5] == month && raw[6..] == year;
    assert raw[8..] == year[2..] && raw[..6] == day + "." + month + ".";
  }

  lemma {:induction false} LongDateHasParts(raw: string)
    requires IsLongDate(raw)
    ensures DateParts(raw, raw[..2], raw[3..5], raw[6..])
  {
  }

  /** The date of the letter: its year is cut to two digits where it is listed and has the long form, otherwise it stays. */
  lemma {:induction false} DateText(package: Package, overflows: seq<string>, target: Target)
    requires Repairable(package) && target.month < 100
    ensures var raw, after := LetterText(package, "date"), Repair(package, overflows, target).0;
      && Repairable(after)
      && (forall day, month, year :: "base_application_letter:date" in overflows && DateParts(raw, day, month, year) ==>
            LetterText(after, "date") == day + "." + month + "." + year[2..])
      && (LetterText(after, "date") != raw ==>
            "base_application_letter:date" in overflows && exists day, month, year :: DateParts(raw, day, month, year))
  {
    var raw := LetterText(package, "date");
    ZoneText(package, overflows, target, LETTER_DATE);
    if IsLongDate(raw) { LongDateHasParts(raw); }
    forall day, month, year | DateParts(raw, day, month, year)
      ensures IsLongDate(raw) && raw[..6] + raw[8..] == day + "." + month + "." + year[2..]
    {
      LongDateParts(raw, day, month, year);
    }
  }

  lemma {:induction false} ZoneText(package: Package, overflows: seq<string>, target: Target, q: string)
    requires Repairable(package) && target.month < 100 && Policy(q).Some?
    ensures var after, place := Repair(package, overflows, target).0, Policy(q).value;
      var raw, env := ValueOf(package.zones.value, place), EnvOf(package, target);
      && Repairable(after)
      && ValueOf(after.zones.value, place) == if q in overflows && Repaired(q, raw, env).Some? then Repaired(q, raw, env).value else raw
  {
    RepairZonesApply(package.zones.value, overflows, EnvOf(package, target), q);
  }

  /** The footer of the CV: compacted where it is listed and has the long form, otherwise as it was. */
  lemma {:induction false} FooterText(package: Package, overflows: seq<string>, target: Target)
    requires Repairable(package) && target.month < 100
    ensures var raw := Get(package.zones.value.cv.value, "p2.footer.date");
      var after := Repair(package, overflows, target).0;
      && Repairable(after)
      && var text := Get(after.zones.value.cv.value, "p2.footer.date");
         && (forall city, g1, day, g2, word, g3, year ::
               "base_cv:p2.footer.date" in overflows && FooterParts(raw, city, g1, day, g2, word, g3, year) ==>
                 text == city + ", " + TwoDigits(day) + "." + Two(target.month) + "." + year)
         && (text != raw ==> "base_cv:p2.footer.date" in overflows && exists city, day, year :: IsFooter(raw, city, day, year))
  {
    var raw := Get(package.zones.value.cv.value, "p2.footer.date");
    var env := EnvOf(package, target);
    EnvMeans(package, target);
    ZoneText(package, overflows, target, FOOTER_DATE);
    FooterIsRecognised(raw, env);
    forall city, g1, day, g2, word, g3, year | FooterParts(raw, city, g1, day, g2, word, g3, year)
      ensures Repaired(FOOTER_DATE, raw, env) == Some(city + ", " + TwoDigits(day) + "." + Two(target.month) + "." + year)
    {
      FooterIsCompacted(raw, city, g1, day, g2, word, g3, year, env);
    }
  }

  // ---------- the preview ----------

  /** The parts that say something, with an empty line between any two. */
  function Paragraphs(parts: seq<string>): string {
    if parts == [] then ""
    else
      var rest := Paragraphs(parts[1..]);
      if parts[0] == "" then rest else if rest == "" then parts[0] else parts[0] + "\n\n" + rest
  }

  lemma {:induction false} JoinIsParagraphs(parts: seq<string>)
    ensures JoinParagraphs(NonEmpty(parts)) == Paragraphs(parts)
    ensures Paragraphs(parts) == "" <==> NonEmpty(parts) == []
  {
    if parts != [] {
      JoinIsParagraphs(parts[1..]);
      var kept := NonEmpty(parts[1..]);
      if parts[0] != "" {
        assert NonEmpty(parts) == [parts[0]] + kept && ([parts[0]] + kept)[1..] == kept;
      } else {
        assert NonEmpty(parts) == [] + kept;
        assert [] + kept == kept;
      }
    }
  }

  /** The preview reads salutation, the six paragraphs and the closing, each stripped and left out if empty. */
  lemma {:induction false} PreviewReads(letter: ZoneTexts)
    ensures LetterPreview(letter) == Paragraphs([
      Strip(Get(letter, "salutation")),
      Strip(Get(letter, "body.paragraph_1")), Strip(Get(letter, "body.paragraph_2")), Strip(Get(letter, "body.paragraph_3")),
      Strip(Get(letter, "body.paragraph_4")), Strip(Get(letter, "body.paragraph_5")), Strip(Get(letter, "body.paragraph_6")),
      Strip(Get(letter, "closing.formula"))])
  {
    var bodies := seq(|BODY_KEYS|, i requires 0 <= i < |BODY_KEYS| => Strip(Get(letter, BODY_KEYS[i])));
    var parts := [Strip(Get(letter, "salutation"))] + bodies + [Strip(Get(letter, "closing.formula"))];
    assert parts == [
      Strip(Get(letter, "salutation")),
      Strip(Get(letter, "body.paragraph_1")), Strip(Get(letter, "body.paragraph_2")), Strip(Get(letter, "body.paragraph_3")),
      Strip(Get(letter, "body.paragraph_4")), Strip(Get(letter, "body.paragraph_5")), Strip(Get(letter, "body.paragraph_6")),
      Strip(Get(letter, "closing.formula"))];
    JoinIsParagraphs(parts);
  }
}
