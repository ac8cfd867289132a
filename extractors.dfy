/** The scraper's text extractors (src/gaming_events_scraper/extractors.py):
    keyword classification of a post into a game system, and the regular-expression
    searches for a start time and a date. Each regular expression is modelled by a
    matcher at one position that tries the alternatives in the order Python's
    backtracking engine does (greedy \d{1,2}, greedy optional colon, alternation
    left to right), and a search that returns the leftmost position where the
    matcher succeeds, as re.search does. Matching ignores ASCII case. */
module Extractors {
  import opened Wrappers
  import opened Text

  // ---------------------------------------------------------------------------
  // Keywords and game systems
  // ---------------------------------------------------------------------------

  /** The nineteen keywords that mark a text as gaming related. */
  const GameKeywords: seq<string> := [
    "mtg", "magic", "magic the gathering",
    "warhammer", "40k", "age of sigmar",
    "d&d", "dungeons and dragons", "dnd",
    "pokemon", "yugioh", "digimon",
    "fnm", "friday night magic",
    "commander", "edh",
    "draft", "sealed", "prerelease"
  ]

  const MtgWords: seq<string> := ["mtg", "magic", "fnm", "commander", "edh", "draft", "sealed", "prerelease"]
  const WarhammerWords: seq<string> := ["warhammer", "40k", "age of sigmar"]
  const DndWords: seq<string> := ["d&d", "dungeons", "dnd"]

  /** Every word that puts a text under some game system, group by group. */
  const ClassWords: seq<string> := MtgWords + WarhammerWords + DndWords + ["pokemon", "yugioh"]

  const Unknown: string := "Unknown"

  /** `value or "Unknown"` on an extractor's result. */
  function OrUnknown(o: Option<string>): (s: string)
    ensures o.Some? && o.value != [] ==> s == o.value
    ensures o.None? || o.value == [] ==> s == Unknown
  {
    if o.Some? && o.value != [] then o.value else Unknown
  }

  /** The game-system labels extract_game_system can return. */
  predicate IsGameLabel(g: string) {
    g == "MTG" || g == "Warhammer" || g == "D&D" || g == "Pokemon" || g == "Yu-Gi-Oh" || g == Unknown
  }

  /** Classification by the first keyword group, in priority order, that has a
      member inside the lower-cased text. */
  function ExtractGameSystem(text: string): (g: string)
    ensures IsGameLabel(g)
  {
    var t := Lower(text);
    if AnyContains(t, MtgWords) then "MTG"
    else if AnyContains(t, WarhammerWords) then "Warhammer"
    else if AnyContains(t, DndWords) then "D&D"
    else if Contains(t, "pokemon") then "Pokemon"
    else if Contains(t, "yugioh") then "Yu-Gi-Oh"
    else Unknown
  }

  /** A text is Unknown exactly when it contains none of the class words. */
  lemma UnknownIff(text: string)
    ensures |ClassWords| == 16
    ensures ExtractGameSystem(text) == Unknown <==>
      forall j :: 0 <= j < |ClassWords| ==> !Contains(Lower(text), ClassWords[j])
  {
    var t := Lower(text);
    AnyContainsIff(t, MtgWords);
    AnyContainsIff(t, WarhammerWords);
    AnyContainsIff(t, DndWords);
    if ExtractGameSystem(text) != Unknown {
      if AnyContains(t, MtgWords) {
        var k :| 0 <= k < |MtgWords| && Contains(t, MtgWords[k]);
        assert ClassWords[k] == MtgWords[k];
      } else if AnyContains(t, WarhammerWords) {
        var k :| 0 <= k < |WarhammerWords| && Contains(t, WarhammerWords[k]);
        assert ClassWords[8 + k] == WarhammerWords[k];
      } else if AnyContains(t, DndWords) {
        var k :| 0 <= k < |DndWords| && Contains(t, DndWords[k]);
        assert ClassWords[11 + k] == DndWords[k];
      } else if Contains(t, "pokemon") {
        assert ClassWords[14] == "pokemon";
      } else {
        assert ClassWords[15] == "yugioh";
      }
    } else {
      forall j | 0 <= j < |ClassWords| ensures !Contains(t, ClassWords[j]) {
        if j < 8 {
          assert ClassWords[j] == MtgWords[j];
        } else if j < 11 {
          assert ClassWords[j] == WarhammerWords[j - 8];
        } else if j < 14 {
          assert ClassWords[j] == DndWords[j - 11];
        }
      }
    }
  }

  predicate ContainsGamingKeywords(text: string) {
    AnyContains(Lower(text), GameKeywords)
  }

  /** Both checks lower the text first, so neither depends on ASCII case. */
  lemma KeywordsIgnoreCase(a: string, b: string)
    requires SameIgnoringCase(a, b)
    ensures ContainsGamingKeywords(a) == ContainsGamingKeywords(b)
    ensures ExtractGameSystem(a) == ExtractGameSystem(b)
  {
    SameIgnoringCaseLower(a, b);
  }

  lemma ContainsLiteral(s: string, pat: string, j: nat)
    requires OccursAt(s, pat, j)
    ensures Contains(s, pat)
  {
  }

  /** An occurrence carries each character of the pattern into the text. */
  lemma OccurrenceHasCharacter(s: string, pat: string, i: nat)
    requires Contains(s, pat) && i < |pat|
    ensures pat[i] in s
  {
    var j := IndexOf(s, pat).value;
    assert s[j + i] == s[j..j + |pat|][i];
  }

  /** For each keyword, the position of a class word inside it; digimon (11) has none. */
  const KeywordClass: seq<nat> := [0, 1, 1, 8, 9, 10, 11, 12, 13, 14, 15, 0, 2, 1, 3, 4, 5, 6, 7]

  lemma KeywordHasClassWord(k: nat)
    requires k < |GameKeywords| && k != 11
    ensures KeywordClass[k] < |ClassWords| && Contains(GameKeywords[k], ClassWords[KeywordClass[k]])
  {
    var w := GameKeywords[k];
    if k == 2 {
      assert w[..5] == "magic";
      ContainsLiteral(w, "magic", 0);
    } else if k == 7 {
      assert w[..8] == "dungeons";
      ContainsLiteral(w, "dungeons", 0);
    } else if k == 13 {
      assert w[13..18] == "magic";
      ContainsLiteral(w, "magic", 13);
    } else {
      assert w == ClassWords[KeywordClass[k]] by {
        if k < 2 {
        } else if k < 7 {
        } else if k < 11 {
        } else {
        }
      }
      ContainsLiteral(w, w, 0);
    }
  }

  /** For each class word, its position among the keywords; dungeons (12) has none. */
  const ClassKeyword: seq<nat> := [0, 1, 12, 14, 15, 16, 17, 18, 3, 4, 5, 6, 0, 8, 9, 10]

  lemma ClassWordIsKeyword(j: nat)
    requires j < |ClassWords| && j != 12
    ensures ClassKeyword[j] < |GameKeywords| && ClassWords[j] == GameKeywords[ClassKeyword[j]]
  {
    if j < 8 {
      assert ClassWords[j] == MtgWords[j];
    } else if j < 11 {
      assert ClassWords[j] == WarhammerWords[j - 8];
    } else if j < 14 {
      assert ClassWords[j] == DndWords[j - 11];
    }
  }

  /** The two keyword lists disagree only on "digimon": a gaming text whose game
      system is Unknown mentions digimon. */
  lemma UnknownGamingTextMentionsDigimon(text: string)
    requires ContainsGamingKeywords(text) && ExtractGameSystem(text) == Unknown
    ensures Contains(Lower(text), "digimon")
  {
    var t := Lower(text);
    AnyContainsIff(t, GameKeywords);
    UnknownIff(text);
    var k :| 0 <= k < |GameKeywords| && Contains(t, GameKeywords[k]);
    if k != 11 {
      KeywordHasClassWord(k);
      ContainsTransitive(t, GameKeywords[k], ClassWords[KeywordClass[k]]);
    }
  }

  /** And the other way: a text classified under a game system yet not gaming by
      keywords mentions "dungeons", the one class word missing from the keywords. */
  lemma ClassifiedNonGamingTextMentionsDungeons(text: string)
    requires ExtractGameSystem(text) != Unknown && !ContainsGamingKeywords(text)
    ensures Contains(Lower(text), "dungeons")
  {
    var t := Lower(text);
    AnyContainsIff(t, GameKeywords);
    UnknownIff(text);
    var j :| 0 <= j < |ClassWords| && Contains(t, ClassWords[j]);
    if j != 12 {
      ClassWordIsKeyword(j);
    }
  }

  /** A pattern longer than the text does not occur in it. */
  lemma TooLong(s: string, pat: string)
    requires |pat| > |s|
    ensures !Contains(s, pat)
  {
  }

  /** A pattern with a character the text lacks does not occur in it. */
  lemma MissingCharacter(s: string, pat: string, i: nat)
    requires i < |pat| && pat[i] !in s
    ensures !Contains(s, pat)
  {
    if Contains(s, pat) {
      OccurrenceHasCharacter(s, pat, i);
    }
  }

  /** No class word occurs in "digimon". */
  lemma NoClassWordInDigimon(j: nat)
    requires j < |ClassWords|
    ensures !Contains("digimon", ClassWords[j])
  {
    if j < 8 {
      NoEarlyClassWordInDigimon(j);
    } else {
      NoLateClassWordInDigimon(j);
    }
  }

  lemma NoEarlyClassWordInDigimon(j: nat)
    requires j < 8
    ensures !Contains("digimon", ClassWords[j])
  {
    var t := "digimon";
    if j == 0 { assert ClassWords[j] == "mtg"; MissingCharacter(t, "mtg", 1); }
    else if j == 1 { assert ClassWords[j] == "magic"; MissingCharacter(t, "magic", 1); }
    else if j == 2 { assert ClassWords[j] == "fnm"; MissingCharacter(t, "fnm", 0); }
    else if j == 3 { assert ClassWords[j] == "commander"; TooLong(t, "commander"); }
    else if j == 4 { assert ClassWords[j] == "edh"; MissingCharacter(t, "edh", 0); }
    else if j == 5 { assert ClassWords[j] == "draft"; MissingCharacter(t, "draft", 1); }
    else if j == 6 { assert ClassWords[j] == "sealed"; MissingCharacter(t, "sealed", 0); }
    else { assert ClassWords[j] == "prerelease"; TooLong(t, "prerelease"); }
  }

  lemma NoLateClassWordInDigimon(j: nat)
    requires 8 <= j < |ClassWords|
    ensures !Contains("digimon", ClassWords[j])
  {
    var t := "digimon";
    if j == 8 { assert ClassWords[j] == "warhammer"; TooLong(t, "warhammer"); }
    else if j == 9 { assert ClassWords[j] == "40k"; MissingCharacter(t, "40k", 0); }
    else if j == 10 { assert ClassWords[j] == "age of sigmar"; TooLong(t, "age of sigmar"); }
    else if j == 11 { assert ClassWords[j] == "d&d"; MissingCharacter(t, "d&d", 1); }
    else if j == 12 { assert ClassWords[j] == "dungeons"; TooLong(t, "dungeons"); }
    else if j == 13 {
      assert ClassWords[j] == "dnd";
      assert multiset(t)['d'] == 1;
      assert multiset("dnd")['d'] == 2;
      if Contains(t, "dnd") { ContainsCounts(t, "dnd"); }
    }
    else if j == 14 { assert ClassWords[j] == "pokemon"; MissingCharacter(t, "pokemon", 0); }
    else { assert ClassWords[j] == "yugioh"; MissingCharacter(t, "yugioh", 0); }
  }


  /** "Digimon" passes the keyword filter but is classified Unknown. */
  lemma DigimonIsGamingButUnknown()
    ensures ContainsGamingKeywords("Digimon")
    ensures ExtractGameSystem("Digimon") == Unknown
  {
    var t := "digimon";
    assert Lower("Digimon") == t;
    assert GameKeywords[11] == t;
    ContainsLiteral(t, t, 0);
    AnyContainsIff(t, GameKeywords);
    forall j | 0 <= j < |ClassWords| ensures !Contains(t, ClassWords[j]) {
      NoClassWordInDigimon(j);
    }
    UnknownIff("Digimon");
  }

  // ---------------------------------------------------------------------------
  // Regular-expression building blocks
  // ---------------------------------------------------------------------------

  /** \d{n} at position i. */
  predicate DigitsAt(s: string, i: nat, n: nat)
    ensures DigitsAt(s, i, n) ==> i + n <= |s|
    decreases n
  {
    if n == 0 then i <= |s| else i < |s| && IsDigit(s[i]) && DigitsAt(s, i + 1, n - 1)
  }

  lemma {:induction false} DigitsAtSlice(s: string, i: nat, n: nat)
    requires DigitsAt(s, i, n)
    ensures AllDigits(s[i..i + n])
    decreases n
  {
    if n > 0 {
      DigitsAtSlice(s, i + 1, n - 1);
      assert s[i..i + n] == [s[i]] + s[i + 1..i + n];
    }
  }

  /** A run of one or two digits, as the groups \d{1,2} and \d{2} capture. */
  predicate ShortNumber(d: string) {
    1 <= |d| <= 2 && AllDigits(d)
  }

  /** The end of the run of whitespace starting at j (\s* taken greedily). */
  function SkipSpaces(s: string, j: nat): (k: nat)
    requires j <= |s|
    ensures j <= k <= |s|
    ensures forall m :: j <= m < k ==> IsSpace(s[m])
    ensures k == |s| || !IsSpace(s[k])
    decreases |s| - j
  {
    if j < |s| && IsSpace(s[j]) then SkipSpaces(s, j + 1) else j
  }

  predicate IsPeriod(p: string) {
    |p| == 2 && (Lower(p) == "am" || Lower(p) == "pm")
  }

  /** (am|pm) at position j, ignoring case; the matched text as it stands. */
  function PeriodAt(s: string, j: nat): (r: Option<string>)
    ensures r.Some? ==> j + 2 <= |s| && r.value == s[j..j + 2] && IsPeriod(r.value)
    ensures r.None? ==> j + 2 > |s| || !IsPeriod(s[j..j + 2])
  {
    if j + 2 <= |s| && Lower(s[j..j + 2]) == "am" then Some(s[j..j + 2])
    else if j + 2 <= |s| && Lower(s[j..j + 2]) == "pm" then Some(s[j..j + 2])
    else None
  }

  // ---------------------------------------------------------------------------
  // Times
  // ---------------------------------------------------------------------------

  /** The three time patterns, in the order they are tried:
      (\d{1,2}):?(\d{2})\s*(am|pm), (\d{1,2})\s*(am|pm) and (\d{1,2}):?(\d{2}). */
  datatype TimePattern = ClockWithPeriod | HourWithPeriod | Clock

  /** The groups of a match: three for the first pattern, two for the others. */
  datatype TimeGroups = Three(hour: string, minute: string, period: string) | Two(first: string, second: string)

  /** What each pattern's groups can hold. */
  predicate GroupsFit(p: TimePattern, g: TimeGroups) {
    match g
    case Three(hour, minute, period) =>
      p == ClockWithPeriod && ShortNumber(hour) && |minute| == 2 && AllDigits(minute) && IsPeriod(period)
    case Two(hour, second) =>
      ShortNumber(hour)
      && (p == HourWithPeriod ==> IsPeriod(second))
      && (p == Clock ==> |second| == 2 && AllDigits(second))
      && p != ClockWithPeriod
  }

  /** (\d{2})\s*(am|pm) at k: the minute and the period of the first pattern. */
  function MinuteAndPeriod(s: string, k: nat): (r: Option<(string, string)>)
    ensures r.Some? ==> |r.value.0| == 2 && AllDigits(r.value.0) && IsPeriod(r.value.1)
  {
    if DigitsAt(s, k, 2) then
      DigitsAtSlice(s, k, 2);
      match PeriodAt(s, SkipSpaces(s, k + 2))
      case Some(p) => Some((s[k..k + 2], p))
      case None => None
    else None
  }

  /** The rest of a time pattern once the hour group holds the h digits at i. */
  function TimeAfterHour(p: TimePattern, s: string, i: nat, h: nat): (r: Option<TimeGroups>)
    requires 1 <= h <= 2 && DigitsAt(s, i, h)
    ensures r.Some? ==> GroupsFit(p, r.value)
  {
    DigitsAtSlice(s, i, h);
    var hour := s[i..i + h];
    var j := i + h;
    match p
    case ClockWithPeriod =>
      var withColon := if j < |s| && s[j] == ':' then MinuteAndPeriod(s, j + 1) else None;
      if withColon.Some? then Some(Three(hour, withColon.value.0, withColon.value.1))
      else (match MinuteAndPeriod(s, j)
            case Some(mp) => Some(Three(hour, mp.0, mp.1))
            case None => None)
    case HourWithPeriod =>
      (match PeriodAt(s, SkipSpaces(s, j))
       case Some(period) => Some(Two(hour, period))
       case None => None)
    case Clock =>
      if j < |s| && s[j] == ':' && DigitsAt(s, j + 1, 2) then
        DigitsAtSlice(s, j + 1, 2);
        Some(Two(hour, s[j + 1..j + 3]))
      else if DigitsAt(s, j, 2) then
        DigitsAtSlice(s, j, 2);
        Some(Two(hour, s[j..j + 2]))
      else None
  }

  /** The pattern matched at position i: the hour takes two digits if it can,
      otherwise one. */
  function TimeAt(p: TimePattern, s: string, i: nat): (r: Option<TimeGroups>)
    ensures r.Some? ==> GroupsFit(p, r.value)
  {
    var two := if DigitsAt(s, i, 2) then TimeAfterHour(p, s, i, 2) else None;
    if two.Some? then two
    else if DigitsAt(s, i, 1) then TimeAfterHour(p, s, i, 1)
    else None
  }

  /** re.search from position i: the leftmost position where the pattern matches. */
  function SearchTime(p: TimePattern, s: string, i: nat): (r: Option<(nat, TimeGroups)>)
    requires i <= |s|
    ensures r.Some? ==> i <= r.value.0 <= |s| && TimeAt(p, s, r.value.0) == Some(r.value.1)
    ensures r.Some? ==> forall k :: i <= k < r.value.0 ==> TimeAt(p, s, k).None?
    ensures r.None? ==> forall k :: i <= k <= |s| ==> TimeAt(p, s, k).None?
    decreases |s| - i
  {
    match TimeAt(p, s, i)
    case Some(g) => Some((i, g))
    case None => if i == |s| then None else SearchTime(p, s, i + 1)
  }

  /** The text extract_time builds from the groups of a match. */
  function TimeText(g: TimeGroups): string {
    match g
    case Three(hour, minute, period) => hour + ":" + minute + " " + Upper(period)
    case Two(hour, second) =>
      if Lower(second) == "am" || Lower(second) == "pm" then hour + ":00 " + Upper(second)
      else hour + ":" + second
  }

  /** The patterns are tried in order; the first that matches anywhere wins.
      No time is found exactly when no pattern matches at any position, and
      whatever time is found is rendered H:MM, optionally followed by AM or PM. */
  function ExtractTime(text: string): (r: Option<string>)
    ensures r.None? <==> forall k :: 0 <= k <= |text| ==>
      TimeAt(ClockWithPeriod, text, k).None? && TimeAt(HourWithPeriod, text, k).None? && TimeAt(Clock, text, k).None?
    ensures r.Some? ==> TimeShaped(r.value)
  {
    match SearchTime(ClockWithPeriod, text, 0)
    case Some(m) => GroupsTextShaped(ClockWithPeriod, m.1); Some(TimeText(m.1))
    case None =>
      match SearchTime(HourWithPeriod, text, 0)
      case Some(m) => GroupsTextShaped(HourWithPeriod, m.1); Some(TimeText(m.1))
      case None =>
        match SearchTime(Clock, text, 0)
        case Some(m) => GroupsTextShaped(Clock, m.1); Some(TimeText(m.1))
        case None => None
  }

  /** H:MM, H:MM AM or H:MM PM with an hour of one or two digits. */
  predicate TimeShaped(t: string) {
    exists h :: 1 <= h <= 2 && h + 3 <= |t| && AllDigits(t[..h]) && t[h] == ':' && AllDigits(t[h + 1..h + 3])
      && (t[h + 3..] == "" || t[h + 3..] == " AM" || t[h + 3..] == " PM")
  }

  lemma UpperPeriod(p: string)
    requires IsPeriod(p)
    ensures Upper(p) == "AM" || Upper(p) == "PM"
  {
    assert LowerChar(p[1]) == 'm';
    assert UpperChar(p[1]) == 'M';
    if Lower(p) == "am" {
      assert LowerChar(p[0]) == 'a';
      assert UpperChar(p[0]) == 'A';
    } else {
      assert LowerChar(p[0]) == 'p';
      assert UpperChar(p[0]) == 'P';
    }
  }

  lemma ShapedText(hour: string, minute: string, tail: string)
    requires ShortNumber(hour) && |minute| == 2 && AllDigits(minute)
    requires tail == "" || tail == " AM" || tail == " PM"
    ensures TimeShaped(hour + ":" + minute + tail)
  {
    var t := hour + ":" + minute + tail;
    var h := |hour|;
    assert t[..h] == hour && t[h] == ':' && t[h + 1..h + 3] == minute && t[h + 3..] == tail;
  }

  lemma GroupsTextShaped(p: TimePattern, g: TimeGroups)
    requires GroupsFit(p, g)
    ensures TimeShaped(TimeText(g))
  {
    match g
    case Three(hour, minute, period) =>
      UpperPeriod(period);
      assert TimeText(g) == hour + ":" + minute + (" " + Upper(period));
      ShapedText(hour, minute, " " + Upper(period));
    case Two(hour, second) =>
      if Lower(second) == "am" || Lower(second) == "pm" {
        assert |Lower(second)| == 2;
        UpperPeriod(second);
        assert TimeText(g) == hour + ":" + "00" + (" " + Upper(second));
        ShapedText(hour, "00", " " + Upper(second));
      } else {
        assert TimeText(g) == hour + ":" + second + "";
        ShapedText(hour, second, "");
      }
  }

  /** Every pattern begins with a digit: text without digits has no time. */
  lemma NoDigitsNoTime(text: string)
    requires forall k :: 0 <= k < |text| ==> !IsDigit(text[k])
    ensures ExtractTime(text).None?
  {
  }

  /** A bare hour with a period gets ":00"; the period is upper-cased. */
  lemma HourWithPeriodExample()
    ensures ExtractTime("9am") == Some("9:00 AM")
  {
    var s := "9am";
    assert TimeAt(ClockWithPeriod, s, 0).None?;
    assert SearchTime(ClockWithPeriod, s, 0).None?;
    assert s[0..1] == "9" && s[1..3] == "am";
    assert Lower("am") == "am";
    assert TimeAt(HourWithPeriod, s, 0) == Some(Two("9", "am"));
    assert SearchTime(HourWithPeriod, s, 0) == Some((0, Two("9", "am")));
    assert Upper("am") == "AM";
    assert TimeText(Two("9", "am")) == "9" + ":00 " + "AM";
    assert "9" + ":00 " + "AM" == "9:00 AM";
  }

  // ---------------------------------------------------------------------------
  // Dates
  // ---------------------------------------------------------------------------

  /** The four date patterns, in the order they are tried:
      (\d{1,2})/(\d{1,2})/(\d{4}), (\d{1,2})-(\d{1,2})-(\d{4}),
      (full month name)\s+(\d{1,2}) and (abbreviated month name)\s+(\d{1,2}). */
  datatype DatePattern = Slashes | Dashes | MonthNames | MonthAbbrevs

  datatype DateGroups = Numeric(month: string, day: string, year: string) | Named(monthName: string, day: string)

  const FullMonthNames: seq<string> := [
    "january", "february", "march", "april", "may", "june",
    "july", "august", "september", "october", "november", "december"]

  const AbbrevMonthNames: seq<string> := [
    "jan", "feb", "mar", "apr", "may", "jun", "jul", "aug", "sep", "oct", "nov", "dec"]

  /** What each pattern's groups can hold. */
  predicate DateGroupsFit(p: DatePattern, g: DateGroups) {
    match g
    case Numeric(month, day, year) =>
      (p == Slashes || p == Dashes) && ShortNumber(month) && ShortNumber(day) && |year| == 4 && AllDigits(year)
    case Named(name, day) =>
      ((p == MonthNames && Lower(name) in FullMonthNames) || (p == MonthAbbrevs && Lower(name) in AbbrevMonthNames))
      && ShortNumber(day)
  }

  /** (\d{1,2})SEP(\d{4}) once the month group is fixed: the day takes two digits
      if the rest then matches, otherwise one. */
  function NumericAfterMonth(s: string, i: nat, m: nat, sep: char): (r: Option<DateGroups>)
    requires 1 <= m <= 2 && DigitsAt(s, i, m) && i + m < |s| && s[i + m] == sep
    ensures r.Some? ==> r.value.Numeric? && ShortNumber(r.value.month) && ShortNumber(r.value.day)
    ensures r.Some? ==> |r.value.year| == 4 && AllDigits(r.value.year)
  {
    DigitsAtSlice(s, i, m);
    var d0 := i + m + 1;
    if DigitsAt(s, d0, 2) && d0 + 2 < |s| && s[d0 + 2] == sep && DigitsAt(s, d0 + 3, 4) then
      DigitsAtSlice(s, d0, 2);
      DigitsAtSlice(s, d0 + 3, 4);
      Some(Numeric(s[i..i + m], s[d0..d0 + 2], s[d0 + 3..d0 + 7]))
    else if DigitsAt(s, d0, 1) && d0 + 1 < |s| && s[d0 + 1] == sep && DigitsAt(s, d0 + 2, 4) then
      DigitsAtSlice(s, d0, 1);
      DigitsAtSlice(s, d0 + 2, 4);
      Some(Numeric(s[i..i + m], s[d0..d0 + 1], s[d0 + 2..d0 + 6]))
    else None
  }

  function NumericDateAt(s: string, i: nat, sep: char): (r: Option<DateGroups>)
    ensures r.Some? ==> r.value.Numeric? && ShortNumber(r.value.month) && ShortNumber(r.value.day)
    ensures r.Some? ==> |r.value.year| == 4 && AllDigits(r.value.year)
  {
    var two := if DigitsAt(s, i, 2) && i + 2 < |s| && s[i + 2] == sep then NumericAfterMonth(s, i, 2, sep) else None;
    if two.Some? then two
    else if DigitsAt(s, i, 1) && i + 1 < |s| && s[i + 1] == sep then NumericAfterMonth(s, i, 1, sep)
    else None
  }

  /** (name)\s+(\d{1,2}) at i for the first alternative in names (from index n on)
      that matches together with what follows it. */
  function NamedDateAt(s: string, i: nat, names: seq<string>, n: nat): (r: Option<DateGroups>)
    requires i <= |s|
    ensures r.Some? ==> r.value.Named? && Lower(r.value.monthName) in names && ShortNumber(r.value.day)
    decreases |names| - n
  {
    if n >= |names| then None
    else
      var name := names[n];
      var j := i + |name|;
      if j < |s| && Lower(s[i..j]) == name && IsSpace(s[j]) then
        var k := SkipSpaces(s, j);
        if DigitsAt(s, k, 2) then
          DigitsAtSlice(s, k, 2);
          Some(Named(s[i..j], s[k..k + 2]))
        else if DigitsAt(s, k, 1) then
          DigitsAtSlice(s, k, 1);
          Some(Named(s[i..j], s[k..k + 1]))
        else NamedDateAt(s, i, names, n + 1)
      else NamedDateAt(s, i, names, n + 1)
  }

  function DateAt(p: DatePattern, s: string, i: nat): (r: Option<DateGroups>)
    requires i <= |s|
    ensures r.Some? ==> DateGroupsFit(p, r.value)
  {
    match p
    case Slashes => NumericDateAt(s, i, '/')
    case Dashes => NumericDateAt(s, i, '-')
    case MonthNames => NamedDateAt(s, i, FullMonthNames, 0)
    case MonthAbbrevs => NamedDateAt(s, i, AbbrevMonthNames, 0)
  }

  function SearchDate(p: DatePattern, s: string, i: nat): (r: Option<(nat, DateGroups)>)
    requires i <= |s|
    ensures r.Some? ==> i <= r.value.0 <= |s| && DateAt(p, s, r.value.0) == Some(r.value.1)
    ensures r.Some? ==> forall k :: i <= k < r.value.0 ==> DateAt(p, s, k).None?
    ensures r.None? ==> forall k :: i <= k <= |s| ==> DateAt(p, s, k).None?
    decreases |s| - i
  {
    var here := DateAt(p, s, i);
    if here.Some? then Some((i, here.value))
    else if i == |s| then None
    else SearchDate(p, s, i + 1)
  }

  /** The position of the first copy of x in xs. */
  function Position<T(==)>(xs: seq<T>, x: T): (k: nat)
    requires x in xs
    ensures k < |xs| && xs[k] == x && x !in xs[..k]
  {
    if xs[0] == x then 0 else 1 + Position(xs[1..], x)
  }

  /** The month_map lookup: full and three-letter names to two-digit months. */
  function MonthNumber(name: string): (r: Option<string>)
    ensures r.Some? <==> name in FullMonthNames || name in AbbrevMonthNames
  {
    if name in FullMonthNames then Some(Pad2(Position(FullMonthNames, name) + 1))
    else if name in AbbrevMonthNames then Some(Pad2(Position(AbbrevMonthNames, name) + 1))
    else None
  }

  /** The text extract_date builds from the groups of a match; the month-name
      forms take the year from the clock, passed in as currentYear. */
  function DateText(g: DateGroups, currentYear: nat): Option<string> {
    match g
    case Numeric(month, day, year) => Some(year + "-" + PadLeft(month, 2, '0') + "-" + PadLeft(day, 2, '0'))
    case Named(name, day) =>
      match MonthNumber(Lower(name))
      case Some(month) => Some(NatToString(currentYear) + "-" + month + "-" + PadLeft(day, 2, '0'))
      case None => None
  }

  /** The patterns are tried in order; the first that matches anywhere wins. No
      date is found exactly when no pattern matches at any position. Every date
      found is rendered as four, two and two digits separated by dashes, for any
      current year with four digits; the month and the day are copied, not
      range-checked: see NumericDatesAreNotChecked. */
  function ExtractDate(text: string, currentYear: nat): (r: Option<string>)
    ensures r.None? <==> forall k :: 0 <= k <= |text| ==>
      DateAt(Slashes, text, k).None? && DateAt(Dashes, text, k).None?
      && DateAt(MonthNames, text, k).None? && DateAt(MonthAbbrevs, text, k).None?
    ensures r.Some? && 1000 <= currentYear <= 9999 ==> IsoShaped(r.value)
  {
    match SearchDate(Slashes, text, 0)
    case Some(m) => DateTextShaped(Slashes, m.1, currentYear); DateText(m.1, currentYear)
    case None =>
      match SearchDate(Dashes, text, 0)
      case Some(m) => DateTextShaped(Dashes, m.1, currentYear); DateText(m.1, currentYear)
      case None =>
        match SearchDate(MonthNames, text, 0)
        case Some(m) => DateTextShaped(MonthNames, m.1, currentYear); DateText(m.1, currentYear)
        case None =>
          match SearchDate(MonthAbbrevs, text, 0)
          case Some(m) => DateTextShaped(MonthAbbrevs, m.1, currentYear); DateText(m.1, currentYear)
          case None => None
  }

  /** YYYY-MM-DD made of digits (whether or not it names a real day). */
  predicate IsoShaped(d: string) {
    |d| == 10 && d[4] == '-' && d[7] == '-'
    && AllDigits(d[..4]) && AllDigits(d[5..7]) && AllDigits(d[8..])
  }

  lemma PadTwoDigits(s: string)
    requires ShortNumber(s)
    ensures |PadLeft(s, 2, '0')| == 2 && AllDigits(PadLeft(s, 2, '0'))
  {
    var r := PadLeft(s, 2, '0');
    forall i | 0 <= i < 2 ensures IsDigit(r[i]) {
      if i >= 2 - |s| { assert r[i] == r[|r| - |s|..][i - (2 - |s|)]; }
    }
  }

  lemma IsoText(year: string, month: string, day: string)
    requires |year| == 4 && AllDigits(year) && |month| == 2 && AllDigits(month) && |day| == 2 && AllDigits(day)
    ensures IsoShaped(year + "-" + month + "-" + day)
  {
    var d := year + "-" + month + "-" + day;
    assert d[..4] == year && d[5..7] == month && d[8..] == day;
  }

  lemma MonthNumberShaped(name: string)
    requires name in FullMonthNames || name in AbbrevMonthNames
    ensures MonthNumber(name).Some? && |MonthNumber(name).value| == 2 && AllDigits(MonthNumber(name).value)
  {
    if name in FullMonthNames {
      Pad2Small(Position(FullMonthNames, name) + 1);
    } else {
      Pad2Small(Position(AbbrevMonthNames, name) + 1);
    }
  }

  lemma DateTextShaped(p: DatePattern, g: DateGroups, currentYear: nat)
    requires DateGroupsFit(p, g)
    ensures DateText(g, currentYear).Some?
    ensures 1000 <= currentYear <= 9999 ==> IsoShaped(DateText(g, currentYear).value)
  {
    match g
    case Numeric(month, day, year) =>
      PadTwoDigits(month);
      PadTwoDigits(day);
      IsoText(year, PadLeft(month, 2, '0'), PadLeft(day, 2, '0'));
    case Named(name, day) =>
      MonthNumberShaped(Lower(name));
      if 1000 <= currentYear <= 9999 {
        FourDigitYear(currentYear);
        PadTwoDigits(day);
        IsoText(NatToString(currentYear), MonthNumber(Lower(name)).value, PadLeft(day, 2, '0'));
      }
  }

  /** Digits are copied without a range check: thirteenth months and forty-fifth
      days come out as they were written. */
  lemma NumericDatesAreNotChecked(currentYear: nat)
    ensures ExtractDate("13/45/2024", currentYear) == Some("2024-13-45")
  {
    var s := "13/45/2024";
    assert DateAt(Slashes, s, 0) == Some(Numeric(s[0..2], s[3..5], s[6..10]));
    assert s[0..2] == "13" && s[3..5] == "45" && s[6..10] == "2024";
    assert SearchDate(Slashes, s, 0) == Some((0, Numeric("13", "45", "2024")));
    assert DateText(Numeric("13", "45", "2024"), currentYear) == Some("2024" + "-" + "13" + "-" + "45");
    assert "2024" + "-" + "13" + "-" + "45" == "2024-13-45";
  }

  /** A one-digit month and day are zero-padded. */
  lemma NumericDatePadded(currentYear: nat)
    ensures ExtractDate("7/4/2024", currentYear) == Some("2024-07-04")
  {
    var s := "7/4/2024";
    assert !DigitsAt(s, 0, 2);
    assert !DigitsAt(s, 2, 2);
    assert DateAt(Slashes, s, 0) == Some(Numeric(s[0..1], s[2..3], s[4..8]));
    assert s[0..1] == "7" && s[2..3] == "4" && s[4..8] == "2024";
    assert PadLeft("7", 2, '0') == "07";
    assert PadLeft("4", 2, '0') == "04";
    assert SearchDate(Slashes, s, 0) == Some((0, Numeric("7", "4", "2024")));
    assert DateText(Numeric("7", "4", "2024"), currentYear) == Some("2024" + "-" + "07" + "-" + "04");
    assert "2024" + "-" + "07" + "-" + "04" == "2024-07-04";
  }
}
