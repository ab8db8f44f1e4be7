/**
 * Text formatting of the calculator: JavaScript's String() of an integer,
 * padStart/slice, Array.join, the period descriptions ("1 year, 2 months")
 * and the two date formats. Each format comes with a parser that recovers
 * what was formatted, and the round trip is proved.
 */
module Text {
  import opened Wrappers

  predicate IsDigit(c: char) { '0' <= c <= '9' }

  predicate AllDigits(s: string) { forall i :: 0 <= i < |s| ==> IsDigit(s[i]) }

  function DigitChar(d: nat): (c: char)
    requires d < 10
    ensures IsDigit(c) && c as int - '0' as int == d
  {
    ('0' as int + d) as char
  }

  /** String(n) for a non-negative integer: the shortest decimal numeral. */
  function NatString(n: nat): (s: string)
    ensures |s| >= 1 && AllDigits(s)
    ensures n > 0 ==> s[0] != '0'
    ensures n < 10 <==> |s| == 1
  {
    if n < 10 then [DigitChar(n)] else NatString(n / 10) + [DigitChar(n % 10)]
  }

  /** The number a string of decimal digits denotes. */
  function DigitsValue(s: string): nat
    requires AllDigits(s)
  {
    if s == [] then 0 else 10 * DigitsValue(s[..|s| - 1]) + (s[|s| - 1] as int - '0' as int)
  }

  lemma {:induction false} NatStringRoundTrip(n: nat)
    ensures DigitsValue(NatString(n)) == n
  {
    if n >= 10 {
      NatStringRoundTrip(n / 10);
      var s := NatString(n);
      assert s[..|s| - 1] == NatString(n / 10);
    }
  }

  /** String(i) for any integer: a minus sign before the numeral of |i|. */
  function IntString(i: int): (s: string)
    ensures |s| >= 1 && ' ' !in s && ',' !in s
  {
    if i < 0 then "-" + NatString(-i) else NatString(i)
  }

  function ParseInt(s: string): Option<int>
  {
    if |s| > 1 && s[0] == '-' && AllDigits(s[1..]) then Some(-(DigitsValue(s[1..]) as int))
    else if |s| > 0 && AllDigits(s) then Some(DigitsValue(s))
    else None
  }

  lemma IntStringRoundTrip(i: int)
    ensures ParseInt(IntString(i)) == Some(i)
  {
    if i < 0 {
      var t := NatString(-i);
      var s := "-" + t;
      assert s == IntString(i);
      assert s[0] == '-' && s[1..] == t;
      NatStringRoundTrip(-i);
      assert ParseInt(s) == Some(-(DigitsValue(t) as int));
    } else {
      NatStringRoundTrip(i);
    }
  }

  /** s.padStart(2, '0'). */
  function PadStart2(s: string): (r: string)
    ensures |r| == if |s| < 2 then 2 else |s|
    ensures r[|r| - |s|..] == s && forall i :: 0 <= i < |r| - |s| ==> r[i] == '0'
  {
    if |s| == 0 then "00" else if |s| == 1 then "0" + s else s
  }

  /** s.slice(-2): the last two characters, or all of a shorter string. */
  function SliceLast2(s: string): (r: string)
    ensures |r| == if |s| < 2 then |s| else 2
    ensures s == s[..|s| - |r|] + r
  {
    if |s| <= 2 then s else s[|s| - 2..]
  }

  /**
   * A string split at every occurrence of c. The calculator itself never
   * splits strings: the parsers below, which read the formatters' output
   * back, use it.
   */
  function SplitOn(s: string, c: char): (parts: seq<string>)
    ensures |parts| >= 1
  {
    if s == [] then [[]]
    else
      var rest := SplitOn(s[1..], c);
      if s[0] == c then [[]] + rest else [[s[0]] + rest[0]] + rest[1..]
  }

  lemma {:induction false} SplitOnPrefix(a: string, b: string, c: char)
    requires c !in a
    ensures SplitOn(a + b, c) == [a + SplitOn(b, c)[0]] + SplitOn(b, c)[1..]
  {
    if a == [] {
      assert a + b == b;
      var sb := SplitOn(b, c);
      assert a + sb[0] == sb[0];
      assert sb == [sb[0]] + sb[1..];
    } else {
      SplitOnPrefix(a[1..], b, c);
      var x := a + b;
      assert x[0] == a[0] && x[0] != c;
      assert x[1..] == a[1..] + b;
      var rest := SplitOn(x[1..], c);
      assert SplitOn(x, c) == [[x[0]] + rest[0]] + rest[1..];
      assert rest[0] == a[1..] + SplitOn(b, c)[0];
      assert rest[1..] == SplitOn(b, c)[1..];
      assert [a[0]] + (a[1..] + SplitOn(b, c)[0]) == a + SplitOn(b, c)[0];
    }
  }

  lemma SplitOnNone(a: string, c: char)
    requires c !in a
    ensures SplitOn(a, c) == [a]
  {
    SplitOnPrefix(a, [], c);
    assert a + [] == a;
  }

  lemma SplitOnOne(a: string, b: string, c: char)
    requires c !in a
    ensures SplitOn(a + [c] + b, c) == [a] + SplitOn(b, c)
  {
    var cb := [c] + b;
    SplitOnPrefix(a, cb, c);
    assert a + [c] + b == a + cb;
    assert cb[0] == c && cb[1..] == b;
    assert SplitOn(cb, c) == [[]] + SplitOn(b, c);
    assert a + [] == a;
  }

  /** parts.join(sep): the parts with sep between neighbours. */
  function Join(parts: seq<string>, sep: string): string
  {
    if parts == [] then [] else parts[0] + JoinRest(parts[1..], sep)
  }

  /** The separator before each of the given parts, concatenated. */
  function JoinRest(parts: seq<string>, sep: string): string
  {
    if parts == [] then [] else sep + parts[0] + JoinRest(parts[1..], sep)
  }

  function Spaced(parts: seq<string>): (r: seq<string>)
    ensures |r| == |parts| && forall i :: 0 <= i < |r| ==> r[i] == " " + parts[i]
  {
    if parts == [] then [] else [" " + parts[0]] + Spaced(parts[1..])
  }

  predicate NoComma(parts: seq<string>) { forall i :: 0 <= i < |parts| ==> ',' !in parts[i] }

  /** Splitting a ", "-joined tail at commas gives back the parts, each after one space. */
  lemma {:induction false} SplitJoinRest(a: string, parts: seq<string>)
    requires ',' !in a && NoComma(parts)
    ensures SplitOn(a + JoinRest(parts, ", "), ',') == [a] + Spaced(parts)
    decreases |parts|
  {
    if parts == [] {
      assert a + JoinRest(parts, ", ") == a;
      SplitOnNone(a, ',');
    } else {
      var p, tail := parts[0], parts[1..];
      assert NoComma(tail) by { forall i | 0 <= i < |tail| ensures ',' !in tail[i] { assert tail[i] == parts[i + 1]; } }
      SplitJoinRest(" " + p, tail);
      assert a + JoinRest(parts, ", ") == a + [','] + ((" " + p) + JoinRest(tail, ", "));
      SplitOnOne(a, (" " + p) + JoinRest(tail, ", "), ',');
    }
  }

  // ---------------------------------------------------------------------
  // Period descriptions

  datatype Unit = Year | Month | Day

  function UnitWord(u: Unit): string
  {
    match u
    case Year => "year"
    case Month => "month"
    case Day => "day"
  }

  /** One "<count> <unit>" component of a period description. */
  datatype Part = Part(count: int, unit: Unit)

  /** "<n> <unit>", with a plural "s" unless n is exactly 1. */
  function PartText(p: Part): (s: string)
    requires p.count > 0
    ensures ',' !in s && s != [] && s[0] != ' '
  {
    NatString(p.count) + " " + UnitWord(p.unit) + (if p.count != 1 then "s" else "")
  }

  /** The components that are shown: only the positive ones, in year, month, day order. */
  function PeriodParts(years: int, months: int, days: int): (ps: seq<Part>)
    ensures forall i :: 0 <= i < |ps| ==> ps[i].count > 0
  {
    (if years > 0 then [Part(years, Year)] else [])
    + (if months > 0 then [Part(months, Month)] else [])
    + (if days > 0 then [Part(days, Day)] else [])
  }

  function PartTexts(ps: seq<Part>): (r: seq<string>)
    requires forall i :: 0 <= i < |ps| ==> ps[i].count > 0
    ensures |r| == |ps| && NoComma(r)
    ensures forall i :: 0 <= i < |r| ==> r[i] == PartText(ps[i])
  {
    if ps == [] then [] else [PartText(ps[0])] + PartTexts(ps[1..])
  }

  /** formatTimePeriodFromInputs: the shown components joined by ", ", or "0 days" when none is shown. */
  function FormatTimePeriodFromInputs(years: int, months: int, days: int): string
  {
    var joined := Join(PartTexts(PeriodParts(years, months, days)), ", ");
    if joined == "" then "0 days" else joined
  }

  /**
   * formatTimePeriod: a day count split into 365-day years, 30-day months and
   * the remaining days, then described as above.
   */
  function FormatTimePeriod(totalDays: nat): string
  {
    var years := totalDays / 365;
    var remainingDays := totalDays % 365;
    FormatTimePeriodFromInputs(years, remainingDays / 30, remainingDays % 30)
  }

  // Parsing a period description back

  /** The unit a word names, and whether the word is the plural form. */
  function UnitOfWord(w: string): Option<(Unit, bool)>
  {
    if w == "year" then Some((Year, false))
    else if w == "years" then Some((Year, true))
    else if w == "month" then Some((Month, false))
    else if w == "months" then Some((Month, true))
    else if w == "day" then Some((Day, false))
    else if w == "days" then Some((Day, true))
    else None
  }

  /** "<digits> <unit word>", after at most one leading space; the plural is accepted exactly when the count is not 1. */
  function ParsePart(segment: string): Option<Part>
  {
    var body := if |segment| > 0 && segment[0] == ' ' then segment[1..] else segment;
    var words := SplitOn(body, ' ');
    if |words| == 2 && words[0] != [] && AllDigits(words[0]) then
      match UnitOfWord(words[1])
      case Some((u, plural)) =>
        var n := DigitsValue(words[0]);
        if plural == (n != 1) then Some(Part(n, u)) else None
      case None => None
    else None
  }

  function ParseParts(segments: seq<string>): Option<seq<Part>>
  {
    if segments == [] then Some([])
    else
      match ParsePart(segments[0])
      case None => None
      case Some(p) =>
        match ParseParts(segments[1..])
        case None => None
        case Some(ps) => Some([p] + ps)
  }

  /** Each parsed component sets its own field; missing ones stay 0. */
  function Assemble(ps: seq<Part>, years: int, months: int, days: int): (int, int, int)
  {
    if ps == [] then (years, months, days)
    else
      match ps[0].unit
      case Year => Assemble(ps[1..], ps[0].count, months, days)
      case Month => Assemble(ps[1..], years, ps[0].count, days)
      case Day => Assemble(ps[1..], years, months, ps[0].count)
  }

  /** Years come before months, and months before days. */
  function Rank(u: Unit): int
  {
    match u
    case Year => 0
    case Month => 1
    case Day => 2
  }

  /** Components listed strictly in year, month, day order, so none repeats. */
  predicate InUnitOrder(ps: seq<Part>)
  {
    forall i, j :: 0 <= i < j < |ps| ==> Rank(ps[i].unit) < Rank(ps[j].unit)
  }

  /** Reads a period description back into (years, months, days); components out of order are refused. */
  function ParsePeriodText(s: string): Option<(int, int, int)>
  {
    match ParseParts(SplitOn(s, ','))
    case None => None
    case Some(ps) => if InUnitOrder(ps) then Some(Assemble(ps, 0, 0, 0)) else None
  }

  /** A count of 1 with a plural word, as in "1 years", is refused. */
  lemma OneWithPluralRefused(word: string, u: Unit)
    requires ' ' !in word && UnitOfWord(word) == Some((u, true))
    ensures ParsePart("1 " + word) == None
  {
    assert "1 " + word == "1" + [' '] + word;
    SplitOnOne("1", word, ' ');
    SplitOnNone(word, ' ');
    assert SplitOn("1 " + word, ' ') == ["1", word];
    assert AllDigits("1") && DigitsValue("1") == 1;
  }

  /** A "<digits> <word>" segment parses to the number and the unit the word names. */
  lemma ParsePartOf(num: string, word: string, u: Unit)
    requires num != [] && AllDigits(num) && ' ' !in word && UnitOfWord(word) == Some((u, DigitsValue(num) != 1))
    ensures ParsePart(num + " " + word) == Some(Part(DigitsValue(num), u))
    ensures ParsePart(" " + num + " " + word) == Some(Part(DigitsValue(num), u))
  {
    assert ' ' !in num by { forall i | 0 <= i < |num| ensures num[i] != ' ' { assert IsDigit(num[i]); } }
    SplitOnOne(num, word, ' ');
    SplitOnNone(word, ' ');
    assert num + " " + word == num + [' '] + word;
    assert (" " + num + " " + word)[1..] == num + " " + word;
  }

  lemma UnitWordParses(u: Unit, plural: bool)
    ensures var w := UnitWord(u) + (if plural then "s" else ""); ' ' !in w && UnitOfWord(w) == Some((u, plural))
  {
    var w := UnitWord(u) + (if plural then "s" else "");
    match u
    case Year => assert w == if plural then "years" else "year";
    case Month => assert w == if plural then "months" else "month";
    case Day => assert w == if plural then "days" else "day";
  }

  lemma PartTextParses(p: Part)
    requires p.count > 0
    ensures ParsePart(PartText(p)) == Some(p) && ParsePart(" " + PartText(p)) == Some(p)
  {
    var num := NatString(p.count);
    var word := UnitWord(p.unit) + (if p.count != 1 then "s" else "");
    assert PartText(p) == num + " " + word;
    assert DigitsValue(num) == p.count by { NatStringRoundTrip(p.count); }
    assert ParsePart(num + " " + word) == Some(Part(DigitsValue(num), p.unit))
      && ParsePart(" " + num + " " + word) == Some(Part(DigitsValue(num), p.unit)) by {
      UnitWordParses(p.unit, p.count != 1);
      ParsePartOf(num, word, p.unit);
    }
    assert " " + PartText(p) == " " + num + " " + word;
  }

  /** Segments that each parse after one leading space parse, as a list, to their components. */
  lemma {:induction false} ParseSpaced(texts: seq<string>, ps: seq<Part>)
    requires |texts| == |ps|
    requires forall i :: 0 <= i < |texts| ==> ParsePart(" " + texts[i]) == Some(ps[i])
    ensures ParseParts(Spaced(texts)) == Some(ps)
    decreases |texts|
  {
    if texts != [] {
      ParseSpaced(texts[1..], ps[1..]);
      var segs := Spaced(texts);
      assert segs[1..] == Spaced(texts[1..]);
      ParsePartsCons(segs[0], segs[1..], ps[0], ps[1..]);
      assert [segs[0]] + segs[1..] == segs;
      assert [ps[0]] + ps[1..] == ps;
    }
  }

  lemma ParsePartsCons(segment: string, segments: seq<string>, p: Part, ps: seq<Part>)
    requires ParsePart(segment) == Some(p) && ParseParts(segments) == Some(ps)
    ensures ParseParts([segment] + segments) == Some([p] + ps)
  {
    assert ([segment] + segments)[1..] == segments;
  }

  lemma SplitJoined(texts: seq<string>)
    requires texts != [] && NoComma(texts)
    ensures SplitOn(Join(texts, ", "), ',') == [texts[0]] + Spaced(texts[1..])
  {
    var rest := texts[1..];
    assert NoComma(rest) by { forall i | 0 <= i < |rest| ensures ',' !in rest[i] { assert rest[i] == texts[i + 1]; } }
    SplitJoinRest(texts[0], rest);
  }

  /** Splitting ", "-joined texts at commas and parsing each piece gives back their components. */
  lemma ParseJoined(texts: seq<string>, ps: seq<Part>)
    requires texts != [] && NoComma(texts) && |texts| == |ps|
    requires forall i :: 0 <= i < |texts| ==> ParsePart(texts[i]) == Some(ps[i])
    requires forall i :: 0 <= i < |texts| ==> ParsePart(" " + texts[i]) == Some(ps[i])
    ensures ParseParts(SplitOn(Join(texts, ", "), ',')) == Some(ps)
  {
    var rest, prest := texts[1..], ps[1..];
    SplitJoined(texts);
    forall i | 0 <= i < |rest| ensures ParsePart(" " + rest[i]) == Some(prest[i]) {
      assert rest[i] == texts[i + 1] && prest[i] == ps[i + 1];
    }
    ParseSpaced(rest, prest);
    ParsePartsCons(texts[0], Spaced(rest), ps[0], prest);
    assert [ps[0]] + prest == ps;
  }

  lemma JoinedPartsParse(ps: seq<Part>)
    requires forall i :: 0 <= i < |ps| ==> ps[i].count > 0
    requires ps != []
    ensures ParseParts(SplitOn(Join(PartTexts(ps), ", "), ',')) == Some(ps)
  {
    var texts := PartTexts(ps);
    forall i | 0 <= i < |texts|
      ensures ParsePart(texts[i]) == Some(ps[i]) && ParsePart(" " + texts[i]) == Some(ps[i])
    {
      PartTextParses(ps[i]);
    }
    ParseJoined(texts, ps);
  }

  lemma JoinNonEmpty(texts: seq<string>)
    requires texts != [] && texts[0] != []
    ensures Join(texts, ", ") != []
  {
  }

  /** Reading the shown components back fills in every field, a missing one being zero. */
  lemma AssemblePeriodParts(years: nat, months: nat, days: nat)
    ensures Assemble(PeriodParts(years, months, days), 0, 0, 0) == (years, months, days)
  {
    var y := if years > 0 then [Part(years, Year)] else [];
    var m := if months > 0 then [Part(months, Month)] else [];
    var d := if days > 0 then [Part(days, Day)] else [];
    assert PeriodParts(years, months, days) == y + m + d;
    var yv := if years > 0 then years else 0;
    assert Assemble(y + m + d, 0, 0, 0) == Assemble(m + d, yv, 0, 0) by {
      if years > 0 { assert (y + m + d)[0] == Part(years, Year) && (y + m + d)[1..] == m + d; }
      else { assert y + m + d == m + d; }
    }
    var mv := if months > 0 then months else 0;
    assert Assemble(m + d, yv, 0, 0) == Assemble(d, yv, mv, 0) by {
      if months > 0 { assert (m + d)[0] == Part(months, Month) && (m + d)[1..] == d; }
      else { assert m + d == d; }
    }
    if days > 0 {
      assert d[0] == Part(days, Day) && d[1..] == [];
      assert Assemble(d, yv, mv, 0) == Assemble([], yv, mv, days);
    }
  }

  /** The shown components come in year, month, day order. */
  lemma PeriodPartsInOrder(years: int, months: int, days: int)
    ensures InUnitOrder(PeriodParts(years, months, days))
  {
    var ps := PeriodParts(years, months, days);
    forall i, j | 0 <= i < j < |ps| ensures Rank(ps[i].unit) < Rank(ps[j].unit) {
      var y := if years > 0 then [Part(years, Year)] else [];
      var m := if months > 0 then [Part(months, Month)] else [];
      var d := if days > 0 then [Part(days, Day)] else [];
      assert ps == y + m + d;
      assert forall k :: 0 <= k < |ps| ==> Rank(ps[k].unit) == if k < |y| then 0 else if k < |y| + |m| then 1 else 2;
    }
  }

  /** "0 days", shown when no component is positive, reads back as all zeros. */
  lemma ZeroDaysParses()
    ensures ParsePeriodText("0 days") == Some((0, 0, 0))
  {
    var z := "0 days";
    assert SplitOn(z, ',') == [z] by { SplitOnNone(z, ','); }
    assert ParsePart(z) == Some(Part(0, Day)) by {
      assert z == "0" + " " + "days";
      assert DigitsValue("0") == 0;
      ParsePartOf("0", "days", Day);
    }
    assert ParseParts([z]) == Some([Part(0, Day)]) by {
      ParsePartsCons(z, [], Part(0, Day), []);
      assert [z] + [] == [z] && [Part(0, Day)] + [] == [Part(0, Day)];
    }
    assert InUnitOrder([Part(0, Day)]);
    assert Assemble([Part(0, Day)], 0, 0, 0) == (0, 0, 0);
  }

  /** With some component positive, the joined components read back as the inputs. */
  lemma ShownPartsRoundTrip(years: nat, months: nat, days: nat)
    requires PeriodParts(years, months, days) != []
    ensures var joined := Join(PartTexts(PeriodParts(years, months, days)), ", ");
      joined != [] && ParsePeriodText(joined) == Some((years, months, days))
  {
    var ps := PeriodParts(years, months, days);
    var joined := Join(PartTexts(ps), ", ");
    assert joined != [] by { JoinNonEmpty(PartTexts(ps)); }
    assert ParseParts(SplitOn(joined, ',')) == Some(ps) by { JoinedPartsParse(ps); }
    PeriodPartsInOrder(years, months, days);
    AssemblePeriodParts(years, months, days);
  }

  /** The period description round-trips for non-negative inputs: parsing it gives back the inputs. */
  lemma FormatTimePeriodFromInputsRoundTrip(years: nat, months: nat, days: nat)
    ensures ParsePeriodText(FormatTimePeriodFromInputs(years, months, days)) == Some((years, months, days))
  {
    if PeriodParts(years, months, days) == [] {
      assert years == 0 && months == 0 && days == 0;
      ZeroDaysParses();
    } else {
      ShownPartsRoundTrip(years, months, days);
    }
  }

  /**
   * formatTimePeriod splits a day count into 365-day years, 30-day months and
   * days below 30; the description reads back to exactly that split.
   */
  lemma FormatTimePeriodDecomposes(totalDays: nat)
    ensures var r := ParsePeriodText(FormatTimePeriod(totalDays));
      && r.Some?
      && 365 * r.value.0 + 30 * r.value.1 + r.value.2 == totalDays
      && r.value.0 == totalDays / 365 && 0 <= r.value.1 <= 12 && 0 <= r.value.2 < 30
  {
    var remainingDays := totalDays % 365;
    FormatTimePeriodFromInputsRoundTrip(totalDays / 365, remainingDays / 30, remainingDays % 30);
  }

  /** A description with a single shown component is that component's text alone. */
  lemma SinglePartFormat(years: int, months: int, days: int, p: Part)
    requires PeriodParts(years, months, days) == [p]
    ensures p.count > 0 && FormatTimePeriodFromInputs(years, months, days) == PartText(p)
  {
    assert PeriodParts(years, months, days)[0] == p;
    assert PartTexts([p]) == [PartText(p)];
    assert Join([PartText(p)], ", ") == PartText(p) + JoinRest([], ", ");
  }

  /** Thirty-day months make 360 to 364 days read as twelve months rather than a year. */
  lemma TwelveMonthsBeforeAYear()
    ensures FormatTimePeriod(360) == "12 months"
  {
    assert 360 / 365 == 0 && 360 % 365 == 360 && 360 / 30 == 12 && 360 % 30 == 0;
    assert FormatTimePeriod(360) == FormatTimePeriodFromInputs(0, 12, 0);
    SinglePartFormat(0, 12, 0, Part(12, Month));
    TwelveMonthsText();
  }

  lemma TwelveMonthsText()
    ensures PartText(Part(12, Month)) == "12 months"
  {
    assert NatString(12) == "12" by {
      assert NatString(12) == NatString(1) + [DigitChar(2)];
    }
  }

  /** A whole 365-day year reads as one year, singular. */
  lemma OneYear()
    ensures FormatTimePeriod(365) == "1 year"
  {
    assert 365 / 365 == 1 && 365 % 365 == 0 && 0 / 30 == 0 && 0 % 30 == 0;
    assert FormatTimePeriod(365) == FormatTimePeriodFromInputs(1, 0, 0);
    SinglePartFormat(1, 0, 0, Part(1, Year));
    assert PartText(Part(1, Year)) == "1 year";
  }

  // ---------------------------------------------------------------------
  // Dates, given as the day of the month, the month index (0 = January) and the year

  const MonthNames: seq<string> := ["Jan", "Feb", "Mar", "Apr", "May", "Jun", "Jul", "Aug", "Sep", "Oct", "Nov", "Dec"]

  /** formatDateLong: "D Mon YYYY", e.g. "10 Oct 2025". */
  function FormatDateLong(day: int, monthIndex: int, year: int): string
    requires 0 <= monthIndex < 12
  {
    IntString(day) + " " + MonthNames[monthIndex] + " " + IntString(year)
  }

  /** formatDateShort: "DD/MM/YY", each field zero-padded to two characters, the year cut to its last two. */
  function FormatDateShort(day: int, monthIndex: int, year: int): string
    requires 0 <= monthIndex < 12
  {
    PadStart2(IntString(day)) + "/" + PadStart2(IntString(monthIndex + 1)) + "/" + SliceLast2(IntString(year))
  }

  function MonthIndexOf(name: string): Option<int>
  {
    if name == "Jan" then Some(0) else if name == "Feb" then Some(1)
    else if name == "Mar" then Some(2) else if name == "Apr" then Some(3)
    else if name == "May" then Some(4) else if name == "Jun" then Some(5)
    else if name == "Jul" then Some(6) else if name == "Aug" then Some(7)
    else if name == "Sep" then Some(8) else if name == "Oct" then Some(9)
    else if name == "Nov" then Some(10) else if name == "Dec" then Some(11)
    else None
  }

  /** Reads a long date back into (day, month index, year). */
  function ParseDateLong(s: string): Option<(int, int, int)>
  {
    var words := SplitOn(s, ' ');
    if |words| != 3 then None
    else
      match (ParseInt(words[0]), MonthIndexOf(words[1]), ParseInt(words[2]))
      case (Some(d), Some(m), Some(y)) => Some((d, m, y))
      case _ => None
  }

  lemma MonthNameRoundTrip(monthIndex: int)
    requires 0 <= monthIndex < 12
    ensures MonthIndexOf(MonthNames[monthIndex]) == Some(monthIndex) && ' ' !in MonthNames[monthIndex]
  {
  }

  /** The long date round-trips: its three words give back the day, the month and the year. */
  lemma FormatDateLongRoundTrip(day: int, monthIndex: int, year: int)
    requires 0 <= monthIndex < 12
    ensures ParseDateLong(FormatDateLong(day, monthIndex, year)) == Some((day, monthIndex, year))
  {
    var d, m, y := IntString(day), MonthNames[monthIndex], IntString(year);
    MonthNameRoundTrip(monthIndex);
    assert FormatDateLong(day, monthIndex, year) == d + [' '] + (m + [' '] + y);
    SplitOnOne(d, m + [' '] + y, ' ');
    SplitOnOne(m, y, ' ');
    SplitOnNone(y, ' ');
    IntStringRoundTrip(day);
    IntStringRoundTrip(year);
  }

  /** Reads a short date back into (day, month index, two-digit year). */
  function ParseDateShort(s: string): Option<(int, int, int)>
  {
    if |s| == 8 && s[2] == '/' && s[5] == '/' && AllDigits(s[..2]) && AllDigits(s[3..5]) && AllDigits(s[6..])
    then Some((DigitsValue(s[..2]), DigitsValue(s[3..5]) - 1, DigitsValue(s[6..])))
    else None
  }

  lemma NatStringLastDigit(n: nat)
    ensures NatString(n)[|NatString(n)| - 1] == DigitChar(n % 10)
  {
  }

  /** A number below 100, zero-padded, is two digits that denote it. */
  lemma PaddedTwoDigits(n: nat)
    requires n < 100
    ensures var s := PadStart2(NatString(n)); |s| == 2 && AllDigits(s) && DigitsValue(s) == n
  {
    if n < 10 {
      assert NatString(n) == [DigitChar(n)];
      assert PadStart2(NatString(n)) == ['0', DigitChar(n)];
      TwoDigitsValue('0', DigitChar(n));
    } else {
      assert NatString(n) == [DigitChar(n / 10), DigitChar(n % 10)] by {
        assert NatString(n / 10) == [DigitChar(n / 10)];
      }
      TwoDigitsValue(DigitChar(n / 10), DigitChar(n % 10));
    }
  }

  lemma HundredSplit(y: nat)
    ensures y % 100 == 10 * ((y / 10) % 10) + y % 10
  {
    var q, r := y / 10, y % 10;
    var a, b := q / 10, q % 10;
    assert y == 100 * a + (10 * b + r);
    assert 0 <= 10 * b + r < 100;
  }

  lemma TwoDigitsValue(a: char, b: char)
    requires IsDigit(a) && IsDigit(b)
    ensures DigitsValue([a, b]) == 10 * (a as int - '0' as int) + (b as int - '0' as int)
  {
    assert [a, b][..1] == [a];
    assert [a][..0] == [];
    assert DigitsValue([a]) == 10 * DigitsValue([]) + (a as int - '0' as int);
    assert DigitsValue([a, b]) == 10 * DigitsValue([a]) + (b as int - '0' as int);
  }

  lemma SliceLast2Append(t: string, c: char)
    requires |t| >= 1
    ensures SliceLast2(t + [c]) == [t[|t| - 1], c]
  {
    var u := t + [c];
    assert u[|u| - 2..] == [t[|t| - 1], c];
  }

  lemma NatStringLastTwo(y: nat)
    requires y >= 10
    ensures SliceLast2(NatString(y)) == [DigitChar((y / 10) % 10), DigitChar(y % 10)]
  {
    var q, r := y / 10, y % 10;
    var t := NatString(q);
    assert NatString(y) == t + [DigitChar(r)];
    assert t[|t| - 1] == DigitChar(q % 10) by { NatStringLastDigit(q); }
    SliceLast2Append(t, DigitChar(r));
  }

  /** The last two characters of a year of two or more digits denote the year modulo 100. */
  lemma LastTwoDigits(y: nat)
    requires y >= 10
    ensures var s := SliceLast2(NatString(y)); |s| == 2 && AllDigits(s) && DigitsValue(s) == y % 100
  {
    var b, r := (y / 10) % 10, y % 10;
    NatStringLastTwo(y);
    TwoDigitsValue(DigitChar(b), DigitChar(r));
    HundredSplit(y);
  }

  lemma ShortDateFields(d: string, m: string, y: string)
    requires |d| == 2 && |m| == 2 && |y| == 2
    ensures var s := d + "/" + m + "/" + y;
      |s| == 8 && s[2] == '/' && s[5] == '/' && s[..2] == d && s[3..5] == m && s[6..] == y
  {
  }

  /**
   * The short date round-trips for real calendar fields: day and month come
   * back exactly, and a year of two or more digits comes back modulo 100.
   */
  lemma FormatDateShortRoundTrip(day: int, monthIndex: int, year: int)
    requires 1 <= day <= 31 && 0 <= monthIndex < 12 && year >= 10
    ensures ParseDateShort(FormatDateShort(day, monthIndex, year)) == Some((day, monthIndex, year % 100))
  {
    var d, m, y := PadStart2(IntString(day)), PadStart2(IntString(monthIndex + 1)), SliceLast2(IntString(year));
    PaddedTwoDigits(day);
    PaddedTwoDigits(monthIndex + 1);
    LastTwoDigits(year);
    ShortDateFields(d, m, y);
  }
}
