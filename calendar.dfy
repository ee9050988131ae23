/** The "Save to Calendar" helpers of the agenda page (index.tsx lines
    1125-1250): the time stamp of `formatTime` for Google and iCal, the
    `.ics` text of `createIcsContent`, the download's file name, and the date
    each agenda day stands for. Dates and times are given as components; the
    `Date` arithmetic that produces them is not modelled. */
module Calendar {
  import opened Wrappers
  import opened Text

  /** The UTC components `formatTime` reads from a `Date`; `month` is
      `getUTCMonth() + 1`. */
  datatype DateTime = DateTime(year: nat, month: nat, day: nat, hour: nat, minute: nat, second: nat)

  /** Components of a real date and time with a four-digit year. */
  predicate InRange(t: DateTime) {
    1000 <= t.year <= 9999 && 1 <= t.month <= 12 && 1 <= t.day <= 31 &&
    t.hour < 24 && t.minute < 60 && t.second < 60
  }

  /** `formatTime(date, 'google' | 'ical')`: the year as a number followed by
      the padded fields, 'T' between date and time and 'Z' at the end. */
  function FormatTime(t: DateTime): string {
    NatToString(t.year) + Pad2(t.month) + Pad2(t.day) + "T" +
    Pad2(t.hour) + Pad2(t.minute) + Pad2(t.second) + "Z"
  }

  /** The UTC form of a DATE-TIME value (section 3.3.5 of RFC 5545, form 2):
      eight date digits, 'T', six time digits, 'Z'. */
  predicate IsUtcDateTime(s: string) {
    |s| == 16 && AllDigits(s[..8]) && s[8] == 'T' && AllDigits(s[9..15]) && s[15] == 'Z'
  }

  /** Reading a UTC DATE-TIME value back into its components. */
  function ParseUtcDateTime(s: string): (r: Option<DateTime>)
    ensures r.Some? <==> IsUtcDateTime(s)
  {
    if !IsUtcDateTime(s) then None
    else
      UtcDigits(s);
      Some(DateTime(DecimalValue(s[..4]), DecimalValue(s[4..6]), DecimalValue(s[6..8]),
                    DecimalValue(s[9..11]), DecimalValue(s[11..13]), DecimalValue(s[13..15])))
  }

  /** The six digit groups of a UTC DATE-TIME value. */
  lemma UtcDigits(s: string)
    requires IsUtcDateTime(s)
    ensures AllDigits(s[..4]) && AllDigits(s[4..6]) && AllDigits(s[6..8])
    ensures AllDigits(s[9..11]) && AllDigits(s[11..13]) && AllDigits(s[13..15])
  {
    assert s[0..8] == s[..8];
    DigitsWithin(s, 0, 8, 0, 4);
    DigitsWithin(s, 0, 8, 4, 6);
    DigitsWithin(s, 0, 8, 6, 8);
    DigitsWithin(s, 9, 15, 9, 11);
    DigitsWithin(s, 9, 15, 11, 13);
    DigitsWithin(s, 9, 15, 13, 15);
  }

  lemma DigitsWithin(s: string, a: nat, b: nat, i: nat, j: nat)
    requires a <= i <= j <= b <= |s| && AllDigits(s[a..b])
    ensures AllDigits(s[i..j])
  {
    forall k | 0 <= k < j - i ensures IsDigit(s[i..j][k]) {
      assert s[i..j][k] == s[a..b][i - a + k];
    }
  }

  lemma FourDigitYear(n: nat)
    requires 1000 <= n <= 9999
    ensures |NatToString(n)| == 4
  {
    assert |NatToString(n / 10 / 10 / 10)| == 1;
    assert |NatToString(n / 10 / 10)| == 2;
    assert |NatToString(n / 10)| == 3;
  }

  /** The pieces of a stamp, at the offsets the format puts them. */
  lemma StampPieces(y: string, mo: string, d: string, h: string, mi: string, s: string)
    requires |y| == 4 && |mo| == 2 && |d| == 2 && |h| == 2 && |mi| == 2 && |s| == 2
    ensures var t := y + mo + d + "T" + h + mi + s + "Z";
      |t| == 16 && t[..4] == y && t[4..6] == mo && t[6..8] == d && t[8] == 'T' &&
      t[9..11] == h && t[11..13] == mi && t[13..15] == s && t[15] == 'Z' &&
      t[..8] == y + mo + d && t[9..15] == h + mi + s
  {
  }

  lemma AllDigitsConcat(a: string, b: string)
    requires AllDigits(a) && AllDigits(b)
    ensures AllDigits(a + b)
  {
    assert forall i :: 0 <= i < |a + b| ==> (a + b)[i] == if i < |a| then a[i] else b[i - |a|];
  }

  /** In range, the stamp has the UTC DATE-TIME form and reads back as the
      components it was made from. */
  lemma ParseFormatTime(t: DateTime)
    requires InRange(t)
    ensures IsUtcDateTime(FormatTime(t))
    ensures ParseUtcDateTime(FormatTime(t)) == Some(t)
  {
    var y := NatToString(t.year);
    FourDigitYear(t.year);
    DecimalOfNatToString(t.year);
    StampPieces(y, Pad2(t.month), Pad2(t.day), Pad2(t.hour), Pad2(t.minute), Pad2(t.second));
    AllDigitsConcat(y, Pad2(t.month));
    AllDigitsConcat(y + Pad2(t.month), Pad2(t.day));
    AllDigitsConcat(Pad2(t.hour), Pad2(t.minute));
    AllDigitsConcat(Pad2(t.hour) + Pad2(t.minute), Pad2(t.second));
  }

  /** Years below 1000 print with fewer digits, so the stamp is no longer a
      DATE-TIME value. */
  lemma ShortYearStamp()
    ensures !IsUtcDateTime(FormatTime(DateTime(999, 1, 1, 0, 0, 0)))
  {
    assert |NatToString(999)| == 3;
    assert |FormatTime(DateTime(999, 1, 1, 0, 0, 0))| == 15;
  }

  // ---------------------------------------------------------------- content lines

  const CRLF := "\r\n"
  const LOCATION := "Sheraton Grand Doha Resort & Convention Hotel, Qatar"

  /** The first CRLF of `s`, or `|s|` when there is none. */
  function FindCrlf(s: string): (k: nat)
    ensures k <= |s|
    ensures k < |s| ==> k + 1 < |s| && s[k] == '\r' && s[k + 1] == '\n'
    ensures forall i :: 0 <= i < k && i + 1 < |s| ==> !(s[i] == '\r' && s[i + 1] == '\n')
  {
    if |s| < 2 then |s|
    else if s[0] == '\r' && s[1] == '\n' then 0
    else
      var k := 1 + FindCrlf(s[1..]);
      assert forall i :: 1 <= i < k && i + 1 < |s| ==> s[i] == s[1..][i - 1] && s[i + 1] == s[1..][i];
      k
  }

  /** The lines of a CRLF-delimited text (section 3.1 of RFC 5545). */
  function SplitCrlf(s: string): (ls: seq<string>)
    ensures |ls| > 0
    decreases |s|
  {
    var k := FindCrlf(s);
    if k == |s| then [s] else [s[..k]] + SplitCrlf(s[k + 2..])
  }

  lemma {:induction false} FindCrlfPast(l: string, rest: string)
    requires '\n' !in l
    ensures FindCrlf(l + CRLF + rest) == |l|
  {
    var s := l + CRLF + rest;
    if l != [] {
      assert s[1..] == l[1..] + CRLF + rest;
      FindCrlfPast(l[1..], rest);
      assert s[0] == l[0];
      if |l| == 1 {
        assert s[1] == '\r';
      } else {
        assert s[1] == l[1];
        assert l[1] in l;
      }
    }
  }

  lemma {:induction false} FindCrlfAbsent(l: string)
    requires '\n' !in l
    ensures FindCrlf(l) == |l|
  {
    if |l| >= 2 {
      assert l[1] in l;
      assert '\n' !in l[1..];
      FindCrlfAbsent(l[1..]);
    }
  }

  lemma SplitCrlfStep(l: string, rest: string)
    requires '\n' !in l
    ensures SplitCrlf(l + CRLF + rest) == [l] + SplitCrlf(rest)
  {
    var s := l + CRLF + rest;
    FindCrlfPast(l, rest);
    assert s[..|l|] == l;
    assert s[|l| + 2..] == rest;
  }

  /** Lines without a line feed come back out of their CRLF join. */
  lemma {:induction false} SplitJoinCrlf(ls: seq<string>)
    requires |ls| > 0
    requires forall i :: 0 <= i < |ls| ==> '\n' !in ls[i]
    ensures SplitCrlf(Join(ls, CRLF)) == ls
  {
    if |ls| == 1 {
      FindCrlfAbsent(ls[0]);
    } else {
      var rest := Join(ls[1..], CRLF);
      assert Join(ls, CRLF) == ls[0] + CRLF + rest;
      SplitCrlfStep(ls[0], rest);
      SplitJoinCrlf(ls[1..]);
      assert ls == [ls[0]] + ls[1..];
    }
  }

  // ---------------------------------------------------------------- TEXT values

  /** The control characters TEXT leaves out: those below a space other
      than tab, and DEL. */
  predicate IsControl(c: char) {
    (c < ' ' && c != '\t') || c == '\U{007F}'
  }

  /** A TEXT value as section 3.3.11 of RFC 5545 writes it: a backslash only
      as the start of one of the escapes `\\`, `\;`, `\,`, `\n`, `\N`, no
      bare ';' or ',', and no control character other than tab. */
  predicate IsText(v: string)
    decreases |v|
  {
    if v == [] then true
    else if v[0] == '\\' then
      |v| >= 2 && (v[1] == '\\' || v[1] == ';' || v[1] == ',' || v[1] == 'n' || v[1] == 'N') && IsText(v[2..])
    else v[0] != ';' && v[0] != ',' && !IsControl(v[0]) && IsText(v[1..])
  }

  /** A character TEXT can carry, bare or escaped: anything but a control
      character other than tab and line feed. */
  predicate IsEscapable(c: char) {
    !IsControl(c) || c == '\n'
  }

  predicate Escapable(v: string) {
    forall i :: 0 <= i < |v| ==> IsEscapable(v[i])
  }

  /** In a TEXT value every comma is escaped by the character before it. */
  lemma {:induction false} TextCommaEscaped(v: string, i: nat)
    requires IsText(v) && i < |v| && v[i] == ','
    ensures i > 0 && v[i - 1] == '\\'
  {
    if v[0] == '\\' {
      if i > 2 {
        TextCommaEscaped(v[2..], i - 2);
      }
    } else if i > 1 {
      TextCommaEscaped(v[1..], i - 1);
    }
  }

  /** The escape of one character. */
  function EscapeChar(c: char): string {
    if c == '\\' then "\\\\"
    else if c == ';' then "\\;"
    else if c == ',' then "\\,"
    else if c == '\n' then "\\n"
    else [c]
  }

  function Escape(v: string): (r: string)
    ensures '\n' !in r
  {
    if v == [] then [] else EscapeChar(v[0]) + Escape(v[1..])
  }

  function Unescape(v: string): string
    decreases |v|
  {
    if v == [] then []
    else if v[0] == '\\' && |v| >= 2 then
      [if v[1] == 'n' || v[1] == 'N' then '\n' else v[1]] + Unescape(v[2..])
    else [v[0]] + Unescape(v[1..])
  }

  lemma UnescapeStep(c: char, w: string)
    ensures Unescape(EscapeChar(c) + w) == [c] + Unescape(w)
    ensures IsText(EscapeChar(c) + w) <==> IsEscapable(c) && IsText(w)
  {
    var s := EscapeChar(c) + w;
    if |EscapeChar(c)| == 2 {
      assert s[2..] == w;
    } else {
      assert s[1..] == w;
    }
  }

  /** Escaping always unescapes to the original, and gives a TEXT value
      exactly when the original holds no control character but tab and line
      feed. */
  lemma {:induction false} EscapeRoundTrip(v: string)
    ensures IsText(Escape(v)) <==> Escapable(v)
    ensures Unescape(Escape(v)) == v
  {
    if v != [] {
      EscapeRoundTrip(v[1..]);
      UnescapeStep(v[0], Escape(v[1..]));
      assert v == [v[0]] + v[1..];
      assert Escapable(v) <==> IsEscapable(v[0]) && Escapable(v[1..]) by {
        assert forall i :: 0 < i < |v| ==> v[i] == v[1..][i - 1];
      }
    }
  }

  // ---------------------------------------------------------------- the .ics file

  /** What `createIcsContent` reads: the page's address and the event details. */
  datatype IcsEvent = IcsEvent(url: string, start: DateTime, end: DateTime, title: string,
                               description: string, location: string)

  /** The details the handler builds: the location is always the hotel. */
  function HandlerEvent(url: string, start: DateTime, end: DateTime, title: string,
                        description: string): IcsEvent
  {
    IcsEvent(url, start, end, title, description, LOCATION)
  }

  /** The eleven lines of the file around its six values. */
  function Lines(url: string, start: string, end: string, title: string, description: string,
                 location: string): (ls: seq<string>)
    ensures |ls| == 11 && ls[0] == "BEGIN:VCALENDAR" && ls[1] == "VERSION:2.0" && ls[2] == "BEGIN:VEVENT"
    ensures ls[3] == "URL:" + url && ls[4] == "DTSTART:" + start && ls[5] == "DTEND:" + end
    ensures ls[6] == "SUMMARY:" + title && ls[7] == "DESCRIPTION:" + description
    ensures ls[8] == "LOCATION:" + location && ls[9] == "END:VEVENT" && ls[10] == "END:VCALENDAR"
  {
    ["BEGIN:VCALENDAR", "VERSION:2.0", "BEGIN:VEVENT",
     "URL:" + url,
     "DTSTART:" + start,
     "DTEND:" + end,
     "SUMMARY:" + title,
     "DESCRIPTION:" + description,
     "LOCATION:" + location,
     "END:VEVENT", "END:VCALENDAR"]
  }

  /** The lines with the values as given (as the source writes them): the
      calendar and event frame, the page's address, the two stamps and the
      three text properties, written verbatim. */
  function IcsLines(e: IcsEvent): (ls: seq<string>)
    ensures |ls| == 11 && ls[0] == "BEGIN:VCALENDAR" && ls[1] == "VERSION:2.0" && ls[2] == "BEGIN:VEVENT"
    ensures ls[3] == "URL:" + e.url
    ensures ls[4] == "DTSTART:" + FormatTime(e.start) && ls[5] == "DTEND:" + FormatTime(e.end)
    ensures ls[6] == "SUMMARY:" + e.title && ls[7] == "DESCRIPTION:" + e.description
    ensures ls[8] == "LOCATION:" + e.location && ls[9] == "END:VEVENT" && ls[10] == "END:VCALENDAR"
  {
    Lines(e.url, FormatTime(e.start), FormatTime(e.end), e.title, e.description, e.location)
  }

  /** The DTSTART and DTEND lines carry DATE-TIME values that read back as
      the event's start and end. */
  lemma IcsTimesReadBack(e: IcsEvent)
    requires InRange(e.start) && InRange(e.end)
    ensures var ls := IcsLines(e);
      ls[4][..8] == "DTSTART:" && ParseUtcDateTime(ls[4][8..]) == Some(e.start) &&
      ls[5][..6] == "DTEND:" && ParseUtcDateTime(ls[5][6..]) == Some(e.end)
  {
    var ls := IcsLines(e);
    ParseFormatTime(e.start);
    ParseFormatTime(e.end);
    assert ls[4][8..] == FormatTime(e.start) && ls[5][6..] == FormatTime(e.end);
  }

  /** `createIcsContent` as written. */
  function CreateIcsContent(e: IcsEvent): string {
    Join(IcsLines(e), CRLF)
  }

  /** The hotel's name holds a bare comma, so the LOCATION line of every file
      the handler produces carries a value that is not TEXT. */
  lemma LocationIsNotText(url: string, start: DateTime, end: DateTime, title: string, description: string)
    ensures var e := HandlerEvent(url, start, end, title, description);
      IcsLines(e)[8] == "LOCATION:" + e.location && !IsText(e.location)
  {
    assert LOCATION[45] == ',' && LOCATION[44] == 'l';
    if IsText(LOCATION) {
      TextCommaEscaped(LOCATION, 45);
    }
  }

  /** The lines with the TEXT values escaped. */
  function IcsLinesEscaped(e: IcsEvent): (ls: seq<string>)
    ensures |ls| == 11 && ls[8] == "LOCATION:" + Escape(e.location)
  {
    Lines(e.url, FormatTime(e.start), FormatTime(e.end), Escape(e.title), Escape(e.description),
          Escape(e.location))
  }

  /** `createIcsContent` with TEXT escaping. */
  function CreateIcsContentEscaped(e: IcsEvent): string {
    Join(IcsLinesEscaped(e), CRLF)
  }

  lemma NoLineFeedConcat(a: string, b: string)
    requires '\n' !in a && '\n' !in b
    ensures '\n' !in a + b
  {
    forall i | 0 <= i < |a + b|
      ensures (a + b)[i] != '\n'
    {
      if i < |a| {
        assert a[i] in a;
      } else {
        assert b[i - |a|] in b;
      }
    }
  }

  lemma DigitsHaveNoLineFeed(s: string)
    requires AllDigits(s)
    ensures '\n' !in s
  {
    forall i | 0 <= i < |s|
      ensures s[i] != '\n'
    {
      assert IsDigit(s[i]);
    }
  }

  lemma StampHasNoLineFeed(t: DateTime)
    ensures '\n' !in FormatTime(t)
  {
    var y, mo, d := NatToString(t.year), Pad2(t.month), Pad2(t.day);
    var h, mi, sc := Pad2(t.hour), Pad2(t.minute), Pad2(t.second);
    DigitsHaveNoLineFeed(y);
    DigitsHaveNoLineFeed(mo);
    DigitsHaveNoLineFeed(d);
    DigitsHaveNoLineFeed(h);
    DigitsHaveNoLineFeed(mi);
    DigitsHaveNoLineFeed(sc);
    NoLineFeedConcat(y, mo);
    NoLineFeedConcat(y + mo, d);
    NoLineFeedConcat(y + mo + d, "T");
    NoLineFeedConcat(y + mo + d + "T", h);
    NoLineFeedConcat(y + mo + d + "T" + h, mi);
    NoLineFeedConcat(y + mo + d + "T" + h + mi, sc);
    NoLineFeedConcat(y + mo + d + "T" + h + mi + sc, "Z");
  }

  /** The as-written file reads back into its lines when no value carries a
      line feed. */
  lemma IcsLinesReadBack(e: IcsEvent)
    requires '\n' !in e.url && '\n' !in e.title && '\n' !in e.description && '\n' !in e.location
    ensures SplitCrlf(CreateIcsContent(e)) == IcsLines(e)
  {
    StampHasNoLineFeed(e.start);
    StampHasNoLineFeed(e.end);
    LinesHaveNoLineFeed(e.url, FormatTime(e.start), FormatTime(e.end), e.title, e.description, e.location);
    SplitJoinCrlf(IcsLines(e));
  }

  /** The escaped file reads back into its lines for any title and
      description. */
  lemma IcsEscapedReadBack(e: IcsEvent)
    requires '\n' !in e.url
    ensures SplitCrlf(CreateIcsContentEscaped(e)) == IcsLinesEscaped(e)
  {
    StampHasNoLineFeed(e.start);
    StampHasNoLineFeed(e.end);
    LinesHaveNoLineFeed(e.url, FormatTime(e.start), FormatTime(e.end), Escape(e.title),
                        Escape(e.description), Escape(e.location));
    SplitJoinCrlf(IcsLinesEscaped(e));
  }

  /** A line of a name and an escaped value gives the value back. */
  lemma EscapedLine(name: string, v: string)
    ensures var l := name + Escape(v);
      l[..|name|] == name && (IsText(l[|name|..]) <==> Escapable(v)) && Unescape(l[|name|..]) == v
  {
    EscapeRoundTrip(v);
    assert (name + Escape(v))[|name|..] == Escape(v);
  }

  /** The three values on the escaped lines unescape to the event's own, and
      each is TEXT exactly when the event's value holds no control character
      but tab and line feed. */
  lemma IcsEscapedValues(e: IcsEvent)
    ensures var ls := IcsLinesEscaped(e);
      ls[6][..8] == "SUMMARY:" && (IsText(ls[6][8..]) <==> Escapable(e.title)) &&
      Unescape(ls[6][8..]) == e.title &&
      ls[7][..12] == "DESCRIPTION:" && (IsText(ls[7][12..]) <==> Escapable(e.description)) &&
      Unescape(ls[7][12..]) == e.description &&
      ls[8][..9] == "LOCATION:" && (IsText(ls[8][9..]) <==> Escapable(e.location)) &&
      Unescape(ls[8][9..]) == e.location
  {
    EscapedLine("SUMMARY:", e.title);
    EscapedLine("DESCRIPTION:", e.description);
    EscapedLine("LOCATION:", e.location);
  }

  /** The eleven lines hold no line feed when the values hold none. */
  lemma LinesHaveNoLineFeed(url: string, start: string, end: string, title: string,
                            description: string, location: string)
    requires '\n' !in url && '\n' !in start && '\n' !in end
    requires '\n' !in title && '\n' !in description && '\n' !in location
    ensures var ls := Lines(url, start, end, title, description, location);
      forall i :: 0 <= i < |ls| ==> '\n' !in ls[i]
  {
    var ls := Lines(url, start, end, title, description, location);
    forall i | 0 <= i < |ls|
      ensures '\n' !in ls[i]
    {
      if i == 3 {
        NoLineFeedConcat("URL:", url);
      } else if i == 4 {
        NoLineFeedConcat("DTSTART:", start);
      } else if i == 5 {
        NoLineFeedConcat("DTEND:", end);
      } else if i == 6 {
        NoLineFeedConcat("SUMMARY:", title);
      } else if i == 7 {
        NoLineFeedConcat("DESCRIPTION:", description);
      } else if i == 8 {
        NoLineFeedConcat("LOCATION:", location);
      }
    }
  }

  // ---------------------------------------------------------------- the download name

  /** `title.replace(/[^a-z0-9]/gi, '_').toLowerCase()`, one character at a
      time. */
  function FileChar(c: char): char {
    if IsAlnum(c) then LowerChar(c) else '_'
  }

  function FileStem(title: string): (r: string)
    ensures |r| == |title|
  {
    seq(|title|, i requires 0 <= i < |title| => FileChar(title[i]))
  }

  /** The name the `.ics` download gets. */
  function DownloadName(title: string): string {
    FileStem(title) + ".ics"
  }

  predicate IsFileChar(c: char) {
    'a' <= c <= 'z' || IsDigit(c) || c == '_'
  }

  /** The name keeps one character per character of the title: its letters
      lowered, its digits as they are, every other character an underscore;
      and it ends in ".ics". */
  lemma DownloadNameShape(title: string)
    ensures var n := DownloadName(title);
      |n| == |title| + 4 && n[|title|..] == ".ics" &&
      (forall i :: 0 <= i < |title| ==> IsFileChar(n[i])) &&
      (forall i :: 0 <= i < |title| && IsDigit(title[i]) ==> n[i] == title[i]) &&
      (forall i :: 0 <= i < |title| && 'a' <= title[i] <= 'z' ==> n[i] == title[i]) &&
      (forall i :: 0 <= i < |title| && 'A' <= title[i] <= 'Z' ==> n[i] as int == title[i] as int + 32) &&
      (forall i :: 0 <= i < |title| && !IsAlnum(title[i]) ==> n[i] == '_')
  {
    var n := DownloadName(title);
    forall i | 0 <= i < |title|
      ensures n[i] == FileChar(title[i])
    {
      assert n[i] == FileStem(title)[i];
    }
  }

  /** A title already made of file characters is its own stem, so naming is
      idempotent on stems. */
  lemma FileStemIdempotent(title: string)
    ensures FileStem(FileStem(title)) == FileStem(title)
  {
    var r := FileStem(title);
    forall i | 0 <= i < |r|
      ensures FileStem(r)[i] == r[i]
    {
      assert IsFileChar(r[i]);
    }
  }

  // ---------------------------------------------------------------- the early returns

  /** `(\d{2}):(\d{2})(\d{2}):(\d{2})` matching at position `i`. */
  predicate TimeStampAt(t: string, i: nat)
    requires i + 10 <= |t|
  {
    IsDigit(t[i]) && IsDigit(t[i + 1]) && t[i + 2] == ':' && IsDigit(t[i + 3]) && IsDigit(t[i + 4]) &&
    IsDigit(t[i + 5]) && IsDigit(t[i + 6]) && t[i + 7] == ':' && IsDigit(t[i + 8]) && IsDigit(t[i + 9])
  }

  /** `titleText.match(...)` finds the pattern somewhere in the title. */
  predicate HasTimeStamp(t: string) {
    exists i: nat :: i + 10 <= |t| && TimeStampAt(t, i)
  }

  /** Whether a click on a calendar link gets past both early returns of the
      handler, given the card's title text (`None` when the link sits in no
      card with a `.session-content`, the empty text when it has no `h4`):
      only then is the calendar opened and the container closed. */
  predicate Reaches(title: Option<string>) {
    title.Some? && HasTimeStamp(title.value)
  }

  // ---------------------------------------------------------------- the agenda day

  const DAY_ONE_DATE := "2026-04-19"
  const DAY_TWO_DATE := "2026-04-20"

  /** The date of the agenda tab holding a session card: the tab with id
      "day-1" is the first day, anything else (another tab, or no tab) the
      second. */
  function AgendaDate(tabId: Option<string>): string {
    if tabId == Some("day-1") then DAY_ONE_DATE else DAY_TWO_DATE
  }

  /** `dateStr.split('-').map(Number)`, the year, month and day the handler
      passes to `Date.UTC`: 2026, April, and the 19th under the first day's
      tab or the 20th under any other. */
  lemma AgendaDateParts(tabId: Option<string>)
    ensures var parts := Split(AgendaDate(tabId), '-');
      |parts| == 3 && AllDigits(parts[0]) && AllDigits(parts[1]) && AllDigits(parts[2]) &&
      DecimalValue(parts[0]) == 2026 && DecimalValue(parts[1]) == 4 &&
      DecimalValue(parts[2]) == (if tabId == Some("day-1") then 19 else 20)
  {
    if tabId == Some("day-1") {
      DateParts("19");
      DayDates();
    } else {
      DateParts("20");
      DayDates();
    }
  }

  lemma DayDates()
    ensures DAY_ONE_DATE == "2026" + "-" + ("04" + "-" + "19")
    ensures DAY_TWO_DATE == "2026" + "-" + ("04" + "-" + "20")
  {
  }

  /** The parts of an April 2026 date with the day `d`. */
  lemma DateParts(d: string)
    requires d == "19" || d == "20"
    ensures AllDigits(d) && DecimalValue(d) == (if d == "19" then 19 else 20)
    ensures var parts := Split("2026" + "-" + ("04" + "-" + d), '-');
      parts == ["2026", "04", d] && AllDigits(parts[0]) && AllDigits(parts[1]) &&
      DecimalValue(parts[0]) == 2026 && DecimalValue(parts[1]) == 4
  {
    YearAndMonth();
    assert d[..1] == [d[0]];
    SplitDigitGroups("2026", "04", d, '-');
  }

  lemma YearAndMonth()
    ensures AllDigits("2026") && DecimalValue("2026") == 2026
    ensures AllDigits("04") && DecimalValue("04") == 4
  {
    var y := "2026";
    assert y[..3] == "202" && y[..3][..2] == "20" && y[..3][..2][..1] == "2";
    assert "2"[..0] == [] && DecimalValue("2") == 2;
    assert DecimalValue("20") == 20;
    assert DecimalValue("202") == 202;
    assert "04"[..1] == "0" && "0"[..0] == [];
  }

  /** Three digit groups joined by a separator that is not a digit split back
      into the groups. */
  lemma SplitDigitGroups(a: string, b: string, c: string, sep: char)
    requires AllDigits(a) && AllDigits(b) && AllDigits(c) && !IsDigit(sep)
    ensures Split(a + [sep] + (b + [sep] + c), sep) == [a, b, c]
  {
    DigitsLackSeparator(a, sep);
    DigitsLackSeparator(b, sep);
    DigitsLackSeparator(c, sep);
    SplitPast(a, b + [sep] + c, sep);
    SplitPast(b, c, sep);
    SplitNone(c, sep);
  }

  lemma DigitsLackSeparator(s: string, sep: char)
    requires AllDigits(s) && !IsDigit(sep)
    ensures sep !in s
  {
    forall i | 0 <= i < |s| ensures s[i] != sep {
      assert IsDigit(s[i]);
    }
  }

  /** The text before the first separator is the first part. */
  lemma SplitPast(a: string, rest: string, sep: char)
    requires sep !in a
    ensures Split(a + [sep] + rest, sep) == [a] + Split(rest, sep)
  {
    var s := a + [sep] + rest;
    forall i | 0 <= i < |a| ensures s[i] != sep {
      assert s[i] == a[i];
    }
    IndexOfFirst(s, sep, |a|);
    SplitAt(s, sep);
    assert s[..|a|] == a && s[|a| + 1..] == rest;
  }

  lemma SplitNone(a: string, sep: char)
    requires sep !in a
    ensures Split(a, sep) == [a]
  {
    assert IndexOf(a, sep) == |a|;
  }
}
