/** Timestamp parsing for the Kalshi ingestion (kalshiapi.py, parse_date). */
module KalshiDates {

  import opened Wrappers

  /** The three formats parse_date tries, in order:
      %Y-%m-%dT%H:%M:%SZ, %Y-%m-%dT%H:%M:%S.%fZ and %Y-%m-%dT%H:%M:%S. */
  datatype DateFormat = SecondsZ | FractionZ | Seconds

  const Formats: seq<DateFormat> := [SecondsZ, FractionZ, Seconds]

  /** The fields a successful parse yields (the fraction is read and then
      dropped by the output format, so it is not kept). */
  datatype Stamp = Stamp(year: nat, month: nat, day: nat, hour: nat, minute: nat, second: nat)

  predicate IsDigit(c: char)
  {
    '0' <= c <= '9'
  }

  predicate AllDigits(s: string)
  {
    forall k :: 0 <= k < |s| ==> IsDigit(s[k])
  }

  /** The number a string of decimal digits denotes. */
  function NumberOf(s: string): nat
    requires AllDigits(s)
  {
    if s == [] then 0 else NumberOf(s[..|s| - 1]) * 10 + (s[|s| - 1] as int - '0' as int)
  }

  function DigitChar(d: nat): (c: char)
    requires d < 10
    ensures IsDigit(c)
  {
    ('0' as int + d) as char
  }

  /** The last `width` decimal digits of v, zero-padded: what strftime's %m,
      %d, %H, %M and %S (width 2) and %Y (width 4) print. */
  function Pad(v: nat, width: nat): (r: string)
    ensures |r| == width && AllDigits(r)
  {
    if width == 0 then [] else Pad(v / 10, width - 1) + [DigitChar(v % 10)]
  }

  /** Printing a digit string's value at its own width gives it back. */
  lemma {:induction false} PadNumberOf(s: string)
    requires AllDigits(s)
    ensures Pad(NumberOf(s), |s|) == s
  {
    if s != [] {
      var n := |s| - 1;
      var init := s[..n];
      assert AllDigits(init);
      PadNumberOf(init);
      var d := s[n] as int - '0' as int;
      assert (NumberOf(init) * 10 + d) / 10 == NumberOf(init);
      assert (NumberOf(init) * 10 + d) % 10 == d;
      assert s == init + [s[n]];
    }
  }

  predicate IsLeapYear(y: nat)
  {
    y % 4 == 0 && (y % 100 != 0 || y % 400 == 0)
  }

  function DaysInMonth(y: nat, m: nat): nat
    requires 1 <= m <= 12
  {
    if m == 2 then (if IsLeapYear(y) then 29 else 28)
    else if m == 4 || m == 6 || m == 9 || m == 11 then 30
    else 31
  }

  /** The ranges Python's datetime accepts; anything else raises ValueError. */
  predicate ValidStamp(st: Stamp)
  {
    && 1 <= st.year
    && 1 <= st.month <= 12
    && 1 <= st.day <= DaysInMonth(st.year, st.month)
    && st.hour < 24 && st.minute < 60 && st.second < 60
  }

  /** strptime matches its pattern case-insensitively, so the literal T and Z
      of the formats also match t and z. */
  predicate IsT(c: char) { c == 'T' || c == 't' }
  predicate IsZ(c: char) { c == 'Z' || c == 'z' }

  /** The first 19 characters have the fixed-width shape YYYY-MM-DDTHH:MM:SS. */
  predicate StampShape(s: string)
  {
    && |s| >= 19
    && AllDigits(s[0..4]) && s[4] == '-' && AllDigits(s[5..7]) && s[7] == '-' && AllDigits(s[8..10])
    && IsT(s[10])
    && AllDigits(s[11..13]) && s[13] == ':' && AllDigits(s[14..16]) && s[16] == ':' && AllDigits(s[17..19])
  }

  /** What a format demands after the seconds: a Z; a dot, one to six
      fraction digits and a Z; or nothing. */
  predicate SuffixMatches(fmt: DateFormat, rest: string)
  {
    match fmt
    case SecondsZ => |rest| == 1 && IsZ(rest[0])
    case FractionZ => 3 <= |rest| <= 8 && rest[0] == '.' && IsZ(rest[|rest| - 1]) && AllDigits(rest[1..|rest| - 1])
    case Seconds => rest == []
  }

  function Fields(s: string): Stamp
    requires StampShape(s)
  {
    Stamp(NumberOf(s[0..4]), NumberOf(s[5..7]), NumberOf(s[8..10]),
          NumberOf(s[11..13]), NumberOf(s[14..16]), NumberOf(s[17..19]))
  }

  /** datetime.strptime(s, fmt), on fixed-width input: the fields must be
      in range, and the whole input must be consumed. */
  function Strptime(fmt: DateFormat, s: string): (r: Option<Stamp>)
    ensures r.Some? ==> ValidStamp(r.value)
    ensures r.Some? ==> match fmt
      case SecondsZ => |s| == 20 && IsZ(s[19])
      case FractionZ => 22 <= |s| <= 27 && s[19] == '.' && IsZ(s[|s| - 1])
      case Seconds => |s| == 19
  {
    if StampShape(s) && SuffixMatches(fmt, s[19..]) && ValidStamp(Fields(s)) then Some(Fields(s)) else None
  }

  /** The %Y-%m-%d part of the output format. */
  function DateText(st: Stamp): (r: string)
    ensures |r| == 10
  {
    Pad(st.year, 4) + "-" + Pad(st.month, 2) + "-" + Pad(st.day, 2)
  }

  /** The %H:%M:%S part of the output format. */
  function TimeText(st: Stamp): (r: string)
    ensures |r| == 8
  {
    Pad(st.hour, 2) + ":" + Pad(st.minute, 2) + ":" + Pad(st.second, 2)
  }

  /** strftime("%Y-%m-%d %H:%M:%S"). */
  function Strftime(st: Stamp): (r: string)
    ensures |r| == 19 && r[10] == ' '
    ensures r[..10] == DateText(st) && r[11..] == TimeText(st)
  {
    DateText(st) + " " + TimeText(st)
  }

  /** One iteration of parse_date's loop: parse with `fmt`, then re-render. */
  function TryFormat(fmt: DateFormat, s: string): Option<string>
  {
    match Strptime(fmt, s)
    case None => None
    case Some(st) => Some(Strftime(st))
  }

  /** The first format of `fmts` that parses `s`, re-rendered; None when none does. */
  function FirstMatch(fmts: seq<DateFormat>, s: string): (r: Option<string>)
    ensures r.Some? ==> |r.value| == 19 && r.value[10] == ' '
  {
    if fmts == [] then None
    else if TryFormat(fmts[0], s).Some? then TryFormat(fmts[0], s)
    else FirstMatch(fmts[1..], s)
  }

  /** FirstMatch gives None exactly when every format fails, and otherwise
      the rendering of the first format that succeeds. */
  lemma {:induction false} FirstMatchFirstSuccess(fmts: seq<DateFormat>, s: string)
    ensures FirstMatch(fmts, s).None? <==> forall k :: 0 <= k < |fmts| ==> TryFormat(fmts[k], s).None?
    ensures FirstMatch(fmts, s).Some? ==>
      exists k :: 0 <= k < |fmts| && FirstMatch(fmts, s) == TryFormat(fmts[k], s)
               && forall j :: 0 <= j < k ==> TryFormat(fmts[j], s).None?
  {
    if fmts != [] && TryFormat(fmts[0], s).None? {
      var rest := fmts[1..];
      FirstMatchFirstSuccess(rest, s);
      assert forall k :: 0 <= k < |rest| ==> rest[k] == fmts[k + 1];
      if FirstMatch(rest, s).Some? {
        var k :| 0 <= k < |rest| && FirstMatch(rest, s) == TryFormat(rest[k], s)
                 && forall j :: 0 <= j < k ==> TryFormat(rest[j], s).None?;
        assert FirstMatch(fmts, s) == TryFormat(fmts[k + 1], s);
        forall j | 0 <= j < k + 1 ensures TryFormat(fmts[j], s).None? {
          if j > 0 {
            assert fmts[j] == rest[j - 1];
          }
        }
      } else {
        forall k | 0 <= k < |fmts| ensures TryFormat(fmts[k], s).None? {
          if k > 0 {
            assert fmts[k] == rest[k - 1];
          }
        }
      }
    } else if fmts != [] {
      assert FirstMatch(fmts, s) == TryFormat(fmts[0], s);
    }
  }

  /** parse_date as a value. */
  function ParsedDate(s: string): (r: Option<string>)
    ensures r.Some? ==> |r.value| == 19 && r.value[10] == ' '
  {
    FirstMatch(Formats, s)
  }

  /** The shape of parse_date's output, YYYY-MM-DD HH:MM:SS. */
  predicate OutputShape(r: string)
  {
    && |r| == 19
    && AllDigits(r[0..4]) && r[4] == '-' && AllDigits(r[5..7]) && r[7] == '-' && AllDigits(r[8..10])
    && r[10] == ' '
    && AllDigits(r[11..13]) && r[13] == ':' && AllDigits(r[14..16]) && r[16] == ':' && AllDigits(r[17..19])
  }

  /** Re-rendering a parsed timestamp keeps the input's date and time digits
      and replaces the T by a space; what follows the seconds is dropped. */
  lemma TryFormatRendersInput(fmt: DateFormat, s: string)
    requires TryFormat(fmt, s).Some?
    ensures TryFormat(fmt, s).value == s[..10] + " " + s[11..19]
    ensures OutputShape(TryFormat(fmt, s).value)
  {
    var st := Fields(s);
    DateTextOfFields(s);
    assert DateText(st) == s[..10];
    TimeTextOfFields(s);
    assert TimeText(st) == s[11..19];
    RenderedShape(s);
  }

  /** One zero-padded field printed back at its width is its own digits. */
  lemma FieldRendered(s: string, a: nat, b: nat)
    requires a <= b <= |s| && AllDigits(s[a..b])
    ensures Pad(NumberOf(s[a..b]), b - a) == s[a..b]
  {
    PadNumberOf(s[a..b]);
  }

  /** Three fields of `s` joined by the separators found between them give
      back the stretch of `s` they span. */
  lemma JoinFields(s: string, i: nat, x: string, sep1: string, y: string, sep2: string, z: string)
    requires i + |x| + |y| + |z| + 2 <= |s|
    requires x == s[i..i + |x|] && sep1 == [s[i + |x|]]
    requires y == s[i + |x| + 1..i + |x| + 1 + |y|] && sep2 == [s[i + |x| + 1 + |y|]]
    requires z == s[i + |x| + |y| + 2..i + |x| + |y| + 2 + |z|]
    ensures x + sep1 + y + sep2 + z == s[i..i + |x| + |y| + |z| + 2]
  {
    var n := |x| + |y| + |z| + 2;
    var r := x + sep1 + y + sep2 + z;
    assert |r| == n;
    forall k | 0 <= k < n ensures r[k] == s[i + k] {
    }
  }

  /** The date fields re-rendered are the input's first ten characters. */
  lemma DateTextOfFields(s: string)
    requires |s| >= 10 && s[4] == '-' && s[7] == '-'
    requires AllDigits(s[0..4]) && AllDigits(s[5..7]) && AllDigits(s[8..10])
    ensures Pad(NumberOf(s[0..4]), 4) + "-" + Pad(NumberOf(s[5..7]), 2) + "-" + Pad(NumberOf(s[8..10]), 2) == s[..10]
  {
    FieldRendered(s, 0, 4);
    FieldRendered(s, 5, 7);
    FieldRendered(s, 8, 10);
    JoinFields(s, 0, s[0..4], "-", s[5..7], "-", s[8..10]);
  }

  /** The time fields re-rendered are the input's characters 11 to 18. */
  lemma TimeTextOfFields(s: string)
    requires |s| >= 19 && s[13] == ':' && s[16] == ':'
    requires AllDigits(s[11..13]) && AllDigits(s[14..16]) && AllDigits(s[17..19])
    ensures Pad(NumberOf(s[11..13]), 2) + ":" + Pad(NumberOf(s[14..16]), 2) + ":" + Pad(NumberOf(s[17..19]), 2) == s[11..19]
  {
    FieldRendered(s, 11, 13);
    FieldRendered(s, 14, 16);
    FieldRendered(s, 17, 19);
    JoinFields(s, 11, s[11..13], ":", s[14..16], ":", s[17..19]);
  }

  /** Replacing the T of a fixed-width stamp by a space and dropping what
      follows the seconds gives the output shape. */
  lemma RenderedShape(s: string)
    requires StampShape(s)
    ensures OutputShape(s[..10] + " " + s[11..19])
  {
    var r := s[..10] + " " + s[11..19];
    assert r[0..4] == s[0..4];
    assert r[5..7] == s[5..7];
    assert r[8..10] == s[8..10];
    assert r[11..13] == s[11..13];
    assert r[14..16] == s[14..16];
    assert r[17..19] == s[17..19];
  }

  /** No input is accepted by two of the formats, so the order in which
      parse_date tries them does not matter. */
  lemma FormatsExclusive(s: string, f: DateFormat, g: DateFormat)
    requires TryFormat(f, s).Some? && TryFormat(g, s).Some?
    ensures f == g
  {
  }

  /** parse_date tries the formats in the order given by Formats. */
  lemma ParsedDateUnfolded(s: string)
    ensures ParsedDate(s) ==
      if TryFormat(SecondsZ, s).Some? then TryFormat(SecondsZ, s)
      else if TryFormat(FractionZ, s).Some? then TryFormat(FractionZ, s)
      else TryFormat(Seconds, s)
  {
    var rest := [FractionZ, Seconds];
    assert Formats[0] == SecondsZ && Formats[1..] == rest;
    assert rest[0] == FractionZ && rest[1..] == [Seconds];
    assert [Seconds][0] == Seconds && [Seconds][1..] == [];
    assert FirstMatch([Seconds], s) == TryFormat(Seconds, s);
    assert FirstMatch(rest, s) == if TryFormat(FractionZ, s).Some? then TryFormat(FractionZ, s) else TryFormat(Seconds, s);
  }

  /** parse_date accepts an input exactly when some format parses it, and it
      then returns the input's digits in YYYY-MM-DD HH:MM:SS form. */
  lemma ParsedDateCharacterised(s: string)
    ensures ParsedDate(s).None? <==> forall fmt :: TryFormat(fmt, s).None?
    ensures ParsedDate(s).Some? ==>
      && StampShape(s) && ValidStamp(Fields(s))
      && (exists fmt :: TryFormat(fmt, s) == ParsedDate(s))
      && ParsedDate(s).value == s[..10] + " " + s[11..19]
      && OutputShape(ParsedDate(s).value)
  {
    ParsedDateUnfolded(s);
    forall fmt: DateFormat | ParsedDate(s).None? ensures TryFormat(fmt, s).None? {
      match fmt
      case SecondsZ =>
      case FractionZ =>
      case Seconds =>
    }
    if TryFormat(SecondsZ, s).Some? {
      TryFormatRendersInput(SecondsZ, s);
    } else if TryFormat(FractionZ, s).Some? {
      TryFormatRendersInput(FractionZ, s);
    } else if TryFormat(Seconds, s).Some? {
      TryFormatRendersInput(Seconds, s);
    }
  }

  /** Inputs that agree on their date and time digits and are both accepted
      normalise to the same string, whatever their fraction, Z, or T case. */
  lemma ParsedDateNormalises(s1: string, s2: string)
    requires |s1| >= 19 && |s2| >= 19
    requires ParsedDate(s1).Some? && ParsedDate(s2).Some?
    requires s1[..10] == s2[..10] && s1[11..19] == s2[11..19]
    ensures ParsedDate(s1) == ParsedDate(s2)
  {
    ParsedDateCharacterised(s1);
    ParsedDateCharacterised(s2);
  }

  /** parse_date: try each format in turn, return the first success re-rendered,
      None when every format fails. */
  method ParseDate(dateStr: string) returns (r: Option<string>)
    ensures r == ParsedDate(dateStr)
  {
    for i := 0 to |Formats|
      invariant FirstMatch(Formats[i..], dateStr) == ParsedDate(dateStr)
    {
      var attempt := TryFormat(Formats[i], dateStr);
      if attempt.Some? {
        return attempt;
      }
      assert Formats[i..][1..] == Formats[i + 1..];
    }
    return None;
  }

  lemma NumberOfTwo(s: string)
    requires |s| == 2 && AllDigits(s)
    ensures NumberOf(s) == (s[0] as int - '0' as int) * 10 + (s[1] as int - '0' as int)
  {
    var init := s[..1];
    assert init[..0] == [] && init[0] == s[0];
    assert NumberOf(init) == s[0] as int - '0' as int;
  }

  lemma NumberOfFour(s: string)
    requires |s| == 4 && AllDigits(s)
    ensures NumberOf(s) == (s[0] as int - '0' as int) * 1000 + (s[1] as int - '0' as int) * 100
                         + (s[2] as int - '0' as int) * 10 + (s[3] as int - '0' as int)
  {
    assert s[..3][..2] == s[..2];
    NumberOfTwo(s[..2]);
  }

  lemma ExampleShape()
    ensures StampShape("2024-11-05T23:59:59.5Z")
  {
    var s := "2024-11-05T23:59:59.5Z";
    assert s[0..4] == "2024" && s[5..7] == "11" && s[8..10] == "05";
    assert s[11..13] == "23" && s[14..16] == "59" && s[17..19] == "59";
  }

  lemma ExampleFields()
    ensures StampShape("2024-11-05T23:59:59.5Z")
    ensures Fields("2024-11-05T23:59:59.5Z") == Stamp(2024, 11, 5, 23, 59, 59)
  {
    var s := "2024-11-05T23:59:59.5Z";
    ExampleShape();
    assert s[0..4] == "2024";
    assert s[5..7] == "11";
    assert s[8..10] == "05";
    assert s[11..13] == "23";
    assert s[14..16] == "59";
    assert s[17..19] == "59";
    NumberOfFour("2024");
    NumberOfTwo("11");
    NumberOfTwo("05");
    NumberOfTwo("23");
    NumberOfTwo("59");
  }

  lemma ExampleStrptime()
    ensures Strptime(SecondsZ, "2024-11-05T23:59:59.5Z") == None
    ensures Strptime(FractionZ, "2024-11-05T23:59:59.5Z") == Some(Stamp(2024, 11, 5, 23, 59, 59))
  {
    var s := "2024-11-05T23:59:59.5Z";
    ExampleFields();
    assert s[19..] == ".5Z";
    assert ".5Z"[1..2] == "5";
    assert SuffixMatches(FractionZ, s[19..]);
    assert !SuffixMatches(SecondsZ, s[19..]);
    assert ValidStamp(Fields(s));
  }

  lemma ExampleTryFormat()
    ensures TryFormat(SecondsZ, "2024-11-05T23:59:59.5Z") == None
    ensures TryFormat(FractionZ, "2024-11-05T23:59:59.5Z").Some?
  {
    ExampleStrptime();
  }

  lemma ExampleRendered()
    ensures var s := "2024-11-05T23:59:59.5Z"; s[..10] + " " + s[11..19] == "2024-11-05 23:59:59"
  {
  }

  /** A timestamp with fractional seconds: the first format fails, the second
      parses it, and the fraction and Z are dropped. */
  lemma ParseDateExample()
    ensures ParsedDate("2024-11-05T23:59:59.5Z") == Some("2024-11-05 23:59:59")
  {
    var s := "2024-11-05T23:59:59.5Z";
    ExampleTryFormat();
    TryFormatRendersInput(FractionZ, s);
    ExampleRendered();
    ParsedDateUnfolded(s);
  }
}
