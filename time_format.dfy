/** The two date-time texts the spiders exchange: written with
    `strftime('%Y-%m-%d %H:%M:%S')` (and `' %Z'` for a value carrying
    `timezone.utc`), read back with `datetime.strptime` on
    `'%Y-%m-%d %H:%M:%S %Z'` and `'%Y-%m-%dT%H:%M:%S.%fZ'`.

    Reading is the match of `Strptime` followed by what `_strptime` does
    with the groups: `int()` of each field, `%f` padded on the right to six
    digits, and the `datetime` constructor, which rejects impossible fields. */
module TimeFormat {
  import opened Wrappers
  import opened PyText
  import opened CivilTime
  import opened StrptimeRegex

  // ---------------------------------------------------------------------------
  // strftime

  /** The tens and the ones digit of a two-digit field. */
  function Tens(n: nat): char {
    DigitChar(n / 10 % 10)
  }

  function Ones(n: nat): char {
    DigitChar(n % 10)
  }

  /** `s` starts with the nineteen characters `YYYY-MM-DD?HH:MM:SS` of `t`,
      every field zero-padded, with `sep` between the date and the time. */
  predicate WritesStamp(s: string, t: DateTime, sep: char)
    requires Valid(t)
  {
    var y := t.year;
    && |s| >= 19
    && s[0] == DigitChar(y / 1000) && s[1] == DigitChar(y / 100 % 10) && s[2] == Tens(y) && s[3] == Ones(y)
    && s[4] == '-' && s[5] == Tens(t.month) && s[6] == Ones(t.month)
    && s[7] == '-' && s[8] == Tens(t.day) && s[9] == Ones(t.day) && s[10] == sep
    && s[11] == Tens(t.hour) && s[12] == Ones(t.hour) && s[13] == ':' && s[14] == Tens(t.minute) && s[15] == Ones(t.minute)
    && s[16] == ':' && s[17] == Tens(t.second) && s[18] == Ones(t.second)
  }

  /** `t.strftime('%Y-%m-%d?%H:%M:%S')` with `sep` for `?`. */
  function Stamp(t: DateTime, sep: char): (r: string)
    requires Valid(t)
    ensures |r| == 19 && WritesStamp(r, t, sep)
  {
    var y := t.year;
    [ DigitChar(y / 1000), DigitChar(y / 100 % 10), Tens(y), Ones(y), '-',
      Tens(t.month), Ones(t.month), '-', Tens(t.day), Ones(t.day), sep,
      Tens(t.hour), Ones(t.hour), ':', Tens(t.minute), Ones(t.minute), ':',
      Tens(t.second), Ones(t.second) ]
  }

  /** `t.strftime('%Y-%m-%d %H:%M:%S')`. */
  function FormatSeconds(t: DateTime): (r: string)
    requires Valid(t)
    ensures |r| == 19 && WritesStamp(r, t, ' ')
  {
    Stamp(t, ' ')
  }

  /** `t.strftime('%Y-%m-%d %H:%M:%S %Z')` for a date-time carrying
      `timezone.utc`, whose `tzname()` is `"UTC"`. */
  function FormatUtc(t: DateTime): (r: string)
    requires Valid(t)
    ensures |r| == 23 && WritesStamp(r, t, ' ') && r[19] == ' ' && r[20] == 'U' && r[21] == 'T' && r[22] == 'C'
  {
    FormatSeconds(t) + [' ', 'U', 'T', 'C']
  }

  /** `datetime.fromtimestamp(ts, tz=timezone.utc).strftime('%Y-%m-%d %H:%M:%S %Z')`:
      `None` where `fromtimestamp` raises because the year leaves 1..9999. */
  function UtcText(ts: int): (r: Option<string>)
    ensures r.Some? <==> MinTimestamp <= ts <= MaxTimestamp
    ensures r.Some? <==> FromTimestamp(ts).Some?
  {
    FromTimestampSpec(ts);
    match FromTimestamp(ts)
    case None => None
    case Some(t) => Some(FormatUtc(t))
  }

  /** An ISO text with a `Z` suffix and the fraction digits `f`, as the
      content API serves publication times. */
  function IsoText(t: DateTime, f: string): (r: string)
    requires Valid(t)
    ensures |r| == 21 + |f| && WritesStamp(r, t, 'T') && r[19] == '.' && r[20..20 + |f|] == f && r[20 + |f|] == 'Z'
  {
    var r := Stamp(t, 'T') + ['.'] + f + ['Z'];
    assert r[..19] == Stamp(t, 'T');
    r
  }

  lemma TwoDigits(n: nat)
    requires n < 100
    ensures IsDigit(Tens(n)) && IsDigit(Ones(n))
    ensures 10 * (Tens(n) as int - '0' as int) + (Ones(n) as int - '0' as int) == n
    ensures DecimalValue([Tens(n), Ones(n)]) == n
  {
    var s := [Tens(n), Ones(n)];
    assert s[..1] == [Tens(n)];
    assert [Tens(n)][..0] == [];
    assert DecimalValue(s[..1]) == n / 10;
  }

  lemma FourDigits(y: nat)
    requires y < 10000
    ensures DecimalValue([DigitChar(y / 1000), DigitChar(y / 100 % 10), Tens(y), Ones(y)]) == y
  {
    var s := [DigitChar(y / 1000), DigitChar(y / 100 % 10), Tens(y), Ones(y)];
    assert s[..3][..2][..1] == [DigitChar(y / 1000)];
    assert [DigitChar(y / 1000)][..0] == [];
    assert s[..3][..2] == [DigitChar(y / 1000), DigitChar(y / 100 % 10)];
    assert s[..3] == [DigitChar(y / 1000), DigitChar(y / 100 % 10), Tens(y)];
    assert DecimalValue(s[..3][..2][..1]) == y / 1000;
    assert DecimalValue(s[..3][..2]) == y / 100;
    assert DecimalValue(s[..3]) == y / 10;
  }

  /** What `strftime` writes has the shape the matcher reads in one pass. */
  lemma StampShapeOf(s: string, t: DateTime, sep: char)
    requires Valid(t) && WritesStamp(s, t, sep)
    ensures StampShape(s, sep)
  {
    TwoDigits(t.month);
    TwoDigits(t.day);
    TwoDigits(t.hour);
    TwoDigits(t.minute);
    TwoDigits(t.second);
    assert TwoValue(s, 5) == t.month && TwoValue(s, 8) == t.day;
    assert TwoValue(s, 11) == t.hour && TwoValue(s, 14) == t.minute && TwoValue(s, 17) == t.second;
  }

  // ---------------------------------------------------------------------------
  // From groups to a date-time

  /** The text of a group's span. */
  function Text(s: string, g: (nat, nat)): string {
    if g.0 <= g.1 <= |s| then s[g.0..g.1] else []
  }

  /** `int()` of a directive's text; only `%d` can capture a leading space. */
  function Number(t: string): nat {
    DecimalValue(if |t| > 0 && t[0] == ' ' then t[1..] else t)
  }

  function Zeros(n: nat): (r: string)
    ensures |r| == n && AllDigits(r)
  {
    if n == 0 then [] else ['0'] + Zeros(n - 1)
  }

  /** `%f`: the digits padded on the right to six, read as microseconds. */
  function Micros(f: string): nat {
    DecimalValue(f + Zeros(if |f| < 6 then 6 - |f| else 0))
  }

  lemma {:induction false} DecimalValueBound(s: string)
    ensures DecimalValue(s) < Power10(|s|)
    decreases |s|
  {
    if |s| > 0 {
      DecimalValueBound(s[..|s| - 1]);
    }
  }

  function Power10(n: nat): (r: nat)
    ensures r >= 1
  {
    if n == 0 then 1 else 10 * Power10(n - 1)
  }

  /** At most six fraction digits make fewer than a million microseconds. */
  lemma MicrosRange(f: string)
    requires |f| <= 6
    ensures Micros(f) < 1000000
  {
    var padded := f + Zeros(6 - |f|);
    DecimalValueBound(padded);
    assert Power10(6) == 1000000;
  }

  /** The date-time built from the first six groups, if the `datetime`
      constructor accepts their values. */
  function Build(s: string, g: seq<(nat, nat)>): (r: Option<DateTime>)
    requires |g| >= 6
    ensures r.Some? ==> Valid(r.value)
    ensures r.Some? <==> Valid(DateTime(Number(Text(s, g[0])), Number(Text(s, g[1])), Number(Text(s, g[2])),
                                        Number(Text(s, g[3])), Number(Text(s, g[4])), Number(Text(s, g[5]))))
  {
    var t := DateTime(Number(Text(s, g[0])), Number(Text(s, g[1])), Number(Text(s, g[2])),
                      Number(Text(s, g[3])), Number(Text(s, g[4])), Number(Text(s, g[5])));
    if Valid(t) then Some(t) else None
  }

  /** `datetime.strptime(s, '%Y-%m-%d %H:%M:%S %Z')` on a host whose `%Z`
      group is `zones`: a naive result, the zone name being matched and then
      dropped. */
  function ParseUtc(zones: seq<Alt>, s: string): (r: Option<DateTime>)
    ensures r.Some? ==> Valid(r.value) && Strptime(UtcPattern(zones), s).Some?
  {
    match Strptime(UtcPattern(zones), s)
    case Some(g) => if |g| >= 6 then Build(s, g) else None
    case None => None
  }

  /** `datetime.strptime(s, '%Y-%m-%dT%H:%M:%S.%fZ')`: the date-time and
      its microseconds. */
  function ParseIsoZ(s: string): (r: Option<(DateTime, nat)>)
    ensures r.Some? ==> Valid(r.value.0) && r.value.1 < 1000000 && Strptime(IsoZPattern(), s).Some?
  {
    match Strptime(IsoZPattern(), s)
    case Some(g) =>
      if |g| < 7 || |Text(s, g[6])| > 6 then None
      else
        (match Build(s, g)
         case Some(t) => MicrosRange(Text(s, g[6])); Some((t, Micros(Text(s, g[6]))))
         case None => None)
    case None => None
  }

  // ---------------------------------------------------------------------------
  // Reading back what strftime wrote

  /** The fields read from the groups of a stamp are the fields written. */
  lemma BuildStamp(t: DateTime, sep: char, s: string, g: seq<(nat, nat)>)
    requires Valid(t) && WritesStamp(s, t, sep) && |g| >= 6
    requires g[0] == (0, 4) && g[1] == (5, 7) && g[2] == (8, 10) && g[3] == (11, 13) && g[4] == (14, 16) && g[5] == (17, 19)
    ensures Build(s, g) == Some(t)
  {
    YearValue(t.year, s);
    FieldValue(t.month, s, 5);
    FieldValue(t.day, s, 8);
    FieldValue(t.hour, s, 11);
    FieldValue(t.minute, s, 14);
    FieldValue(t.second, s, 17);
  }

  /** The same for the groups of a whole match: the stamp's six, then one more. */
  lemma BuildStampSpans(t: DateTime, sep: char, s: string, x: (nat, nat))
    requires Valid(t) && WritesStamp(s, t, sep)
    ensures Build(s, StampSpans() + [x]) == Some(t)
  {
    var g := StampSpans() + [x];
    assert g[0] == (0, 4) && g[1] == (5, 7) && g[2] == (8, 10) && g[3] == (11, 13) && g[4] == (14, 16) && g[5] == (17, 19);
    BuildStamp(t, sep, s, g);
  }

  lemma YearValue(y: nat, s: string)
    requires y < 10000 && |s| >= 4 && s[0] == DigitChar(y / 1000) && s[1] == DigitChar(y / 100 % 10) && s[2] == Tens(y) && s[3] == Ones(y)
    ensures Number(Text(s, (0, 4))) == y
  {
    FourDigits(y);
    assert Text(s, (0, 4)) == [DigitChar(y / 1000), DigitChar(y / 100 % 10), Tens(y), Ones(y)];
  }

  /** The two digits `strftime` wrote for `n` at index `k` read back as `n`. */
  lemma FieldValue(n: nat, s: string, k: nat)
    requires n < 100 && k + 2 <= |s| && s[k] == Tens(n) && s[k + 1] == Ones(n)
    ensures Number(Text(s, (k, k + 2))) == n
  {
    TwoDigits(n);
    assert Text(s, (k, k + 2)) == [Tens(n), Ones(n)];
  }

  /** On any host, `strptime` with `'%Y-%m-%d %H:%M:%S %Z'` reads back what
      `strftime('%Y-%m-%d %H:%M:%S %Z')` wrote for a UTC date-time. */
  lemma ParseUtcOfFormatUtc(zones: seq<Alt>, t: DateTime)
    requires ZoneTable(zones) && Valid(t)
    ensures ParseUtc(zones, FormatUtc(t)) == Some(t)
  {
    var s := FormatUtc(t);
    StampShapeOf(s, t, ' ');
    UtcMatch(zones, s);
    BuildStampSpans(t, ' ', s, (20, 23));
  }

  /** `strptime` with `'%Y-%m-%dT%H:%M:%S.%fZ'` reads back the date-time and
      the fraction of an ISO text with one to six fraction digits. */
  lemma ParseIsoZOfIsoText(t: DateTime, f: string)
    requires Valid(t) && 1 <= |f| <= 6 && AllDigits(f)
    ensures ParseIsoZ(IsoText(t, f)) == Some((t, Micros(f)))
  {
    var s := IsoText(t, f);
    StampShapeOf(s, t, 'T');
    IsoMatch(s, |f|);
    BuildStampSpans(t, 'T', s, (20, 20 + |f|));
    assert (StampSpans() + [(20, 20 + |f|)])[6] == (20, 20 + |f|);
    assert Text(s, (20, 20 + |f|)) == f;
  }

  /** The text the Anue spider writes for a timestamp is read back by
      `strptime` as the UTC date-time of that same instant. */
  lemma ParseUtcOfUtcText(zones: seq<Alt>, ts: int)
    requires ZoneTable(zones) && UtcText(ts).Some?
    ensures ParseUtc(zones, UtcText(ts).value) == FromTimestamp(ts)
    ensures ToTimestamp(FromTimestamp(ts).value) == ts
  {
    FromTimestampSpec(ts);
    ParseUtcOfFormatUtc(zones, FromTimestamp(ts).value);
  }
}
