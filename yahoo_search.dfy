// The Yahoo crawler's spiders: `NewsSearchSpider` pushes raw article links
// to the "links" list and offers `date_recognize` for relative dates such
// as "3 天前"; `ContentSpider` turns an article page into a record whose
// date is re-formatted without its fraction.

module YahooSearch {
  import opened Wrappers
  import opened PyText
  import opened CivilTime
  import opened TimeFormat
  import opened Frontier
  import opened BatchPipeline

  // ---------------------------------------------------------------------------
  // NewsSearchSpider.parse

  /** What `parse` pushes for one anchor's `href` attribute: the href itself
      when it is present and non-empty. */
  function RawEntry(u: (), href: Option<string>): (r: Option<string>)
    ensures r.Some? <==> href.Some? && href.value != []
    ensures r.Some? ==> r.value == href.value
  {
    if href.Some? && href.value != [] then href else None
  }

  /** The links `parse` pushes, in document order. */
  function RawPushes(hrefs: seq<Option<string>>): seq<string> {
    Kept(RawEntry, (), hrefs)
  }

  /** Every pushed link is one of the non-empty hrefs, unchanged, and every
      non-empty href is pushed. */
  lemma RawPushesSpec(hrefs: seq<Option<string>>)
    ensures forall k :: 0 <= k < |RawPushes(hrefs)| ==> RawPushes(hrefs)[k] != [] && Some(RawPushes(hrefs)[k]) in hrefs
    ensures forall i :: 0 <= i < |hrefs| && hrefs[i].Some? && hrefs[i].value != [] ==> hrefs[i].value in RawPushes(hrefs)
  {
    KeptSpec(RawEntry, (), hrefs);
    forall k | 0 <= k < |RawPushes(hrefs)|
      ensures RawPushes(hrefs)[k] != [] && Some(RawPushes(hrefs)[k]) in hrefs
    {
      var i :| 0 <= i < |hrefs| && RawEntry((), hrefs[i]) == Some(RawPushes(hrefs)[k]);
      assert hrefs[i] == Some(RawPushes(hrefs)[k]);
    }
    forall i | 0 <= i < |hrefs| && hrefs[i].Some? && hrefs[i].value != []
      ensures hrefs[i].value in RawPushes(hrefs)
    {
      assert RawEntry((), hrefs[i]).Some?;
    }
  }

  /** `NewsSearchSpider.parse`: each non-empty href goes to the head of
      "links" as it is, not as JSON, and re-arms the key's time to live. */
  method Parse(links: LinkList, hrefs: seq<Option<string>>)
    modifies links
    ensures links.entries == Reverse(RawPushes(hrefs)) + old(links.entries)
    ensures links.ttl == if RawPushes(hrefs) == [] then old(links.ttl) else Some(SecondInOneMonth)
  {
    links.PushKept(RawEntry, (), hrefs);
  }

  // ---------------------------------------------------------------------------
  // date_recognize

  /** The number of the day of `t`, `t.toordinal()`. */
  function DayNumber(t: DateTime): int
    requires Valid(t)
  {
    ToOrdinal(t.year, t.month, t.day)
  }

  /** Two date-times with the same time of day. */
  predicate SameClock(a: DateTime, b: DateTime) {
    a.hour == b.hour && a.minute == b.minute && a.second == b.second
  }

  /** `t + timedelta(days=k)`: `None` where Python raises OverflowError
      because the date leaves years 1..9999. (The bound `timedelta` puts
      on `days`, 999999999, is larger than any shift that stays in range,
      so it raises in no further case.) */
  function ShiftDays(t: DateTime, k: int): (r: Option<DateTime>)
    requires Valid(t)
    ensures r.Some? <==> 1 <= DayNumber(t) + k <= MaxOrdinal
    ensures r.Some? ==> Valid(r.value) && DayNumber(r.value) == DayNumber(t) + k && SameClock(r.value, t)
  {
    var n := DayNumber(t) + k;
    if 1 <= n <= MaxOrdinal then
      var ymd := FromOrdinal(n);
      Some(DateTime(ymd.0, ymd.1, ymd.2, t.hour, t.minute, t.second))
    else
      None
  }

  /** Going back the days one went forward returns to the same date-time. */
  lemma ShiftDaysBack(t: DateTime, k: int, u: DateTime)
    requires Valid(t) && ShiftDays(t, k) == Some(u)
    ensures ShiftDays(u, -k) == Some(t)
  {
    assert Valid(u) && SameClock(u, t) && DayNumber(u) == DayNumber(t) + k;
    ShiftDaysOnto(u, t, -k);
  }

  /** How a call of `date_recognize` ends. */
  datatype Recognized = Raises | Returns(date: Option<DateTime>)

  /** `date_recognize(s)` at the instant `today` (`datetime.now()`, whose
      microseconds the model leaves out): the first space-separated field
      must be an integer `n`, else `int()` raises; a text holding '月' with
      `n <= 2` reads as `30 * n` days ago, otherwise a text holding '天' as
      `n` days ago, and any other text as nothing. */
  function DateRecognize(s: string, today: DateTime): (r: Recognized)
    requires Valid(today)
    ensures r.Returns? && r.date.Some? ==> Valid(r.date.value) && SameClock(r.date.value, today)
    ensures r.Returns? && r.date.Some? ==> '月' in s || '天' in s
  {
    match ParseInt(FirstField(s, ' '))
    case None => Raises
    case Some(n) =>
      if '月' in s && n <= 2 then
        (match ShiftDays(today, -(30 * n)) case Some(d) => Returns(Some(d)) case None => Raises)
      else if '天' in s then
        (match ShiftDays(today, -n) case Some(d) => Returns(Some(d)) case None => Raises)
      else
        Returns(None)
  }

  /** `r` is the date `k` days before `today`, at the same time of day, or
      the OverflowError when that day is outside years 1..9999. */
  predicate DaysBefore(r: Recognized, today: DateTime, k: int)
    requires Valid(today)
  {
    if 1 <= DayNumber(today) - k <= MaxOrdinal then
      r.Returns? && r.date.Some? && Valid(r.date.value)
      && DayNumber(r.date.value) == DayNumber(today) - k && SameClock(r.date.value, today)
    else
      r.Raises?
  }

  /** A leading field that is not an integer raises. */
  lemma DateRecognizeRaises(s: string, today: DateTime)
    requires Valid(today) && ParseInt(FirstField(s, ' ')).None?
    ensures DateRecognize(s, today) == Raises
  {
  }

  /** With a leading integer `n`: "月" and `n <= 2` mean `30 * n` days
      before; otherwise "天" means `n` days before; anything else, including
      "月" with `n > 2` and no "天", returns `None`. */
  lemma DateRecognizeSpec(s: string, today: DateTime, n: int)
    requires Valid(today) && ParseInt(FirstField(s, ' ')) == Some(n)
    ensures '月' in s && n <= 2 ==> DaysBefore(DateRecognize(s, today), today, 30 * n)
    ensures !('月' in s && n <= 2) && '天' in s ==> DaysBefore(DateRecognize(s, today), today, n)
    ensures !('月' in s && n <= 2) && '天' !in s ==> DateRecognize(s, today) == Returns(None)
  {
  }

  /** `s.split(" ")[0]` of a field followed by a space is that field. */
  lemma FirstFieldOfSpaced(w: string, rest: string)
    requires Avoids(w, ' ')
    ensures FirstField(w + " " + rest, ' ') == w
  {
    var s := w + " " + rest;
    var j := FieldEnd(s, ' ', 0);
    assert s[|w|] == ' ';
    assert s[..|w|] == w;
  }

  /** "n 天前" has the leading integer `n`, a '天' and no '月'. */
  lemma DaysAgoText(n: nat)
    ensures ParseInt(FirstField(NatToString(n) + " 天前", ' ')) == Some(n as int)
    ensures '天' in NatToString(n) + " 天前" && '月' !in NatToString(n) + " 天前"
  {
    var w := NatToString(n);
    var s := w + " 天前";
    assert Avoids(w, ' ') by {
      forall k | 0 <= k < |w| ensures w[k] != ' ' { assert IsDigit(w[k]); }
    }
    assert s == w + " " + "天前";
    FirstFieldOfSpaced(w, "天前");
    ParseIntOfIntToString(n);
    assert IntToString(n) == w;
    assert s[|w| + 1] == '天';
    forall k | 0 <= k < |s| ensures s[k] != '月' {
      if k < |w| { assert s[k] == w[k] && IsDigit(w[k]); }
    }
  }

  /** A date-time `n` days before `today`, at its time of day, is `n` days
      forward from `today`. */
  lemma ShiftDaysOnto(d: DateTime, today: DateTime, n: int)
    requires Valid(d) && Valid(today) && SameClock(d, today) && DayNumber(d) == DayNumber(today) - n
    ensures ShiftDays(d, n) == Some(today)
  {
    ToOrdinalRange(today.year, today.month, today.day);
    var e := ShiftDays(d, n).value;
    ToOrdinalInjective(e.year, e.month, e.day, today.year, today.month, today.day);
  }

  /** The text Yahoo shows for an article published `n` days ago,
      "n 天前", is recognised as the date `n` days before `today`, from
      which `n` days forward is `today` again. */
  lemma DaysAgoRecognized(n: nat, today: DateTime)
    requires Valid(today) && n < DayNumber(today)
    ensures DateRecognize(NatToString(n) + " 天前", today).Returns?
    ensures DateRecognize(NatToString(n) + " 天前", today).date.Some?
    ensures ShiftDays(DateRecognize(NatToString(n) + " 天前", today).date.value, n) == Some(today)
  {
    var s := NatToString(n) + " 天前";
    DaysAgoText(n);
    DateRecognizeSpec(s, today, n);
    ToOrdinalRange(today.year, today.month, today.day);
    var r := DateRecognize(s, today);
    assert DaysBefore(r, today, n);
    ShiftDaysOnto(r.date.value, today, n);
  }

  // ---------------------------------------------------------------------------
  // ContentSpider.parse

  /** The keys of a content record. */
  const ContentKeys: set<string> := {"title", "content", "date", "url"}

  /** The dictionary `ContentSpider.parse` yields. */
  function ContentFields(title: string, content: string, date: string, url: string): (m: Record)
    ensures m.Keys == ContentKeys
    ensures m["title"] == title && m["content"] == content && m["date"] == date && m["url"] == url
  {
    map["title" := title, "content" := content, "date" := date, "url" := url]
  }

  /** `ContentSpider.parse` for an article page whose `<time datetime>` is
      `dateAttr` (`None` where the page has none): the record yielded, or
      `None` where `strptime` raises (a missing attribute, or a text not of
      the form `%Y-%m-%dT%H:%M:%S.%fZ`). */
  function ContentRecord(title: string, content: string, dateAttr: Option<string>, url: string): (r: Option<Record>)
    ensures r.Some? <==> dateAttr.Some? && ParseIsoZ(dateAttr.value).Some?
    ensures r.Some? ==> r.value == ContentFields(title, content, FormatSeconds(ParseIsoZ(dateAttr.value).value.0), url)
  {
    match dateAttr
    case None => None
    case Some(a) =>
      match ParseIsoZ(a)
      case None => None
      case Some(p) => Some(ContentFields(title, content, FormatSeconds(p.0), url))
  }

  /** `strftime("%Y-%m-%d %H:%M:%S")` loses nothing but the fraction: two
      date-times written alike are equal. */
  lemma FormatSecondsInjective(a: DateTime, b: DateTime)
    requires Valid(a) && Valid(b) && FormatSeconds(a) == FormatSeconds(b)
    ensures a == b
  {
    BuildStampSpans(a, ' ', FormatSeconds(a), (0, 0));
    BuildStampSpans(b, ' ', FormatSeconds(b), (0, 0));
  }

  /** A publication time `YYYY-MM-DDTHH:MM:SS.ffffffZ` becomes the record
      date `YYYY-MM-DD HH:MM:SS` of the same fields, whatever the fraction,
      and the record date tells the fields back. */
  lemma ContentDate(t: DateTime, f: string, title: string, content: string, url: string)
    requires Valid(t) && 1 <= |f| <= 6 && AllDigits(f)
    ensures ContentRecord(title, content, Some(IsoText(t, f)), url).Some?
    ensures ContentRecord(title, content, Some(IsoText(t, f)), url).value["date"] == FormatSeconds(t)
    ensures forall u :: Valid(u) && FormatSeconds(u) == FormatSeconds(t) ==> u == t
  {
    ParseIsoZOfIsoText(t, f);
    forall u | Valid(u) && FormatSeconds(u) == FormatSeconds(t) ensures u == t {
      FormatSecondsInjective(u, t);
    }
  }

  /** A record of this spider has a title and a content but no `stock_id`,
      so whatever the LLM answers, `db_insert` raises KeyError for each
      record as the batch pipeline leaves it: a batch of such records
      stores nothing, and `process_batch` raises on it, so that
      `close_spider` with such records left in its buffer never closes the
      connection. */
  lemma ContentBatchStoresNothing(rs: seq<Record>, refused: seq<bool>, clean: string -> Option<string>)
    requires |refused| == |rs|
    requires forall j :: 0 <= j < |rs| ==> rs[j].Keys == ContentKeys
    ensures CompletePrefix(rs) == |rs|
    ensures forall j :: 0 <= j < |rs| ==> Outcomes(BatchItems(rs, "content", clean), refused, |rs|)[j] == KeyMissing
    ensures CommittedRows(BatchItems(rs, "content", clean), refused, |rs|) == []
    ensures rs != [] ==> BatchRaises(rs, "content", clean, refused)
  {
    assert "stock_id" !in ContentKeys;
    var cs := BatchItems(rs, "content", clean);
    forall j | 0 <= j < |cs| ensures !HasColumns(cs[j]) {
      assert cs[j].Keys == ContentKeys;
    }
    forall j | 0 <= j < |rs| ensures Outcomes(cs, refused, |rs|)[j] == KeyMissing {
      OutcomesAt(cs, refused, |rs|, j);
    }
    NothingCommitted(cs, refused, |cs|);
    if rs != [] {
      assert Outcomes(cs, refused, |rs|)[0] == KeyMissing;
    }
  }
}
