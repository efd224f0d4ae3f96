/** The spiders of the stock-news project: two discovery spiders that push
    JSON link payloads to the head of the Redis list "links", and the content
    spider that pops a payload, dispatches on its `website` tag and builds the
    article item. Page fetching and the CSS selectors are outside the model:
    what a selector returns is an input. */
module NewsSearch {
  import opened Wrappers
  import opened PyText
  import opened CivilTime
  import opened StrptimeRegex
  import opened TimeFormat
  import opened Json
  import opened Frontier

  // ---------------------------------------------------------------------------
  // Spider arguments and start requests

  /** `stock_id or '2330'`: the `stock_id` spider argument, with the default
      for a missing or empty one. */
  function DefaultStock(arg: Option<string>): (r: string)
    ensures r != []
    ensures arg.Some? && arg.value != [] ==> r == arg.value
    ensures arg.None? || arg.value == [] ==> r == "2330"
  {
    match arg
    case Some(s) => if s != [] then s else "2330"
    case None => "2330"
  }

  /** The two discovery spiders. */
  datatype Site = Etoday | Anue

  /** The `website` tag each one writes into its payloads. */
  function SiteName(site: Site): string {
    match site
    case Etoday => "Etoday"
    case Anue => "Anue"
  }

  /** The search URL up to the page number. */
  function SearchPrefix(site: Site, stockId: string): string {
    match site
    case Etoday => "https://finance.ettoday.net/search.php7?keyword=" + stockId + "&page="
    case Anue => "https://ess.api.cnyes.com/ess/api/v1/news/keyword?q=" + stockId + "&limit=20&page="
  }

  /** The URL of one search page. */
  function PageUrl(site: Site, stockId: string, page: int): string {
    SearchPrefix(site, stockId) + IntToString(page)
  }

  /** The end of the `range` in `start_requests`: Etoday asks for pages 1
      and 2, Anue for page 1 only. */
  function LastPage(site: Site): int {
    match site
    case Etoday => 2
    case Anue => 1
  }

  /** A search request: the spider it belongs to and its meta, from which
      its URL is built. */
  datatype PageRequest = PageRequest(site: Site, stockId: string, page: int)

  function RequestUrl(r: PageRequest): string {
    PageUrl(r.site, r.stockId, r.page)
  }

  /** The requests `start_requests` yields for `page in range(lo, hi)`. */
  function PageRequests(site: Site, stockId: string, lo: int, hi: int): seq<PageRequest>
    decreases hi - lo
  {
    if lo >= hi then [] else [PageRequest(site, stockId, lo)] + PageRequests(site, stockId, lo + 1, hi)
  }

  function StartRequests(site: Site, stockId: string): seq<PageRequest> {
    PageRequests(site, stockId, 1, LastPage(site) + 1)
  }

  /** Exactly pages 1 to `LastPage(site)` are requested, in order, each
      carrying the stock id and its page number in its meta. */
  lemma StartRequestsSpec(site: Site, stockId: string)
    ensures |StartRequests(site, stockId)| == LastPage(site)
    ensures forall i :: 0 <= i < LastPage(site) ==> StartRequests(site, stockId)[i] == PageRequest(site, stockId, i + 1)
  {
    var r := StartRequests(site, stockId);
    if site == Etoday {
      assert PageRequests(site, stockId, 3, 3) == [];
      assert r == [PageRequest(site, stockId, 1)] + ([PageRequest(site, stockId, 2)] + []);
    } else {
      assert PageRequests(site, stockId, 2, 2) == [];
      assert r == [PageRequest(site, stockId, 1)] + [];
    }
  }

  /** Different pages have different URLs. */
  lemma PageUrlInjective(site: Site, stockId: string, p: int, q: int)
    requires PageUrl(site, stockId, p) == PageUrl(site, stockId, q)
    ensures p == q
  {
    var pre := SearchPrefix(site, stockId);
    assert IntToString(p) == PageUrl(site, stockId, p)[|pre|..];
    assert IntToString(q) == PageUrl(site, stockId, q)[|pre|..];
    ParseIntOfIntToString(p);
    ParseIntOfIntToString(q);
  }

  // ---------------------------------------------------------------------------
  // The payloads

  /** The dictionary the Etoday spider dumps, in insertion order. */
  function EtodayFields(link: string, stockId: string): seq<(string, string)> {
    [("link", link), ("stock_id", stockId), ("website", "Etoday")]
  }

  function EtodayPayload(link: string, stockId: string): string {
    DumpStrDict(EtodayFields(link, stockId))
  }

  /** An element of the API's `data.items`, as the spider reads it:
      `f"{item['newsId']}"`, `item["title"]` and `int(item["publishAt"])`. */
  datatype AnueItem = AnueItem(newsId: string, title: string, publishAt: int)

  function AnueLink(newsId: string): string {
    "https://news.cnyes.com/news/id/" + newsId
  }

  /** The dictionary the Anue spider dumps, in insertion order. */
  function AnueFields(link: string, stockId: string, title: string, date: string): seq<(string, string)> {
    [("link", link), ("stock_id", stockId), ("website", "Anue"), ("title", title), ("datetime", date)]
  }

  /** The payload of an item whose publication time reads `date`. */
  function AnuePayload(stockId: string, item: AnueItem, date: string): string {
    DumpStrDict(AnueFields(AnueLink(item.newsId), stockId, item.title, date))
  }

  // ---------------------------------------------------------------------------
  // The discovery spiders' parse callbacks

  /** What the Etoday `parse` pushes for one anchor's `href` attribute: the
      payload of a non-empty href, nothing for a missing or empty one. */
  function EtodayEntry(stockId: string, href: Option<string>): (r: Option<string>)
    ensures r.Some? <==> href.Some? && href.value != []
  {
    if href.Some? && href.value != [] then Some(EtodayPayload(href.value, stockId)) else None
  }

  /** The payloads the Etoday `parse` pushes for the hrefs of the anchors
      found, in document order. */
  function EtodayPushes(stockId: string, hrefs: seq<Option<string>>): seq<string> {
    Kept(EtodayEntry, stockId, hrefs)
  }

  /** `v` is the payload of one of the non-empty hrefs. */
  predicate PayloadOfSomeHref(stockId: string, hrefs: seq<Option<string>>, v: string) {
    exists i :: 0 <= i < |hrefs| && hrefs[i].Some? && hrefs[i].value != [] && v == EtodayPayload(hrefs[i].value, stockId)
  }

  /** Every pushed payload is that of a non-empty href, and every non-empty
      href is pushed. */
  lemma EtodayPushesSpec(stockId: string, hrefs: seq<Option<string>>)
    ensures forall k :: 0 <= k < |EtodayPushes(stockId, hrefs)| ==>
      PayloadOfSomeHref(stockId, hrefs, EtodayPushes(stockId, hrefs)[k])
    ensures forall i :: 0 <= i < |hrefs| && hrefs[i].Some? && hrefs[i].value != [] ==>
      EtodayPayload(hrefs[i].value, stockId) in EtodayPushes(stockId, hrefs)
  {
    KeptSpec(EtodayEntry, stockId, hrefs);
    forall k | 0 <= k < |EtodayPushes(stockId, hrefs)|
      ensures PayloadOfSomeHref(stockId, hrefs, EtodayPushes(stockId, hrefs)[k])
    {
      var v := EtodayPushes(stockId, hrefs)[k];
      var i :| 0 <= i < |hrefs| && EtodayEntry(stockId, hrefs[i]) == Some(v);
      assert hrefs[i].Some? && hrefs[i].value != [] && v == EtodayPayload(hrefs[i].value, stockId);
    }
    forall i | 0 <= i < |hrefs| && hrefs[i].Some? && hrefs[i].value != []
      ensures EtodayPayload(hrefs[i].value, stockId) in EtodayPushes(stockId, hrefs)
    {
      assert EtodayEntry(stockId, hrefs[i]).Some?;
    }
  }

  /** `NewsSearchSpider.parse`: for each anchor with a non-empty href, push
      its payload to the head of "links" and re-arm the key's time to live. */
  method EtodayParse(links: LinkList, stockId: string, hrefs: seq<Option<string>>)
    modifies links
    ensures links.entries == Reverse(EtodayPushes(stockId, hrefs)) + old(links.entries)
    ensures links.ttl == if EtodayPushes(stockId, hrefs) == [] then old(links.ttl) else Some(SecondInOneMonth)
  {
    links.PushKept(EtodayEntry, stockId, hrefs);
  }

  /** What the Anue `parse` pushes for one item: its payload with the item's
      UTC publication time, or nothing when `datetime.fromtimestamp` refuses
      the timestamp. */
  function AnueEntry(stockId: string, item: AnueItem): (r: Option<string>)
    ensures r.Some? <==> UtcText(item.publishAt).Some?
  {
    match UtcText(item.publishAt)
    case None => None
    case Some(d) => Some(AnuePayload(stockId, item, d))
  }

  /** The payloads the Anue `parse` pushes: one per item, in order, until an
      item whose timestamp is refused, which ends the callback with an
      exception. */
  function AnuePushes(stockId: string, items: seq<AnueItem>): seq<string> {
    Leading(AnueEntry, stockId, items)
  }

  /** The k-th payload pushed is the k-th item's, with its UTC time; the
      item after the last one pushed, if any, has a timestamp out of range. */
  lemma AnuePushesSpec(stockId: string, items: seq<AnueItem>)
    ensures forall k :: 0 <= k < |AnuePushes(stockId, items)| ==>
      UtcText(items[k].publishAt).Some?
      && AnuePushes(stockId, items)[k] == AnuePayload(stockId, items[k], UtcText(items[k].publishAt).value)
    ensures |AnuePushes(stockId, items)| < |items| ==>
      UtcText(items[|AnuePushes(stockId, items)|].publishAt).None?
  {
    var r := AnuePushes(stockId, items);
    LeadingSpec(AnueEntry, stockId, items);
    forall k | 0 <= k < |r|
      ensures UtcText(items[k].publishAt).Some?
      ensures r[k] == AnuePayload(stockId, items[k], UtcText(items[k].publishAt).value)
    {
      assert AnueEntry(stockId, items[k]) == Some(r[k]);
    }
    if |r| < |items| {
      assert AnueEntry(stockId, items[|r|]).None?;
    }
  }

  /** `AnueSearchSpider.parse`: for each item, format its UTC publication
      time and push its payload, re-arming the key's time to live; `raised`
      reports the exception an out-of-range timestamp causes, which leaves
      the pushes made before it in place. */
  method AnueParse(links: LinkList, stockId: string, items: seq<AnueItem>) returns (raised: bool)
    modifies links
    ensures links.entries == Reverse(AnuePushes(stockId, items)) + old(links.entries)
    ensures links.ttl == if AnuePushes(stockId, items) == [] then old(links.ttl) else Some(SecondInOneMonth)
    ensures raised <==> exists j :: 0 <= j < |items| && UtcText(items[j].publishAt).None?
  {
    raised := links.PushLeading(AnueEntry, stockId, items);
    assert forall j :: 0 <= j < |items| ==> (AnueEntry(stockId, items[j]).None? <==> UtcText(items[j].publishAt).None?);
  }

  // ---------------------------------------------------------------------------
  // The content spider

  /** A request the content spider schedules: its URL and its meta
      (`stock_id`, `website` and, for Anue, `date`). */
  datatype Request = Request(url: string, stockId: JValue, website: string, date: Option<JValue>)

  /** `ContentSpider.make_request_from_data` on the text of a popped element:
      `None` for text that is not JSON, for a value that is not an object,
      for a missing `link`, `stock_id` or `website`, for a `link` that is not
      a string, for an Anue payload without `datetime`, and for any other
      `website`. */
  function MakeRequestFromData(data: string): (r: Option<Request>)
    ensures r.Some? ==> r.value.website == "Etoday" || r.value.website == "Anue"
    ensures r.Some? ==> (r.value.website == "Anue" <==> r.value.date.Some?)
    ensures r.Some? ==>
      && Decode(data).Some? && Decode(data).value.JObject?
      && var ms := Decode(data).value.members;
         && Lookup(ms, "link") == Some(JString(r.value.url))
         && Lookup(ms, "stock_id") == Some(r.value.stockId)
         && Lookup(ms, "website") == Some(JString(r.value.website))
         && (r.value.website == "Anue" ==> Lookup(ms, "datetime") == r.value.date)
  {
    match Decode(data)
    case None => None
    case Some(v) =>
      if !v.JObject? then None
      else
        var ms := v.members;
        match (Lookup(ms, "link"), Lookup(ms, "stock_id"), Lookup(ms, "website"))
        case (Some(JString(link)), Some(stockId), Some(website)) =>
          if website == JString("Etoday") then
            Some(Request(link, stockId, "Etoday", None))
          else if website == JString("Anue") then
            match Lookup(ms, "datetime")
            case Some(date) => Some(Request(link, stockId, "Anue", Some(date)))
            case None => None
          else
            None
        case _ => None
  }

  /** What the selectors return on the fetched article page: the response's
      URL, the title and body texts of the site's layout, and the
      `meta[name='pubdate']` content attribute (Etoday only). */
  datatype Page = Page(url: string, title: string, content: string, pubdate: Option<string>)

  /** `ContentItem`: the article as the pipelines receive it. */
  datatype ContentItem = ContentItem(stockId: JValue, title: string, content: string, date: DateTime, url: string)

  /** `ContentSpider.parse`: `None` where the callback raises (a missing
      pubdate, a pubdate `fromIso` refuses, an Anue date that is not a string
      or that `strptime` refuses), otherwise the items it yields. The ISO
      parser `datetime.fromisoformat` is the parameter `fromIso`. */
  function ContentParse(req: Request, page: Page, fromIso: string -> Option<DateTime>, zones: seq<Alt>): (r: Option<seq<ContentItem>>)
    ensures r.Some? ==> |r.value| <= 1
    ensures r.Some? && r.value != [] ==>
      r.value[0].stockId == req.stockId && r.value[0].url == page.url
      && r.value[0].title == page.title && r.value[0].content == page.content
    ensures req.website != "Etoday" && req.website != "Anue" ==> r == Some([])
    ensures req.website == "Etoday" ==>
      (r.Some? <==> page.pubdate.Some? && fromIso(page.pubdate.value).Some?)
    ensures r.Some? && req.website == "Etoday" ==>
      |r.value| == 1 && r.value[0].date == fromIso(page.pubdate.value).value
    ensures req.website == "Anue" ==>
      (r.Some? <==> req.date.Some? && req.date.value.JString? && ParseUtc(zones, req.date.value.s).Some?)
    ensures r.Some? && req.website == "Anue" ==>
      |r.value| == 1 && req.date.Some? && req.date.value.JString?
      && ParseUtc(zones, req.date.value.s) == Some(r.value[0].date)
  {
    if req.website == "Etoday" then
      match page.pubdate
      case None => None
      case Some(p) =>
        match fromIso(p)
        case None => None
        case Some(d) => Some([ContentItem(req.stockId, page.title, page.content, d, page.url)])
    else if req.website == "Anue" then
      match req.date
      case Some(JString(s)) =>
        (match ParseUtc(zones, s)
         case None => None
         case Some(d) => Some([ContentItem(req.stockId, page.title, page.content, d, page.url)]))
      case _ => None
    else
      Some([])
  }

  // ---------------------------------------------------------------------------
  // From producer to item

  /** A decoded object whose `website` is "Etoday" and whose `link` is a
      string becomes a request for that link. */
  lemma EtodayRequestOfMembers(data: string, ms: seq<(string, JValue)>, link: string, stockId: JValue)
    requires Decode(data) == Some(JObject(ms))
    requires Lookup(ms, "link") == Some(JString(link))
    requires Lookup(ms, "stock_id") == Some(stockId)
    requires Lookup(ms, "website") == Some(JString("Etoday"))
    ensures MakeRequestFromData(data) == Some(Request(link, stockId, "Etoday", None))
  {
  }

  /** A decoded object whose `website` is "Anue", whose `link` is a string
      and that has a `datetime` becomes a request carrying that date. */
  lemma AnueRequestOfMembers(data: string, ms: seq<(string, JValue)>, link: string, stockId: JValue, date: JValue)
    requires Decode(data) == Some(JObject(ms))
    requires Lookup(ms, "link") == Some(JString(link))
    requires Lookup(ms, "stock_id") == Some(stockId)
    requires Lookup(ms, "website") == Some(JString("Anue"))
    requires Lookup(ms, "datetime") == Some(date)
    ensures MakeRequestFromData(data) == Some(Request(link, stockId, "Anue", Some(date)))
  {
  }

  /** Each key of the Etoday dictionary reads back its value. */
  lemma EtodayLookups(link: string, stockId: string)
    ensures var ms := StrMembers(EtodayFields(link, stockId));
      && Lookup(ms, "link") == Some(JString(link))
      && Lookup(ms, "stock_id") == Some(JString(stockId))
      && Lookup(ms, "website") == Some(JString("Etoday"))
  {
    var ms := StrMembers(EtodayFields(link, stockId));
    assert ms[0].0 == "link" && ms[1].0 == "stock_id" && ms[2].0 == "website";
    assert "link" != "stock_id" && "link" != "website" && "stock_id" != "website";
    LookupUnique(ms, "link", 0);
    LookupUnique(ms, "stock_id", 1);
    LookupUnique(ms, "website", 2);
  }

  /** Each key of the Anue dictionary that the content spider reads reads
      back its value. */
  lemma AnueLookups(link: string, stockId: string, title: string, d: string)
    ensures var ms := StrMembers(AnueFields(link, stockId, title, d));
      && Lookup(ms, "link") == Some(JString(link))
      && Lookup(ms, "stock_id") == Some(JString(stockId))
      && Lookup(ms, "website") == Some(JString("Anue"))
      && Lookup(ms, "datetime") == Some(JString(d))
  {
    var ms := StrMembers(AnueFields(link, stockId, title, d));
    assert ms[0].0 == "link" && ms[1].0 == "stock_id" && ms[2].0 == "website" && ms[3].0 == "title" && ms[4].0 == "datetime";
    assert "link" != "stock_id" && "link" != "website" && "link" != "title" && "link" != "datetime";
    assert "stock_id" != "website" && "stock_id" != "title" && "stock_id" != "datetime";
    assert "website" != "title" && "website" != "datetime" && "title" != "datetime";
    LookupUnique(ms, "link", 0);
    LookupUnique(ms, "stock_id", 1);
    LookupUnique(ms, "website", 2);
    LookupUnique(ms, "datetime", 4);
  }

  /** An Etoday payload becomes a request for its link carrying its stock id. */
  lemma EtodayRoundTrip(link: string, stockId: string)
    ensures MakeRequestFromData(EtodayPayload(link, stockId)) == Some(Request(link, JString(stockId), "Etoday", None))
  {
    var ms := StrMembers(EtodayFields(link, stockId));
    DecodeOfDump(EtodayFields(link, stockId));
    EtodayLookups(link, stockId);
    EtodayRequestOfMembers(EtodayPayload(link, stockId), ms, link, JString(stockId));
  }

  /** An Anue payload becomes a request for its link carrying its stock id
      and its date text. */
  lemma AnueRequestOfPayload(stockId: string, item: AnueItem, d: string)
    ensures MakeRequestFromData(AnuePayload(stockId, item, d))
      == Some(Request(AnueLink(item.newsId), JString(stockId), "Anue", Some(JString(d))))
  {
    var ps := AnueFields(AnueLink(item.newsId), stockId, item.title, d);
    DecodeOfDump(ps);
    AnueLookups(AnueLink(item.newsId), stockId, item.title, d);
    AnueRequestOfMembers(AnuePayload(stockId, item, d), StrMembers(ps), AnueLink(item.newsId), JString(stockId), JString(d));
  }

  /** Round trip through the list: the item the content spider builds from
      an Anue payload carries the payload's stock id and the UTC date-time of
      the instant `publishAt`. */
  lemma AnueRoundTrip(zones: seq<Alt>, stockId: string, item: AnueItem, page: Page, fromIso: string -> Option<DateTime>)
    requires ZoneTable(zones) && UtcText(item.publishAt).Some?
    ensures var d := UtcText(item.publishAt).value;
      var req := MakeRequestFromData(AnuePayload(stockId, item, d));
      && req == Some(Request(AnueLink(item.newsId), JString(stockId), "Anue", Some(JString(d))))
      && ContentParse(req.value, page, fromIso, zones)
         == Some([ContentItem(JString(stockId), page.title, page.content, FromTimestamp(item.publishAt).value, page.url)])
      && ToTimestamp(FromTimestamp(item.publishAt).value) == item.publishAt
  {
    var d := UtcText(item.publishAt).value;
    AnueRequestOfPayload(stockId, item, d);
    ParseUtcOfUtcText(zones, item.publishAt);
  }

  /** A bare URL or path, as the Yahoo spider pushes to the same list, is
      not JSON: the content spider drops it. */
  lemma RawLinkDropped(link: string)
    requires link != [] && (link[0] == '/' || ('a' <= link[0] <= 'z' && link[0] != 'n' && link[0] != 't' && link[0] != 'f'))
    ensures MakeRequestFromData(link) == None
  {
    DecodeOfBareWord(link);
  }
}
