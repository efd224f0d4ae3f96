// The item pipeline of the stock-news crawler: every `ContentItem` the
// content spider yields becomes a row of `articles`, one statement and one
// commit per item.

module ArticlePipeline {
  import opened NewsSearch
  import opened ArticleTable
  import Frontier

  /** `PostgresPipeline` and the part of the database it writes. */
  class PostgresPipeline {
    /** The rows of `articles`, by url. */
    var table: map<string, ContentItem>
    /** Whether `self.conn` / `self.cur` are open. */
    var connected: bool

    /** A pipeline in front of a database whose `articles` table holds
        `rows` (empty, or the rows of earlier runs). */
    constructor (rows: map<string, ContentItem>)
      ensures table == rows && !connected
    {
      table := rows;
      connected := false;
    }

    /** `open_spider`: for the content spider, connect and create the table
        if it does not exist, which keeps the rows an existing one holds;
        for any other spider, nothing. */
    method OpenSpider(spiderName: string)
      modifies this
      ensures table == old(table)
      ensures connected == (spiderName == "content" || old(connected))
    {
      if spiderName != "content" {
        return;
      }
      connected := true;
    }

    /** `process_item`: items of other spiders pass through untouched; a
        content item is inserted, skipped when its url is stored, and
        committed, or, when the database rejects the statement (`refused`,
        for instance a `stock_id` that is not an integer), rolled back.
        The item is returned either way. */
    method ProcessItem(item: ContentItem, spiderName: string, refused: bool) returns (r: ContentItem)
      requires spiderName == "content" ==> connected
      modifies this
      ensures r == item
      ensures connected == old(connected)
      ensures table == if spiderName == "content" && !refused then InsertOrSkip(old(table), item.url, item) else old(table)
    {
      if spiderName != "content" {
        return item;
      }
      if !refused {
        table := InsertOrSkip(table, item.url, item);
      }
      return item;
    }

    /** `close_spider`: for the content spider, close the cursor and the
        connection; for any other spider, nothing. */
    method CloseSpider(spiderName: string)
      modifies this
      ensures table == old(table)
      ensures connected == (spiderName != "content" && old(connected))
    {
      if spiderName != "content" {
        return;
      }
      connected := false;
    }
  }

  /** The `(url, row)` pairs the first `n` of a run of `process_item`
      calls commit, in order: the content items the database accepts. */
  function Committed(items: seq<ContentItem>, refused: seq<bool>, n: nat): (rows: seq<(string, ContentItem)>)
    requires n <= |items| == |refused|
    ensures |rows| <= n
    ensures forall k :: 0 <= k < |rows| ==> rows[k].0 == rows[k].1.url
    ensures forall k :: 0 <= k < |rows| ==> exists j :: 0 <= j < n && !refused[j] && rows[k].1 == items[j]
    ensures forall j :: 0 <= j < n && !refused[j] ==> (items[j].url, items[j]) in rows
  {
    if n == 0 then []
    else Committed(items, refused, n - 1) + (if refused[n - 1] then [] else [(items[n - 1].url, items[n - 1])])
  }

  /** One more call inserts its item into the table the earlier ones left,
      unless the database refuses it. */
  lemma CommittedNext(t0: map<string, ContentItem>, items: seq<ContentItem>, refused: seq<bool>, i: nat)
    requires i < |items| == |refused|
    ensures InsertAll(t0, Committed(items, refused, i + 1))
      == if refused[i] then InsertAll(t0, Committed(items, refused, i))
         else InsertOrSkip(InsertAll(t0, Committed(items, refused, i)), items[i].url, items[i])
  {
    var extra: seq<(string, ContentItem)> := if refused[i] then [] else [(items[i].url, items[i])];
    InsertAllSnoc(t0, Committed(items, refused, i), extra);
  }

  /** The engine's `i`-th `process_item` call of a run: the item comes
      back, and the table is the one the first `i + 1` calls commit. */
  method ProcessNext(p: PostgresPipeline, items: seq<ContentItem>, refused: seq<bool>, i: nat, ghost t0: map<string, ContentItem>)
    returns (r: ContentItem)
    requires i < |items| == |refused| && p.connected
    requires p.table == InsertAll(t0, Committed(items, refused, i))
    modifies p
    ensures r == items[i] && p.connected
    ensures p.table == InsertAll(t0, Committed(items, refused, i + 1))
  {
    CommittedNext(t0, items, refused, i);
    r := p.ProcessItem(items[i], "content", refused[i]);
  }

  /** A run of `process_item` calls for the content spider: the table is
      the committed rows inserted one after the other, and each returned
      item is the one given. */
  method ProcessAll(p: PostgresPipeline, items: seq<ContentItem>, refused: seq<bool>) returns (out: seq<ContentItem>)
    requires |refused| == |items| && p.connected
    modifies p
    ensures out == items
    ensures p.connected
    ensures p.table == InsertAll(old(p.table), Committed(items, refused, |items|))
  {
    out := [];
    var i := 0;
    while i < |items|
      invariant 0 <= i <= |items| && p.connected
      invariant out == items[..i]
      invariant p.table == InsertAll(old(p.table), Committed(items, refused, i))
    {
      var r := ProcessNext(p, items, refused, i, old(p.table));
      Frontier.TakeSnoc(items, i);
      out := out + [r];
      i := i + 1;
    }
  }
}
