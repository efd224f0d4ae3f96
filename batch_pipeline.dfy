// The item pipeline of the Yahoo crawler: items are buffered five at a
// time; each batch has its titles stripped and its contents rewritten by
// an LLM from a normalised prompt, then every item is inserted into
// `articles` with `ON CONFLICT (url) DO NOTHING`.

module BatchPipeline {
  import opened Wrappers
  import opened PyText
  import opened ArticleTable

  /** A scraped item: a dict of text fields. */
  type Record = map<string, string>

  /** `self.buffer_size`. */
  const BufferSize := 5

  // ---------------------------------------------------------------------------
  // The pure prefix of `clean_data_async`

  /** `' '.join(s.replace('\n', '').replace('‌', '').strip().split())`. */
  function Normalize(s: string): string {
    Join(Words(Strip(RemoveChar(RemoveChar(s, '\n'), '\U{200C}'))))
  }

  /** The normalised text is single-spaced (no white space at either end,
      every white-space run a single space), has no line feed and no zero
      width non-joiner, and keeps the words of the text it came from. */
  lemma NormalizeShape(s: string)
    ensures SingleSpaced(Normalize(s))
    ensures Avoids(Normalize(s), '\n') && Avoids(Normalize(s), '\U{200C}')
    ensures Words(Normalize(s)) == Words(Strip(RemoveChar(RemoveChar(s, '\n'), '\U{200C}')))
  {
    var t := Strip(RemoveChar(RemoveChar(s, '\n'), '\U{200C}'));
    var r := Normalize(s);
    WordsAreWords(t);
    JoinSingleSpaced(Words(t));
    WordsOfJoin(Words(t));
    assert Avoids(r, '\n') by {
      forall k | 0 <= k < |r| ensures r[k] != '\n' {
        assert IsSpace('\n');
      }
    }
    RemoveCharAvoids(RemoveChar(s, '\n'), '\U{200C}');
    StripAvoids(RemoveChar(RemoveChar(s, '\n'), '\U{200C}'), '\U{200C}');
    WordsAvoid(t, '\U{200C}');
    JoinAvoids(Words(t), '\U{200C}');
  }

  /** Normalising twice is normalising once. */
  lemma NormalizeIdempotent(s: string)
    ensures Normalize(Normalize(s)) == Normalize(s)
  {
    var t := Strip(RemoveChar(RemoveChar(s, '\n'), '\U{200C}'));
    var r := Normalize(s);
    NormalizeShape(s);
    RemoveAbsent(r, '\n');
    RemoveAbsent(r, '\U{200C}');
    StripOfTrimmed(r);
    WordsOfJoin(Words(t)) by { WordsAreWords(t); }
  }

  // ---------------------------------------------------------------------------
  // The first loop of `process_batch`

  /** `f"title: '{title}'. content: {content}"`. */
  function Prompt(title: string, content: string): string {
    "title: '" + title + "'. content: " + content
  }

  /** An item the first loop can read: it has a title and a content. */
  predicate Complete(r: Record) {
    "title" in r && "content" in r
  }

  /** `item['title'] = item['title'].strip()`, where there is a title. */
  function StripTitle(r: Record): (t: Record)
    ensures t.Keys == r.Keys
    ensures "title" in r ==> t["title"] == Strip(r["title"])
    ensures forall k :: k in r && k != "title" ==> t[k] == r[k]
  {
    if "title" in r then r["title" := Strip(r["title"])] else r
  }

  /** The number of items before the first one without a title or a
      content, where the first loop raises KeyError. */
  function CompletePrefix(rs: seq<Record>): (n: nat)
    ensures n <= |rs|
    ensures forall j :: 0 <= j < n ==> Complete(rs[j])
    ensures n < |rs| ==> !Complete(rs[n])
  {
    if rs == [] || !Complete(rs[0]) then 0
    else
      var m := CompletePrefix(rs[1..]);
      assert forall j :: 1 <= j < m + 1 ==> rs[j] == rs[1..][j - 1];
      m + 1
  }

  /** The items with the titles of the first `k` stripped. */
  function StrippedUpTo(rs: seq<Record>, k: nat): (ps: seq<Record>)
    requires k <= |rs|
    ensures |ps| == |rs|
  {
    seq(|rs|, j requires 0 <= j < |rs| => if j < k then StripTitle(rs[j]) else rs[j])
  }

  /** Stripping the `k`-th title extends the stripped prefix by one. */
  lemma StrippedStep(rs: seq<Record>, k: nat)
    requires k < |rs|
    ensures StrippedUpTo(rs, k)[k := StripTitle(rs[k])] == StrippedUpTo(rs, k + 1)
  {
  }

  /** The items once the first loop has run over them: the titles up to
      and including the first incomplete item are stripped, the rest are
      untouched. */
  function Prepared(rs: seq<Record>): (ps: seq<Record>)
    ensures |ps| == |rs|
    ensures forall j :: 0 <= j < |rs| ==> ps[j] == if j <= CompletePrefix(rs) then StripTitle(rs[j]) else rs[j]
  {
    var n := CompletePrefix(rs);
    StrippedUpTo(rs, if n < |rs| then n + 1 else n)
  }

  /** The prompts of the first `k` items, all complete, built from the
      stripped titles. */
  function PromptsUpTo(rs: seq<Record>, k: nat): (qs: seq<string>)
    requires k <= CompletePrefix(rs)
    ensures |qs| == k
    ensures forall j :: 0 <= j < k ==> qs[j] == Prompt(Strip(rs[j]["title"]), rs[j]["content"])
  {
    if k == 0 then [] else PromptsUpTo(rs, k - 1) + [Prompt(Strip(rs[k - 1]["title"]), rs[k - 1]["content"])]
  }

  /** The prompts of the complete prefix. */
  function Prompts(rs: seq<Record>): (qs: seq<string>)
    ensures |qs| == CompletePrefix(rs)
  {
    PromptsUpTo(rs, CompletePrefix(rs))
  }

  /** The `j`-th prompt is built from the `j`-th item alone. */
  lemma {:induction false} PromptsAt(rs: seq<Record>, k: nat, j: nat)
    requires k <= CompletePrefix(rs) && j < k
    ensures PromptsUpTo(rs, k)[j] == Prompt(Strip(rs[j]["title"]), rs[j]["content"])
  {
    if j < k - 1 {
      PromptsAt(rs, k - 1, j);
    }
  }

  /** For the content spider: strip each title and build each prompt, in
      order. An item without a title or a content raises KeyError: the
      titles of the items before it, and its own title if it has one, are
      already stripped; later items are untouched. For other spiders
      nothing is read or changed. */
  method PrepareCleaning(items: array<Record>, spiderName: string) returns (prompts: seq<string>, missing: bool)
    modifies items
    ensures spiderName != "content" ==> !missing && prompts == [] && items[..] == old(items[..])
    ensures spiderName == "content" ==>
      && (missing <==> CompletePrefix(old(items[..])) < items.Length)
      && prompts == Prompts(old(items[..]))
      && items[..] == Prepared(old(items[..]))
  {
    prompts := [];
    if spiderName != "content" {
      return [], false;
    }
    ghost var orig := items[..];
    ghost var n := CompletePrefix(orig);
    var i := 0;
    while i < items.Length
      invariant 0 <= i <= items.Length && i <= n
      invariant prompts == PromptsUpTo(orig, i)
      invariant items[..] == StrippedUpTo(orig, i)
    {
      var item := items[i];
      StrippedStep(orig, i);
      if "title" !in item {
        assert StripTitle(orig[i]) == orig[i];
        return prompts, true;
      }
      var title := Strip(item["title"]);
      items[i] := item["title" := title];
      if "content" !in item {
        return prompts, true;
      }
      prompts := prompts + [Prompt(title, item["content"])];
      i := i + 1;
    }
    return prompts, false;
  }

  // ---------------------------------------------------------------------------
  // The write-back loop

  /** `item['content'] = cleaned_contents[cleaned_idx]` for each item, with
      the counter stepping once per item: the i-th result lands in the i-th
      item and nothing else changes. */
  method WriteBack(items: array<Record>, cleaned: seq<string>)
    requires |cleaned| == items.Length
    modifies items
    ensures forall j :: 0 <= j < items.Length ==> items[j] == old(items[j])["content" := cleaned[j]]
  {
    var cleanedIdx := 0;
    var i := 0;
    while i < items.Length
      invariant 0 <= i <= items.Length && cleanedIdx == i
      invariant forall j :: 0 <= j < items.Length ==>
        items[j] == if j < i then old(items[j])["content" := cleaned[j]] else old(items[j])
    {
      items[i] := items[i]["content" := cleaned[cleanedIdx]];
      cleanedIdx := cleanedIdx + 1;
      i := i + 1;
    }
  }

  /** What the LLM returns for the normalised prompt of a complete item:
      `None` where `arun` raises (a time-out, an API error). */
  function Answer(r: Record, clean: string -> Option<string>): Option<string>
    requires Complete(r)
  {
    clean(Normalize(Prompt(Strip(r["title"]), r["content"])))
  }

  /** Every LLM call of the batch returns. */
  predicate CleansAll(rs: seq<Record>, clean: string -> Option<string>) {
    forall j :: 0 <= j < |rs| && Complete(rs[j]) ==> Answer(rs[j], clean).Some?
  }

  /** A complete item after the content spider's cleaning: the title
      stripped, the content replaced by what the LLM returns for the
      normalised prompt of this item, every other field kept. */
  function CleanOne(r: Record, clean: string -> Option<string>): (c: Record)
    requires Complete(r) && Answer(r, clean).Some?
    ensures c.Keys == r.Keys
    ensures c["title"] == Strip(r["title"])
    ensures Answer(r, clean) == Some(c["content"])
    ensures forall k :: k in r && k != "title" && k != "content" ==> c[k] == r[k]
  {
    StripTitle(r)["content" := Answer(r, clean).value]
  }

  /** A batch of complete items after the cleaning, item by item. */
  function Cleaned(rs: seq<Record>, clean: string -> Option<string>): (cs: seq<Record>)
    requires forall j :: 0 <= j < |rs| ==> Complete(rs[j])
    requires CleansAll(rs, clean)
    ensures |cs| == |rs|
    ensures forall j :: 0 <= j < |rs| ==> cs[j] == CleanOne(rs[j], clean)
  {
    seq(|rs|, j requires 0 <= j < |rs| => CleanOne(rs[j], clean))
  }

  lemma CleanedOf(orig: seq<Record>, prepared: seq<Record>, final: seq<Record>, clean: string -> Option<string>, answers: seq<string>)
    requires CompletePrefix(orig) == |orig| && prepared == Prepared(orig) && |final| == |orig| == |answers|
    requires forall j :: 0 <= j < |orig| ==> Answer(orig[j], clean) == Some(answers[j])
    requires forall j :: 0 <= j < |orig| ==> final[j] == prepared[j]["content" := answers[j]]
    ensures CleansAll(orig, clean)
    ensures final == Cleaned(orig, clean)
  {
  }

  /** The `gather` of the LLM calls and the write-back loop, on a batch
      whose first loop went through: when every call returns, the i-th
      answer lands in the i-th item; when one raises, `gather` raises and
      nothing is written back. */
  method CleanBatch(items: array<Record>, prompts: seq<string>, clean: string -> Option<string>, ghost orig: seq<Record>)
    returns (failed: bool)
    requires CompletePrefix(orig) == |orig| == items.Length
    requires prompts == Prompts(orig) && items[..] == Prepared(orig)
    modifies items
    ensures failed <==> !CleansAll(orig, clean)
    ensures failed ==> items[..] == old(items[..])
    ensures !failed ==> CleansAll(orig, clean) && items[..] == Cleaned(orig, clean)
  {
    var outs := seq(|prompts|, j requires 0 <= j < |prompts| => clean(Normalize(prompts[j])));
    forall j | 0 <= j < |orig| ensures outs[j] == Answer(orig[j], clean) {
      PromptsAt(orig, |orig|, j);
    }
    if exists j :: 0 <= j < |outs| && outs[j].None? {
      return true;
    }
    var cleaned := seq(|outs|, j requires 0 <= j < |outs| => outs[j].value);
    ghost var prepared := items[..];
    WriteBack(items, cleaned);
    CleanedOf(orig, prepared, items[..], clean, cleaned);
    return false;
  }

  // ---------------------------------------------------------------------------
  // db_insert

  /** A row of `articles`. */
  datatype Row = Row(stockId: string, title: string, content: string, date: string, url: string)

  /** How `db_insert` ends: `True` after a commit, `False` after a
      rollback, or a KeyError for an item lacking a column, which is not a
      database error and escapes the `except`. */
  datatype InsertResult = Committed | RolledBack | KeyMissing

  /** The item has every column the statement reads. */
  predicate HasColumns(r: Record) {
    "stock_id" in r && "title" in r && "content" in r && "date" in r && "url" in r
  }

  /** How `db_insert` of the item ends, given whether the database
      rejects its statement. */
  function Outcome(r: Record, refused: bool): (o: InsertResult)
    ensures o == KeyMissing <==> !HasColumns(r)
    ensures o == RolledBack <==> HasColumns(r) && refused
    ensures o == Committed <==> HasColumns(r) && !refused
  {
    if !HasColumns(r) then KeyMissing else if refused then RolledBack else Committed
  }

  /** The results of the first `n` of a sequence of `db_insert` calls. */
  function Outcomes(rs: seq<Record>, refused: seq<bool>, n: nat): (os: seq<InsertResult>)
    requires n <= |rs| == |refused|
    ensures |os| == n
  {
    if n == 0 then [] else Outcomes(rs, refused, n - 1) + [Outcome(rs[n - 1], refused[n - 1])]
  }

  /** The `j`-th result is the `j`-th item's own outcome. */
  lemma {:induction false} OutcomesAt(rs: seq<Record>, refused: seq<bool>, n: nat, j: nat)
    requires n <= |rs| == |refused| && j < n
    ensures Outcomes(rs, refused, n)[j] == Outcome(rs[j], refused[j])
  {
    if j < n - 1 {
      OutcomesAt(rs, refused, n - 1, j);
    }
  }

  function RowOf(r: Record): (row: Row)
    requires HasColumns(r)
    ensures row.url == r["url"] && row.stockId == r["stock_id"]
  {
    Row(r["stock_id"], r["title"], r["content"], r["date"], r["url"])
  }

  /** The `(url, row)` pairs the first `n` of a sequence of `db_insert`
      calls commit, in order. */
  function CommittedRows(rs: seq<Record>, refused: seq<bool>, n: nat): (rows: seq<(string, Row)>)
    requires n <= |rs| == |refused|
    ensures |rows| <= n
  {
    if n == 0 then []
    else
      CommittedRows(rs, refused, n - 1)
        + (if HasColumns(rs[n - 1]) && !refused[n - 1] then [(rs[n - 1]["url"], RowOf(rs[n - 1]))] else [])
  }

  /** With no item carrying all the columns, nothing is committed. */
  lemma {:induction false} NothingCommitted(rs: seq<Record>, refused: seq<bool>, n: nat)
    requires n <= |rs| == |refused|
    requires forall j :: 0 <= j < n ==> !HasColumns(rs[j])
    ensures CommittedRows(rs, refused, n) == []
  {
    if n > 0 {
      NothingCommitted(rs, refused, n - 1);
    }
  }

  /** One more `db_insert` applies its row, if it commits one, to the table
      the earlier calls left. */
  lemma CommittedRowsNext(t0: map<string, Row>, rs: seq<Record>, refused: seq<bool>, i: nat)
    requires i < |rs| == |refused|
    ensures InsertAll(t0, CommittedRows(rs, refused, i + 1))
      == if HasColumns(rs[i]) && !refused[i] then InsertOrSkip(InsertAll(t0, CommittedRows(rs, refused, i)), rs[i]["url"], RowOf(rs[i]))
         else InsertAll(t0, CommittedRows(rs, refused, i))
  {
    var extra: seq<(string, Row)> := if HasColumns(rs[i]) && !refused[i] then [(rs[i]["url"], RowOf(rs[i]))] else [];
    InsertAllSnoc(t0, CommittedRows(rs, refused, i), extra);
  }

  // ---------------------------------------------------------------------------
  // A whole batch

  /** `process_batch` raises before any insert: for the content spider,
      the KeyError of the first loop, or an LLM call that raises, which
      `gather` re-raises. */
  predicate RaisesBeforeInserts(rs: seq<Record>, spiderName: string, clean: string -> Option<string>) {
    spiderName == "content" && (CompletePrefix(rs) < |rs| || !CleansAll(rs, clean))
  }

  /** The items once `process_batch` has run over them: for the content
      spider the titles are stripped up to the first incomplete item, where
      the first loop raises, and all of them when an LLM call raises, or
      else every item is cleaned; for any other spider they are untouched.
      No field is ever added or removed. */
  function BatchItems(rs: seq<Record>, spiderName: string, clean: string -> Option<string>): (ps: seq<Record>)
    ensures |ps| == |rs|
    ensures forall j :: 0 <= j < |rs| ==> ps[j].Keys == rs[j].Keys
  {
    if spiderName != "content" then rs
    else if RaisesBeforeInserts(rs, spiderName, clean) then Prepared(rs)
    else Cleaned(rs, clean)
  }

  /** Whether `process_batch` raises: before the inserts, or with a
      KeyError of a `db_insert` that `gather` re-raises. */
  predicate BatchRaises(rs: seq<Record>, spiderName: string, clean: string -> Option<string>, refused: seq<bool>)
    requires |refused| == |rs|
  {
    || RaisesBeforeInserts(rs, spiderName, clean)
    || KeyMissing in Outcomes(BatchItems(rs, spiderName, clean), refused, |rs|)
  }

  /** A batch raises exactly when, for the content spider, some item lacks
      a title or a content or some LLM call raises, or when some item lacks
      a column of the insert, whatever the database answers. */
  lemma BatchRaisesSpec(rs: seq<Record>, spiderName: string, clean: string -> Option<string>, refused: seq<bool>)
    requires |refused| == |rs|
    ensures BatchRaises(rs, spiderName, clean, refused) <==>
      (spiderName == "content" && ((exists j :: 0 <= j < |rs| && !Complete(rs[j])) || !CleansAll(rs, clean)))
      || exists j :: 0 <= j < |rs| && !HasColumns(rs[j])
  {
    var ps := BatchItems(rs, spiderName, clean);
    var os := Outcomes(ps, refused, |rs|);
    forall j | 0 <= j < |rs| ensures os[j] == KeyMissing <==> !HasColumns(rs[j]) {
      OutcomesAt(ps, refused, |rs|, j);
      assert ps[j].Keys == rs[j].Keys;
    }
    if KeyMissing in os {
      var j :| 0 <= j < |os| && os[j] == KeyMissing;
      assert !HasColumns(rs[j]);
    }
    if exists j :: 0 <= j < |rs| && !HasColumns(rs[j]) {
      var j :| 0 <= j < |rs| && !HasColumns(rs[j]);
      assert os[j] == KeyMissing;
    }
    if spiderName == "content" && exists j :: 0 <= j < |rs| && !Complete(rs[j]) {
      var j :| 0 <= j < |rs| && !Complete(rs[j]);
      assert CompletePrefix(rs) <= j;
    }
  }

  // ---------------------------------------------------------------------------
  // The pipeline object

  /** The items in the batches, in order. */
  function Flatten(bs: seq<seq<Record>>): (r: seq<Record>)
    ensures |bs| == 0 ==> r == []
  {
    if bs == [] then [] else Flatten(bs[..|bs| - 1]) + bs[|bs| - 1]
  }

  lemma FlattenSnoc(bs: seq<seq<Record>>, b: seq<Record>)
    ensures Flatten(bs + [b]) == Flatten(bs) + b
  {
    assert (bs + [b])[..|bs|] == bs;
  }

  /** Full batches hold five items each. */
  lemma {:induction false} FlattenFull(bs: seq<seq<Record>>)
    requires forall k :: 0 <= k < |bs| ==> |bs[k]| == BufferSize
    ensures |Flatten(bs)| == BufferSize * |bs|
  {
    if bs != [] {
      var n := |bs| - 1;
      assert forall k :: 0 <= k < n ==> bs[..n][k] == bs[k];
      FlattenFull(bs[..n]);
    }
  }

  /** `PostgresPipeline` with its buffer, the batches it has handed to
      `process_batch`, and the part of the database it writes. */
  class PostgresPipeline {
    /** `self.items_buffer`. */
    var buffer: seq<Record>
    /** The batches handed to `process_batch` so far, in order. */
    var batches: seq<seq<Record>>
    /** Every item given to `process_item` so far. */
    ghost var received: seq<Record>
    /** The rows of `articles`, by url. */
    var table: map<string, Row>
    /** Whether `self.conn` / `self.cur` are open. */
    var connected: bool

    /** The buffer never reaches its size, every batch handed over so far
        is a full one, and the batches followed by the buffer are exactly
        the items received, in order. */
    ghost predicate Valid()
      reads this
    {
      && |buffer| < BufferSize
      && (forall k :: 0 <= k < |batches| ==> |batches[k]| == BufferSize)
      && Flatten(batches) + buffer == received
    }

    constructor (rows: map<string, Row>)
      ensures Valid() && buffer == [] && batches == [] && received == []
      ensures table == rows && !connected
    {
      buffer := [];
      batches := [];
      received := [];
      table := rows;
      connected := false;
    }

    /** `open_spider`: connect, and create the table if it does not exist,
        keeping any rows it has. */
    method OpenSpider()
      modifies this
      ensures connected
      ensures buffer == old(buffer) && batches == old(batches) && received == old(received) && table == old(table)
    {
      connected := true;
    }

    /** `process_item`: append the item; once the buffer holds five, hand a
        copy of it to `process_batch` and start a new buffer. The item is
        returned as given. */
    method ProcessItem(item: Record) returns (r: Record)
      requires Valid()
      modifies this
      ensures Valid()
      ensures r == item
      ensures received == old(received) + [item]
      ensures |old(buffer)| + 1 == BufferSize ==> buffer == [] && batches == old(batches) + [old(buffer) + [item]]
      ensures |old(buffer)| + 1 < BufferSize ==> buffer == old(buffer) + [item] && batches == old(batches)
      ensures table == old(table) && connected == old(connected)
    {
      received := received + [item];
      buffer := buffer + [item];
      if |buffer| >= BufferSize {
        FlattenSnoc(batches, buffer);
        batches := batches + [buffer];
        buffer := [];
      }
      return item;
    }

    /** `db_insert`: insert the item's row unless its url is stored, and
        commit; roll back when the database rejects the statement; raise
        KeyError, touching nothing, for an item lacking a column. */
    method DbInsert(item: Record, refused: bool) returns (r: InsertResult)
      requires connected
      modifies this
      ensures r == Outcome(item, refused)
      ensures table == if r == Committed then InsertOrSkip(old(table), item["url"], RowOf(item)) else old(table)
      ensures buffer == old(buffer) && batches == old(batches) && received == old(received) && connected
    {
      if !HasColumns(item) {
        return KeyMissing;
      }
      if refused {
        return RolledBack;
      }
      table := InsertOrSkip(table, item["url"], RowOf(item));
      return Committed;
    }

    /** The `i`-th `db_insert` of the insert loop: the table is the one the
        first `i + 1` calls commit. */
    method InsertNext(rs: seq<Record>, refused: seq<bool>, i: nat, ghost t0: map<string, Row>) returns (r: InsertResult)
      requires connected && i < |rs| == |refused|
      requires table == InsertAll(t0, CommittedRows(rs, refused, i))
      modifies this
      ensures r == Outcome(rs[i], refused[i])
      ensures table == InsertAll(t0, CommittedRows(rs, refused, i + 1))
      ensures buffer == old(buffer) && batches == old(batches) && received == old(received) && connected
    {
      CommittedRowsNext(t0, rs, refused, i);
      r := DbInsert(rs[i], refused[i]);
    }

    /** The insert loop of `process_batch`, one `db_insert` per item, in
        order. */
    method InsertBatch(rs: seq<Record>, refused: seq<bool>) returns (results: seq<InsertResult>)
      requires connected && |refused| == |rs|
      modifies this
      ensures results == Outcomes(rs, refused, |rs|)
      ensures table == InsertAll(old(table), CommittedRows(rs, refused, |rs|))
      ensures buffer == old(buffer) && batches == old(batches) && received == old(received) && connected
    {
      results := [];
      var i := 0;
      while i < |rs|
        invariant 0 <= i <= |rs| && connected
        invariant results == Outcomes(rs, refused, i)
        invariant table == InsertAll(old(table), CommittedRows(rs, refused, i))
        invariant buffer == old(buffer) && batches == old(batches) && received == old(received)
      {
        var r := InsertNext(rs, refused, i, old(table));
        results := results + [r];
        i := i + 1;
      }
    }

    /** `process_batch` for one batch, with the LLM as `clean`: for the
        content spider, strip the titles and build the prompts, then put
        `clean(Normalize(prompt))` of the i-th item into the i-th item's
        content; then insert every item. `raised` reports the KeyError of
        the first loop or an LLM call that raises, either of which ends the
        batch before any insert. */
    method ProcessBatch(items: array<Record>, spiderName: string, clean: string -> Option<string>, refused: seq<bool>)
      returns (results: seq<InsertResult>, raised: bool)
      requires connected && |refused| == items.Length
      modifies this, items
      ensures raised <==> RaisesBeforeInserts(old(items[..]), spiderName, clean)
      ensures raised ==> results == [] && table == old(table) && items[..] == Prepared(old(items[..]))
      ensures !raised ==>
        && results == Outcomes(items[..], refused, items.Length)
        && table == InsertAll(old(table), CommittedRows(items[..], refused, items.Length))
        && items[..] == if spiderName == "content" then Cleaned(old(items[..]), clean) else old(items[..])
      ensures items[..] == BatchItems(old(items[..]), spiderName, clean)
      ensures buffer == old(buffer) && batches == old(batches) && received == old(received) && connected
    {
      ghost var orig := items[..];
      var prompts, missing := PrepareCleaning(items, spiderName);
      if missing {
        return [], true;
      }
      if items.Length > 0 && spiderName == "content" {
        var failed := CleanBatch(items, prompts, clean, orig);
        if failed {
          return [], true;
        }
      }
      results := InsertBatch(items[..], refused);
      raised := false;
    }

    /** `close_spider`: run `process_batch` to its end (`asyncio.run`) on
        what is left in the buffer, which is handed over as it is, so the
        buffer afterwards holds the items as the batch left them; then shut
        the executor down and close the connection. Every item received is
        then in exactly one batch, in the order of arrival. `raised`
        reports an exception that leaves `close_spider` before the
        connection is closed: `asyncio.run` refuses to start inside a
        running event loop (`loopRunning`) and then runs nothing, and the
        batch itself raises as `BatchRaises` says. */
    method CloseSpider(spiderName: string, clean: string -> Option<string>, refused: seq<bool>, loopRunning: bool)
      returns (raised: bool)
      requires Valid() && connected && |refused| == |buffer|
      modifies this
      ensures Flatten(batches) == received
      ensures forall k :: 0 <= k < |batches| - 1 ==> |batches[k]| == BufferSize
      ensures batches == if old(buffer) == [] then old(batches) else old(batches) + [old(buffer)]
      ensures received == old(received)
      ensures raised <==> old(buffer) != [] && (loopRunning || BatchRaises(old(buffer), spiderName, clean, refused))
      ensures connected <==> raised
      ensures old(buffer) == [] || loopRunning ==> buffer == old(buffer) && table == old(table)
      ensures old(buffer) != [] && !loopRunning ==>
        && buffer == BatchItems(old(buffer), spiderName, clean)
        && table == if RaisesBeforeInserts(old(buffer), spiderName, clean) then old(table)
                    else InsertAll(old(table), CommittedRows(buffer, refused, |buffer|))
    {
      raised := false;
      if buffer != [] {
        FlattenSnoc(batches, buffer);
        batches := batches + [buffer];
        if loopRunning {
          return true;
        }
        var b := buffer;
        var items := new Record[|b|](j requires 0 <= j < |b| => b[j]);
        assert items[..] == b;
        var results, firstRaised := ProcessBatch(items, spiderName, clean, refused);
        buffer := items[..];
        raised := firstRaised || KeyMissing in results;
        if raised {
          return;
        }
      }
      connected := false;
    }
  }
}
