// The `articles` table as both Postgres pipelines use it: rows keyed by
// their UNIQUE `url` column, written with
// `INSERT ... ON CONFLICT (url) DO NOTHING`.

module ArticleTable {

  /** One `INSERT ... ON CONFLICT (url) DO NOTHING`: a new url adds its row,
      a url already stored keeps the row it has. */
  function InsertOrSkip<R>(table: map<string, R>, url: string, row: R): (t: map<string, R>)
    ensures t.Keys == table.Keys + {url}
    ensures t[url] == if url in table then table[url] else row
    ensures forall u :: u in table ==> t[u] == table[u]
  {
    if url in table then table else table[url := row]
  }

  /** A statement adds at most one row: exactly one for a new url, none for
      a stored one. */
  lemma InsertOrSkipSize<R>(table: map<string, R>, url: string, row: R)
    ensures |InsertOrSkip(table, url, row)| == |table| + (if url in table then 0 else 1)
  {
    var t := InsertOrSkip(table, url, row);
    if url !in table {
      assert t.Keys == table.Keys + {url};
      assert |t.Keys| == |table.Keys| + 1;
    }
  }

  /** Inserting a row that is already stored changes nothing, so replaying
      a statement is harmless. */
  lemma InsertOrSkipIdempotent<R>(table: map<string, R>, url: string, row: R)
    ensures InsertOrSkip(InsertOrSkip(table, url, row), url, row) == InsertOrSkip(table, url, row)
  {
  }

  /** The table after committing the statements for `rows`, `(url, row)`
      pairs, one after the other. */
  function InsertAll<R>(table: map<string, R>, rows: seq<(string, R)>): (t: map<string, R>)
    ensures t.Keys == table.Keys + Urls(rows)
  {
    if rows == [] then table
    else
      var n := |rows| - 1;
      InsertOrSkip(InsertAll(table, rows[..n]), rows[n].0, rows[n].1)
  }

  /** One more statement applies to the table the earlier ones left. */
  lemma InsertAllSnoc<R>(table: map<string, R>, rows: seq<(string, R)>, extra: seq<(string, R)>)
    requires |extra| <= 1
    ensures InsertAll(table, rows + extra)
      == if extra == [] then InsertAll(table, rows) else InsertOrSkip(InsertAll(table, rows), extra[0].0, extra[0].1)
  {
    if extra == [] {
      assert rows + extra == rows;
    } else {
      assert (rows + extra)[..|rows|] == rows;
    }
  }

  /** The urls of `rows`. */
  function Urls<R>(rows: seq<(string, R)>): (r: set<string>)
    ensures forall k :: 0 <= k < |rows| ==> rows[k].0 in r
  {
    if rows == [] then {} else Urls(rows[..|rows| - 1]) + {rows[|rows| - 1].0}
  }

  /** A url is among `Urls(rows)` exactly when some row carries it. */
  lemma {:induction false} UrlsSpec<R>(rows: seq<(string, R)>, u: string)
    ensures u in Urls(rows) <==> exists k :: 0 <= k < |rows| && rows[k].0 == u
  {
    if rows != [] {
      var n := |rows| - 1;
      UrlsSpec(rows[..n], u);
      if u in Urls(rows[..n]) {
        var k :| 0 <= k < n && rows[..n][k].0 == u;
        assert rows[k].0 == u;
      }
      if k :| 0 <= k < |rows| && rows[k].0 == u {
        if k < n { assert rows[..n][k].0 == u; }
      }
    }
  }

  /** Rows stored before a run of inserts are left as they were. */
  lemma {:induction false} InsertAllKeeps<R>(table: map<string, R>, rows: seq<(string, R)>)
    ensures forall u :: u in table ==> InsertAll(table, rows)[u] == table[u]
  {
    if rows != [] {
      InsertAllKeeps(table, rows[..|rows| - 1]);
    }
  }

  /** `rows[k]` is the first row for its url. */
  predicate FirstOfUrl<R>(rows: seq<(string, R)>, k: nat)
    requires k < |rows|
  {
    forall j :: 0 <= j < k ==> rows[j].0 != rows[k].0
  }

  /** A url that was new holds the first row given for it: the first write
      wins. */
  lemma {:induction false} InsertAllFirstWins<R>(table: map<string, R>, rows: seq<(string, R)>, k: nat)
    requires k < |rows| && rows[k].0 !in table && FirstOfUrl(rows, k)
    ensures InsertAll(table, rows)[rows[k].0] == rows[k].1
  {
    var n := |rows| - 1;
    var init := rows[..n];
    if k < n {
      assert init[k] == rows[k];
      assert FirstOfUrl(init, k) by {
        forall j | 0 <= j < k ensures init[j].0 != init[k].0 { assert init[j] == rows[j]; }
      }
      InsertAllFirstWins(table, init, k);
    } else {
      UrlsSpec(init, rows[n].0);
      assert rows[n].0 !in Urls(init) by {
        forall j | 0 <= j < n ensures init[j].0 != rows[n].0 { assert init[j] == rows[j]; }
      }
    }
  }
}
