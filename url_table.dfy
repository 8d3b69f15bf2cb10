/**
 * The urls table of data/db.py, without the SQL around it.
 *
 * The table `urls (url, url_id, created, password, can_be_modified)` has no
 * primary key, so it is modelled as a sequence of rows in insertion order.
 * Each query of class DB becomes a method of class Db that scans or rewrites
 * that sequence, and each method is specified by a function over the rows;
 * the lemmas below state what the source relies on about those functions.
 */
module UrlTable {
  import opened Wrappers

  newtype Byte = b: int | 0 <= b < 256

  /** A BINARY column value, such as a bcrypt digest. */
  type Bytes = seq<Byte>

  /** URLEntry: one row of the table. `created` is the text sqlite3 stores for a datetime. */
  datatype UrlEntry = UrlEntry(
    url: string,
    urlId: int,
    created: string,
    password: Bytes,
    canBeModified: bool)

  /**
   * Why a query gives no answer: NoSuchRow is the TypeError of `URLEntry(**None)`
   * or `None[0]` when no row matches; Overflow is the OverflowError sqlite3
   * raises when an integer parameter does not fit a signed 64-bit INTEGER.
   */
  datatype TableError = NoSuchRow | Overflow

  const MinInt64: int := -0x8000_0000_0000_0000
  const MaxInt64: int := 0x7FFF_FFFF_FFFF_FFFF

  /** An integer sqlite3 can bind as a query parameter. */
  predicate FitsInt64(x: int) {
    MinInt64 <= x <= MaxInt64
  }

  /** The url_id column, in table order. */
  function IdColumn(rows: seq<UrlEntry>): (ids: seq<int>)
    ensures |ids| == |rows|
    ensures forall i :: 0 <= i < |rows| ==> ids[i] == rows[i].urlId
  {
    if rows == [] then [] else IdColumn(rows[..|rows| - 1]) + [rows[|rows| - 1].urlId]
  }

  /** The url column, in table order: what `SELECT url FROM urls` yields. */
  function UrlColumn(rows: seq<UrlEntry>): (urls: seq<string>)
    ensures |urls| == |rows|
    ensures forall i :: 0 <= i < |rows| ==> urls[i] == rows[i].url
  {
    if rows == [] then [] else UrlColumn(rows[..|rows| - 1]) + [rows[|rows| - 1].url]
  }

  /** The position of the first occurrence of k, or |keys| when there is none. */
  function FirstIndexOf<K(==)>(keys: seq<K>, k: K): (i: nat)
    ensures i <= |keys|
    ensures i < |keys| ==> keys[i] == k
    ensures forall j :: 0 <= j < i ==> keys[j] != k
  {
    if keys == [] then 0
    else if keys[0] == k then 0
    else 1 + FirstIndexOf(keys[1..], k)
  }

  /** `SELECT * FROM urls WHERE url_id=?` followed by `URLEntry(**cursor.fetchone())`. */
  function FindById(rows: seq<UrlEntry>, urlId: int): (r: Result<UrlEntry, TableError>)
    ensures r.Failure? <==> forall i :: 0 <= i < |rows| ==> rows[i].urlId != urlId
    ensures r.Success? ==> r.value.urlId == urlId && r.value in rows
  {
    var i := FirstIndexOf(IdColumn(rows), urlId);
    if i < |rows| then Success(rows[i]) else Failure(NoSuchRow)
  }

  /** `SELECT url_id FROM urls WHERE url=?` followed by `cursor.fetchone()[0]`. */
  function FindIdByUrl(rows: seq<UrlEntry>, url: string): (r: Result<int, TableError>)
    ensures r.Failure? <==> url !in UrlColumn(rows)
    ensures r.Success? ==> exists i :: 0 <= i < |rows| && rows[i].url == url && rows[i].urlId == r.value
  {
    var i := FirstIndexOf(UrlColumn(rows), url);
    if i < |rows| then Success(rows[i].urlId) else Failure(NoSuchRow)
  }

  /**
   * `SELECT url_id FROM urls ORDER BY url_id DESC` and the first row of the
   * answer, with 0 for an empty table: the largest id in the table.
   */
  function LastUrlId(rows: seq<UrlEntry>): (m: int)
    ensures rows == [] ==> m == 0
    ensures rows != [] ==> m in IdColumn(rows)
    ensures forall i :: 0 <= i < |rows| ==> rows[i].urlId <= m
  {
    if |rows| == 0 then 0
    else if |rows| == 1 then rows[0].urlId
    else
      var m := LastUrlId(rows[..|rows| - 1]);
      var last := rows[|rows| - 1].urlId;
      if last > m then last else m
  }

  /** One row after `SET url=? WHERE url_id=?`. */
  function RewriteRow(e: UrlEntry, urlId: int, url: string): UrlEntry {
    if e.urlId == urlId then e.(url := url) else e
  }

  /** `UPDATE urls SET url=? WHERE url_id=?`: every row with that id gets the new url. */
  function RewriteUrl(rows: seq<UrlEntry>, urlId: int, url: string): (r: seq<UrlEntry>)
    ensures |r| == |rows|
    ensures forall i :: 0 <= i < |rows| ==>
      r[i] == if rows[i].urlId == urlId then rows[i].(url := url) else rows[i]
  {
    if rows == [] then [] else [RewriteRow(rows[0], urlId, url)] + RewriteUrl(rows[1..], urlId, url)
  }

  /** The invariant insert keeps: ids start at 1 and increase strictly in table order. */
  predicate IdsAscending(rows: seq<UrlEntry>) {
    && (forall i :: 0 <= i < |rows| ==> rows[i].urlId >= 1)
    && (forall i, j :: 0 <= i < j < |rows| ==> rows[i].urlId < rows[j].urlId)
  }

  /** No url is stored twice. */
  predicate UrlsDistinct(rows: seq<UrlEntry>) {
    forall i, j :: 0 <= i < j < |rows| ==> rows[i].url != rows[j].url
  }

  // ---------------------------------------------------------------------------
  // Lemmas about the table functions

  /** In an ascending table the largest id is that of the last row inserted. */
  lemma AscendingLastIdIsLastRow(rows: seq<UrlEntry>)
    requires IdsAscending(rows) && rows != []
    ensures LastUrlId(rows) == rows[|rows| - 1].urlId
  {
  }

  /** ids are unique in an ascending table, so at most one row answers a lookup. */
  lemma AscendingIdsUnique(rows: seq<UrlEntry>, i: int, j: int)
    requires IdsAscending(rows)
    requires 0 <= i < |rows| && 0 <= j < |rows| && rows[i].urlId == rows[j].urlId
    ensures i == j
  {
  }

  /** An id larger than every stored id finds the row appended with it. */
  lemma FindAppended(rows: seq<UrlEntry>, e: UrlEntry)
    requires forall i :: 0 <= i < |rows| ==> rows[i].urlId < e.urlId
    ensures FindById(rows + [e], e.urlId) == Success(e)
  {
  }

  /** Appending leaves every lookup of an older id as it was. */
  lemma FindAfterAppend(rows: seq<UrlEntry>, e: UrlEntry, urlId: int)
    requires urlId != e.urlId
    ensures FindById(rows + [e], urlId) == FindById(rows, urlId)
  {
  }

  /** insert keeps the table ascending: the new id is one more than the largest. */
  lemma AppendNextIdKeepsAscending(rows: seq<UrlEntry>, e: UrlEntry)
    requires IdsAscending(rows)
    requires e.urlId == LastUrlId(rows) + 1
    ensures IdsAscending(rows + [e])
  {
  }

  /** Appending a url that is not yet stored keeps the urls distinct. */
  lemma AppendNewUrlKeepsDistinct(rows: seq<UrlEntry>, e: UrlEntry)
    requires UrlsDistinct(rows)
    requires e.url !in UrlColumn(rows)
    ensures UrlsDistinct(rows + [e])
  {
  }

  /** `url in get_all_urls()` decides exactly whether get_id_by_url finds a row. */
  lemma UrlListedIffIdFound(rows: seq<UrlEntry>, url: string)
    ensures url in UrlColumn(rows) <==> FindIdByUrl(rows, url).Success?
    ensures multiset(UrlColumn(rows))[url] > 0 <==> FindIdByUrl(rows, url).Success?
  {
  }

  /** update_url_entry never touches the url_id column, so the id invariants survive it. */
  lemma RewriteUrlKeepsIds(rows: seq<UrlEntry>, urlId: int, url: string)
    ensures IdColumn(RewriteUrl(rows, urlId, url)) == IdColumn(rows)
    ensures IdsAscending(rows) ==> IdsAscending(RewriteUrl(rows, urlId, url))
    ensures LastUrlId(RewriteUrl(rows, urlId, url)) == LastUrlId(rows)
  {
  }

  /** With unique ids the update changes exactly one row, and only its url. */
  lemma RewriteUrlOneRow(rows: seq<UrlEntry>, k: int, url: string)
    requires IdsAscending(rows)
    requires 0 <= k < |rows|
    ensures RewriteUrl(rows, rows[k].urlId, url) == rows[k := rows[k].(url := url)]
  {
  }

  /** After an update, a lookup of that id finds the same row carrying the new url. */
  lemma FindAfterRewrite(rows: seq<UrlEntry>, urlId: int, url: string)
    ensures FindById(RewriteUrl(rows, urlId, url), urlId) ==
      match FindById(rows, urlId)
      case Success(e) => Success(e.(url := url))
      case Failure(err) => Failure(err)
  {
    RewriteUrlKeepsIds(rows, urlId, url);
  }

  /** The update is not checked for duplicates: it can store a url twice. */
  lemma RewriteUrlCanDuplicate()
    ensures var rows := [UrlEntry("https://a", 1, "", [], true), UrlEntry("https://b", 2, "", [], true)];
      UrlsDistinct(rows) && !UrlsDistinct(RewriteUrl(rows, 2, "https://a"))
  {
  }

  // ---------------------------------------------------------------------------
  // The DB object

  /** DB: an open connection to the urls table, seen as the rows it holds. */
  class Db {
    var rows: seq<UrlEntry>

    ghost predicate Valid()
      reads this
    {
      IdsAscending(rows)
    }

    /**
     * DB(): open the table, holding the rows already stored (none for a new
     * file). A new file is Valid, and Insert and UpdateUrlEntry keep Valid, so
     * every table this program builds is Valid.
     */
    constructor (stored: seq<UrlEntry>)
      ensures rows == stored
      ensures stored == [] ==> Valid()
    {
      rows := stored;
    }

    /** get_last_url_id: the largest url_id, or 0 for an empty table. */
    method GetLastUrlId() returns (m: int)
      ensures m == LastUrlId(rows)
    {
      if |rows| == 0 {
        return 0;
      }
      m := rows[0].urlId;
      var i := 1;
      while i < |rows|
        invariant 1 <= i <= |rows|
        invariant m == LastUrlId(rows[..i])
      {
        assert rows[..i + 1][..i] == rows[..i];
        if rows[i].urlId > m {
          m := rows[i].urlId;
        }
        i := i + 1;
      }
      assert rows[..i] == rows;
    }

    /** insert: append a row whose id is one more than the largest id, and return that id. */
    method Insert(url: string, password: Bytes, canBeModified: bool, created: string)
      returns (urlId: int)
      modifies this
      ensures urlId == LastUrlId(old(rows)) + 1
      ensures forall i :: 0 <= i < |old(rows)| ==> old(rows)[i].urlId < urlId
      ensures rows == old(rows) + [UrlEntry(url, urlId, created, password, canBeModified)]
      ensures FindById(rows, urlId) == Success(UrlEntry(url, urlId, created, password, canBeModified))
      ensures old(Valid()) ==> Valid()
    {
      var last := GetLastUrlId();
      urlId := last + 1;
      var entry := UrlEntry(url, urlId, created, password, canBeModified);
      FindAppended(rows, entry);
      if IdsAscending(rows) {
        AppendNextIdKeepsAscending(rows, entry);
      }
      rows := rows + [entry];
    }

    /**
     * get_url_entry: the first row with that id; NoSuchRow when there is none,
     * and Overflow when sqlite3 cannot bind the id at all.
     */
    method GetUrlEntry(urlId: int) returns (r: Result<UrlEntry, TableError>)
      ensures !FitsInt64(urlId) ==> r == Failure(Overflow)
      ensures FitsInt64(urlId) ==> r == FindById(rows, urlId)
    {
      if !FitsInt64(urlId) {
        return Failure(Overflow);
      }
      var i := 0;
      while i < |rows| && rows[i].urlId != urlId
        invariant 0 <= i <= |rows|
        invariant forall j :: 0 <= j < i ==> rows[j].urlId != urlId
      {
        i := i + 1;
      }
      if i < |rows| {
        r := Success(rows[i]);
      } else {
        r := Failure(NoSuchRow);
      }
    }

    /** update_url_entry: store entry.url on the rows with id entry.urlId; nothing else changes. */
    method UpdateUrlEntry(entry: UrlEntry)
      modifies this
      ensures rows == RewriteUrl(old(rows), entry.urlId, entry.url)
      ensures IdColumn(rows) == IdColumn(old(rows))
      ensures old(Valid()) ==> Valid()
    {
      ghost var before := rows;
      var i := 0;
      while i < |rows|
        invariant 0 <= i <= |rows| == |before|
        invariant forall j :: 0 <= j < i ==> rows[j] == RewriteRow(before[j], entry.urlId, entry.url)
        invariant forall j :: i <= j < |rows| ==> rows[j] == before[j]
      {
        if rows[i].urlId == entry.urlId {
          rows := rows[i := rows[i].(url := entry.url)];
        }
        i := i + 1;
      }
      assert rows == RewriteUrl(before, entry.urlId, entry.url);
      RewriteUrlKeepsIds(before, entry.urlId, entry.url);
    }

    /** get_id_by_url: the id of the first row holding that url; NoSuchRow when none does. */
    method GetIdByUrl(url: string) returns (r: Result<int, TableError>)
      ensures r == FindIdByUrl(rows, url)
    {
      var i := 0;
      while i < |rows| && rows[i].url != url
        invariant 0 <= i <= |rows|
        invariant forall j :: 0 <= j < i ==> rows[j].url != url
      {
        i := i + 1;
      }
      if i < |rows| {
        r := Success(rows[i].urlId);
      } else {
        r := Failure(NoSuchRow);
      }
    }

    /** get_all_urls: the url of every row, built one row at a time. */
    method GetAllUrls() returns (urls: seq<string>)
      ensures urls == UrlColumn(rows)
    {
      urls := [];
      var i := 0;
      while i < |rows|
        invariant 0 <= i <= |rows|
        invariant urls == UrlColumn(rows[..i])
      {
        assert rows[..i + 1][..i] == rows[..i];
        urls := urls + [rows[i].url];
        i := i + 1;
      }
      assert rows[..i] == rows;
    }
  }
}
