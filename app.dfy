/**
 * The decision logic of app.py: normalising and storing a submitted url,
 * resolving a short url, and the password-gated edit.
 *
 * What a handler sends back (a rendered template or a redirect) is a Page
 * value.  The Host header, the bcrypt digest of the submitted password, the
 * bcrypt comparison and the current time are parameters; the Flask session is
 * a map from keys to values.
 */
module App {
  import opened Wrappers
  import opened Codec
  import opened UrlTable

  /** The Flask session: only the "password" key is ever used. */
  type Session = map<string, Bytes>

  /** A message shown with `flash(message, category)`. */
  datatype Flash = Flash(message: string, category: string)

  const ChangedFlash := Flash("Successfully changed URL.", "info")
  const SameUrlFlash := Flash("URL is the same.", "error")
  const WrongPasswordFlash := Flash("Wrong password!", "error")

  /** What a handler answers with: one of the templates it renders, or a redirect. */
  datatype Page =
    | SuccessPage(url: string, shortUrl: string)          // success.html
    | AlreadyExistsPage(url: string, shortUrl: string)    // already_exists_error.html
    | NotFoundPage(shortUrl: string)                      // 404_error.html
    | ModifyForm(canBeModified: bool, url: string, flash: Option<Flash>)  // modify.html
    | LoginForm(canBeModified: bool, flash: Option<Flash>)                 // login.html
    | RedirectTo(location: string)
    | ServerError                                         // HTTP 500 for an exception no handler catches

  /**
   * Why a short url resolves to no row. BadIdentifier (the ValueError of
   * convert_string_id) and MissingEntry (the TypeError of get_url_entry) are
   * caught and lead to the 404 page; IdOutOfRange (the OverflowError sqlite3
   * raises when binding the decoded id) is not caught and ends in a server error.
   */
  datatype LookupError = BadIdentifier | MissingEntry | IdOutOfRange

  /** get_host_name, given the Host header of the request. */
  function HostName(host: string): string {
    "http://" + host
  }

  /** convert_id_to_short_url. */
  function ConvertIdToShortUrl(host: string, urlId: int): string {
    HostName(host) + "/" + ConvertIntegerId(urlId)
  }

  /** Whether `re.match("^http", url)` matches: the text starts with "http", case-sensitively. */
  predicate StartsWithHttp(url: string) {
    |url| >= 4 && url[..4] == "http"
  }

  /** The scheme rule of add_url: prepend "https://" unless the url starts with "http". */
  function Normalize(url: string): (r: string)
    ensures StartsWithHttp(r)
    ensures r == url <==> StartsWithHttp(url)
    ensures r != url ==> r == "https://" + url
  {
    if StartsWithHttp(url) then url else "https://" + url
  }

  /**
   * The lookup every short-url route starts with: `convert_string_id` and then
   * `get_url_entry`.
   */
  function Resolve(rows: seq<UrlEntry>, shortUrl: string): (r: Result<UrlEntry, LookupError>)
    ensures r.Success? ==>
      && r.value in rows && ConvertStringId(shortUrl) == Success(r.value.urlId) && FitsInt64(r.value.urlId)
    ensures r == Failure(BadIdentifier) <==> ConvertStringId(shortUrl).Failure?
    ensures r == Failure(IdOutOfRange) <==>
      ConvertStringId(shortUrl).Success? && !FitsInt64(ConvertStringId(shortUrl).value)
    ensures r == Failure(MissingEntry) <==>
      && ConvertStringId(shortUrl).Success? && FitsInt64(ConvertStringId(shortUrl).value)
      && FindById(rows, ConvertStringId(shortUrl).value).Failure?
  {
    match ConvertStringId(shortUrl)
    case Failure(_) => Failure(BadIdentifier)
    case Success(urlId) =>
      if !FitsInt64(urlId) then Failure(IdOutOfRange)
      else
        match FindById(rows, urlId)
        case Success(entry) => Success(entry)
        case Failure(_) => Failure(MissingEntry)
  }

  /** Whether a failed lookup is caught by `except (TypeError, ValueError)` and shown as the 404 page. */
  predicate Caught(err: LookupError) {
    err != IdOutOfRange
  }

  /** The session holds the stored digest, so that `url_entry.password != session.get("password")` is false. */
  predicate HoldsPassword(session: Session, digest: Bytes) {
    "password" in session && session["password"] == digest
  }

  // ---------------------------------------------------------------------------
  // Handlers

  /** The try block of the short-url routes: decode the segment, then fetch the row. */
  method LookUp(db: Db, shortUrl: string) returns (r: Result<UrlEntry, LookupError>)
    ensures r == Resolve(db.rows, shortUrl)
  {
    var decoded := ConvertStringId(shortUrl);
    if decoded.Failure? {
      return Failure(BadIdentifier);
    }
    var found := db.GetUrlEntry(decoded.value);
    if found == Failure(Overflow) {
      return Failure(IdOutOfRange);
    }
    if found.Failure? {
      return Failure(MissingEntry);
    }
    r := Success(found.value);
  }

  /**
   * add_url: normalise, answer with the existing short url when the url is
   * already stored, otherwise insert one row. `passwordHash` is what
   * hash_password returned for `password`; it is stored even for an empty
   * password, whose row is then marked as not modifiable.
   */
  method AddUrl(db: Db, host: string, url: string, password: string, passwordHash: Bytes, created: string)
    returns (page: Page)
    modifies db
    ensures Normalize(url) in old(UrlColumn(db.rows)) ==>
      && db.rows == old(db.rows)
      && FindIdByUrl(old(db.rows), Normalize(url)).Success?
      && page == AlreadyExistsPage(Normalize(url),
                   ConvertIdToShortUrl(host, FindIdByUrl(old(db.rows), Normalize(url)).value))
    ensures Normalize(url) !in old(UrlColumn(db.rows)) ==>
      var urlId := LastUrlId(old(db.rows)) + 1;
      && db.rows == old(db.rows) + [UrlEntry(Normalize(url), urlId, created, passwordHash, |password| != 0)]
      && page == SuccessPage(Normalize(url), ConvertIdToShortUrl(host, urlId))
    ensures old(db.Valid()) ==> db.Valid()
    ensures old(UrlsDistinct(db.rows)) ==> UrlsDistinct(db.rows)
  {
    ghost var before := db.rows;
    var u := Normalize(url);
    var urls := db.GetAllUrls();
    if u in urls {
      UrlListedIffIdFound(before, u);
      var found := db.GetIdByUrl(u);
      page := AlreadyExistsPage(u, ConvertIdToShortUrl(host, found.value));
      return;
    }
    var canBeModified := |password| != 0;
    var urlId := db.Insert(u, passwordHash, canBeModified, created);
    ghost var entry := UrlEntry(u, urlId, created, passwordHash, canBeModified);
    assert db.rows == before + [entry] && urlId == LastUrlId(before) + 1;
    if UrlsDistinct(before) {
      AppendNewUrlKeepsDistinct(before, entry);
    }
    page := SuccessPage(u, ConvertIdToShortUrl(host, urlId));
  }

  /** route_to_url: redirect to the stored url, or show the 404 page. */
  method RouteToUrl(db: Db, host: string, shortUrl: string) returns (page: Page)
    ensures Resolve(db.rows, shortUrl).Success? ==> page == RedirectTo(Resolve(db.rows, shortUrl).value.url)
    ensures Resolve(db.rows, shortUrl).Failure? && Caught(Resolve(db.rows, shortUrl).error) ==>
      page == NotFoundPage(HostName(host) + "/" + shortUrl)
    ensures Resolve(db.rows, shortUrl) == Failure(IdOutOfRange) ==> page == ServerError
  {
    var r := LookUp(db, shortUrl);
    if r == Failure(IdOutOfRange) {
      return ServerError;
    }
    if r.Failure? {
      return NotFoundPage(HostName(host) + "/" + shortUrl);
    }
    page := RedirectTo(r.value.url);
  }

  /**
   * modify_short_url: `form` is None for a GET and the submitted url for a
   * POST. The row's url changes only when the session holds the row's digest
   * and the submitted url differs from the stored one; the new url is stored
   * as submitted, without normalising and without a duplicate check.
   */
  method ModifyShortUrl(db: Db, session: Session, host: string, shortUrl: string, form: Option<string>)
    returns (page: Page)
    modifies db
    ensures Resolve(old(db.rows), shortUrl).Failure? && Caught(Resolve(old(db.rows), shortUrl).error) ==>
      page == NotFoundPage(HostName(host) + "/" + shortUrl) && db.rows == old(db.rows)
    ensures Resolve(old(db.rows), shortUrl) == Failure(IdOutOfRange) ==>
      page == ServerError && db.rows == old(db.rows)
    ensures Resolve(old(db.rows), shortUrl).Success? ==>
      var e := Resolve(old(db.rows), shortUrl).value;
      if !HoldsPassword(session, e.password) then
        page == RedirectTo("login") && db.rows == old(db.rows)
      else if form.None? then
        page == ModifyForm(e.canBeModified, e.url, None) && db.rows == old(db.rows)
      else if form.value == e.url then
        page == ModifyForm(e.canBeModified, e.url, Some(SameUrlFlash)) && db.rows == old(db.rows)
      else
        && db.rows == RewriteUrl(old(db.rows), e.urlId, form.value)
        && page == ModifyForm(e.canBeModified, form.value, Some(ChangedFlash))
    ensures db.rows != old(db.rows) ==>
      && Resolve(old(db.rows), shortUrl).Success?
      && HoldsPassword(session, Resolve(old(db.rows), shortUrl).value.password)
      && form.Some? && form.value != Resolve(old(db.rows), shortUrl).value.url
    ensures old(db.Valid()) ==> db.Valid()
    ensures old(db.Valid()) && db.rows != old(db.rows) ==>
      exists k :: 0 <= k < |old(db.rows)| && db.rows == old(db.rows)[k := old(db.rows)[k].(url := form.value)]
  {
    var r := LookUp(db, shortUrl);
    if r == Failure(IdOutOfRange) {
      return ServerError;
    }
    if r.Failure? {
      return NotFoundPage(HostName(host) + "/" + shortUrl);
    }
    var entry := r.value;
    if !HoldsPassword(session, entry.password) {
      return RedirectTo("login");
    }
    if form.Some? {
      if form.value != entry.url {
        entry := entry.(url := form.value);
        ghost var before := db.rows;
        db.UpdateUrlEntry(entry);
        if IdsAscending(before) {
          ghost var k := FirstIndexOf(IdColumn(before), entry.urlId);
          RewriteUrlOneRow(before, k, entry.url);
        }
        return ModifyForm(entry.canBeModified, entry.url, Some(ChangedFlash));
      }
      return ModifyForm(entry.canBeModified, entry.url, Some(SameUrlFlash));
    }
    page := ModifyForm(entry.canBeModified, entry.url, None);
  }

  /**
   * login: `form` is None for a GET and the entered password for a POST;
   * `comparePassword` stands for bcrypt's checkpw. On a match the session
   * receives the row's digest, which is what modify_short_url checks.
   */
  method Login(db: Db, session: Session, host: string, shortUrl: string, form: Option<string>,
               comparePassword: (string, Bytes) -> bool)
    returns (page: Page, session': Session)
    ensures Resolve(db.rows, shortUrl).Failure? && Caught(Resolve(db.rows, shortUrl).error) ==>
      page == NotFoundPage(HostName(host) + "/" + shortUrl) && session' == session
    ensures Resolve(db.rows, shortUrl) == Failure(IdOutOfRange) ==> page == ServerError && session' == session
    ensures Resolve(db.rows, shortUrl).Success? ==>
      var e := Resolve(db.rows, shortUrl).value;
      if form.Some? && comparePassword(form.value, e.password) then
        page == RedirectTo("modify") && session' == session["password" := e.password]
      else
        && session' == session
        && page == LoginForm(e.canBeModified, if form.Some? then Some(WrongPasswordFlash) else None)
    ensures session' != session ==>
      Resolve(db.rows, shortUrl).Success? && HoldsPassword(session', Resolve(db.rows, shortUrl).value.password)
  {
    session' := session;
    var r := LookUp(db, shortUrl);
    if r == Failure(IdOutOfRange) {
      return ServerError, session';
    }
    if r.Failure? {
      return NotFoundPage(HostName(host) + "/" + shortUrl), session';
    }
    var entry := r.value;
    if form.Some? {
      if comparePassword(form.value, entry.password) {
        session' := session["password" := entry.password];
        return RedirectTo("modify"), session';
      }
      return LoginForm(entry.canBeModified, Some(WrongPasswordFlash)), session';
    }
    page := LoginForm(entry.canBeModified, None);
  }

  // ---------------------------------------------------------------------------
  // Lemmas

  /** Normalising twice is normalising once. */
  lemma NormalizeIdempotent(url: string)
    ensures Normalize(Normalize(url)) == Normalize(url)
  {
  }

  /** The prefix test is case-sensitive and looks at four letters only. */
  lemma NormalizeExamples()
    ensures Normalize("example.com") == "https://example.com"
    ensures Normalize("http://example.com") == "http://example.com"
    ensures Normalize("HTTP://x") == "https://HTTP://x"
    ensures Normalize("httpx.com") == "httpx.com"
  {
    assert "example.com"[..4] == "exam";
    assert "HTTP://x"[..4] == "HTTP";
  }

  /** Two different ids never share a short url. */
  lemma ShortUrlInjective(host: string, a: int, b: int)
    requires ConvertIdToShortUrl(host, a) == ConvertIdToShortUrl(host, b)
    ensures a == b
  {
    var prefix := HostName(host) + "/";
    var s := ConvertIdToShortUrl(host, a);
    assert ConvertIntegerId(a) == s[|prefix|..] == ConvertIntegerId(b);
    ConvertIntegerIdInjective(a, b);
  }

  /**
   * The short url shown for a freshly inserted row leads back to it exactly
   * when its id has one hex digit. For any larger id it leads to the 404 page
   * while the misread id fits in 64 bits, and to a server error beyond.
   */
  lemma NewShortUrlResolves(rows: seq<UrlEntry>, e: UrlEntry)
    requires e.urlId >= 0
    requires forall i :: 0 <= i < |rows| ==> rows[i].urlId < e.urlId
    ensures e.urlId < 16 ==> Resolve(rows + [e], ConvertIntegerId(e.urlId)) == Success(e)
    ensures e.urlId >= 16 ==>
      Resolve(rows + [e], ConvertIntegerId(e.urlId)) ==
        (if FitsInt64(ConvertStringId(ConvertIntegerId(e.urlId)).value) then Failure(MissingEntry)
         else Failure(IdOutOfRange))
  {
    FindAppended(rows, e);
    RoundTripExactlyBelow16(e.urlId);
    if e.urlId >= 16 {
      RoundTripOvershoots(e.urlId);
      var m := ConvertStringId(ConvertIntegerId(e.urlId)).value;
      var t := rows + [e];
      assert forall i :: 0 <= i < |t| ==> t[i].urlId <= e.urlId < m;
    }
  }

  /**
   * A segment whose base-36 value exceeds 64 bits, such as "2000000000000"
   * (2 * 36^12), is not caught as "not found" whatever the table holds.
   */
  lemma OversizedSegmentIsServerError(rows: seq<UrlEntry>)
    ensures Resolve(rows, "2000000000000") == Failure(IdOutOfRange)
  {
    assert "2000000000000"[..12] == "200000000000";
    assert "200000000000"[..11] == "20000000000";
    assert "20000000000"[..10] == "2000000000";
    assert "2000000000"[..9] == "200000000";
    assert "200000000"[..8] == "20000000";
    assert "20000000"[..7] == "2000000";
    assert "2000000"[..6] == "200000";
    assert "200000"[..5] == "20000";
    assert "20000"[..4] == "2000";
    assert "2000"[..3] == "200";
    assert "200"[..2] == "20";
    assert "20"[..1] == "2";
  }

  /** Whatever the table holds, the short url of an id n >= 16 never reaches the row with id n. */
  lemma LargeIdUnreachable(rows: seq<UrlEntry>, n: int)
    requires n >= 16
    ensures Resolve(rows, ConvertIntegerId(n)).Success? ==> Resolve(rows, ConvertIntegerId(n)).value.urlId > n
  {
    RoundTripOvershoots(n);
  }
}
