# URL shortener core, modelled in Dafny

This project models the sequential core of a small Flask URL shortener.
The model has four modules:

- `Codec` (codec.dfy) covers data/helper.py. A stored integer id is shown as `hex(id)` with the `0x` removed (`convert_integer_id`). A short-url path segment is read back with `int(segment, base=36)` (`convert_string_id`).
- `UrlTable` (url_table.dfy) covers data/db.py. The sqlite table `urls (url, url_id, created, password, can_be_modified)` is a class `Db` whose field `rows` is a sequence of `UrlEntry` rows in insertion order. The dataclass `URLEntry` (data/db.py:7-13) is the datatype `UrlEntry` with the same five fields. Every query of `DB` is a method of `Db`, and each method is specified by a function over the rows: `LastUrlId`, `FindById`, `FindIdByUrl`, `UrlColumn` and `RewriteUrl`.
- `App` (app.py) covers the decision logic of the handlers. This is `add_url`, the lookup that every short-url route starts with, `route_to_url`, `modify_short_url` and `login`. A handler's answer (a rendered template or a redirect) is a `Page` value. The Flask session is a `map<string, Bytes>`.
- `Wrappers` (wrappers.dfy) holds `Option` and `Result`. These stand for the exceptions the source raises and catches: the ValueError of `int()`, and the TypeError of `URLEntry(**None)` and `None[0]`.

What is proved, in short:

- The hex encoder and the base-36 decoder are each what they claim to be.
- The round trip `convert_string_id(convert_integer_id(n)) == n` holds exactly when `-16 < n < 16`. For every `n >= 16` it lands on a strictly larger id: 16 is shown as `"10"`, and `"10"` resolves to 36. As a result, the short url shown for a freshly inserted row with id 16 or more leads to the 404 page, or to a server error once the misread id no longer fits in 64 bits (`App.NewShortUrlResolves`).
- A segment whose base-36 value does not fit in 64 bits is not "not found": sqlite3 refuses to bind it, the OverflowError escapes the handlers' `except (TypeError, ValueError)`, and the answer is a server error (`App.OversizedSegmentIsServerError`).
- `insert` gives the new row the largest existing id plus one. Ids therefore start at 1 and stay strictly ascending, and `get_url_entry` finds the inserted row.
- `update_url_entry` changes only the url column.
- `add_url` preserves url-uniqueness.
- `modify_short_url` changes the table only when the session holds the row's digest and the submitted url differs from the stored one. It then changes only that row's url, and it does no duplicate check.
- `login` writes the row's digest into the session only when the comparison succeeds.

The code is modelled as written. Behaviour of the code worth noting:

- Ids are sequential integers.
- The scheme test is the case-sensitive prefix `http`.
- The host of a submitted url is not validated.
- An empty url is not rejected: it becomes `"https://"`.
- An empty password is still hashed.
- An update rewrites only the url, and there is no last-modified column.
- The duplicate check exists in `add_url` only.
- The gate in `modify_short_url` compares the session value with the stored digest and never consults `can_be_modified`.

## Model

| member | source | states |
|---|---|---|
| `Codec.ConvertIntegerId` | data/helper.py:4-5 | no contract of its own: `hex(url_id)` without "0x", a negative id keeping its '-'; its properties are the lemmas `ConvertIntegerIdIsHexNumeral` and `ConvertIntegerIdInjective` |
| `Codec.ConvertStringId` | data/helper.py:8-9 | no contract of its own: `int(s, base=36)` with an optional sign; its properties are the lemmas `ConvertStringIdOfNumeral`, `ConvertStringIdFails`, `ConvertStringIdCaseInsensitive` and `ConvertStringIdInvertsBase36` |
| `Codec.HexDigits` | data/helper.py:5 | the digits `hex` prints after `0x` are non-empty and all lowercase hex digits |
| `Codec.HexDigitsValue` | data/helper.py:5 | the hex digits of n denote n in base 16 |
| `Codec.HexDigitsLeadingZero` | data/helper.py:5 | the first digit is '0' exactly when n is 0 (no leading zeros) |
| `Codec.ConvertIntegerIdIsHexNumeral` | data/helper.py:4-5 | for n >= 0, convert_integer_id(n) is non-empty, uses only 0-9a-f, has no prefix and no leading zeros, has base-16 value n, and is "0" exactly for 0 |
| `Codec.ConvertIntegerIdInjective` | data/helper.py:4-5 | two ids with the same text are equal (negative ids keep their '-') |
| `Codec.ConvertStringIdOfNumeral` | data/helper.py:8-9 | a string of 0-9a-zA-Z decodes to its positional base-36 value |
| `Codec.ConvertStringIdFails` | data/helper.py:8-9 | decoding fails (ValueError) exactly on the empty string, a lone sign, or a character outside 0-9a-zA-Z after the optional sign (numerals of any length; see Left out) |
| `Codec.ConvertStringIdCaseInsensitive` | data/helper.py:9 | lower-casing the input never changes the result, so upper- and lowercase letters read alike |
| `Codec.ConvertStringIdInvertsBase36` | data/helper.py:9 | decoding the base-36 numeral of any n gives n: the decoder reads base 36 |
| `Codec.DecodeOfEncode` | data/helper.py:4-9 | the text of every id decodes successfully, to the base-36 reading of its hex digits with the sign kept |
| `Codec.RoundTripExactlyBelow16` | data/helper.py:4-9 | decode(encode(n)) == n if and only if -16 < n < 16 |
| `Codec.RoundTripOvershoots` | data/helper.py:4-9 | for every n >= 16, decode(encode(n)) succeeds and is strictly greater than n |
| `Codec.SixteenBecomesThirtySix` | data/helper.py:4-9 | id 16 is shown as "10", and "10" decodes to 36 |
| `UrlTable.IdsAscending` | data/db.py:29-36 | no contract of its own: the invariant that ids are at least 1 and strictly increase in table order; `AppendNextIdKeepsAscending`, `RewriteUrlKeepsIds`, `Db.Insert` and `Db.UpdateUrlEntry` preserve it |
| `UrlTable.Db.Valid` | data/db.py:19-68 | no contract of its own: the table invariant `IdsAscending(rows)`; a new file satisfies it (`Db.constructor`) and every state-changing method keeps it |
| `UrlTable.UrlColumn` | data/db.py:56-59 | the url column has one entry per row, and entry i is row i's url |
| `UrlTable.FindById` | data/db.py:38-41 | the row lookup fails exactly when no row has the id; otherwise it returns a stored row with that id |
| `UrlTable.FindIdByUrl` | data/db.py:51-54 | the id lookup fails exactly when the url is not in the url column; otherwise it returns the id of a row holding the url |
| `UrlTable.LastUrlId` | data/db.py:61-68 | 0 for an empty table; otherwise an id present in the table and at least every stored id |
| `UrlTable.RewriteUrl` | data/db.py:43-49 | same length; every row with the id gets the new url, with all other fields kept; every other row is unchanged |
| `UrlTable.AscendingLastIdIsLastRow` | data/db.py:61-68 | in an ascending table the largest id is that of the last row inserted |
| `UrlTable.AscendingIdsUnique` | data/db.py:29-36 | in an ascending table two rows with the same id are the same row |
| `UrlTable.FindAppended` | data/db.py:29-41 | when an appended row's id exceeds every stored id, looking it up returns that row |
| `UrlTable.FindAfterAppend` | data/db.py:29-41 | appending a row leaves the lookup of every other id unchanged |
| `UrlTable.AppendNextIdKeepsAscending` | data/db.py:29-36 | appending a row with id LastUrlId + 1 keeps ids >= 1 and strictly ascending |
| `UrlTable.AppendNewUrlKeepsDistinct` | app.py:35-42 | appending a url that is not in the url column keeps urls distinct |
| `UrlTable.UrlListedIffIdFound` | app.py:35-36 | `url in get_all_urls()` holds exactly when get_id_by_url finds a row, also read as a multiset count |
| `UrlTable.RewriteUrlKeepsIds` | data/db.py:43-49 | the update leaves the id column, the ascending invariant and the largest id unchanged |
| `UrlTable.RewriteUrlOneRow` | data/db.py:43-49 | with unique ids the update changes exactly the one row with that id, and only its url |
| `UrlTable.FindAfterRewrite` | data/db.py:38-49 | after the update, looking up the id finds the same row with the new url (or still fails) |
| `UrlTable.RewriteUrlCanDuplicate` | app.py:107-110 | the update does no duplicate check: it can turn a table with distinct urls into one without |
| `UrlTable.Db.constructor` | data/db.py:20-27 | opening the table yields the rows already stored; a new, empty file is Valid |
| `UrlTable.Db.GetLastUrlId` | data/db.py:61-68 | the scan returns LastUrlId of the rows |
| `UrlTable.Db.Insert` | data/db.py:29-36 | returns LastUrlId + 1, which exceeds every old id; appends exactly the row (url, id, created, password, flag) and keeps old rows; the lookup of the id then returns that row; keeps the ascending invariant |
| `UrlTable.Db.GetUrlEntry` | data/db.py:38-41 | an id outside the signed 64-bit range fails with Overflow (sqlite3 cannot bind it); any other id gives FindById of the rows: the first row with the id, or NoSuchRow |
| `UrlTable.Db.UpdateUrlEntry` | data/db.py:43-49 | the rows become RewriteUrl(old rows, entry.urlId, entry.url); ids and the invariant are kept |
| `UrlTable.Db.GetIdByUrl` | data/db.py:51-54 | returns FindIdByUrl of the rows, failing when no row holds the url |
| `UrlTable.Db.GetAllUrls` | data/db.py:56-59 | returns the url column, built row by row: one url per row, in table order, so also equal as a multiset |
| `App.HostName` | app.py:22-23 | no contract of its own: "http://" followed by the Host header; used by `ConvertIdToShortUrl` and the 404 page |
| `App.ConvertIdToShortUrl` | app.py:26-27 | no contract of its own: host name, '/', and the encoded id; its properties are `ShortUrlInjective`, `NewShortUrlResolves` and `LargeIdUnreachable` |
| `App.HoldsPassword` | app.py:101 | no contract of its own: the gate `url_entry.password != session.get("password")` is false exactly when the session has the key and holds the digest; `ModifyShortUrl` states what passing it allows |
| `App.Normalize` | app.py:31-32 | the result starts with "http"; it equals the input exactly when the input starts with the case-sensitive prefix "http"; otherwise it is "https://" + input |
| `App.NormalizeIdempotent` | app.py:31-32 | normalising twice is normalising once |
| `App.NormalizeExamples` | app.py:31-32 | "example.com" and "HTTP://x" get "https://" prepended; "http://example.com" and "httpx.com" are kept |
| `App.ShortUrlInjective` | app.py:26-27 | two ids with the same short url (same host) are equal |
| `App.Resolve` | app.py:60-67 | a found row is stored and its id is the decoded segment; BadIdentifier exactly when decoding fails; IdOutOfRange exactly when the decoded id does not fit in 64 bits; MissingEntry exactly when the decoded id fits and has no row |
| `App.LookUp` | app.py:60-64 | the convert_string_id / get_url_entry step returns Resolve of the rows |
| `App.NewShortUrlResolves` | app.py:58-69 | when an appended row's id (>= 0) exceeds every stored id, the segment shown for it resolves to that row when the id is below 16; otherwise to MissingEntry when the misread id fits in 64 bits, and to IdOutOfRange when it does not |
| `App.OversizedSegmentIsServerError` | app.py:58-69 | for every table, the segment "2000000000000" (2 * 36^12, beyond 64 bits) resolves to IdOutOfRange, the uncaught case |
| `App.LargeIdUnreachable` | app.py:58-69 | for any table and n >= 16, the short url of id n can only resolve to a row with an id greater than n |
| `App.AddUrl` | app.py:30-46 | a normalised url already stored changes nothing and answers "already exists" with the url's existing id; otherwise exactly one row (url, LastUrlId + 1, created, digest, password non-empty) is appended and the success page shows its short url; keeps the id invariant and url-uniqueness |
| `App.RouteToUrl` | app.py:58-69 | redirects to the resolved row's url; shows the 404 page with host/segment on a caught failure; answers with a server error on IdOutOfRange |
| `App.ModifyShortUrl` | app.py:91-117 | 404 on a caught resolution failure and a server error on IdOutOfRange, the table unchanged in both; redirect to login unless the session holds the row's digest; a GET or an unchanged url leaves the table alone; otherwise the rows become RewriteUrl with the url as submitted, and only that row changes; any change to the table implies the gate passed and the url differed |
| `App.Login` | app.py:120-139 | 404 on a caught resolution failure and a server error on IdOutOfRange, the session unchanged in both; on a POST whose comparison succeeds, the session gets the row's digest under "password" and the answer redirects to modify; otherwise the session is unchanged and the login form is shown, with "Wrong password!" after a POST |

## Left out

- bcrypt `hash_password`, `compare_password` and `gensalt` (data/helper.py:12-17) are a foreign cryptographic library. `App.AddUrl` takes the digest as a parameter. `App.Login` takes the comparison as a function parameter with no properties assumed.
- The sqlite3 plumbing (data/db.py:16-27, 70-74) is not modelled: the connection, `CREATE TABLE`, `commit`, `row_factory` and the context manager. Each `with DB()` block works on the same `Db` object.
- `datetime.now()` (data/db.py:33) is a clock read. `UrlTable.Db.Insert` takes `created` as a parameter.
- The Flask machinery is not modelled: `render_template` output, `redirect`, `flash` storage, `request.host` (a parameter), `secrets.token_hex` (app.py:19) and `app.run`. A Page value records which template or redirect comes back and with what arguments.
- The `index` route (app.py:49-55) only reads two form fields and calls `add_url`. A POST that lacks a form field makes `request.form[...]` fail and Flask answers 400; that holds for `index` and equally for `modify_short_url` (app.py:107) and `login` (app.py:132). `App.ModifyShortUrl` and `App.Login` take `form: Option<string>`, None for a GET, so a POST without the field is not modelled.
- `short_url_info` (app.py:72-88) renders info.html from the same lookup that `App.Resolve` models. Nothing else in it is modelled.
- data/routes.py and data/locale.py are template and locale glue. data/routes.py also refers to `create_complete_url` and `URLEntry.short_url`, which the helper and db files here do not define.
- Concurrency is not modelled. Two requests can both read the same largest id and insert duplicate ids, because the table has no primary key. Only sequential behaviour is modelled.
- Codec.ConvertStringId: the model rejects some inputs that Python's `int(_, 36)` accepts: surrounding whitespace, underscores between digits, and non-ASCII Unicode digits. It accepts the same optional `+`/`-` sign and both letter cases. In the other direction, recent CPython versions (3.11 on, and security releases of older ones) raise ValueError for a base-36 numeral of more than 4300 digits (the default `int_max_str_digits` limit, which applies to every base that is not a power of two); the model decodes numerals of any length, so `ConvertStringIdFails` does not list that case.
- UrlTable.Db.GetAllUrls: SQL gives no row order without ORDER BY. The model returns rows in insertion order. The same holds for `GetUrlEntry` and `GetIdByUrl`, which return the first matching row. With unique ids, the order does not matter for `GetUrlEntry`.
- UrlTable.Db.Insert: ids are unbounded integers. After 2^63 - 1 rows the next id would no longer fit a 64-bit INTEGER and sqlite3 would refuse to store it; that is not modelled. The 64-bit limit is modelled where a user can reach it, in the lookup of a decoded segment (`UrlTable.Db.GetUrlEntry`, `App.Resolve`).
- A server error is modelled as the `ServerError` page only; the body and logging Flask produces for an uncaught exception are not modelled.
