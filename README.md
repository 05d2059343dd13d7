# GROBID orchestrator: a Dafny model of `parse_pdf`

This project models the PDF-to-XML extraction workflow of the openalex-grobid
service (`grobid.py`). A request names a PDF by its uuid. The service fetches
`<pdf_uuid>.pdf` from the S3 bucket `openalex-harvested-pdfs`. It rejects files
over 20 MiB (413), then empty files (400). It posts the PDF to GROBID's
`processFulltextDocument` endpoint and decodes the reply, rejecting empty XML
(500). It stores the gzip'd XML as `<xml_uuid>.xml.gz` in
`openalex-harvested-grobid-xml`, with percent-encoded metadata. Finally it puts a
record into the DynamoDB table `grobid-xml`.

Modules:

- `Text` models `normalize_native_id` (`lower()` then `strip()`, over ASCII).
- `Quoting` models `urllib.parse.quote`'s byte-level percent-encoding, together with its inverse.
- `Validation` holds the size and emptiness checks.
- `Stores` holds the PDF bucket as `get_object` sees it, the XML bucket's objects, the table's items, `put_item`, and the `by_source_pdf_id` query behind `previous_parse`.
- `Grobid` holds the key scheme, the S3 error mapping, GROBID's reply handling, the pure description `ExtractXml` of everything before the first write, and the class `Orchestrator`.

`Orchestrator`'s fields are the state of the three external systems: the PDF
bucket, the XML bucket, the table, and the list of PDFs posted to GROBID. Its
methods `CallGrobidApi`, `SaveGrobidResponseToS3`, `SaveGrobidMetadataToDynamodb`
and `ParsePdf` update those fields. Each contract states the new state on every
path.

Several inputs become parameters of `ParsePdf`: `uuid.uuid4()`, the two clock
readings, GROBID's reply, and whether each of the two writes is accepted. UTF-8
encoding, UTF-8 decoding and `gzip.compress` are library functions. The
`Library` value given to the constructor holds them, and the model treats them
as opaque.

Four facts about `grobid.py` as written shape the model:

- `parse_pdf` has its duplicate check (`previous_parse`, status 409) commented
  out, so the workflow never reads the table. `previous_parse` is modelled on its
  own.
- No exception that `parse_pdf` lets through gets a status code. This covers an
  HTTP error status from GROBID and a botocore failure other than a
  `ClientError` while the PDF is read. The model returns these as `Raised`
  outcomes.
- `is_file_too_large` divides the length by 1024 * 1024, so its 20 "mb" ceiling
  is 20 MiB.
- `grobid.py` never checks whether the request fields are present, and
  `app.py` does not either: it has only the `/` route.

## Model

| member | source | states |
|---|---|---|
| `Text.Lower` | grobid.py:192 | `lower()` keeps the length and maps each character by itself; A-Z become a-z and nothing else changes |
| `Text.Strip` | grobid.py:192 | `strip()` returns a slice of the input whose first and last characters are not whitespace, with only whitespace before and after it |
| `Text.StripUnique` | grobid.py:192 | any whitespace-bordered trimmed slice of a string is exactly what `strip()` returns, so Strip's contract determines it |
| `Text.StripPadded` | grobid.py:192 | surrounding a string with whitespace does not change what `strip()` returns |
| `Text.NormalizeNativeId` | grobid.py:191-192 | the normalised id has no upper-case letter and no leading or trailing whitespace |
| `Text.NormalizeFixedPoints` | grobid.py:191-192 | a string normalises to itself exactly when it has no upper-case letter and no whitespace at either end, so the stored ids are exactly those strings |
| `Text.NormalizeIdempotent` | grobid.py:191-192 | normalising twice gives the same value as normalising once |
| `Text.NormalizeIgnoresPadding` | grobid.py:191-192 | padding an id with whitespace on either side does not change the stored value |
| `Text.NormalizeIgnoresCase` | grobid.py:191-192 | lower-casing an id first does not change the stored value |
| `Text.NormalizeExample` | grobid.py:191-192 | `"  ABC "` and `"abc"` are both stored as `"abc"` |
| `Validation.IsFileTooLarge` | grobid.py:123-128 | true exactly when the length exceeds 20971520 bytes; the division by 2^20 is exact, so a file of exactly 20 MiB passes |
| `Validation.IsPdfEmpty` | grobid.py:131-132 | true exactly when there are no bytes |
| `Validation.SizeClasses` | grobid.py:46-55 | a too-large file is never empty, and a file passes both checks exactly when its length is 1 to 20 MiB |
| `Quoting.QuoteFromBytes` | grobid.py:158-160 | the quoted text uses only unreserved characters, `/` and `%`, and is one to three characters per byte |
| `Quoting.QuoteRoundTrip` | grobid.py:158-160 | decoding the quoted text gives back exactly the quoted bytes |
| `Quoting.QuoteSafeUnchanged` | grobid.py:158-160 | a byte string made only of safe bytes is quoted as the same characters |
| `Quoting.QuoteConcat` | grobid.py:158-160 | quoting works byte by byte: the quote of a concatenation is the concatenation of the quotes |
| `Quoting.QuoteInContext` | grobid.py:158-160 | wherever it occurs, a letter, digit, `_.-~` or `/` is never quoted, and every other byte becomes `%` and two upper-case hexadecimal digits |
| `Stores.GetObject` | grobid.py:99-103 | a read succeeds with the stored bytes exactly when the bucket exists and holds the key; otherwise it raises the client error `NoSuchKey`, `NoSuchBucket` or the store's own, or a non-client botocore error when the service cannot be read |
| `Stores.PutItem` | grobid.py:176-188 | an item with the same `id` is replaced in place, otherwise the item is appended; every item with another id stays where it was |
| `Stores.PutItemKeepsUniqueIds` | grobid.py:176-188 | `put_item` keeps `id` a primary key, and afterwards the new item is the only one with its id |
| `Stores.Query` | grobid.py:86-89 | the index query returns exactly the items with that `source_pdf_id`, and its first result is the first such item |
| `Stores.PreviousParse` | grobid.py:83-94 | returns nothing exactly when no item has the source, and otherwise the `id` of the first item that has it |
| `Stores.PreviousParseAfterPut` | grobid.py:83-94 | after a record is put, the duplicate check finds its source; if the source had no record before, it returns the new record's id |
| `Grobid.KeysInjective` | grobid.py:164 | `<uuid>.xml.gz` and `<uuid>.pdf` keys are equal exactly when the uuids are |
| `Grobid.ClientErrorToProcessingError` | grobid.py:104-120 | `NoSuchKey` maps to 404 with the not-found message; `NoSuchBucket` and every other code map to 503, the others with `S3 error: ` and the error text |
| `Grobid.GetFileFromS3` | grobid.py:97-120 | returns the bytes stored under `<pdf_uuid>.pdf`; a missing key gives 404, a missing bucket 503, and any other client error its mapped status; a botocore error that is not a `ClientError` escapes unmapped |
| `Grobid.GrobidResult` | grobid.py:146-153 | the reply body is returned exactly when there was a response whose status is not 400 to 599; otherwise a transport error or an HTTP error with that status |
| `Grobid.CheckGrobidHealth` | grobid.py:24-30 | the service counts as alive exactly when the probe's reply would not raise |
| `Grobid.Quote` | grobid.py:158-160 | `quote(s)` uses only characters S3 metadata accepts and decodes back to the UTF-8 bytes of `s` |
| `Grobid.XmlObjectMetadata` | grobid.py:156-171 | the object's metadata has exactly the keys `pdf_url`, `native_id` and `native_id_namespace`, each holding the quoted raw value |
| `Grobid.TruncateToInt` | grobid.py:186 | `int(time.time())` truncates toward zero |
| `Grobid.MetadataRecordShape` | grobid.py:174-188 | the record's `id` is the xml uuid and its `s3_key` is `<id>.xml.gz`; `native_id` is `normalize_native_id` of the given id, so it is lower-case, trimmed and a fixed point of normalisation; namespace, url and `source_pdf_id` are stored raw; `new_format` is true; the two timestamps are the clock's readings, with `int()` truncation |
| `Grobid.ExtractXml` | grobid.py:42-69 | a failed fetch ends the workflow as `get_file_from_s3` ended it (mapped status or escaping exception); size is checked before emptiness (413, then 400); GROBID and decoding errors propagate; empty XML is a 500; otherwise it yields the fetched PDF and the decoded non-empty XML |
| `Grobid.Orchestrator.constructor` | grobid.py:20-21 | the service starts with the given stores and no GROBID calls |
| `Grobid.Orchestrator.CallGrobidApi` | grobid.py:135-153 | posts the PDF to GROBID once, recorded in the call log, and returns what `raise_for_status` lets through |
| `Grobid.Orchestrator.SaveGrobidResponseToS3` | grobid.py:156-171 | an accepted write sets `<xml_uuid>.xml.gz` to the gzip'd XML with quoted metadata and changes no other key; a refused write changes nothing |
| `Grobid.Orchestrator.SaveGrobidMetadataToDynamodb` | grobid.py:174-188 | an accepted write puts the record and keeps ids unique; a refused write leaves the table unchanged |
| `Grobid.Orchestrator.ParsePdf` | grobid.py:33-80 | see the list below |

`Grobid.Orchestrator.ParsePdf`'s contract states:

- GROBID is called exactly once, and only for a fetched PDF that passed both checks.
- Every failure before the first write leaves both stores unchanged.
- A refused object write leaves both stores unchanged.
- The object is written before the record. A refused record write leaves only the object behind.
- On success, the response `id`, the record `id` and the uuid are equal. The response `s3_key`, the record's `s3_key` and the written key are all `<xml_uuid>.xml.gz`.
- On success, the bucket gains exactly that key. A fresh id appends exactly one record.
- Success never depends on the table.

## Left out

- The network transport is not modelled: the `requests.get`/`requests.post` calls, the multipart form, its flags and the 60 s timeout. The health probe `check_grobid_health` has no timeout and can block instead of returning false. `Grobid.CheckGrobidHealth` models only a probe that ends. GROBID's reply is a parameter: no reply, or a status and body.
- The boto3 clients are replaced by the fields of `Orchestrator`. Nothing models S3 or DynamoDB pagination, retries or consistency.
- UTF-8 encoding and decoding and `gzip.compress` are opaque functions of `Library`. No decompression round trip is claimed, because the code never checks one.
- `Grobid.Quote`: the model does not define the character-to-byte step. It quotes whatever bytes the `Library` encoder gives.
- `uuid.uuid4()`, `datetime.now().isoformat()` and `time.time()` are parameters. Nothing forces the uuid to be new. The contracts say what happens when the key or id already exists: the object is overwritten and the item is replaced.
- `Text.Lower`: only ASCII letters are lower-cased. Python's Unicode case mapping of other characters is not modelled.
- `Text.Strip`: only the ASCII characters `str.isspace` accepts count as whitespace: 9-13, 28-31 and the space. Non-ASCII whitespace such as U+00A0 is not stripped.
- `Validation.IsFileTooLarge` uses exact real division in place of a Python float. The two agree for every length below 2^53 bytes.
- The order of items in `Stores` stands in for the order in which the `by_source_pdf_id` index returns them, which the code does not control.
- Python's `int` has no size limit, so no width is modelled for status codes or timestamps.
- Request-field validation is not modelled. `grobid.py` never checks whether the request fields are present, and `app.py` does not either: it has only the `/` route, which answers "Hello, world!" and does not call `parse_pdf`.
- Exceptions that `parse_pdf` does not catch are outcomes of the model (`Raised`). Whatever a caller would make of them is not modelled.
