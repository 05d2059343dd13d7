/**
 * The PDF-to-XML workflow `parse_pdf` and the helpers it calls. S3, DynamoDB
 * and GROBID are explicit state of the `Orchestrator` class; UTF-8 coding and
 * gzip are library functions given to it; the reply GROBID sends, the new
 * uuid, the clock and whether each store write goes through are parameters.
 */
module Grobid {
  import opened Base
  import opened Stores
  import Text
  import Quoting
  import Validation

  /** `GROBID_XML_BUCKET`. */
  const GrobidXmlBucket: string := "openalex-harvested-grobid-xml"

  /** `PDF_BUCKET`. */
  const PdfBucketName: string := "openalex-harvested-pdfs"

  /** Key of the source PDF in the PDF bucket. */
  function PdfKey(pdfUuid: string): string {
    pdfUuid + ".pdf"
  }

  /** Key of the compressed XML in the XML bucket. */
  function XmlKey(xmlUuid: string): string {
    xmlUuid + ".xml.gz"
  }

  /** The `s3_path` of a parse result. */
  function XmlPath(xmlUuid: string): string {
    "s3://" + GrobidXmlBucket + "/" + XmlKey(xmlUuid)
  }

  /** Distinct uuids give distinct keys, in both buckets. */
  lemma KeysInjective(a: string, b: string)
    ensures XmlKey(a) == XmlKey(b) <==> a == b
    ensures PdfKey(a) == PdfKey(b) <==> a == b
  {
    if XmlKey(a) == XmlKey(b) {
      assert a == XmlKey(a)[..|a|] && b == XmlKey(b)[..|b|];
    }
    if PdfKey(a) == PdfKey(b) {
      assert a == PdfKey(a)[..|a|] && b == PdfKey(b)[..|b|];
    }
  }

  /** `PDFProcessingError(message, status_code)`. */
  datatype ProcessingError = ProcessingError(message: string, statusCode: int)

  const NotFoundMessage: string := "PDF not found in S3 bucket: " + PdfBucketName
  const MissingBucketMessage: string := "S3 bucket not found: " + PdfBucketName
  const TooLargeMessage: string := "File is too large. Max file size is 20mb."
  const EmptyPdfMessage: string := "PDF is empty."
  const EmptyXmlMessage: string := "GROBID did not return any content."

  /**
   * The `except ClientError` branch of `get_file_from_s3`: a missing key is a
   * 404, a missing bucket and every other client error a 503.
   */
  function ClientErrorToProcessingError(e: ClientError): (r: ProcessingError)
    ensures r.statusCode == 404 <==> e.code == "NoSuchKey"
    ensures r.statusCode == 503 <==> e.code != "NoSuchKey"
    ensures e.code == "NoSuchKey" ==> r.message == NotFoundMessage
    ensures e.code == "NoSuchBucket" ==> r.message == MissingBucketMessage
    ensures e.code != "NoSuchKey" && e.code != "NoSuchBucket" ==> r.message == "S3 error: " + e.description
  {
    if e.code == "NoSuchKey" then ProcessingError(NotFoundMessage, 404)
    else if e.code == "NoSuchBucket" then ProcessingError(MissingBucketMessage, 503)
    else ProcessingError("S3 error: " + e.description, 503)
  }

  /**
   * `get_file_from_s3`: the bytes of `<pdfUuid>.pdf`, a `ClientError` mapped to
   * a `PDFProcessingError`, or any other botocore error, which is not caught.
   */
  function GetFileFromS3(store: PdfStore, pdfUuid: string): (r: Result<seq<byte>, Outcome>)
    ensures r.Success? <==> store.PdfBucket? && PdfKey(pdfUuid) in store.objects
    ensures r.Success? ==> r.value == store.objects[PdfKey(pdfUuid)]
    ensures store.PdfBucket? && PdfKey(pdfUuid) !in store.objects ==>
      r == Failure(Rejected(ProcessingError(NotFoundMessage, 404)))
    ensures store.MissingBucket? ==> r == Failure(Rejected(ProcessingError(MissingBucketMessage, 503)))
    ensures store.FailingStore? ==> r == Failure(Rejected(ClientErrorToProcessingError(store.error)))
    ensures store.UnreachableStore? ==> r == Failure(Raised(S3GetFailed(store.failure)))
  {
    match GetObject(store, PdfKey(pdfUuid))
    case Success(content) => Success(content)
    case Failure(ClientFailure(e)) => Failure(Rejected(ClientErrorToProcessingError(e)))
    case Failure(BotoCoreFailure(name)) => Failure(Raised(S3GetFailed(name)))
  }

  /** What GROBID's `processFulltextDocument` endpoint sends back, if anything. */
  datatype GrobidReply = NoResponse | HttpResponse(status: int, body: seq<byte>)

  /** Exceptions `parse_pdf` does not turn into a `PDFProcessingError`. */
  datatype Unhandled =
    | S3GetFailed(failure: string)
    | GrobidUnreachable
    | GrobidHttpError(status: int)
    | UnicodeDecodeError
    | S3PutFailed(s3Error: ClientError)
    | DynamoPutFailed(dynamoError: ClientError)

  /**
   * `call_grobid_api` after the request: a transport failure raises, and
   * `raise_for_status` raises for a status from 400 to 599; otherwise the body
   * is returned.
   */
  function GrobidResult(reply: GrobidReply): (r: Result<seq<byte>, Unhandled>)
    ensures r.Success? <==> reply.HttpResponse? && !(400 <= reply.status < 600)
    ensures r.Success? ==> r.value == reply.body
    ensures reply.NoResponse? ==> r == Failure(GrobidUnreachable)
    ensures reply.HttpResponse? && r.Failure? ==> r.error == GrobidHttpError(reply.status)
  {
    match reply
    case NoResponse => Failure(GrobidUnreachable)
    case HttpResponse(status, body) =>
      if 400 <= status < 600 then Failure(GrobidHttpError(status)) else Success(body)
  }

  /**
   * `check_grobid_health`: the service is alive when the probe gets a reply
   * whose status `raise_for_status` accepts; every `RequestException` is
   * caught and reported as not alive.
   */
  function CheckGrobidHealth(reply: GrobidReply): (alive: bool)
    ensures alive <==> GrobidResult(reply).Success?
  {
    match reply
    case NoResponse => false
    case HttpResponse(status, _) => !(400 <= status < 600)
  }

  /** The library functions the workflow uses and this model does not define. */
  datatype Library = Library(
    encodeUtf8: string -> seq<byte>,
    decodeUtf8: seq<byte> -> Option<string>,
    gzipCompress: seq<byte> -> seq<byte>)

  /** `urllib.parse.quote(s)`: encode to UTF-8, then quote the bytes. */
  function Quote(lib: Library, s: string): (r: string)
    ensures forall i :: 0 <= i < |r| ==> Quoting.IsQuotedChar(r[i])
    ensures Quoting.Unquote(r) == Some(lib.encodeUtf8(s))
  {
    Quoting.QuoteRoundTrip(lib.encodeUtf8(s));
    Quoting.QuoteFromBytes(lib.encodeUtf8(s))
  }

  /** The object `save_grobid_response_to_s3` puts: gzip'd XML, quoted metadata. */
  function XmlObjectFor(lib: Library, xmlContent: string, pdfUrl: string, nativeId: string,
                        nativeIdNamespace: string): XmlObject
  {
    XmlObject(
      lib.gzipCompress(lib.encodeUtf8(xmlContent)),
      map["pdf_url" := Quote(lib, pdfUrl),
          "native_id" := Quote(lib, nativeId),
          "native_id_namespace" := Quote(lib, nativeIdNamespace)])
  }

  /**
   * The metadata of the stored object has exactly the three keys, every value
   * uses only characters S3 metadata accepts, and each decodes back to the raw
   * (not normalised) field.
   */
  lemma XmlObjectMetadata(lib: Library, xmlContent: string, pdfUrl: string, nativeId: string,
                          nativeIdNamespace: string)
    ensures var m := XmlObjectFor(lib, xmlContent, pdfUrl, nativeId, nativeIdNamespace).metadata;
      && m.Keys == {"pdf_url", "native_id", "native_id_namespace"}
      && (forall k, i :: k in m && 0 <= i < |m[k]| ==> Quoting.IsQuotedChar(m[k][i]))
      && Quoting.Unquote(m["pdf_url"]) == Some(lib.encodeUtf8(pdfUrl))
      && Quoting.Unquote(m["native_id"]) == Some(lib.encodeUtf8(nativeId))
      && Quoting.Unquote(m["native_id_namespace"]) == Some(lib.encodeUtf8(nativeIdNamespace))
  {
  }

  /** The two clock readings: `datetime.now().isoformat()` and `time.time()`. */
  datatype Clock = Clock(isoDate: string, unixTime: real)

  /** Python's `int(x)` on a float: truncation toward zero. */
  function TruncateToInt(x: real): (r: int)
    ensures 0.0 <= x ==> r as real <= x < r as real + 1.0
    ensures x < 0.0 ==> r as real - 1.0 < x <= r as real
  {
    if 0.0 <= x then x.Floor else -((-x).Floor)
  }

  /** The item `save_grobid_metadata_to_dynamodb` puts. */
  function MetadataRecord(xmlUuid: string, pdfUuid: string, pdfUrl: string, nativeId: string,
                          nativeIdNamespace: string, now: Clock): Record
  {
    Record(
      id := xmlUuid,
      nativeId := Text.NormalizeNativeId(nativeId),
      nativeIdNamespace := nativeIdNamespace,
      s3Key := XmlKey(xmlUuid),
      sourcePdfId := pdfUuid,
      url := pdfUrl,
      newFormat := true,
      createdDate := now.isoDate,
      createdTimestamp := TruncateToInt(now.unixTime))
  }

  /**
   * The record points at the object written under the same uuid, holds the
   * native id normalised (lower-case, trimmed, unchanged by normalising again)
   * and the other request fields as given.
   */
  lemma MetadataRecordShape(xmlUuid: string, pdfUuid: string, pdfUrl: string, nativeId: string,
                            nativeIdNamespace: string, now: Clock)
    ensures var rec := MetadataRecord(xmlUuid, pdfUuid, pdfUrl, nativeId, nativeIdNamespace, now);
      && rec.id == xmlUuid
      && rec.s3Key == XmlKey(rec.id)
      && rec.nativeId == Text.NormalizeNativeId(nativeId)
      && Text.NoUpper(rec.nativeId) && Text.Trimmed(rec.nativeId)
      && Text.NormalizeNativeId(rec.nativeId) == rec.nativeId
      && rec.sourcePdfId == pdfUuid && rec.url == pdfUrl && rec.nativeIdNamespace == nativeIdNamespace
      && rec.newFormat
      && rec.createdDate == now.isoDate && rec.createdTimestamp == TruncateToInt(now.unixTime)
  {
    Text.NormalizeIdempotent(nativeId);
  }

  /** Whether a store accepts a write, or the client error it raises. */
  datatype WriteResult = Accepted | Refused(error: ClientError)

  /** The dictionary `parse_pdf` returns. */
  datatype ParseResponse = ParseResponse(id: string, status: string, xmlContent: string,
                                         s3Key: string, s3Path: string)

  datatype Outcome =
    | Parsed(response: ParseResponse)
    | Rejected(error: ProcessingError)
    | Raised(exception: Unhandled)

  /** A fetched PDF that passes both checks of `parse_pdf`. */
  predicate Acceptable(pdf: seq<byte>) {
    !Validation.IsFileTooLarge(pdf) && !Validation.IsPdfEmpty(pdf)
  }

  /** What `parse_pdf` holds once GROBID has answered with usable XML. */
  datatype Extraction = Extraction(pdfContent: seq<byte>, xmlContent: string)

  /**
   * The steps of `parse_pdf` before its first write: fetch, size check, then
   * emptiness check, GROBID, decoding, and the check for empty XML. A failure
   * ends the workflow with the outcome it would return.
   */
  function ExtractXml(lib: Library, store: PdfStore, pdfUuid: string, reply: GrobidReply)
    : (r: Result<Extraction, Outcome>)
    // a failed fetch ends the workflow as `get_file_from_s3` ended it
    ensures GetFileFromS3(store, pdfUuid).Failure? ==>
      r == Failure(GetFileFromS3(store, pdfUuid).error)
    // the size check comes before the emptiness check
    ensures var f := GetFileFromS3(store, pdfUuid);
      f.Success? && Validation.IsFileTooLarge(f.value) ==>
        r == Failure(Rejected(ProcessingError(TooLargeMessage, 413)))
    ensures var f := GetFileFromS3(store, pdfUuid);
      f.Success? && !Validation.IsFileTooLarge(f.value) && Validation.IsPdfEmpty(f.value) ==>
        r == Failure(Rejected(ProcessingError(EmptyPdfMessage, 400)))
    // a GROBID failure and an undecodable body propagate as exceptions
    ensures var f := GetFileFromS3(store, pdfUuid);
      f.Success? && Acceptable(f.value) && GrobidResult(reply).Failure? ==>
        r == Failure(Raised(GrobidResult(reply).error))
    ensures var f := GetFileFromS3(store, pdfUuid);
      var g := GrobidResult(reply);
      f.Success? && Acceptable(f.value) && g.Success? && lib.decodeUtf8(g.value).None? ==>
        r == Failure(Raised(UnicodeDecodeError))
    // empty XML is a 500
    ensures var f := GetFileFromS3(store, pdfUuid);
      var g := GrobidResult(reply);
      f.Success? && Acceptable(f.value) && g.Success? && lib.decodeUtf8(g.value) == Some("") ==>
        r == Failure(Rejected(ProcessingError(EmptyXmlMessage, 500)))
    // success: an acceptable PDF and the non-empty text of GROBID's body
    ensures r.Success? <==>
      && GetFileFromS3(store, pdfUuid).Success? && Acceptable(GetFileFromS3(store, pdfUuid).value)
      && GrobidResult(reply).Success?
      && lib.decodeUtf8(GrobidResult(reply).value).Some?
      && lib.decodeUtf8(GrobidResult(reply).value).value != ""
    ensures r.Success? ==>
      && GetFileFromS3(store, pdfUuid) == Success(r.value.pdfContent)
      && lib.decodeUtf8(GrobidResult(reply).value) == Some(r.value.xmlContent)
    // no failure here is a write failure or a success
    ensures r.Failure? ==>
      || r.error.Rejected?
      || r.error.exception in {GrobidUnreachable, UnicodeDecodeError}
      || r.error.exception.GrobidHttpError?
      || r.error.exception.S3GetFailed?
  {
    match GetFileFromS3(store, pdfUuid)
    case Failure(e) => Failure(e)
    case Success(pdfContent) =>
      if Validation.IsFileTooLarge(pdfContent) then
        Failure(Rejected(ProcessingError(TooLargeMessage, 413)))
      else if Validation.IsPdfEmpty(pdfContent) then
        Failure(Rejected(ProcessingError(EmptyPdfMessage, 400)))
      else
        match GrobidResult(reply)
        case Failure(e) => Failure(Raised(e))
        case Success(body) =>
          match lib.decodeUtf8(body)
          case None => Failure(Raised(UnicodeDecodeError))
          case Some(xmlContent) =>
            if xmlContent == "" then Failure(Rejected(ProcessingError(EmptyXmlMessage, 500)))
            else Success(Extraction(pdfContent, xmlContent))
  }

  /** The service with the state of the three systems it talks to. */
  class Orchestrator {
    const lib: Library
    /** The bucket `openalex-harvested-pdfs`, only ever read. */
    var pdfBucket: PdfStore
    /** The bucket `openalex-harvested-grobid-xml`. */
    var xmlBucket: map<string, XmlObject>
    /** The items of the `grobid-xml` table. */
    var table: seq<Record>
    /** The PDFs posted to GROBID so far, oldest first. */
    var grobidRequests: seq<seq<byte>>

    ghost predicate Valid()
      reads this
    {
      UniqueIds(table)
    }

    constructor (lib: Library, pdfBucket: PdfStore, xmlBucket: map<string, XmlObject>, table: seq<Record>)
      requires UniqueIds(table)
      ensures Valid()
      ensures this.lib == lib && this.pdfBucket == pdfBucket
      ensures this.xmlBucket == xmlBucket && this.table == table && grobidRequests == []
    {
      this.lib := lib;
      this.pdfBucket := pdfBucket;
      this.xmlBucket := xmlBucket;
      this.table := table;
      grobidRequests := [];
    }

    /** `call_grobid_api`: posts the PDF once and interprets the reply. */
    method CallGrobidApi(pdfContent: seq<byte>, reply: GrobidReply) returns (r: Result<seq<byte>, Unhandled>)
      modifies this`grobidRequests
      ensures grobidRequests == old(grobidRequests) + [pdfContent]
      ensures r == GrobidResult(reply)
    {
      grobidRequests := grobidRequests + [pdfContent];
      r := GrobidResult(reply);
    }

    /** `save_grobid_response_to_s3`: one `put_object` under `<xmlUuid>.xml.gz`. */
    method SaveGrobidResponseToS3(xmlContent: string, xmlUuid: string, pdfUrl: string,
                                  nativeId: string, nativeIdNamespace: string, put: WriteResult)
      returns (failure: Option<Unhandled>)
      modifies this`xmlBucket
      ensures put.Accepted? ==>
        && failure.None?
        && xmlBucket == old(xmlBucket)[XmlKey(xmlUuid) := XmlObjectFor(lib, xmlContent, pdfUrl, nativeId, nativeIdNamespace)]
      ensures put.Refused? ==> failure == Some(S3PutFailed(put.error)) && xmlBucket == old(xmlBucket)
    {
      if put.Refused? {
        return Some(S3PutFailed(put.error));
      }
      xmlBucket := xmlBucket[XmlKey(xmlUuid) := XmlObjectFor(lib, xmlContent, pdfUrl, nativeId, nativeIdNamespace)];
      failure := None;
    }

    /** `save_grobid_metadata_to_dynamodb`: one `put_item` into `grobid-xml`. */
    method SaveGrobidMetadataToDynamodb(xmlUuid: string, pdfUuid: string, pdfUrl: string,
                                        nativeId: string, nativeIdNamespace: string, now: Clock,
                                        put: WriteResult)
      returns (failure: Option<Unhandled>)
      requires Valid()
      modifies this`table
      ensures Valid()
      ensures put.Accepted? ==>
        && failure.None?
        && table == PutItem(old(table), MetadataRecord(xmlUuid, pdfUuid, pdfUrl, nativeId, nativeIdNamespace, now))
      ensures put.Refused? ==> failure == Some(DynamoPutFailed(put.error)) && table == old(table)
    {
      if put.Refused? {
        return Some(DynamoPutFailed(put.error));
      }
      var rec := MetadataRecord(xmlUuid, pdfUuid, pdfUrl, nativeId, nativeIdNamespace, now);
      PutItemKeepsUniqueIds(table, rec);
      table := PutItem(table, rec);
      failure := None;
    }

    /**
     * `parse_pdf`: fetch, check size then emptiness, call GROBID, reject empty
     * XML, write the object, then write the record. Each step that fails ends
     * the workflow; what each path leaves in the stores is stated below.
     */
    method ParsePdf(pdfUrl: string, pdfUuid: string, nativeId: string, nativeIdNamespace: string,
                    grobidReply: GrobidReply, xmlUuid: string, now: Clock,
                    s3Put: WriteResult, dynamoPut: WriteResult)
      returns (r: Outcome)
      requires Valid()
      modifies this`xmlBucket, this`table, this`grobidRequests
      ensures Valid()
      // GROBID is called once, and only for a PDF that was fetched and passed both checks
      ensures var f := GetFileFromS3(pdfBucket, pdfUuid);
        grobidRequests == if f.Success? && Acceptable(f.value) then old(grobidRequests) + [f.value]
                          else old(grobidRequests)
      // a failure before the first write writes nothing
      ensures var e := ExtractXml(lib, pdfBucket, pdfUuid, grobidReply);
        e.Failure? ==> r == e.error && xmlBucket == old(xmlBucket) && table == old(table)
      // with XML in hand: the object is written first, and a refused object write stops everything
      ensures var e := ExtractXml(lib, pdfBucket, pdfUuid, grobidReply);
        e.Success? ==>
          var obj := XmlObjectFor(lib, e.value.xmlContent, pdfUrl, nativeId, nativeIdNamespace);
          var rec := MetadataRecord(xmlUuid, pdfUuid, pdfUrl, nativeId, nativeIdNamespace, now);
          && (s3Put.Refused? ==>
                r == Raised(S3PutFailed(s3Put.error)) && xmlBucket == old(xmlBucket) && table == old(table))
          && (s3Put.Accepted? ==> xmlBucket == old(xmlBucket)[XmlKey(xmlUuid) := obj])
          && (s3Put.Accepted? && dynamoPut.Refused? ==>
                r == Raised(DynamoPutFailed(dynamoPut.error)) && table == old(table))
          && (s3Put.Accepted? && dynamoPut.Accepted? ==>
                && r == Parsed(ParseResponse(xmlUuid, "success", e.value.xmlContent, XmlKey(xmlUuid), XmlPath(xmlUuid)))
                && table == PutItem(old(table), rec))
      // the table is not consulted: a PDF parsed before is parsed again
      ensures r.Parsed? <==>
        ExtractXml(lib, pdfBucket, pdfUuid, grobidReply).Success? && s3Put.Accepted? && dynamoPut.Accepted?
      // the record is written only on success, after its object
      ensures table != old(table) ==> r.Parsed? && XmlKey(xmlUuid) in xmlBucket
      // on success: one id, one key, one new object and one new record
      ensures r.Parsed? ==>
        var rec := MetadataRecord(xmlUuid, pdfUuid, pdfUrl, nativeId, nativeIdNamespace, now);
        && r.response.id == xmlUuid == rec.id
        && r.response.s3Key == XmlKey(xmlUuid) == rec.s3Key
        && r.response.s3Key in xmlBucket
        && xmlBucket.Keys == old(xmlBucket).Keys + {r.response.s3Key}
        && rec in table
        && (!HasId(old(table), xmlUuid) ==> table == old(table) + [rec])
    {
      var fetched := GetFileFromS3(pdfBucket, pdfUuid);
      if fetched.Failure? {
        return fetched.error;
      }
      var pdfContent := fetched.value;

      if Validation.IsFileTooLarge(pdfContent) {
        return Rejected(ProcessingError(TooLargeMessage, 413));
      } else if Validation.IsPdfEmpty(pdfContent) {
        return Rejected(ProcessingError(EmptyPdfMessage, 400));
      }

      var grobidResponse := CallGrobidApi(pdfContent, grobidReply);
      if grobidResponse.Failure? {
        return Raised(grobidResponse.error);
      }

      var decoded := lib.decodeUtf8(grobidResponse.value);
      if decoded.None? {
        return Raised(UnicodeDecodeError);
      }
      var xmlContent := decoded.value;
      if xmlContent == "" {
        return Rejected(ProcessingError(EmptyXmlMessage, 500));
      }

      var s3Failure := SaveGrobidResponseToS3(xmlContent, xmlUuid, pdfUrl, nativeId, nativeIdNamespace, s3Put);
      if s3Failure.Some? {
        return Raised(s3Failure.value);
      }
      var dynamoFailure := SaveGrobidMetadataToDynamodb(xmlUuid, pdfUuid, pdfUrl, nativeId, nativeIdNamespace, now, dynamoPut);
      if dynamoFailure.Some? {
        return Raised(dynamoFailure.value);
      }
      r := Parsed(ParseResponse(xmlUuid, "success", xmlContent, XmlKey(xmlUuid), XmlPath(xmlUuid)));
    }
  }
}
