/**
 * The external stores the workflow reads and writes, as values: the PDF bucket
 * of S3, the objects of the XML bucket, and the items of the `grobid-xml`
 * DynamoDB table with its `by_source_pdf_id` index.
 */
module Stores {
  import opened Base

  /** An S3 `ClientError`: its `Error.Code` and the text `str(e)` gives. */
  datatype ClientError = ClientError(code: string, description: string)

  /**
   * What a failed read raises: a `ClientError` the service answered with, or
   * another botocore error (no connection, no credentials, a body that times
   * out while it is read).
   */
  datatype ReadError = ClientFailure(error: ClientError) | BotoCoreFailure(name: string)

  /**
   * The PDF bucket as `get_object` sees it: a bucket of objects, a bucket that
   * does not exist, a service that answers every read with one client error,
   * or a service that cannot be read at all.
   */
  datatype PdfStore =
    | PdfBucket(objects: map<string, seq<byte>>)
    | MissingBucket
    | FailingStore(error: ClientError)
    | UnreachableStore(failure: string)

  /** `s3.get_object(...)["Body"].read()`, or the error it raises. */
  function GetObject(store: PdfStore, key: string): (r: Result<seq<byte>, ReadError>)
    ensures r.Success? <==> store.PdfBucket? && key in store.objects
    ensures r.Success? ==> r.value == store.objects[key]
    ensures store.PdfBucket? && key !in store.objects ==> r.error.ClientFailure? && r.error.error.code == "NoSuchKey"
    ensures store.MissingBucket? ==> r.error.ClientFailure? && r.error.error.code == "NoSuchBucket"
    ensures store.FailingStore? ==> r.error == ClientFailure(store.error)
    ensures store.UnreachableStore? ==> r.error == BotoCoreFailure(store.failure)
  {
    match store
    case PdfBucket(objects) =>
      if key in objects then Success(objects[key])
      else Failure(ClientFailure(ClientError("NoSuchKey", "The specified key does not exist.")))
    case MissingBucket => Failure(ClientFailure(ClientError("NoSuchBucket", "The specified bucket does not exist.")))
    case FailingStore(e) => Failure(ClientFailure(e))
    case UnreachableStore(failure) => Failure(BotoCoreFailure(failure))
  }

  /** An object of the XML bucket: its body and its user metadata. */
  datatype XmlObject = XmlObject(body: seq<byte>, metadata: map<string, string>)

  /** An item of the `grobid-xml` table. */
  datatype Record = Record(
    id: string,
    nativeId: string,
    nativeIdNamespace: string,
    s3Key: string,
    sourcePdfId: string,
    url: string,
    newFormat: bool,
    createdDate: string,
    createdTimestamp: int)

  /** Some item has the primary key `id`. */
  predicate HasId(items: seq<Record>, id: string) {
    items != [] && (items[0].id == id || HasId(items[1..], id))
  }

  /** `id` is the table's primary key: no two items share one. */
  predicate UniqueIds(items: seq<Record>) {
    forall i, j :: 0 <= i < j < |items| ==> items[i].id != items[j].id
  }

  /**
   * `table.put_item(Item=rec)`: an item with the same primary key is replaced,
   * otherwise the item is added. No other item changes.
   */
  function PutItem(items: seq<Record>, rec: Record): (r: seq<Record>)
    ensures |r| == if HasId(items, rec.id) then |items| else |items| + 1
    ensures forall i :: 0 <= i < |r| ==> r[i] == rec || (i < |items| && r[i] == items[i])
    ensures forall i :: 0 <= i < |items| && items[i].id != rec.id ==> r[i] == items[i]
    ensures rec in r
    ensures !HasId(items, rec.id) ==> r == items + [rec]
  {
    if items == [] then [rec]
    else if items[0].id == rec.id then [rec] + items[1..]
    else [items[0]] + PutItem(items[1..], rec)
  }

  lemma UniqueIdsTail(items: seq<Record>)
    requires items != [] && UniqueIds(items)
    ensures UniqueIds(items[1..])
    ensures forall i :: 0 <= i < |items[1..]| ==> items[1..][i].id != items[0].id
  {
    assert forall i :: 0 <= i < |items[1..]| ==> items[1..][i] == items[i + 1];
  }

  /** put_item keeps the primary key unique, and the key `rec.id` now names `rec` alone. */
  lemma {:induction false} PutItemKeepsUniqueIds(items: seq<Record>, rec: Record)
    requires UniqueIds(items)
    ensures UniqueIds(PutItem(items, rec))
    ensures forall x :: x in PutItem(items, rec) && x.id == rec.id ==> x == rec
  {
    var r := PutItem(items, rec);
    if items == [] {
    } else {
      UniqueIdsTail(items);
      var tail := items[1..];
      if items[0].id == rec.id {
        assert r == [rec] + tail;
      } else {
        PutItemKeepsUniqueIds(tail, rec);
        var t := PutItem(tail, rec);
        assert r == [items[0]] + t;
        forall i | 0 <= i < |t|
          ensures t[i].id != items[0].id
        {
          assert t[i] == rec || (i < |tail| && t[i] == tail[i]);
        }
        forall i, j | 0 <= i < j < |r|
          ensures r[i].id != r[j].id
        {
          assert r[j] == t[j - 1];
          if 0 < i { assert r[i] == t[i - 1]; }
        }
      }
    }
  }

  /** Item `i` is the first one whose `source_pdf_id` is `pdfUuid`. */
  predicate FirstMatchAt(items: seq<Record>, pdfUuid: string, i: int) {
    && 0 <= i < |items|
    && items[i].sourcePdfId == pdfUuid
    && forall j :: 0 <= j < i ==> items[j].sourcePdfId != pdfUuid
  }

  /**
   * A query of the `by_source_pdf_id` index for one key: the matching items,
   * in the order of `items`.
   */
  function Query(items: seq<Record>, pdfUuid: string): (r: seq<Record>)
    ensures forall x :: x in r ==> x in items && x.sourcePdfId == pdfUuid
    ensures forall i :: 0 <= i < |items| && items[i].sourcePdfId == pdfUuid ==> items[i] in r
    ensures r != [] ==> exists i :: FirstMatchAt(items, pdfUuid, i) && r[0] == items[i]
  {
    if items == [] then []
    else
      var rest := Query(items[1..], pdfUuid);
      assert forall i :: 1 <= i < |items| ==> items[i] == items[1..][i - 1];
      if items[0].sourcePdfId == pdfUuid then
        assert FirstMatchAt(items, pdfUuid, 0);
        [items[0]] + rest
      else
        assert rest != [] ==> exists i :: FirstMatchAt(items, pdfUuid, i) && rest[0] == items[i] by {
          if rest != [] {
            var k :| FirstMatchAt(items[1..], pdfUuid, k) && rest[0] == items[1..][k];
            assert FirstMatchAt(items, pdfUuid, k + 1);
          }
        }
        rest
  }

  /**
   * `previous_parse`: the `id` of the first item the index returns for
   * `pdfUuid`, or nothing when no item has that source.
   */
  function PreviousParse(items: seq<Record>, pdfUuid: string): (r: Option<string>)
    ensures r.None? <==> forall i :: 0 <= i < |items| ==> items[i].sourcePdfId != pdfUuid
    ensures r.Some? ==> exists i :: FirstMatchAt(items, pdfUuid, i) && items[i].id == r.value
  {
    var found := Query(items, pdfUuid);
    if found != [] then Some(found[0].id) else None
  }

  /**
   * Once a record is put, the duplicate check finds its source; when the table
   * held no record for that source before, it reports this record's id.
   */
  lemma PreviousParseAfterPut(items: seq<Record>, rec: Record)
    ensures PreviousParse(PutItem(items, rec), rec.sourcePdfId).Some?
    ensures (forall i :: 0 <= i < |items| ==> items[i].sourcePdfId != rec.sourcePdfId) ==>
      PreviousParse(PutItem(items, rec), rec.sourcePdfId) == Some(rec.id)
  {
    var r := PutItem(items, rec);
    var k :| 0 <= k < |r| && r[k] == rec;
    assert r[k].sourcePdfId == rec.sourcePdfId;
  }
}
