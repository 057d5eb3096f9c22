/**
 * The two stores the product handlers act on, as values, and what one run of
 * each handler does to them.
 *
 * The catalog maps product ids to records (what `ProductsRepository` holds);
 * the asset store maps file names under the upload directory to file contents.
 * Every file-system step is reduced to a flag saying whether it succeeded; a
 * failed step is swallowed by the handler, which carries on.
 */
module Catalog {

  import opened Wrappers
  import opened StorageKeys

  newtype byte = x: int | 0 <= x < 256

  /** The price is only ever copied from form to record and back. */
  type Price = real

  datatype Date = Date(year: int, month: int, day: int)

  /** The five fields a product shares with its form object. */
  datatype Details = Details(name: string, brand: string, category: string, price: Price, description: string)

  /** An uploaded multipart file; its original name may be absent (null in Java). */
  datatype Upload = Upload(originalFilename: Option<string>, content: seq<byte>) {

    /** `MultipartFile.isEmpty()`: no file chosen, or a file with no content. */
    predicate IsEmpty() {
      |content| == 0
    }

    /** The name as Java string concatenation renders it: a null name becomes "null". */
    function NameText(): string {
      if originalFilename.Some? then originalFilename.value else "null"
    }
  }

  /** The form object bound from the create and edit pages. */
  datatype ProductDto = ProductDto(details: Details, imageFile: Upload)

  /** A persisted product record. */
  datatype Product = Product(id: int, details: Details, createdAt: Date, imageFileName: string)

  datatype Store = Store(records: map<int, Product>, assets: map<string, seq<byte>>)

  /** Each record sits under its own id. */
  predicate WellKeyed(records: map<int, Product>) {
    forall k :: k in records ==> records[k].id == k
  }

  /** Validation outcome of createProduct: an empty image file is itself an error. */
  predicate CreateRejected(dto: ProductDto, hasErrors: bool) {
    dto.imageFile.IsEmpty() || hasErrors
  }

  /**
   * createProduct: write the image under a fresh key (best effort), then insert
   * the record, which names that key whether or not the write succeeded.
   * `freshId` is the id the repository assigns on insert.
   */
  function Create(s: Store, dto: ProductDto, hasErrors: bool, millis: int, today: Date, freshId: int, writeOk: bool): (r: Store)
    requires freshId !in s.records
    ensures CreateRejected(dto, hasErrors) ==> r == s
    ensures !CreateRejected(dto, hasErrors) ==>
      var key := StorageKey(millis, dto.imageFile.NameText());
      && r.records.Keys == s.records.Keys + {freshId}
      && (forall id :: id in s.records ==> r.records[id] == s.records[id])
      && r.records[freshId].id == freshId
      && r.records[freshId].details == dto.details
      && r.records[freshId].createdAt == today
      && r.records[freshId].imageFileName == key
      && (writeOk ==> key in r.assets && r.assets[key] == dto.imageFile.content)
      && (!writeOk ==> r.assets == s.assets)
      && r.assets - {key} == s.assets - {key}
    ensures WellKeyed(s.records) ==> WellKeyed(r.records)
  {
    if CreateRejected(dto, hasErrors) then s
    else
      var key := StorageKey(millis, dto.imageFile.NameText());
      var assets := if writeOk then s.assets[key := dto.imageFile.content] else s.assets;
      Store(s.records[freshId := Product(freshId, dto.details, today, key)], assets)
  }

  /**
   * updateProduct: look the record up; with a non-empty image, delete the old
   * file (best effort), write the new one (best effort) and point the record at
   * it only if the write succeeded; always copy the five form fields; save.
   */
  function Update(s: Store, id: int, dto: ProductDto, hasErrors: bool, millis: int, deleteOk: bool, writeOk: bool): (r: Store)
    ensures id !in s.records || hasErrors ==> r == s
    ensures id in s.records && !hasErrors ==>
      var p := s.records[id];
      && r.records.Keys == s.records.Keys
      && (forall k :: k in s.records && k != id ==> r.records[k] == s.records[k])
      && r.records[id].id == p.id
      && r.records[id].createdAt == p.createdAt
      && r.records[id].details == dto.details
    ensures id in s.records && !hasErrors && dto.imageFile.IsEmpty() ==>
      r.records[id].imageFileName == s.records[id].imageFileName && r.assets == s.assets
    ensures id in s.records && !hasErrors && !dto.imageFile.IsEmpty() ==>
      var oldKey := s.records[id].imageFileName;
      var newKey := StorageKey(millis, dto.imageFile.NameText());
      && (writeOk ==> r.records[id].imageFileName == newKey && newKey in r.assets && r.assets[newKey] == dto.imageFile.content)
      && (!writeOk ==> r.records[id].imageFileName == oldKey)
      && (!writeOk ==> r.assets == (if deleteOk then s.assets - {oldKey} else s.assets))
      && (deleteOk && (!writeOk || newKey != oldKey) ==> oldKey !in r.assets)
      && (!deleteOk && oldKey != newKey ==> (oldKey in r.assets <==> oldKey in s.assets))
      && (!deleteOk && oldKey != newKey && oldKey in s.assets ==> r.assets[oldKey] == s.assets[oldKey])
      && r.assets - {oldKey, newKey} == s.assets - {oldKey, newKey}
    ensures WellKeyed(s.records) ==> WellKeyed(r.records)
  {
    if id !in s.records || hasErrors then s
    else
      var p := s.records[id];
      var (assets, fileName) :=
        if dto.imageFile.IsEmpty() then (s.assets, p.imageFileName)
        else
          var afterDelete := if deleteOk then s.assets - {p.imageFileName} else s.assets;
          var key := StorageKey(millis, dto.imageFile.NameText());
          if writeOk then (afterDelete[key := dto.imageFile.content], key)
          else (afterDelete, p.imageFileName);
      Store(s.records[id := p.(details := dto.details, imageFileName := fileName)], assets)
  }

  /**
   * deleteProduct: look the record up; delete its image file (best effort),
   * then delete the record. An absent id changes nothing.
   */
  function Delete(s: Store, id: int, deleteOk: bool): (r: Store)
    ensures id !in r.records
    ensures id !in s.records ==> r == s
    ensures id in s.records ==>
      var key := s.records[id].imageFileName;
      && r.records.Keys == s.records.Keys - {id}
      && (forall k :: k in r.records ==> r.records[k] == s.records[k])
      && (deleteOk ==> key !in r.assets)
      && (!deleteOk ==> r.assets == s.assets)
      && r.assets - {key} == s.assets - {key}
    ensures WellKeyed(s.records) ==> WellKeyed(r.records)
  {
    if id !in s.records then s
    else
      var key := s.records[id].imageFileName;
      Store(s.records - {id}, if deleteOk then s.assets - {key} else s.assets)
  }

  /** showEditPage: the form pre-filled from the record, or nothing for an absent id. */
  function EditForm(records: map<int, Product>, id: int): (form: Option<Details>)
    ensures form.Some? <==> id in records
    ensures form.Some? ==> form.value == records[id].details
  {
    if id in records then Some(records[id].details) else None
  }

  /** Some element of a non-empty set. */
  lemma PickOne(ids: set<int>) returns (x: int)
    requires |ids| > 0
    ensures x in ids
  {
    if forall k :: k !in ids {
      assert false;
    }
    x :| x in ids;
  }

  /** A non-empty finite set of ids has a largest element. */
  lemma {:induction false} LargestExists(ids: set<int>)
    requires |ids| > 0
    ensures exists m :: m in ids && IsLargest(m, ids)
    decreases |ids|
  {
    var x := PickOne(ids);
    if ids == {x} {
      assert IsLargest(x, ids);
    } else {
      var rest := ids - {x};
      LargestExists(rest);
      var m :| m in rest && IsLargest(m, rest);
      assert forall k :: k in ids ==> k == x || k in rest;
      if x > m {
        assert IsLargest(x, ids);
      } else {
        assert IsLargest(m, ids);
      }
    }
  }

  predicate IsLargest(m: int, ids: set<int>) {
    forall k :: k in ids ==> k <= m
  }

  /** The largest id of a non-empty set. */
  function Largest(ids: set<int>): (m: int)
    requires ids != {}
    ensures m in ids && IsLargest(m, ids)
  {
    LargestExists(ids);
    var m :| m in ids && IsLargest(m, ids);
    m
  }

  /** The ids of a set, largest first. */
  function IdsDescending(ids: set<int>): (r: seq<int>)
    ensures |r| == |ids|
    ensures forall i :: 0 <= i < |r| ==> r[i] in ids
    ensures forall k :: k in ids ==> k in r
    ensures forall i, j :: 0 <= i < j < |r| ==> r[i] > r[j]
    decreases |ids|
  {
    if ids == {} then []
    else
      var m := Largest(ids);
      [m] + IdsDescending(ids - {m})
  }

  /** The records under the given ids, in the order of the ids. */
  function RecordsAt(records: map<int, Product>, ids: seq<int>): (r: seq<Product>)
    requires forall i :: 0 <= i < |ids| ==> ids[i] in records
    ensures |r| == |ids|
    ensures forall i :: 0 <= i < |ids| ==> r[i] == records[ids[i]]
  {
    if ids == [] then [] else [records[ids[0]]] + RecordsAt(records, ids[1..])
  }

  /** What RecordsAt yields for the ids of every record, largest first. */
  lemma RecordsAtDescending(records: map<int, Product>, ids: seq<int>, r: seq<Product>)
    requires WellKeyed(records)
    requires ids == IdsDescending(records.Keys)
    requires r == RecordsAt(records, ids)
    ensures |r| == |records|
    ensures forall i :: 0 <= i < |r| ==> r[i] in records.Values
    ensures forall k :: k in records ==> records[k] in r
    ensures forall i, j :: 0 <= i < j < |r| ==> r[i].id > r[j].id
  {
  }

  /** showProductList: `findAll(Sort.by(DESC, "id"))`, every record once, ids strictly decreasing. */
  function Listing(records: map<int, Product>): (r: seq<Product>)
    requires WellKeyed(records)
    ensures |r| == |records|
    ensures forall i :: 0 <= i < |r| ==> r[i] in records.Values
    ensures forall k :: k in records ==> records[k] in r
    ensures forall i, j :: 0 <= i < j < |r| ==> r[i].id > r[j].id
  {
    var ids := IdsDescending(records.Keys);
    var r := RecordsAt(records, ids);
    RecordsAtDescending(records, ids, r);
    r
  }
}
