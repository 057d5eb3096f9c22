/**
 * Facts that relate several handler runs, and the best-effort integrity
 * between the two stores: every record's image file exists, and no two
 * records name the same file.
 */
module CatalogProperties {

  import opened Wrappers
  import opened StorageKeys
  import opened Catalog

  /** Every record's image file is present in the asset store. */
  ghost predicate ImagesPresent(s: Store) {
    forall id :: id in s.records ==> s.records[id].imageFileName in s.assets
  }

  /** No two records name the same image file; the asset store deletes by name only. */
  ghost predicate ImagesExclusive(s: Store) {
    forall i, j :: i in s.records && j in s.records && i != j ==>
      s.records[i].imageFileName != s.records[j].imageFileName
  }

  ghost predicate Integrity(s: Store) {
    ImagesPresent(s) && ImagesExclusive(s)
  }

  /** No record other than `owner` names `key`. */
  ghost predicate KeyFreeExcept(s: Store, key: string, owner: int) {
    forall id :: id in s.records && id != owner ==> s.records[id].imageFileName != key
  }

  /**
   * A create whose write succeeds keeps both stores consistent, provided the
   * generated key is not already some record's image (timestamps make that
   * likely, not certain, so it is a precondition here).
   */
  lemma CreateKeepsIntegrity(s: Store, dto: ProductDto, hasErrors: bool, millis: int, today: Date, freshId: int)
    requires freshId !in s.records
    requires Integrity(s)
    requires KeyFreeExcept(s, StorageKey(millis, dto.imageFile.NameText()), freshId)
    ensures Integrity(Create(s, dto, hasErrors, millis, today, freshId, true))
  {
  }

  /**
   * An update whose write succeeds keeps both stores consistent whether or not
   * the old file could be deleted; a failed delete only leaves an orphan file.
   */
  lemma UpdateKeepsIntegrity(s: Store, id: int, dto: ProductDto, hasErrors: bool, millis: int, deleteOk: bool)
    requires Integrity(s)
    requires KeyFreeExcept(s, StorageKey(millis, dto.imageFile.NameText()), id)
    ensures Integrity(Update(s, id, dto, hasErrors, millis, deleteOk, true))
  {
  }

  /**
   * The failure window of an update: when the old file was deleted and the new
   * write failed, the record keeps naming the deleted file.
   */
  lemma UpdateFailureWindow(s: Store, id: int, dto: ProductDto, millis: int)
    requires id in s.records && !dto.imageFile.IsEmpty()
    ensures var r := Update(s, id, dto, false, millis, true, false);
      r.records[id].imageFileName == s.records[id].imageFileName && r.records[id].imageFileName !in r.assets
  {
  }

  /**
   * An update whose old-file delete failed but whose write succeeded leaves the
   * old file in the store with no record naming it.
   */
  lemma UpdateOrphansOldImage(s: Store, id: int, dto: ProductDto, millis: int)
    requires ImagesExclusive(s)
    requires id in s.records && !dto.imageFile.IsEmpty()
    requires s.records[id].imageFileName in s.assets
    requires s.records[id].imageFileName != StorageKey(millis, dto.imageFile.NameText())
    ensures var r := Update(s, id, dto, false, millis, false, true);
      var oldKey := s.records[id].imageFileName;
      && oldKey in r.assets && r.assets[oldKey] == s.assets[oldKey]
      && forall k :: k in r.records ==> r.records[k].imageFileName != oldKey
  {
  }

  /** Deleting a product keeps both stores consistent, whether or not its file could be deleted. */
  lemma DeleteKeepsIntegrity(s: Store, id: int, deleteOk: bool)
    requires Integrity(s)
    ensures Integrity(Delete(s, id, deleteOk))
  {
  }

  /** A second delete of the same id is a no-op. */
  lemma DeleteIdempotent(s: Store, id: int, firstOk: bool, secondOk: bool)
    ensures Delete(Delete(s, id, firstOk), id, secondOk) == Delete(s, id, firstOk)
  {
  }

  /**
   * Submitting the edit form exactly as the edit page filled it in, without a
   * new image, leaves both stores as they were.
   */
  lemma EditThenSubmitUnchanged(s: Store, id: int, fileName: Option<string>, millis: int, deleteOk: bool, writeOk: bool)
    requires id in s.records
    ensures var dto := ProductDto(EditForm(s.records, id).value, Upload(fileName, []));
      Update(s, id, dto, false, millis, deleteOk, writeOk) == s
  {
  }

  /**
   * Deleting a just-created product (with its file delete succeeding) restores
   * both stores, whether or not the create's write succeeded, provided the
   * generated key named no file before.
   */
  lemma CreateThenDeleteRestores(s: Store, dto: ProductDto, millis: int, today: Date, freshId: int, writeOk: bool)
    requires freshId !in s.records
    requires StorageKey(millis, dto.imageFile.NameText()) !in s.assets
    ensures Delete(Create(s, dto, false, millis, today, freshId, writeOk), freshId, true) == s
  {
  }
}
