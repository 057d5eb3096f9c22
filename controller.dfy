/**
 * ProductsController: the request handlers as methods over the two stores.
 * Each method runs the handler's steps in the handler's order and is proved
 * to leave the stores exactly as the matching function of module Catalog says.
 */
module Controller {

  import opened Wrappers
  import opened StorageKeys
  import opened Catalog

  /** Where a handler sends the browser: back to the list, or the same form again. */
  datatype View = ProductListRedirect | CreateFormView | EditFormView

  class ProductsController {

    /** The product repository's contents, by id. */
    var records: map<int, Product>

    /** The upload directory's files, by file name. */
    var assets: map<string, seq<byte>>

    ghost predicate Valid()
      reads this
    {
      WellKeyed(records)
    }

    function State(): Store
      reads this
    {
      Store(records, assets)
    }

    constructor (records0: map<int, Product>, assets0: map<string, seq<byte>>)
      requires WellKeyed(records0)
      ensures Valid()
      ensures records == records0 && assets == assets0
    {
      records := records0;
      assets := assets0;
    }

    /** showProductList: every product, largest id first. */
    method ShowProductList() returns (products: seq<Product>)
      requires Valid()
      ensures |products| == |records|
      ensures forall k :: k in records ==> records[k] in products
      ensures forall i :: 0 <= i < |products| ==> products[i] in records.Values
      ensures forall i, j :: 0 <= i < j < |products| ==> products[i].id > products[j].id
    {
      products := Listing(records);
    }

    /** showEditPage: the edit form filled from the record, or back to the list for an unknown id. */
    method ShowEditPage(id: int) returns (view: View, form: Option<Details>)
      ensures form == EditForm(records, id)
      ensures view == (if id in records then EditFormView else ProductListRedirect)
    {
      if id !in records {
        return ProductListRedirect, None;
      }
      var product := records[id];
      form := Some(product.details);
      view := EditFormView;
    }

    /**
     * createProduct. `millis` and `today` stand for the clock readings, `freshId`
     * for the id the repository assigns, `writeOk` for whether the image copy
     * succeeded.
     */
    method CreateProduct(dto: ProductDto, hasErrors: bool, millis: int, today: Date, freshId: int, writeOk: bool)
      returns (view: View)
      requires Valid()
      requires freshId !in records
      modifies this
      ensures Valid()
      ensures State() == Create(old(State()), dto, hasErrors, millis, today, freshId, writeOk)
      ensures view == (if CreateRejected(dto, hasErrors) then CreateFormView else ProductListRedirect)
    {
      // An empty image file is reported as one more validation error.
      var rejected := dto.imageFile.IsEmpty() || hasErrors;
      if rejected {
        return CreateFormView;
      }
      var image := dto.imageFile;
      var createdAt := today;
      var storageFileName := StorageKey(millis, image.NameText());
      if writeOk {
        assets := assets[storageFileName := image.content];
      }
      var product := Product(freshId, dto.details, createdAt, storageFileName);
      records := records[freshId := product];
      view := ProductListRedirect;
    }

    /**
     * updateProduct. `deleteOk` and `writeOk` say whether deleting the old image
     * and copying the new one succeeded.
     */
    method UpdateProduct(id: int, dto: ProductDto, hasErrors: bool, millis: int, deleteOk: bool, writeOk: bool)
      returns (view: View)
      requires Valid()
      modifies this
      ensures Valid()
      ensures State() == Update(old(State()), id, dto, hasErrors, millis, deleteOk, writeOk)
      ensures view == (if id in old(records) && hasErrors then EditFormView else ProductListRedirect)
    {
      if id !in records {
        return ProductListRedirect;
      }
      var product := records[id];
      if hasErrors {
        return EditFormView;
      }
      if !dto.imageFile.IsEmpty() {
        var oldImage := product.imageFileName;
        if deleteOk {
          assets := assets - {oldImage};
        }
        var image := dto.imageFile;
        var storageFileName := StorageKey(millis, image.NameText());
        if writeOk {
          assets := assets[storageFileName := image.content];
          product := product.(imageFileName := storageFileName);
        }
      }
      product := product.(details := dto.details);
      records := records[id := product];
      view := ProductListRedirect;
    }

    /** deleteProduct. `deleteOk` says whether deleting the image succeeded. */
    method DeleteProduct(id: int, deleteOk: bool)
      requires Valid()
      modifies this
      ensures Valid()
      ensures State() == Delete(old(State()), id, deleteOk)
    {
      if id !in records {
        return;
      }
      var product := records[id];
      if deleteOk {
        assets := assets - {product.imageFileName};
      }
      records := records - {id};
    }
  }
}
