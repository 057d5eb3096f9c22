# beststore product/image lifecycle

A Dafny model of the product handlers of the beststore Spring application
(`ProductsController`). Each product record in the catalog (the JPA
`ProductsRepository`) names one image file in the upload directory. Three
handlers change the two stores in a fixed order, and none of them is
transactional:

- `createProduct` writes the image under a generated key, then inserts the record;
- `updateProduct` deletes the old image, writes the new one, then saves the record;
- `deleteProduct` deletes the image, then deletes the record.

A failure while copying or deleting an image file is caught, logged and
ignored, so the handler goes on as if the step had succeeded. (Building the
path of a stored name, ProductsController.java lines 127 and 166, happens
outside those inner handlers; see "## Left out".) The model takes each step's success as a
boolean input, so the handlers are deterministic.

Files:

- `storage_keys.dfy` (module `StorageKeys`): the storage key. It is the timestamp
  rendered as Java renders a `long`, then `_`, then the original file name
  unchanged. The module also parses a key back and proves that a key determines
  its timestamp and its name.
- `catalog.dfy` (module `Catalog`): the records, form objects and uploads as
  datatypes. A `Store` holds `records: map<int, Product>` and
  `assets: map<string, seq<byte>>`. The functions `Create`, `Update` and `Delete`
  give what one handler run does to a `Store`. `EditForm` is the edit-page
  projection and `Listing` the descending-id product list.
- `catalog_properties.dfy` (module `CatalogProperties`): lemmas that relate
  several runs. They cover the best-effort integrity between the stores (every
  record's file exists, and no two records share a file), the failure window,
  orphaned files and round trips.
- `controller.dfy` (module `Controller`): class `ProductsController`. Its
  fields `records` and `assets` are the two stores, and its methods run the
  handlers' steps in the source's order. Each method is proved to leave the
  fields exactly as the matching `Catalog` function says.

Inputs that the source reads from its environment are parameters:

- `millis`: `System.currentTimeMillis()`;
- `today`: `LocalDate.now()`;
- `freshId`: the id the repository assigns on insert (required to be unused);
- `hasErrors`: the bean-validation outcome;
- `writeOk` and `deleteOk`: whether `Files.copy` and `Files.deleteIfExists` succeeded.

The five fields that a product shares with its form (name, brand, category,
price, description) are grouped in one datatype, `Details`. A null original
file name becomes `"null"`, as in Java string concatenation.

Behaviour worth noting:

- the update handler looks the id up before it checks validation errors, so an
  unknown id with errors redirects to the list rather than showing the form;
- the create handler rejects an empty image itself; it does not rely on a caller to do so;
- the update handler never creates the upload directory;
- file names are not sanitised.

## Model

| member | source | states |
|---|---|---|
| StorageKeys.StorageKey | beststore/beststore/src/main/java/com/boostmytool/beststore/controllers/ProductsController.java:61 | the key is the decimal timestamp, `_`, then the original name verbatim as its suffix; splitting it at its first `_` gives back exactly the timestamp and the name |
| StorageKeys.StorageKeyInjective | beststore/beststore/src/main/java/com/boostmytool/beststore/controllers/ProductsController.java:136 | two keys are equal if and only if they come from the same timestamp and the same name (the same construction serves create and update) |
| StorageKeys.DecimalRoundTrip | beststore/beststore/src/main/java/com/boostmytool/beststore/controllers/ProductsController.java:61 | the `long`-to-string rendering of the timestamp, negative values included, reads back to the same number |
| StorageKeys.Decimal | beststore/beststore/src/main/java/com/boostmytool/beststore/controllers/ProductsController.java:61 | the rendered timestamp is non-empty and contains no `_`, so the first `_` of a key is the separator |
| Catalog.Create | beststore/beststore/src/main/java/com/boostmytool/beststore/controllers/ProductsController.java:45-87 | an empty image or validation errors change nothing; otherwise exactly one record is added under the new id, with the form's five fields, the supplied date and the generated key, even when the write failed; the key maps to the uploaded bytes if the write succeeded, no other file changes, and a failed write leaves the files as they were |
| Catalog.Update | beststore/beststore/src/main/java/com/boostmytool/beststore/controllers/ProductsController.java:110-158 | an unknown id or validation errors change nothing; otherwise only this record changes, its id and date stay, and its five fields become the form's; without an image its file name and every file are unchanged; with an image the record names the new key, which holds the new bytes, if the write succeeded, and keeps the old name if it failed, in which case the files are exactly as the delete step left them; the old file is gone if its delete succeeded (unless the new write reused its name) and kept if the delete failed; no other file changes |
| Catalog.Delete | beststore/beststore/src/main/java/com/boostmytool/beststore/controllers/ProductsController.java:160-180 | the id is absent afterwards; an unknown id changes nothing; otherwise only that record goes; its file goes if the delete succeeded, and all files stay if it failed; no other file changes |
| Catalog.EditForm | beststore/beststore/src/main/java/com/boostmytool/beststore/controllers/ProductsController.java:90-107 | a form exists exactly when the id is known, and it carries exactly the record's name, brand, category, price and description |
| Catalog.IdsDescending | beststore/beststore/src/main/java/com/boostmytool/beststore/controllers/ProductsController.java:34 | every id of the set appears exactly once, in strictly decreasing order |
| Catalog.Listing | beststore/beststore/src/main/java/com/boostmytool/beststore/controllers/ProductsController.java:32-37 | the list holds every record and nothing else, as many entries as records, with ids strictly decreasing |
| CatalogProperties.CreateKeepsIntegrity | beststore/beststore/src/main/java/com/boostmytool/beststore/controllers/ProductsController.java:63-85 | when the write succeeds and no other record uses the generated key, every record's file still exists and no two records share one |
| CatalogProperties.UpdateKeepsIntegrity | beststore/beststore/src/main/java/com/boostmytool/beststore/controllers/ProductsController.java:125-152 | when the write succeeds and no other record uses the new key, integrity is kept whether or not the old file could be deleted |
| CatalogProperties.UpdateFailureWindow | beststore/beststore/src/main/java/com/boostmytool/beststore/controllers/ProductsController.java:127-143 | if the old file was deleted and the new write then failed, the record still names the old file, which no longer exists |
| CatalogProperties.UpdateOrphansOldImage | beststore/beststore/src/main/java/com/boostmytool/beststore/controllers/ProductsController.java:128-140 | if the old file's delete failed and the write succeeded, the old file stays with its bytes and no record names it any more |
| CatalogProperties.DeleteKeepsIntegrity | beststore/beststore/src/main/java/com/boostmytool/beststore/controllers/ProductsController.java:163-174 | deleting a product keeps integrity whether or not its file could be deleted |
| CatalogProperties.DeleteIdempotent | beststore/beststore/src/main/java/com/boostmytool/beststore/controllers/ProductsController.java:161-179 | a second delete of the same id changes nothing |
| CatalogProperties.EditThenSubmitUnchanged | beststore/beststore/src/main/java/com/boostmytool/beststore/controllers/ProductsController.java:95-100 | submitting the edit form as the edit page filled it, without a new image, leaves both stores unchanged |
| CatalogProperties.CreateThenDeleteRestores | beststore/beststore/src/main/java/com/boostmytool/beststore/controllers/ProductsController.java:160-180 | deleting a just-created product, with the file delete succeeding, restores both stores whether or not the create's write succeeded, if the key named no file before |
| Controller.ProductsController.ShowProductList | beststore/beststore/src/main/java/com/boostmytool/beststore/controllers/ProductsController.java:32-37 | returns every stored product once, largest id first |
| Controller.ProductsController.ShowEditPage | beststore/beststore/src/main/java/com/boostmytool/beststore/controllers/ProductsController.java:90-107 | returns the edit form for a known id; for an unknown id returns no form and redirects to the list |
| Controller.ProductsController.CreateProduct | beststore/beststore/src/main/java/com/boostmytool/beststore/controllers/ProductsController.java:45-87 | the stores end exactly as `Catalog.Create` says, records stay keyed by id, and the create form is shown again exactly when the create was rejected |
| Controller.ProductsController.UpdateProduct | beststore/beststore/src/main/java/com/boostmytool/beststore/controllers/ProductsController.java:110-158 | the stores end exactly as `Catalog.Update` says; the edit form comes back only for a known id with validation errors, otherwise the list |
| Controller.ProductsController.DeleteProduct | beststore/beststore/src/main/java/com/boostmytool/beststore/controllers/ProductsController.java:160-180 | the stores end exactly as `Catalog.Delete` says |

## Left out

- Spring MVC: annotations, `Model` attributes, view names and redirect strings (reduced to the `View` datatype), `BindingResult` and bean validation (reduced to `hasErrors`).
- Real file-system I/O: paths, streams, directory creation, `Files.copy` and `Files.deleteIfExists` are map updates guarded by success flags. A failed copy is taken to leave no file; a partly written file is not modelled.
- Repository internals: how ids are generated (the new id is a parameter, required to be unused) and how `Sort.by(DESC, "id")` runs; only the resulting order is stated. Repository failures are not modelled.
- The clock: the timestamp and the date are parameters. Uniqueness of keys across calls cannot be proved, so the integrity lemmas take an unused key as a precondition.
- The timestamp is an unbounded integer; it is not limited to the 64-bit range of a Java `long`.
- The price is only copied, so it is an opaque `real`; its validation constraints belong to the form class, which is not part of this model.
- The managed `Product` entity is a value in the map; aliasing between the entity given to the view and the stored record is not modelled.
- Console logging has no effect on the state and is left out.
- Concurrency: races between simultaneous requests on the same id or the shared upload directory.
- Path traversal through an unsanitised file name: the key is only a string.
- Catalog.Update and Catalog.Delete: a stored file name that cannot become a path (one containing a NUL character, say) makes `Paths.get` at lines 127 and 166 throw outside the inner handlers, so the outer handler aborts the request with no change to either store; the model treats every stored name as a valid path and does not capture this abort (such a name can be stored, because at line 70 the same failure is swallowed and line 85 still saves the record).
- `showCreatePage` only renders an empty form and changes no state.
