# Products page of a store admin app: request dispatch and product table

This project models the decision logic of the app's products route, a
Remix page backed by the store's admin REST client. The model covers two parts.

- **The route's action.** An HTTP method and a submitted form become at most
  one request to the admin client:
  - `DELETE` gives a delete of `products/<product_id>`;
  - `PUT` gives a put to the same path, whose data is always the fixed title
    `"Latest Product =====>"`;
  - `POST` gives a JSON post to `products` with the whole form as `{product: form}`;
  - any other method gives the literal string `"Request wrong method"`.
  
  The form reaches the action as `Object.fromEntries(formData)`, so a later
  entry overwrites an earlier one with the same name. A missing `product_id`
  renders as `undefined` inside the path. The admin client is represented
  only by the request value it would be handed.
- **The product table.** Each fetched product becomes one row, in fetch order:
  - the serial number is `idx + 1`;
  - the description is `"NA"` without an image and blank when the image has no
    alt text. Otherwise it is the alt text, cut to 60 characters plus `" ..."`
    when longer;
  - the image cell is `"NA"` or a thumbnail of `image.src`;
  - the price cell is `"$"` followed by the first variant's price;
  - the row's delete icon submits only `{product_id}` with method `DELETE`.
    The action turns that into the delete of that same product.

Modules: `Optional` (`null` as `None`), `Decimal` (the text of a numeric
product id), `FormEntries` (`Object.fromEntries` and reading a field),
`Action` (the dispatch), `ProductTable` (rows and table).

## Model

| member | source | states |
|---|---|---|
| FormEntries.FromEntries | app/routes/app.products.tsx:39-40 | the object built from the form has exactly one key for each entry name, and no other keys |
| FormEntries.LastEntryWins | app/routes/app.products.tsx:39-40 | a name holds the value of its last entry; earlier entries with the same name are overwritten |
| FormEntries.FromDistinctEntries | app/routes/app.products.tsx:39-40 | when the names are distinct, the object has one key per entry and every entry keeps its value |
| FormEntries.FieldText | app/routes/app.products.tsx:39-56 | a field present in the form renders as its value; a missing one renders as the text "undefined" |
| FormEntries.FieldTextOfEntries | app/routes/app.products.tsx:39-56 | over the submitted entries, a name with no entry reads as "undefined", and a name with entries reads as the value of its last entry |
| Decimal.NatToString | app/routes/app.products.tsx:107-108 | a numeric product id is submitted as a non-empty string of decimal digits with no leading zero |
| Decimal.ParseNatToString | app/routes/app.products.tsx:107-108 | reading the submitted digits back gives the original id |
| Decimal.NatToStringInjective | app/routes/app.products.tsx:107-108 | two different ids never produce the same submitted text |
| Action.ParseMethod | app/routes/app.products.tsx:46-50 | the switch matches exactly the strings DELETE, PUT and POST, case-sensitively; any other method text is kept as an unrecognised method |
| Action.ParseMethodName | app/routes/app.products.tsx:50-70 | parsing a method's name gives that method back |
| Action.ProductPath | app/routes/app.products.tsx:52 | the product path is the prefix `products/` followed by the id text, with nothing added or lost |
| Action.Dispatch | app/routes/app.products.tsx:36-75 | DELETE, PUT and POST each yield exactly one request of the matching kind, and every other method is rejected with "Request wrong method". DELETE and PUT address the form's product_id ("undefined" when the field is missing). PUT data is the fixed title. POST goes to the id-free path `products` as JSON, with the form unchanged under `product` |
| Action.PathRoundTrip | app/routes/app.products.tsx:52-56 | the product id can be read back from the path built for it |
| Action.PutIgnoresForm | app/routes/app.products.tsx:54-60 | any two forms with the same product_id give the same PUT request, so the other fields have no effect |
| Action.DeleteDeterminedById | app/routes/app.products.tsx:51-52 | two DELETE submissions give the same request if and only if their product_id texts are equal |
| Action.PostCarriesForm | app/routes/app.products.tsx:62-67 | two POST submissions give the same request if and only if their forms are equal, so every entry reaches the body unchanged |
| Action.RequestIffKnownMethod | app/routes/app.products.tsx:50-70 | a request reaches the admin client if and only if the method is DELETE, PUT or POST |
| ProductTable.Abbreviate | app/routes/app.products.tsx:236-238 | alt text of at most 60 characters is shown unchanged. Longer alt text becomes its first 60 characters followed by " ...", so the result has at most 64 characters |
| ProductTable.AbbreviateKeepsPrefix | app/routes/app.products.tsx:236-238 | the shown text always starts with the first min(60, length) characters of the alt text |
| ProductTable.AbbreviateUnchangedIff | app/routes/app.products.tsx:236-238 | the alt text is shown unchanged if and only if it has at most 60 characters, or it is exactly 60 characters followed by " ..." |
| ProductTable.AbbreviateIdempotent | app/routes/app.products.tsx:236-238 | abbreviating already abbreviated text changes nothing |
| ProductTable.DescriptionCell | app/routes/app.products.tsx:234-240 | the cell is "NA" when the image is null. It is `Blank` exactly when an image exists and its alt is null; an empty alt gives an empty text cell. Otherwise it is the abbreviated alt text |
| ProductTable.ImageCell | app/routes/app.products.tsx:241-245 | the cell is "NA" exactly when the image is null. Otherwise it is a thumbnail whose source is exactly image.src, with alt text "Product" |
| ProductTable.PriceCell | app/routes/app.products.tsx:246 | the cell text is "$" followed by the first variant's price, with nothing else; it needs at least one variant |
| ProductTable.PriceCellInjective | app/routes/app.products.tsx:246 | two price cells are equal if and only if the first variants' prices are equal, so the cell shows the price without loss |
| ProductTable.DeleteSubmission | app/routes/app.products.tsx:107-108 | the delete icon submits method DELETE and a form holding only product_id, set to the id's text |
| ProductTable.DeleteReachesProduct | app/routes/app.products.tsx:107-108 | the action turns the delete submission for id `a` into exactly one delete of `products/a`. Two submissions give the same request if and only if their ids are equal |
| ProductTable.RenderRow | app/routes/app.products.tsx:226-247 | row idx (counted from 0) has key product.id and serial number idx + 1. It shows the title and vendor, and its three cells are the description, image and price cells above |
| ProductTable.NoImageRow | app/routes/app.products.tsx:234-245 | a product without an image shows "NA" in both the description cell and the image cell |
| ProductTable.RenderTable | app/routes/app.products.tsx:226-231 | there is one row per product, and row i is the projection of product i at position i |
| ProductTable.TableKeepsOrder | app/routes/app.products.tsx:226-232 | row keys are the product ids in fetch order and serial numbers run 1, 2, 3, ...; nothing is sorted or filtered |
| ProductTable.TableDeletesOwnProduct | app/routes/app.products.tsx:256-259 | each row's delete icon deletes that row's product. Two rows issue the same delete if and only if their products have the same id |

## Left out

- The loader (lines 24-33) is left out. It does the authentication, the `GET products` fetch and swallows errors; all of that is network I/O.
- `authenticate.admin`, `request.formData()` and the admin REST client are library calls. The model keeps only the request value handed to the client; responses and thrown errors are not modelled.
- The `try`/`catch` around the switch (lines 72-74) is left out. It turns errors thrown by the client into `undefined`, and those errors arise only inside the client.
- React state, the toast, the modal and the `setTimeout` close (lines 80-126) are UI and timing.
- `updateProduct` (lines 114-118) is never wired to the page, and the edit icon only logs (line 252). The form handler `createProduct` (lines 120-126) is browser plumbing; the POST it causes is covered by `Action.Dispatch`.
- JSX markup, styles and Polaris components are left out.
- Form values are modelled as strings. A file input's value (the image field) is a `File` object in the browser, not a string.
- Product ids are unbounded naturals. JavaScript numbers lose precision above 2^53, and `String` switches to exponent notation at 10^21.
- ProductTable.Abbreviate counts characters. JavaScript's `length` and `slice` count UTF-16 code units. The two agree on text without characters outside the Basic Multilingual Plane.
- ProductTable.Product keeps `image` as either null or an object. A product with no `image` key at all (`undefined`) would make the page throw, and this case is not modelled. Title, vendor and price are plain strings, so a `null` title or vendor, rendered blank, is not modelled either.
- Action.ParseMethod compares the method text as it arrives. Any normalisation of lower-case method names is done by the fetch layer before the action runs and is not modelled.
- ProductTable.DescriptionCell: an empty alt text gives `Text("")` and a null alt gives `Blank`. The page shows both as an empty cell, and the model does not identify the two.
