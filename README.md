# Product catalog services — a Dafny model

This project models the two pieces of logic that sit under the HTTP and SOAP
plumbing of a small product catalog. The catalog is backed by a PostgreSQL
table `products` (id, name, about, price).

- **`GET /products`** (REST-POSTGRES/server.js). The optional query values
  `name`, `about` and `price` become an ordered list of conditions. Each
  truthy value adds one condition. A price that `parseFloat` turns into NaN
  adds nothing. The conditions are joined with `AND`, or the query is the
  unconditional `SELECT * FROM products`. The handler answers 404
  "Aucun produit trouvé" when nothing matches, 200 with the rows otherwise,
  and 500 when the store raises.
- **`POST /users` and `POST /reviews`** (same file). The body is validated
  against `CreateUserSchema` or `ReviewSchema`; an invalid body gets 400 and
  nothing is inserted. A user's password is stored only as
  `hashPassword(password)`, and the 201 answer carries only the id, username
  and email. A review is inserted and returned whole with 201.
- **The SOAP `ProductsService`** (Soap_Tp/server.js). `CreateProduct` inserts a
  row and returns it. `GetProducts` returns every row as `{ products }`.
  `PatchProduct` checks, in this order, that an id is given, that the row
  exists and that some field is given. It then builds the SET clause by
  growing the entries `name = $2`, … and the bound `values` array in
  lockstep, and runs the UPDATE. `DeleteProduct` checks the id and the row,
  then deletes. Every store failure is the fault `'Database Error'`.

Files:

- `common.dfy`, module `Common`: the `Product` row (`None` is SQL NULL), bound
  parameter values, and `Filter`, the selection the store performs for a
  WHERE clause, with the rows returned in table order (see "## Left out").
- `rest_server.dfy`, module `RestServer`: the condition builder (a method
  that grows a sequence, as the source grows its array), the `GET /products`
  handler, the rendering of the statement into text tokens and bound
  parameters, and the user and review handlers as functions from the table
  and body to the new table and the response. The predicates `ValidUser` and
  `ValidReview` state `CreateUserSchema` and `ReviewSchema`.
- `soap_server.dfy`, module `SoapServer`: class `Catalog` holds the table as a
  `seq<Product>` and the store's serial counter. Its methods are the four
  service operations. `BuildSet` is the SET-clause builder. `RunUpdate` is
  the store executing the UPDATE it produced, so the lemmas can show that
  the lockstep pairing makes the statement do the intended partial update.

How the parts the model cannot see are represented:

- The store is the in-memory table. Whether a round trip raises is an input:
  `storeFails` for the REST routes, and `StoreHealth` (`Up`, `FailsOnRead`,
  `FailsOnWrite`) for the SOAP operations, where patch and delete read
  before they write.
- `parseFloat` is a parameter `parse: string -> Option<real>`; `None` is NaN.
- `ILIKE` is a parameter `like(value, pattern)`, applied to the bound
  pattern `'%' + v + '%'`. A NULL column never matches a condition.
- `hashPassword` is a parameter `hash`. The only assumption about it is that
  it never returns its input, and only the lemma that needs it assumes it.
- zod's `.email()` is a parameter `isEmail`.
- The postgres.js client refuses a parameter whose value is `undefined`, and
  the handlers' `catch` turns that into the store error. The model keeps this
  behaviour: `CreateProduct` with a missing field gives `'Database Error'`,
  and `POST /reviews` without `content` gives 500. `PatchProduct` never binds
  `undefined`, because it skips undefined fields.
- Ids are assigned by the store from a serial counter. `Catalog.Valid()`
  keeps them positive, below the counter, and distinct.

Two points where the code, which the model follows, says less than one
might expect:

- The API documentation of `POST /reviews` (REST-POSTGRES/server.js:211-214)
  describes the score as an integer from 1 to 5. `ReviewSchema` accepts any
  number from 1 to 5, and so does the model.
- The SOAP `CreateProduct` validates nothing. `ProductSchema`
  (REST-POSTGRES/server.js:33-38), which asks for a positive price, is
  declared there but never used, and Soap_Tp/server.js has no schema at all.
  A price the table refuses is a store failure.

## Model

| member | source | states |
|---|---|---|
| `Common.Filter` | REST-POSTGRES/server.js:131-135 | a row is selected iff it is in the table and satisfies the condition; the selection is no longer than the table |
| `Common.FilterCongruent` | REST-POSTGRES/server.js:131-135 | conditions that agree on every row of the table select the same rows |
| `Common.FilterDropsOne` | Soap_Tp/server.js:106-107 | a condition that fails on exactly one row removes just that row and keeps the rest in order |
| `Common.FilterKeepsAll` | REST-POSTGRES/server.js:133 | a condition that holds for every row selects the whole table, in order |
| `RestServer.BuildConditions` | REST-POSTGRES/server.js:116-128 | the list is empty iff no filter is in effect; conditions come in the fixed order name, about, price with at most one of each; each truthy filter adds exactly one condition, and a NaN price adds none; each condition binds `'%' + value + '%'` or the parsed price; a row satisfies all conditions iff it satisfies every filter in effect |
| `RestServer.GetProducts` | REST-POSTGRES/server.js:113-143 | 500 with the error message when the store raises; 404 "Aucun produit trouvé" when no row matches; otherwise 200 with exactly the matching rows, unchanged and in table order |
| `RestServer.UnfilteredListsAll` | REST-POSTGRES/server.js:116-133 | with every filter falsy or NaN, the query lists the whole table |
| `RestServer.NaNPriceIsAbsent` | REST-POSTGRES/server.js:123-127 | a price that parses to NaN gives the same rows as no price at all |
| `RestServer.MatchingIsIntersection` | REST-POSTGRES/server.js:117-132 | a row is listed iff the name filter alone, the about filter alone and the price filter alone would each list it |
| `RestServer.PriceFilterIsUpperBound` | REST-POSTGRES/server.js:123-127 | a parsed price p admits exactly the rows whose price is at most p |
| `RestServer.JoinAnd` | REST-POSTGRES/server.js:118-132 | the AND-joined conditions, numbered from `$n`, are laid out condition by condition: condition i's keyword, then placeholder `$(n+i)`, then ` AND ` before the next; there is one parameter per condition and parameter i is condition i's own value |
| `RestServer.LaidOutCons` | REST-POSTGRES/server.js:132 | putting one condition's fragment and ` AND ` before a laid-out list lays out the longer list, with every later placeholder shifted by one |
| `RestServer.Render` | REST-POSTGRES/server.js:131-133 | with no condition the query is `SELECT * FROM products` with no parameters; otherwise `SELECT * FROM products WHERE ` followed by the conditions laid out from `$1` |
| `RestServer.JoinAndText` | REST-POSTGRES/server.js:132 | the AND-joined text holds only fixed keywords, and its placeholders are numbered within the range of the conditions it joins |
| `RestServer.RenderIsParameterised` | REST-POSTGRES/server.js:118-133 | every filter value is a bound parameter, in condition order; the placeholder after condition i's keyword binds condition i's own value; every placeholder names a parameter; the statement text contains only fixed keywords; with no condition the statement is `SELECT * FROM products` with no parameters |
| `RestServer.RenderTextIgnoresValues` | REST-POSTGRES/server.js:118-133 | two condition lists of the same kinds render to the same statement text, whatever values the user supplied |
| `RestServer.ValidUser` | REST-POSTGRES/server.js:46-50 | `CreateUserSchema`: username, email and password are strings, the email passes the e-mail check, the password has at least six characters |
| `RestServer.ValidReview` | REST-POSTGRES/server.js:57-62 | `ReviewSchema`: product and user ids are numbers, the score is a number from 1 to 5 inclusive, the content is absent or a string |
| `RestServer.PostUsers` | REST-POSTGRES/server.js:173-190 | 400 iff the body fails `CreateUserSchema`; a table change only after validation and a store success; on success one row is appended whose password is `hash(password)`, and 201 carries only its id, username and email; a store failure gives 500 and changes nothing |
| `RestServer.PostUsersStoresOnlyHashes` | REST-POSTGRES/server.js:178-186 | every stored password remains the hash of a password of at least six characters; when the hash never returns its input, no new row holds the plaintext, and after a successful insert the appended row's password differs from the plaintext |
| `RestServer.PostReviews` | REST-POSTGRES/server.js:223-241 | 400 iff the body fails `ReviewSchema` (score outside [1, 5] among others); a valid body with content and a healthy store appends one row and returns it with 201; a store failure, or missing content, gives 500 and changes nothing |
| `RestServer.PostReviewsKeepsScoresInRange` | REST-POSTGRES/server.js:224-240 | if every stored score is in [1, 5], it stays so after the handler |
| `SoapServer.BuildSet` | Soap_Tp/server.js:52-66 | `values` has one more entry than the SET clause and starts with the id; the k-th entry names `$(k+2)`, which binds `values[k+1]`, that column's new value; exactly the fields that are not `undefined` are set, in the order name, about, price |
| `SoapServer.PairedIsBindable` | Soap_Tp/server.js:72-80 | a clause built in lockstep is one PostgreSQL accepts: as many values as the highest placeholder, no column set twice, each value of its column's type |
| `SoapServer.LockstepPush` | Soap_Tp/server.js:53-66 | pushing an entry numbered from the current length of `values`, together with its column's value, keeps the entries and values in lockstep |
| `SoapServer.PairedSlot` | Soap_Tp/server.js:53-66 | in a lockstep clause a column has a placeholder iff its field is present, and that placeholder binds the field's value |
| `SoapServer.PairedApplies` | Soap_Tp/server.js:72-83 | the SET clause sets a row exactly as the partial update intends: given fields replaced, `null` clearing, absent fields kept |
| `SoapServer.PairedUpdateRuns` | Soap_Tp/server.js:72-83 | running the built statement updates exactly the rows with the id, each to its intended patch, and leaves the other rows unchanged |
| `SoapServer.HighestOfConsecutive` | Soap_Tp/server.js:53-66 | placeholders numbered consecutively from `base` make the last one the highest |
| `SoapServer.WithId` | Soap_Tp/server.js:45-48 | the existence check returns exactly the rows with the id, and is empty iff no row has it |
| `SoapServer.WithoutId` | Soap_Tp/server.js:106-107 | the DELETE keeps exactly the rows whose id differs |
| `SoapServer.DeleteRemovesExactlyOne` | Soap_Tp/server.js:106-110 | with distinct ids, deleting by id removes exactly the one row with that id and keeps the others in order |
| `SoapServer.Catalog.ExecuteDelete` | Soap_Tp/server.js:106-110 | deleting an id present in the table removes exactly that one row, keeps the other rows in order, keeps ids distinct and leaves the id counter alone |
| `SoapServer.UniqueIdsWithout` | Soap_Tp/server.js:106-107 | removing one row keeps the ids distinct |
| `SoapServer.PatchKeepsIds` | Soap_Tp/server.js:72-83 | a patch keeps the table's length and every row's id, so the ids stay distinct |
| `SoapServer.PatchTouchesOneRow` | Soap_Tp/server.js:72-83 | with distinct ids, a patch changes only the row with the id; that row keeps its id and every column whose field was absent |
| `SoapServer.Catalog.CreateProduct` | Soap_Tp/server.js:13-23 | a missing field or a write failure gives `'Database Error'` and no change; otherwise one row with a fresh id and the given values is appended and returned |
| `SoapServer.Catalog.GetProducts` | Soap_Tp/server.js:26-33 | all rows, unchanged, as `{ products }`, or `'Database Error'` when the read fails |
| `SoapServer.Catalog.PatchProduct` | Soap_Tp/server.js:36-87 | every fault leaves the table unchanged; a falsy id faults first, then a failed read, then a missing row ("Produit non trouvé." even with no fields), then no fields, then a failed write; otherwise the table becomes the patched table and the updated row is returned |
| `SoapServer.Catalog.ExecuteUpdate` | Soap_Tp/server.js:72-83 | the UPDATE built in lockstep leaves the table patched at the id and returns the updated row |
| `SoapServer.Catalog.DeleteProduct` | Soap_Tp/server.js:90-114 | every fault leaves the table unchanged; a falsy id faults first, then a failed read, then a missing row, then a failed write; otherwise exactly the row with the id is removed and the success message is returned |
| `SoapServer.Scenario` | Soap_Tp/server.js:13-110 | creating "Widget", patching its name, deleting it and patching it again give the created row, the renamed row with its price kept, the success message and "Produit non trouvé." |

## Left out

- HTTP and SOAP transport: Express routing, `soap.listen`, reading and
  serving the WSDL, and `app.listen`. These only move requests and replies.
- The Swagger configuration and JSDoc comments, which only generate
  documentation.
- `console.log` calls, which have no effect on results.
- Soap_Tp/client.js is not part of this model: it is a demo that calls the service remotely.
- The internals of `hashPassword` (SHA-512): a library call, kept as a parameter.
- zod internals and its e-mail check: a library, kept as the parameter `isEmail`.
- zod's `.min(6)` counts UTF-16 code units. The model counts characters.
- `parseFloat` details and floating point: prices are exact reals. A
  `parseFloat` result of Infinity is not representable.
- `ILIKE` semantics: case folding, and the unescaped `%` and `_` in user
  input. These are store behaviour, kept behind the parameter `like`.
- The unused schemas `ProductSchema`, `CreateProductSchema`,
  `UpdateUserSchema` and `UserSchema`, and the unused `node-fetch` import.
  They have no behaviour.
- Query values that Express parses into arrays or objects (a repeated
  `?name=`). Each filter is modelled as one string or absent.
- A request body that is not a JSON object.
- The SOAP id is modelled as an integer argument. PostgreSQL's cast of an id
  sent as text, and its error on non-numeric text, are not modelled.
- The fault's `detail` field, which only carries the library's error message.
- Table constraints: NOT NULL, a unique e-mail, foreign keys, column type
  coercion. A refusal by the store is a store failure, chosen by the input.
- Ids consumed by a failed insert: the model's serial counter advances only
  on success.
- `sql.join(conditions, sql\` AND \`)` (REST-POSTGRES/server.js:132) is taken
  to join the condition fragments with ` AND ` and to number their
  placeholders in order, as the ` AND ` separator passed at that line implies.
  The postgres.js client that `sql` comes from is not part of this model. If the client has no such
  helper, line 132 throws inside the `try`, and every request with a
  condition answers 500 instead of 200 or 404.
- Row order: PostgreSQL promises no order for a SELECT without ORDER BY. The
  model returns rows in table order (`Filter` keeps it). "In table order" in
  the `GetProducts`, `Catalog.GetProducts` and `PatchProduct` contracts
  relies on this, and so does a patched row keeping its position
  (`PatchRows`). An UPDATE usually moves the new row version elsewhere in
  the table.
- The race between the existence check and the UPDATE or DELETE: each
  operation is modelled as running alone.
- Deletion by id removes every row with the id, as `WHERE id =` does. The "exactly one row" statement relies on the distinct
  ids that `Catalog.Valid()` maintains, not on the statement itself.
