# Hortti inventory backend — a Dafny model

This project models the core of the Hortti inventory application. It is a NestJS/TypeORM backend that keeps a catalogue of fruit, vegetables and legumes, with user registration, JWT log-in and image uploads, and a small piece of its Next.js frontend.

The model states the following in Dafny and proves properties about them:

- the product service over an in-memory `products` table;
- the auth service over an in-memory `users` table;
- the request validators;
- the upload configuration (stored names, file filter, size limit);
- the URL helpers on both sides;
- the two controllers that compose these.

State is immutable.

- A table is a `map` from serial id to row, together with the counter that hands out ids.
- Every service operation is a function from the state to the new state together with the value returned or the error thrown (`Step`, `AuthStep`, `Reply`).
- The files the product service asks `UploadService.deleteFile` to remove are recorded in a deletion log (`Catalog.deleted`). That log is how the side effects on the upload directory are observed.

Collaborators whose code is not part of the model are parameters:

- bcrypt is a `Hasher` record of function values. The properties the service relies on are the predicates `HasherSound` and `HasherExact`.
- The JWT service is a `Signer` record whose `sign` also takes the time. The property relied on is `SignerSound`: a signed payload verifies to itself, whenever it was signed.
- The e-mail syntax check of `@IsEmail()` is a predicate parameter.
- The clock is the `now` argument.
- The random draws of the file-name generator are a `seq<int>` argument.

Modules, one per file:

| module | file | what it models |
|---|---|---|
| `Wrappers` | wrappers.dfy | `Option` and `Result` |
| `Errors` | errors.dfy | the exceptions thrown and the HTTP status each becomes |
| `Text` | text.dfy | `toLowerCase`, `includes`, `indexOf`, `replace`, `split('/').pop()` |
| `Json`, `Constraints` | json.dfy, constraints.dfy | request bodies as JSON values, and the class-validator decorators |
| `Table` | table.dfy | serial-keyed tables enumerated in id order |
| `ProductEntity` | product_entity.dfy | the `Product` row and the `ProductCategory` enum |
| `ProductDtos` | product_dtos.dfy | `CreateProductDto`, `QueryProductDto` |
| `RegisterDto` | register_dto.dfy | `RegisterDto` |
| `StrongPassword` | strong_password.dfy | `IsStrongPasswordConstraint.validate` |
| `Listing` | listing.dfy | `findAll`'s filter, sort and pagination |
| `Like` | like.dfy | PostgreSQL `ILIKE` on the pattern `findAll` builds |
| `Upload` | upload.dfy | `UploadService` and the multer settings of `UploadModule` |
| `ProductsService` | products_service.dfy | `ProductsService` |
| `AuthService` | auth_service.dfy | `AuthService` |
| `JwtGuard` | jwt_guard.dfy | what `JwtAuthGuard` lets through |
| `ProductsController` | products_controller.dfy | `/products` routes |
| `AuthController` | auth_controller.dfy | `/auth` routes |
| `FrontendApi` | frontend_api.dfy | `API_URL`, `BASE_URL`, `getImageUrl` |

## Model

| member | source | states |
|---|---|---|
| Text.LastSegment | backend/src/products/products.service.ts:81 | The file name taken from an image URL contains no '/'. It is a suffix of the URL, and when shorter than the URL it is preceded by '/'. |
| Text.ReplaceFirst | frontend/lib/api.ts:4 | A string pattern replaces only its first occurrence. When the pattern is absent the text is unchanged. |
| ProductEntity.ParseCategory | backend/src/entities/product.entity.ts:9-13 | A category string is accepted exactly when it is one of `fruta`, `verdura`, `legume`. The parsed enum value prints back as the same string. |
| ProductEntity.CategoryNameRoundTrip | backend/src/entities/product.entity.ts:9-13 | Every enum value has an allowed name, and parsing that name gives the value back. |
| ProductDtos.CreateViolations | backend/src/dto/product/create-product.dto.ts:14-49 | No property is reported exactly when all six constraints hold, with lengths measured as validator.js measures them. `price` and `stock` are reported exactly when their own constraint fails. |
| ProductDtos.ValidateCreate | backend/src/dto/product/create-product.dto.ts:14-49 | The body is refused with 400 exactly when some constraint fails. Otherwise the product carries the body's values: a non-empty name of measured length at most 255, the category, the price in whole cents and ≥ 0, the image URL and description as sent (null reading as absent), a description of measured length at most 1000, and a stock that keeps apart absent, null and a non-negative integer. |
| ProductDtos.ValidatedIsAcceptable | backend/src/dto/product/create-product.dto.ts:14-49 | Everything validation hands on meets the DTO's constraints on typed values. |
| ProductDtos.CreateRoundTrip | backend/src/dto/product/create-product.dto.ts:14-49 | Every product description meeting those constraints, sent as a body with a two-place price, validates back to itself. |
| ProductDtos.ParseSortKey | backend/src/dto/product/query-product.dto.ts:16-20 | A sort key is recognised exactly when it is `name`, `price` or `createdAt`, and the recognised column prints back as the string given. |
| ProductDtos.SortKeyName | backend/src/dto/product/query-product.dto.ts:16-20 | Each sort column's name is one of the allowed values. |
| ProductDtos.SortKeyNameRoundTrip | backend/src/dto/product/query-product.dto.ts:16-20 | Parsing a sort column's name gives the column back. |
| ProductDtos.QueryViolations | backend/src/dto/product/query-product.dto.ts:5-35 | A query is clean exactly when each present category is an enum value, each present sortBy is allowed, and each present order is one of `ASC`, `DESC`, `asc`, `desc`. |
| ProductDtos.ValidateQuery | backend/src/dto/product/query-product.dto.ts:5-35 | A valid query is passed on with search, order, page and limit unchanged. The category and sortBy become the typed values whose names are the strings sent, and absence is kept. |
| ProductDtos.ValidatedQueryRoundTrip | backend/src/dto/product/query-product.dto.ts:5-35 | A query that validates is exactly the query string of what validation hands on. |
| ProductDtos.QueryRoundTrip | backend/src/dto/product/query-product.dto.ts:5-35 | Every typed query whose order the DTO allows, written as a query string, validates back to itself. |
| ProductDtos.PagingIsUnconstrained | backend/src/dto/product/query-product.dto.ts:28-34 | Changing page and limit, to any value including zero or negatives, never changes whether a query validates. |
| RegisterDto.RegisterViolations | backend/src/dto/auth/register.dto.ts:11-32 | No field is reported exactly when the e-mail, password, name and role constraints all hold, with lengths measured as validator.js measures them. |
| RegisterDto.ValidateRegister | backend/src/dto/auth/register.dto.ts:11-32 | A registration passes exactly when there are no violations. It then carries the body's e-mail, accepted by the syntax check, the body's password of measured length 6..50, the body's name of measured length 3..255, and the body's role as sent (null reading as absent), which is `admin` or `user` when present. |
| RegisterDto.ValidatedRegistrationRoundTrip | backend/src/dto/auth/register.dto.ts:11-32 | What validation hands on meets the DTO's constraints, and unless the role was null, writing it back as a body gives the body that was sent. |
| RegisterDto.RegisterRoundTrip | backend/src/dto/auth/register.dto.ts:11-32 | Every registration meeting those constraints, sent as a body, validates back to itself. |
| RegisterDto.StrongPasswordNotApplied | backend/src/dto/auth/register.dto.ts:16-20 | The DTO accepts the password `abcdef`, which the strong-password constraint rejects. |
| Constraints.OptionalString | backend/src/dto/product/create-product.dto.ts:35-37 | An optional string property reads as absent exactly when it is absent or null. Otherwise it is the body's string. |
| Constraints.StringField | backend/src/dto/product/create-product.dto.ts:35-37 | Writing an optional string as a property and reading it back gives the string, or absence. |
| Constraints.StringFieldOfOptionalString | backend/src/dto/product/create-product.dto.ts:35-37 | Reading a string or absent property and writing it back gives the property. |
| Constraints.MeasuredLength | backend/src/dto/product/create-product.dto.ts:17 | The length `@MaxLength` and `@MinLength` compare is at most the number of code points, and equal to it exactly when the text has no U+FE0E or U+FE0F. |
| StrongPassword.AnyChar | backend/src/validators/is-strong-password.validator.ts:13-15 | A character-class test holds exactly when some character of the password is in the class. |
| StrongPassword.Validate | backend/src/validators/is-strong-password.validator.ts:10-18 | A password is accepted exactly when it is present and has an upper-case letter, a lower-case letter and a digit (all ASCII). An accepted password is non-empty. |
| StrongPassword.ValidateByContents | backend/src/validators/is-strong-password.validator.ts:13-17 | Acceptance is the same as "the set of characters meets all three classes". |
| StrongPassword.OrderIrrelevant | backend/src/validators/is-strong-password.validator.ts:13-17 | Two passwords with the same characters, in any order, are both accepted or both rejected. |
| StrongPassword.ExtensionKeepsAccepted | backend/src/validators/is-strong-password.validator.ts:13-17 | Adding characters before or after an accepted password keeps it accepted. |
| StrongPassword.ShortPasswordAccepted | backend/src/validators/is-strong-password.validator.ts:13-17 | There is no length requirement: `aA1` is accepted. |
| StrongPassword.EmptyRejected | backend/src/validators/is-strong-password.validator.ts:11 | The empty and the absent password are rejected. |
| Listing.Filter | backend/src/products/products.service.ts:37-47 | Every kept row is active, matches the search case-insensitively and has the asked category. A matching row is kept as often as it occurs; a non-matching row never is. |
| Listing.OrderByAsWritten | backend/src/products/products.service.ts:49 | The query builder accepts a direction exactly when it is `ASC` or `DESC`. |
| Listing.ParseDirection | backend/src/dto/product/query-product.dto.ts:22-26 | Every direction the query DTO admits is honoured, case-insensitively, and nothing else is. |
| Listing.LowercaseOrderRefused | backend/src/products/products.service.ts:49 | `asc` passes the DTO but is refused by the query builder as written. The corrected reading sorts ascending. |
| Listing.ParseDirectionExtendsOrderBy | backend/src/products/products.service.ts:49 | The corrected direction agrees with the query builder wherever the builder succeeds, and succeeds on every spelling the DTO admits. |
| Listing.InOrderTotal | backend/src/products/products.service.ts:49 | Any two products are comparable under each sort key and direction. |
| Listing.InOrderTransitive | backend/src/products/products.service.ts:49 | The order of each sort key and direction is transitive. |
| Listing.InOrderReflexive | backend/src/products/products.service.ts:49 | Every product may be listed next to itself under each sort key and direction. |
| Listing.SortedTail | backend/src/products/products.service.ts:49 | Dropping the first row of a sorted list leaves a sorted list of the remaining rows. |
| Listing.SortedWithoutTiesIsUnique | backend/src/products/products.service.ts:49-52 | When no two different rows tie on the sort key, two sorted lists holding the same rows are equal: `ORDER BY` has a single answer. |
| Listing.Insert | backend/src/products/products.service.ts:49 | Inserting into a sorted list keeps it sorted and adds exactly the inserted row. |
| Listing.Sort | backend/src/products/products.service.ts:49 | The result is sorted by the key and direction and is a permutation of the input. |
| Listing.TotalPages | backend/src/products/products.service.ts:62 | The page count is the ceiling of total/limit: the pages cover the total, the last page is non-empty, and the count is zero exactly for an empty result. |
| Listing.PageOf | backend/src/products/products.service.ts:51-52 | A page holds at most `limit` rows, namely the rows from offset `(page-1)*limit` in order. It is full when the list reaches its end, and non-empty when the offset is inside the list. |
| Listing.PagesArePrefix | backend/src/products/products.service.ts:51-52 | Pages 1..n, concatenated, are the first n·limit rows. |
| Listing.AllPagesReproduceList | backend/src/products/products.service.ts:51-62 | Pages 1..totalPages, concatenated, are exactly the whole ordered list. |
| Listing.PagePastEndIsEmpty | backend/src/products/products.service.ts:51-62 | A page number beyond totalPages gives an empty page. |
| Listing.Ordered | backend/src/products/products.service.ts:37-49 | The ordered rows are sorted and hold each matching row as often as the table does, and nothing else. |
| Listing.OrderedRowsMatch | backend/src/products/products.service.ts:37-47 | Every ordered row is a matching row of the table. |
| Listing.PageKeepsOrder | backend/src/products/products.service.ts:49-52 | A page of a sorted list of matching rows is itself sorted and holds only matching rows. |
| Listing.PageOfOrdered | backend/src/products/products.service.ts:37-52 | A page of the ordered rows is sorted and holds only matching rows of the table. |
| Listing.List | backend/src/products/products.service.ts:25-65 | With the corrected direction (see Findings): the listing fails exactly for a direction outside the DTO's list. The defaults are createdAt, DESC, page 1 and limit 10. The data is the requested page of the ordered matches, with at most `limit` rows. `meta` gives the filtered total, the page, the limit and ceil(total/limit). |
| Like.AnyMatchesAll | backend/src/products/products.service.ts:40-42 | The pattern `%` matches every string. |
| Like.EscapedPrefix | backend/src/products/products.service.ts:40-42 | An escaped text followed by `%` matches exactly the strings that start with the text. |
| Like.LeadingAny | backend/src/products/products.service.ts:40-42 | A leading `%` matches exactly when the rest of the pattern matches some suffix. |
| Like.EscapedContains | backend/src/products/products.service.ts:40-42 | `%text%` with the text escaped is exactly the substring test. |
| Like.LowerConcat | backend/src/products/products.service.ts:40 | Lower-casing distributes over concatenation. |
| Like.LowerEscape | backend/src/products/products.service.ts:40-42 | Lower-casing and escaping commute. |
| Like.EscapePlain | backend/src/products/products.service.ts:40-42 | A search without `%`, `_` or `\` is its own escape. |
| Like.EscapedSearchIsSubstring | backend/src/products/products.service.ts:39-43 | Escaping the search text makes `ILIKE` the case-insensitive substring test the listing filter uses, in both directions. |
| Like.PlainSearchAgrees | backend/src/products/products.service.ts:39-43 | For a search without pattern characters, the condition as written is that substring test. |
| Like.PercentSearchMatchesEverything | backend/src/products/products.service.ts:39-43 | The search `%` matches every name as written, although no name without '%' contains it. |
| ProductsService.RowsOf | backend/src/products/products.service.ts:54 | The scanned rows are the rows under the given keys, in key order. |
| ProductsService.RowsOfCount | backend/src/products/products.service.ts:54 | With distinct keys, each stored row occurs exactly once in the scan, and other rows never occur. |
| ProductsService.Rows | backend/src/products/products.service.ts:54 | The table's rows are each stored product exactly once. |
| ProductsService.FindAll | backend/src/products/products.service.ts:25-65 | With the corrected direction (see Findings): the listing fails only for a direction outside the DTO's list. Every listed product is stored, active, matches the search case-insensitively and has the asked category. At most `limit` products are listed. |
| ProductsService.EveryMatchListedOnce | backend/src/products/products.service.ts:51-63 | When no two matching rows tie on the sort column, every sorted arrangement of the matches is the model's ordered list, so each page's query sees the same list. Pages 1..totalPages reproduce it, and a product occurs there once if it is a stored active match and otherwise not at all. |
| ProductsService.EachMatchOnce | backend/src/products/products.service.ts:37-54 | A product occurs among the ordered matches once if it is a stored active match, and otherwise not at all, in either direction. |
| ProductsService.FindOne | backend/src/products/products.service.ts:67-75 | NotFound (404) exactly when the id is absent. Otherwise the stored row, active or not. |
| ProductsService.Save | backend/src/entities/product.entity.ts:20-40 | A save succeeds exactly when the name fits varchar(255), the price fits decimal(10,2) and the stock fits the 32-bit integer column. A failed save changes nothing. |
| ProductsService.Create | backend/src/products/products.service.ts:20-23 | An explicit null stock is inserted as NULL and refused by the NOT NULL column (500), changing nothing. Otherwise the new row gets a fresh id, the DTO's values, stock 0 when absent, `isActive` true and the creation time. Other rows are untouched and no file is deleted. Column overflow fails and changes nothing. |
| ProductsService.FileToRelease | backend/src/products/products.service.ts:80-84 | A file is released exactly when the stored URL is non-empty and its last segment is non-empty. That file is the last '/'-segment of the URL. |
| ProductsService.ReleasesUploadedFile | backend/src/products/products.service.ts:81 | The URL `getFileUrl` builds for a name releases exactly that name. |
| ProductsService.TrailingSlashReleasesNothing | backend/src/products/products.service.ts:113-118 | A URL ending in '/' releases no file. |
| ProductsService.Release | backend/src/products/products.service.ts:94-99 | Releasing appends the released file, if any, to the deletion log and changes nothing else. |
| ProductsService.Apply | backend/src/products/products.service.ts:87 | Each field present in the patch is overwritten, and each absent field, the id, `isActive` and `createdAt` are kept. |
| ProductsService.ApplyLaws | backend/src/products/products.service.ts:87 | The empty patch is the identity, and applying a patch twice equals applying it once. |
| ProductsService.ApplyComposes | backend/src/products/products.service.ts:87 | Two patches in a row equal one patch that takes each field from the later patch when present. |
| ProductsService.Update | backend/src/products/products.service.ts:77-89 | NotFound for an absent id, with nothing changed. Otherwise the old file is released only if the patch brings a non-empty image URL. Then the patched row is saved, or a column overflow leaves the rows unchanged. |
| ProductsService.UpdateDeletesOnlyReplacedImage | backend/src/products/products.service.ts:80-85 | `update` deletes a file exactly when both the patch's and the stored image URL are non-empty and the stored one has a last segment. The file deleted is that last segment. |
| ProductsService.UpdateWithSameImageDeletesIt | backend/src/products/products.service.ts:80-88 | Patching with the image URL already stored deletes that file, while the row keeps pointing at it. |
| ProductsService.Remove | backend/src/products/products.service.ts:91-102 | NotFound for an absent id. Otherwise the old image's file is released, the row is gone and every other row is unchanged. |
| ProductsService.SoftRemove | backend/src/products/products.service.ts:104-108 | NotFound for an absent id. Otherwise only `isActive` changes, to false; the row stays and no file is deleted. |
| ProductsService.UpdateImage | backend/src/products/products.service.ts:110-122 | NotFound for an absent id. Otherwise the old file is released whenever there is one, even when it is the new URL, and the new URL is set. |
| ProductsService.NextImageReleasesPrevious | backend/src/products/products.service.ts:110-122 | The file one `updateImage` sets is exactly the file the next `updateImage` deletes. |
| ProductsService.RemovedIsGoneSoftRemovedIsFound | backend/src/products/products.service.ts:91-108 | After `remove`, `findOne` is NotFound. After `softRemove`, `findOne` still returns the row, now inactive. |
| ProductsService.SoftRemovedIsNotListed | backend/src/products/products.service.ts:37 | A soft-removed product never appears in a listing. |
| ProductsService.CreatedIsListedInItsCategory | backend/src/products/products.service.ts:45-47 | A created product occurs exactly once in the ordered listing of its category. |
| ProductsService.SelectorNamePassesDtoButNotColumn | backend/src/entities/product.entity.ts:20-21 | A name of 255 letters and one U+FE0F passes the DTO's 255 limit and is then refused by the varchar(255) column. |
| ProductsService.ReplacedImageFileIsDeleted | backend/src/products/products.service.ts:110-122 | Replaying on the upload directory the names `updateImage` hands to `deleteFile` removes exactly the file the product pointed at. |
| Upload.DefaultLimitIsFiveMebibytes | backend/src/upload/upload.module.ts:48-50 | Without configuration, the size limit is 5·1024·1024 bytes. |
| Upload.GetFileUrl | backend/src/upload/upload.service.ts:21-23 | The URL is `/uploads/` followed by the name, whatever the upload directory. |
| Upload.FileUrlRoundTrip | backend/src/upload/upload.service.ts:21-23 | For a name without '/', the last segment of its URL is the name. |
| Upload.Unlink | backend/src/upload/upload.service.ts:15 | Unlinking fails exactly when the file is missing, with the missing-file error. Otherwise it removes exactly that path. |
| Upload.DeleteFile | backend/src/upload/upload.service.ts:10-19 | Deleting never fails. The result is the directory without `uploadDir/filename`, and nothing else is removed. |
| Upload.DeleteAll | backend/src/upload/upload.service.ts:10-19 | Deleting a sequence of names removes exactly the paths of those names from the directory. |
| Upload.StripTrailingSlashes | backend/src/upload/upload.module.ts:35 | The result is a prefix of the input and does not end in '/'. |
| Upload.Extname | backend/src/upload/upload.module.ts:35 | The extension is empty, or it is a '.' followed by text with no '.' and no '/'. |
| Upload.ExtOfBase | backend/src/upload/upload.module.ts:35 | The extension of a path segment has that shape and is a suffix of the segment. |
| Upload.HexDigit | backend/src/upload/upload.module.ts:33 | A value below 16 gives one hexadecimal digit. |
| Upload.HexOf | backend/src/upload/upload.module.ts:33 | `n.toString(16)` for 0..16 is hexadecimal, two characters for 16 and one otherwise. |
| Upload.RandomNameAsWritten | backend/src/upload/upload.module.ts:31-34 | The name as written is hexadecimal, between one and two characters per draw. |
| Upload.AsWrittenNameCanDoubleInLength | backend/src/upload/upload.module.ts:31-34 | Draws that all round to 16 give a name twice the number of draws long. |
| Upload.RandomName | backend/src/upload/upload.module.ts:31-34 | The corrected name has exactly one hexadecimal digit per draw. |
| Upload.RandomNameAgreesBelowSixteen | backend/src/upload/upload.module.ts:31-34 | When no draw is 16, the name as written equals the corrected name. |
| Upload.RandomNameIsPlain | backend/src/upload/upload.module.ts:31-35 | A random name has 32 characters, none of them '.' or '/'. |
| Upload.StoredName | backend/src/upload/upload.module.ts:35 | The stored name ends with the original file's extension. |
| Upload.ExtOfBaseAfterPlainPrefix | backend/src/upload/upload.module.ts:35 | A non-empty prefix without '.' or '/' leaves the extension unchanged. |
| Upload.StoredNameKeepsExtension | backend/src/upload/upload.module.ts:35 | The stored name has the same extension as the original and contains no '/'. |
| Upload.FileFilter | backend/src/upload/upload.module.ts:38-47 | A file is accepted exactly when the mimetype as sent and the lower-cased extension both contain `jpeg`, `jpg`, `png` or `webp`. A refusal passes an error and `false`. |
| Upload.ExtOfBaseAfterStem | backend/src/upload/upload.module.ts:35 | A non-empty stem without '/' followed by an extension of at least one character after the dot has that extension. |
| Upload.ImageExtensionAllowed | backend/src/upload/upload.module.ts:39-41 | `.jpeg`, `.jpg`, `.png` and `.webp` are lower case and pass the extension test. |
| Upload.ImageNamesAccepted | backend/src/upload/upload.module.ts:38-47 | Every file whose mimetype passes the test and whose name is any stem without '/' followed by one of those four extensions is accepted. |
| Upload.Receive | backend/src/upload/upload.module.ts:26-50 | An upload succeeds exactly when the filter accepts it and it is within the size limit. It is then stored under 32 characters plus the original extension, with the size kept, and its URL's last segment is its name. |
| Upload.UnanchoredExtensionAccepted | backend/src/upload/upload.module.ts:39-41 | The extension `.apngx` is accepted, because the test is an unanchored substring search. |
| Upload.UpperCaseMimetypeRefused | backend/src/upload/upload.module.ts:39-40 | The mimetype `IMAGE/PNG` is refused, because the mimetype is not lower-cased. |
| FrontendApi.ApiUrl | frontend/lib/api.ts:3 | An unset or empty variable gives the default URL; otherwise the variable's value is used. |
| FrontendApi.BaseUrlAsWritten | frontend/lib/api.ts:4 | A URL without `/api` is kept as it is. |
| FrontendApi.BaseUrl | frontend/lib/api.ts:4 | The corrected base URL strips exactly a trailing `/api`. |
| FrontendApi.BaseUrlOfApiUrl | frontend/lib/api.ts:4 | The corrected base URL of `origin + "/api"` is the origin, for every origin. |
| FrontendApi.BaseUrlAgreesOnPlainOrigin | frontend/lib/api.ts:3-4 | When the first `/api` is the suffix, both readings give the origin. |
| FrontendApi.DefaultBaseUrl | frontend/lib/api.ts:3-4 | The default API URL gives `http://localhost:3001` under both readings. |
| FrontendApi.ApiHostIsMangled | frontend/lib/api.ts:4 | `https://api.hortti.com/api` gives `https:/.hortti.com/api` as written, and `https://api.hortti.com` corrected. |
| FrontendApi.ApiHostAsWritten | frontend/lib/api.ts:4 | As written, `https://api.hortti.com/api` gives `https:/.hortti.com/api`. |
| FrontendApi.ApiHostCorrected | frontend/lib/api.ts:4 | Corrected, `https://api.hortti.com/api` gives `https://api.hortti.com`. |
| FrontendApi.GetImageUrl | frontend/lib/api.ts:13-19 | A missing or empty URL gives null. An `http://`/`https://` URL is returned unchanged. Any other URL is prefixed with the base. |
| FrontendApi.UploadedImageUrl | frontend/lib/api.ts:13-19 | Under the corrected base URL (`BaseUrl`, see Findings), a stored upload's URL loads from `origin/uploads/<name>`. |
| FrontendApi.GetImageUrlIdempotent | frontend/lib/api.ts:13-19 | With an absolute base, resolving an already resolved URL changes nothing. |
| AuthService.FirstWithEmail | backend/src/auth/auth.service.ts:28 | A row is found exactly when some scanned row has the e-mail, and the row found has it. |
| AuthService.FindByEmail | backend/src/auth/auth.service.ts:97-99 | The stored user with the e-mail, or none exactly when no user has it. |
| AuthService.FindByEmailUnique | backend/src/auth/auth.service.ts:97-99 | With unique e-mails, the lookup finds the one user with that e-mail. |
| AuthService.FindById | backend/src/auth/auth.service.ts:86-92 | NotFound (404) exactly when the id is absent. Otherwise the stored user with that id. |
| AuthService.Payload | backend/src/auth/auth.service.ts:104-112 | The payload is `{ sub: id, email, role }` of the user. |
| AuthService.VerifyToken | backend/src/auth/auth.service.ts:117-123 | Any verification failure becomes one Unauthorized (401). Otherwise the decoded claims are returned unchanged. |
| AuthService.TokenRoundTrip | backend/src/auth/auth.service.ts:104-123 | With a sound signer, a token generated at any time verifies to its user's payload. |
| AuthService.RoleOrDefault | backend/src/auth/auth.service.ts:38 | An absent or empty role becomes `user`; any other role is kept. |
| AuthService.Register | backend/src/auth/auth.service.ts:24-47 | Conflict exactly when the e-mail is taken, and then the store is unchanged. Otherwise a new active user is stored under a fresh id with the hashed password and the role or its default. Other users are untouched, e-mails stay unique, and the token signs `{ sub, email, role }` at the current time. |
| AuthService.ValidateUser | backend/src/auth/auth.service.ts:52-65 | None exactly when the e-mail is unknown, the user is inactive or the password does not check. Otherwise the stored user. |
| AuthService.Login | backend/src/auth/auth.service.ts:70-81 | Every validation failure gives the same Unauthorized (401). Success returns the stored user and a token signed from that user's payload at the time of the login. |
| AuthService.RegisterThenLogin | backend/src/auth/auth.service.ts:24-81 | With a sound hasher, the credentials just registered log in, at any later time, as the new user with a token signed then. With a sound signer, that token verifies to the same claims as the one `register` returned. |
| AuthService.WrongPasswordRefused | backend/src/auth/auth.service.ts:52-65 | With an exact hasher, any other password is refused for a registered user. |
| AuthService.RegisterTwiceConflicts | backend/src/auth/auth.service.ts:28-31 | Registering the same e-mail again is Conflict and changes nothing. |
| JwtGuard.Authenticate | backend/src/products/products.controller.ts:36 | A request passes exactly when it carries a bearer token that verifies, and it then carries the decoded claims. Otherwise it gets 401. |
| JwtGuard.IssuedTokenPasses | backend/src/auth/auth.controller.ts:49 | A token the service issued passes the guard with its user's payload. |
| ProductsController.Respond | backend/src/products/products.controller.ts:41-44 | A service success becomes `{ message, product }`. Errors and the state pass through. |
| ProductsController.Route | backend/src/products/products.controller.ts:35-102 | With the corrected direction on `findAll` (see Findings): every route keeps the tables consistent, and the public routes change nothing. |
| ProductsController.RouteCreate | backend/src/products/products.controller.ts:35-45 | `create` keeps the table consistent and answers `{ message, product }` with the creation message. |
| ProductsController.RouteFindAll | backend/src/products/products.controller.ts:47-51 | `findAll` changes nothing and answers `{ data, meta }`. |
| ProductsController.RouteFindOne | backend/src/products/products.controller.ts:53-61 | `findOne` changes nothing, and answers `{ product }` with the stored row exactly when the id is present. |
| ProductsController.RouteRemove | backend/src/products/products.controller.ts:77-82 | `remove` succeeds with no content exactly when the id is present, and keeps the table consistent. |
| ProductsController.RouteUpdateImage | backend/src/products/products.controller.ts:84-102 | `updateImage` keeps the table consistent and answers `{ message, product }` with the image message. |
| ProductsController.RoutesUpdateImage | backend/src/products/products.controller.ts:84-102 | An image-update request is handled by the `updateImage` route. |
| ProductsController.Handle | backend/src/products/products.controller.ts:35-102 | With the corrected direction on `findAll` (see Findings): a protected route without a verifying token is 401 and changes nothing. Public routes change nothing. Each route answers its own shape: `{ message, product }` with its message, `{ product }`, `{ data, meta }`, or no content. |
| ProductsController.PublicRoutesIgnoreBearer | backend/src/products/products.controller.ts:47-55 | `findAll` and `findOne` answer the same whatever token comes with them. |
| ProductsController.UpdateImageNeedsFile | backend/src/products/products.controller.ts:91-93 | An image update without a file fails before the service runs: no row changes and no file is deleted. |
| ProductsController.AcceptedUploadReachesService | backend/src/products/products.controller.ts:95-96 | An accepted upload reaches `updateImage` with `getFileUrl` of the stored name. |
| ProductsController.UploadSetsImageUrl | backend/src/products/products.controller.ts:95-101 | An accepted upload for a stored product succeeds and points that product, and only it, at the stored file's URL. |
| ProductsController.UploadReleasesStoredImage | backend/src/products/products.controller.ts:84-102 | An accepted upload for a product whose image is a stored upload deletes exactly that older file. |
| AuthController.Welcomed | backend/src/auth/auth.controller.ts:28-32 | A service session becomes `{ message, user, token }` with the service's user and token. Errors pass through. |
| AuthController.Handle | backend/src/auth/auth.controller.ts:23-65 | Only `register` changes the users. `me` and `verify` without a verifying token are 401. A bad registration body is 400 and changes nothing. `login` fails exactly when credential validation fails. `verify` answers `valid: true` with the token's claims. `me` answers the stored user whose id is the token's `sub`. |
| AuthController.RegisteredTokenOpensProfile | backend/src/auth/auth.controller.ts:48-56 | The token `register` returns opens `me` on the user just registered. |
| AuthController.LoginTokenOpensProfile | backend/src/auth/auth.controller.ts:48-56 | The token `login` returns opens `me` on the user who logged in. |
| AuthController.RegisteredCredentialsLogIn | backend/src/auth/auth.controller.ts:35-46 | The registered credentials log in through the controller at any later time, answering with the registered user and a token signed at that time. |
| AuthController.VerifyDoesNotConsultUsers | backend/src/auth/auth.controller.ts:58-65 | A verifying token whose user has no row gets `valid: true` on `verify` but 404 on `me`. |
| AuthController.GuardedRoutesIgnoreDirectory | backend/src/auth/auth.controller.ts:48-60 | Without a verifying token, `me` and `verify` answer 401 whatever the users table holds. |

## Left out

- The user entity, its `@BeforeInsert` bcrypt hook and `validatePassword`, are not part of this model. Hashing is the `Hasher` parameter.
- The password-excluding serializer behind `ClassSerializerInterceptor` is not modelled, for the same reason.
- `LocalAuthGuard`/`LocalStrategy` and `JwtStrategy` are not part of this model.
  - `login` is modelled as the service's `login`, which repeats the strategy's `validateUser` check.
  - `req.user` on `verify` is taken to be the decoded payload.
- `LoginDto` is not part of this model. The login route takes the e-mail and password as given.
- `UpdateProductDto` is not part of this model. `update` takes a typed `Patch` in which each field is absent or present.
- `ParseIntPipe` on route ids, and the conversion of query strings to numbers, are left out. Requests carry integers.
- `findAll` requires page ≥ 1 and limit ≥ 1 (`PagingOk`, `PagingDefined`). The DTO lets any number through, and the source's skip/take has no meaning outside that range.
- SQL `ILIKE` is read as a case-insensitive substring test with ASCII lower-casing. Unicode case folding and the database collation are left out, and names sort by code point.
- The order of rows with equal sort keys is unspecified in the source. The model sorts stably over id order, and no contract states the order of tied rows.
- ProductsService.EveryMatchListedOnce: requires that no two matching rows tie on the sort column. With ties, each page's query may order the tied rows differently, and the source promises nothing about rows crossing page boundaries.
- Prices are integer cents and JSON numbers are exact decimals. Floating-point representation is left out.
- `updatedAt` is maintained by the database and is not part of the row.
- The serial sequence is modelled as a counter that only grows. Gaps after a failed insert are not modelled.
- Files on disk are not modelled. The product service's side effects are the deletion log, and `DeleteFile` acts on a set of paths.
- `path.join` normalisation is not modelled; a path is `dir + "/" + name`.
- The absolute-path resolution of `UPLOAD_DEST` is not modelled, nor is the creation of the upload directory (`ensureUploadDir`, `onModuleInit`).
- The `destination` callback and multer's streaming are not modelled.
- `upload.controller.ts`, static file serving, bootstrap and configuration loading are left out.
- The frontend's axios instance and its interceptors (localStorage, redirects) are left out. Only `API_URL`, `BASE_URL` and `getImageUrl` are modelled.
- `Math.random` is the `draws` argument of `Receive`. The model uses the corrected one-digit-per-draw name (see Findings).
- Concurrent requests and races between them are not modelled.
- A `Field` is a body property after the validation pipe's class-transformer step. The conversions of `transform` and `enableImplicitConversion` (backend/src/main.ts:14-16) and the `@Type(() => Number)` decorators are not modelled: a price sent as the string `"3.50"` reaches the validators as the number it converts to, and the model starts from there.
- ProductDtos.CreateViolations: checks the converted values only. The string-to-number conversion before `@IsNumber`/`@IsInt`, and `forbidNonWhitelisted` (backend/src/main.ts:12-13), which refuses a body with a property outside the DTO, are not modelled.
- RegisterDto.RegisterViolations: checks the converted values only, as for `CreateViolations`; `forbidNonWhitelisted` is not modelled.
- Strings are sequences of Unicode code points. A JSON string holding a lone surrogate cannot be represented.
- Listing.List: sorts by the corrected direction, `ParseDirection`. As written, `asc` and `desc` make the query builder throw (500); that behaviour is `Listing.OrderByAsWritten` (see Findings).
- ProductsService.FindAll: returns `Listing.List`, so it uses the corrected direction as well.
- ProductsController.Route: `findAll` uses the corrected direction, as `Listing.List` does.
- ProductsController.Handle: `findAll` uses the corrected direction, as `Listing.List` does.
- FrontendApi.UploadedImageUrl: stated for the corrected `BaseUrl`. As written, `BASE_URL` is mangled for a host starting with `api.` (`FrontendApi.ApiHostAsWritten`).
- The JWT `exp` claim is not modelled: `verify` does not depend on the clock, so tokens never expire in the model. The `iat` claim is the time argument of `sign`.
- ProductsService.FindAll: its own contract does not restate `meta`. The exact `meta` values are stated by `Listing.List`, which `FindAll` returns.
- Like.Escape: its own contract states only that escaping never shortens the text. Its meaning is stated by `Like.EscapedPrefix` and `Like.EscapedContains`.

## Findings

| source | as written | input that shows it | evidently intended | confidence | as-written member | corrected member |
|---|---|---|---|---|---|---|
| backend/src/products/products.service.ts:39-43 | The search text goes unescaped into `ILIKE '%search%'`, so `%`, `_` and `\` in a search act as pattern syntax. | search `%`: every product is listed, although no name contains '%' | The search is a case-insensitive substring test on the name, with the text escaped. | not executed; high | Like.PercentSearchMatchesEverything | Like.EscapedSearchIsSubstring |
| backend/src/products/products.service.ts:49 | `order` goes to `orderBy` unchanged. The query DTO admits `asc` and `desc`, which TypeORM's `orderBy` refuses with an error. | `GET /products?order=asc` | Every spelling the DTO admits sorts in that direction. | not executed; medium: the refusal is library behaviour outside this repository | Listing.LowercaseOrderRefused | Listing.ParseDirectionExtendsOrderBy |
| frontend/lib/api.ts:4 | `API_URL.replace('/api', '')` removes the first `/api`, wherever it is. | `NEXT_PUBLIC_API_URL=https://api.hortti.com/api` gives `https:/.hortti.com/api` | Strip the trailing `/api` to get the origin. | not executed; high | FrontendApi.ApiHostIsMangled | FrontendApi.BaseUrlOfApiUrl |
| backend/src/upload/upload.module.ts:31-34 | `Math.round(Math.random() * 16)` can give 16, which prints as `10`. Names therefore range from 32 to 64 characters, and the digit distribution is skewed. | draws all rounding to 16 give a 64-character name | 32 hexadecimal digits, `Math.floor(Math.random() * 16)` | not executed; high | Upload.AsWrittenNameCanDoubleInLength | Upload.RandomNameAgreesBelowSixteen |

The rest of the model uses the corrected behaviour:

- the listing filter is the substring test (`Listing.NameMatches`);
- the listing parses directions with `Listing.ParseDirection`, so `asc` and `desc` sort instead of failing;
- uploads are named by `Upload.RandomName`;
- the frontend model derives the origin with `FrontendApi.BaseUrl`, which `FrontendApi.UploadedImageUrl` uses.
