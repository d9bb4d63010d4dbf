# GoShop API business rules in Dafny

This project models the business rules of GoShop API (Go module `evermos-api`), a marketplace backend. The model covers:

- Registration and login.
- A user's profile.
- Each user's toko (shop).
- Shipping addresses (alamat).
- Products with their photos.
- Orders (trx), with their product snapshots (log_produk) and detail lines (detail_trx).
- The helpers these rely on: the slug generator, pagination, the invoice code, and the JWT middleware's header and admin checks.

The database is a value `Store.Db` of eight tables. Each table is a map from id to row plus the next auto-increment id (`Tables.Table`). A use case takes the store and returns an outcome together with the new store.

A `db.Transaction` computes a scratch store. It then either commits that store or hands back the old one. Persistence failures are an input: `fault == Some(k)` makes the `k`-th database write of the call fail. Other outside effects are inputs too:

- The clock (`now`, `today`) and the random draw of the invoice code.
- File uploads, each of which either fails or returns a path.
- bcrypt hashing and checking, JWT issuing and validation, and the region-name lookups. These are function-valued parameters.

Go's `strconv.Atoi`/`Itoa` and `time.Parse`/`Format` with the layouts the code uses are modelled concretely (`Strconv`, `Dates`). The rules built on them can therefore be stated exactly: parse-or-zero prices, filters dropped when they do not parse, and birth dates and region ids that round-trip.

The modules follow the repository:

- `Slug`, `Pagination`, `Invoice` and `Middleware` correspond to internal/utils and internal/delivery/middleware.
- `TrxUsecase`, `ProdukUsecase`, `AuthUsecase`, `UserUsecase`, `TokoUsecase` and `AlamatUsecase` correspond to internal/usecase.
- `Store` and `Tables` stand for the models and the GORM repositories.
- `Middleware.Context` is a class, because gin mutates the request context in place; the middleware functions take it as a parameter, as in Go.

## Model

| member | source | states |
|---|---|---|
| Strconv.ItoaAtoiRoundTrip | internal/usecase/auth_usecase.go:155 | `strconv.Atoi` reads back exactly the int64 that `strconv.Itoa` printed |
| Strconv.AtoiOkIff | internal/usecase/auth_usecase.go:77-86 | Atoi succeeds exactly on an optional sign followed by digits whose value fits in int64, and then yields that value |
| Strconv.AtoiMalformedIsZero | internal/utils/pagination.go:34-35 | text that is not a decimal number (and is too short to overflow) parses to 0 with an error |
| Strconv.AtoiFailureValue | internal/usecase/trx_usecase.go:117 | a failed parse yields 0 or an int64 bound, and a successful one lies within int64 |
| Dates.ParseDMY | internal/usecase/auth_usecase.go:69-74 | a date accepted by the "02/01/2006" layout is a real calendar date |
| Dates.FormatDMY | internal/usecase/auth_usecase.go:146-149 | the "02/01/2006" rendering is always 10 characters |
| Dates.ParseFormatDMY | internal/usecase/auth_usecase.go:146-149 | every valid date, once formatted, parses back to itself |
| Dates.FormatParseDMY | internal/usecase/auth_usecase.go:69-74 | every accepted date text is the formatting of the date it parses to |
| Dates.FormatCompact | internal/utils/invoice.go:28 | the "20060102" rendering is 8 digits |
| Slug.GenerateSlugIsSlug | internal/utils/slug.go:33-41 | the slug has only a-z, 0-9 and '-', never two hyphens in a row and no hyphen at either end |
| Slug.GenerateSlugIdempotent | internal/utils/slug.go:25-44 | slugging a slug changes nothing |
| Slug.SlugIsFixedPoint | internal/utils/slug.go:25-44 | a string that already has the slug shape passes every stage unchanged |
| Slug.GenerateSlugEmptyIff | internal/utils/slug.go:33-41 | the slug is empty exactly when the input has no ASCII letter or digit |
| Slug.GenerateSlugExample | internal/utils/slug.go:27-30 | letters are lower-cased and spaces become hyphens: "Baju Muslim" gives "baju-muslim" |
| Slug.ToLower | internal/utils/slug.go:27 | same length, each ASCII capital lower-cased, every other character kept |
| Slug.SpacesToHyphens | internal/utils/slug.go:30 | same length, each space replaced by a hyphen, every other character kept |
| Slug.RemoveSpecialChars | internal/utils/slug.go:33-34 | the regexp stage leaves only slug characters, keeps slug-only input as it is, and keeps any lower-case letter or digit |
| Slug.CollapseNoDouble | internal/utils/slug.go:37-38 | after collapsing, no two hyphens are adjacent |
| Slug.CollapseFixed | internal/utils/slug.go:37-38 | text without adjacent hyphens is left unchanged by collapsing |
| Slug.TrimLeftKeeps | internal/utils/slug.go:41 | trimming leading hyphens yields a suffix that does not start with '-' and keeps any letter or digit |
| Slug.TrimRightKeeps | internal/utils/slug.go:41 | trimming trailing hyphens yields a prefix that does not end with '-' and keeps any letter or digit |
| Slug.CollapsedSlugChars | internal/utils/slug.go:33-38 | after the regexp stage and collapsing, only slug characters remain and no two hyphens are adjacent |
| Slug.TrimLeftSlugChars | internal/utils/slug.go:41 | trimming leading hyphens keeps the text made of slug characters without adjacent hyphens, and it no longer starts with '-' |
| Slug.TrimmedIsSlug | internal/utils/slug.go:41 | trimming hyphens at both ends of slug characters without adjacent hyphens gives the slug shape |
| Slug.AlnumSurvives | internal/utils/slug.go:25-44 | an input with an ASCII letter or digit keeps a lower-case letter or digit in its slug |
| Slug.NoAlnumTrimmedAway | internal/utils/slug.go:25-44 | an input without any ASCII letter or digit gives the empty slug |
| Pagination.GetPaginationParams | internal/utils/pagination.go:33-53 | page >= 1, 1 <= limit <= 100, and the offset is a non-negative multiple of the limit with offset/limit = page - 1 |
| Pagination.Defaults | internal/utils/pagination.go:34-35 | absent parameters give page 1, limit 10, offset 0 |
| Pagination.MalformedClamped | internal/utils/pagination.go:34-42 | unparsable page and limit read as 0 and are clamped to page 1 and limit 10 |
| Pagination.InRangePassesThrough | internal/utils/pagination.go:37-45 | a page below 1 becomes exactly 1 and a page >= 1 passes through; a limit in 1..100 passes through, a larger one becomes 100 and a smaller one becomes 10 |
| Pagination.PageNumberRoundTrip | internal/usecase/produk_usecase.go:99 | `offset/limit + 1` on the computed parameters gives back the requested page |
| Pagination.PageHoldsOffset | internal/usecase/toko_usecase.go:88 | for a positive limit and non-negative offset, the reported page is the one containing row `offset` |
| Invoice.GenerateInvoiceCode | internal/utils/invoice.go:26-31 | the code is always 17 characters |
| Invoice.InvoiceHasShape | internal/utils/invoice.go:30 | the code matches `INV-` + 8 digits + `-` + 4 digits |
| Invoice.InvoiceRoundTrip | internal/utils/invoice.go:28-30 | the date (yyyymmdd) and the zero-padded draw can both be read back out of the code |
| Invoice.RandomPartBelowBound | internal/utils/invoice.go:29 | the 4-digit part lies in 0..9998, since `Intn(9999)` excludes 9999 |
| Middleware.SplitSpace | internal/delivery/middleware/auth.go:42 | `strings.Split` on " " always yields at least one piece |
| Middleware.SplitJoin | internal/delivery/middleware/auth.go:42 | the pieces contain no space, and joining them with single spaces restores the header |
| Middleware.CheckHeaderIff | internal/delivery/middleware/auth.go:42-52 | a header passes exactly when it is "Bearer", one space and a space-free token, and that token is the one validated |
| Middleware.WrongSchemeRejected | internal/delivery/middleware/auth.go:43 | any scheme other than exactly "Bearer" (e.g. "bearer") fails the format check |
| Middleware.DoubleSpaceRejected | internal/delivery/middleware/auth.go:42-43 | "Bearer  x" splits into three pieces and is rejected |
| Middleware.EmptyTokenPasses | internal/delivery/middleware/auth.go:52-55 | "Bearer " passes the format check with an empty token |
| Middleware.AuthDecision | internal/delivery/middleware/auth.go:31-63 | every rejection is a 401 "Failed to GET data" |
| Middleware.AuthAdmitsIff | internal/delivery/middleware/auth.go:31-68 | a request is admitted exactly when the header is well formed and its token validates, and then the token's claims are stored |
| Middleware.AdminDecision | internal/delivery/middleware/auth.go:77-101 | the request continues only when the flag is true, gets 401 when the flag is missing, and gets 403 when it is false |
| Middleware.AdminAfterAuth | internal/delivery/middleware/auth.go:66-101 | behind AuthMiddleware, the admin gate lets through exactly the tokens that claim admin |
| Middleware.AuthMiddleware | internal/delivery/middleware/auth.go:29-72 | a rejected request is aborted with the decision's 401 reply and its keys untouched; an admitted one gets userID, email and isAdmin and its abort state is left as it was |
| Middleware.AdminMiddleware | internal/delivery/middleware/auth.go:75-103 | the stored keys are unchanged; the request is aborted with 401 or 403 as AdminDecision says, or left as it was |
| Middleware.GetUserID | internal/delivery/middleware/auth.go:106-112 | 0 when no user id was stored, otherwise the stored id |
| Middleware.GetIsAdmin | internal/delivery/middleware/auth.go:115-121 | true exactly when the stored flag is true, and false when it is absent |
| Tables.Empty | internal/config/database.go:93 | a fresh table is well formed and empty |
| Tables.GetPut | internal/repository/toko_repository.go:48-55 | after `Save`, `First(&row, id)` finds the saved row under its id and every other id finds what it found before |
| Tables.GetInsert | internal/repository/toko_repository.go:44-55 | the id `Create` assigns was free, `First` then finds the new row under it, and every other id is read as before |
| Tables.GetRemove | internal/repository/toko_repository.go:48-55 | after `Delete` by id, `First` finds nothing under that id and every other id is read as before |
| Tables.InsertFresh | internal/repository/user_repository.go:44-46 | `Create` stores the row under a fresh id and keeps every other row |
| Tables.PutKeeps | internal/repository/user_repository.go:75-77 | `Save` of a stored row overwrites that row only |
| Tables.InsertAllRows | internal/usecase/trx_usecase.go:152-193 | rows created in one go get consecutive fresh ids in order, and older rows are kept |
| Tables.Remove | internal/repository/user_repository.go:79-80 | `Delete` by id removes exactly that row |
| Tables.WhereInsert | internal/repository/alamat_repository.go:56-60 | a created row joins a `Where(cond).Find` result exactly when it meets the condition, and nothing else in the result changes |
| Tables.WhereRemove | internal/repository/alamat_repository.go:56-60 | a deleted row leaves every `Where(cond).Find` result, and the rest of the result stays |
| Tables.RemoveWhere | internal/usecase/produk_usecase.go:287 | `Where(cond).Delete` removes exactly the rows meeting the condition |
| Tables.FirstWhere | internal/repository/toko_repository.go:57-64 | `Where(cond).First` gives the lowest id whose row meets the condition, and "not found" exactly when none does |
| Store.FindAfterPut | internal/repository/produk_repository.go:48-56 | after `Save`, the product lookup finds the saved row exactly when it has no `deleted_at` (stamping it hides the row), and every other id is looked up as before |
| TrxUsecase.CheckLine | internal/usecase/trx_usecase.go:100-114 | a line passes exactly when its product is found (not deleted) and stock >= quantity; it yields the product as loaded |
| TrxUsecase.CheckLineErrors | internal/usecase/trx_usecase.go:101-114 | a missing product gives "product not found: <id>" and short stock gives "insufficient stock for product: <name>"; quantity == stock passes |
| TrxUsecase.DeletedCheckUnreachable | internal/usecase/trx_usecase.go:107-109 | the "no longer available" error can never occur, since the lookup already hides deleted products |
| TrxUsecase.ValidateLinesOk | internal/usecase/trx_usecase.go:100-128 | validation succeeds exactly when every line passes, and then yields the lines in request order |
| TrxUsecase.ValidateLinesFirstError | internal/usecase/trx_usecase.go:100-114 | a failed validation reports the error of the first failing line, and every earlier line passed |
| TrxUsecase.FailedPrefixDecides | internal/usecase/trx_usecase.go:100-114 | once a prefix of the lines fails, the whole request fails with the same error |
| TrxUsecase.ValidateOrder | internal/usecase/trx_usecase.go:94-128 | the validation loop yields the validated lines, and `totalHarga` is the sum of the parse-or-zero price times quantity |
| TrxUsecase.LastIndex | internal/usecase/trx_usecase.go:152-192 | the position of the last line for a product, or -1 when none orders it |
| TrxUsecase.RestockRows | internal/usecase/trx_usecase.go:189-192 | after the saves, each product holds the quantity of its last line taken off its loaded stock, and other products are untouched |
| TrxUsecase.CheckAlamat | internal/usecase/trx_usecase.go:85-91 | the address check passes exactly for an existing address that the caller owns |
| TrxUsecase.CreateTrx | internal/usecase/trx_usecase.go:83-197 | address errors first, then the first failing line; a failing write leaves the store unchanged; otherwise the store is the header plus per-line snapshot, detail row and stock save |
| TrxUsecase.CommitStep | internal/usecase/trx_usecase.go:152-193 | one more line adds its snapshot, its detail row and its product save |
| TrxUsecase.Commit | internal/usecase/trx_usecase.go:145-196 | the transaction loop commits all the rows, or on any failing write returns the old store |
| TrxUsecase.SaveLine | internal/usecase/trx_usecase.go:154-192 | one line adds its snapshot under the next log id, a detail row pointing at the trx and that snapshot, and its product saved with the quantity taken off |
| TrxUsecase.SaveLines | internal/usecase/trx_usecase.go:152-193 | the per-line loop fails exactly when one of its 3n writes fails, and otherwise leaves all snapshots, all detail rows and the restocked products |
| TrxUsecase.SaveFromAll | internal/usecase/trx_usecase.go:152-193 | saving the remaining lines one at a time reaches the same tables as adding all snapshots and detail rows and restocking at once |
| TrxUsecase.RestockKeepsRows | internal/usecase/trx_usecase.go:188-192 | the stock saves only overwrite products that exist, so the product table stays well formed with the same ids |
| TrxUsecase.SumHargaOfSeq | internal/usecase/trx_usecase.go:175-183 | summing stored detail rows by id is summing the sequence they were created from |
| TrxUsecase.SumHargaInsertAll | internal/usecase/trx_usecase.go:175-186 | the detail rows created in one go are found under consecutive ids, and their sum is the sum of the sequence |
| TrxUsecase.SumDetailRows | internal/usecase/trx_usecase.go:171-172 | the detail rows are priced like the validation loop prices the lines |
| TrxUsecase.DetailRowsSum | internal/usecase/trx_usecase.go:171-186 | the detail rows an order creates sum to the order total |
| TrxUsecase.HeaderTotalIsSumOfDetails | internal/usecase/trx_usecase.go:117-137 | the header's `harga_total` equals the sum of its detail rows' `harga_total` |
| TrxUsecase.LineRowsAt | internal/usecase/trx_usecase.go:154-183 | line k's snapshot and detail row are stored at their expected ids with their expected contents |
| TrxUsecase.RowsOfEachLine | internal/usecase/trx_usecase.go:154-183 | per line: a snapshot copying the product's name, slug, prices, description, toko and category, and a detail row pointing at the trx and that snapshot with the product's toko and the quantity |
| TrxUsecase.StockAfterOrder | internal/usecase/trx_usecase.go:189-192 | each ordered product ends at its loaded stock minus the quantity of its last line, which stays >= 0; unordered products are unchanged |
| TrxUsecase.StockWithDistinctProducts | internal/usecase/trx_usecase.go:189-192 | with distinct product ids, each product loses exactly its line's quantity and stays >= 0 |
| TrxUsecase.PlacedKeepsStore | internal/usecase/trx_usecase.go:145-196 | a committed order keeps the store well formed and leaves users, toko, addresses, photos and all older rows alone |
| TrxUsecase.OversellExample | internal/usecase/trx_usecase.go:112-114 | as written: stock 5 ordered as 3 then 4 passes validation, and the stored stock ends at 1 |
| TrxUsecase.ReserveStockRows | internal/usecase/trx_usecase.go:112-114 | the running-stock check takes each product's total ordered quantity off its stock, and no stock goes negative |
| TrxUsecase.ReserveRejectsOversell | internal/usecase/trx_usecase.go:112-114 | the running-stock check rejects the example with "insufficient stock for product: Kopi" |
| TrxUsecase.GetTrxByID | internal/usecase/trx_usecase.go:69-81 | "`No Data Trx`" for an unknown id, "unauthorized: not your transaction" for another user's trx, and otherwise the stored trx with exactly its stored detail rows, each as stored |
| TrxUsecase.PlacedOrderReadable | internal/usecase/trx_usecase.go:69-81 | the buyer reads back the order just placed: its header, and as details exactly the rows the order wrote, row k under the k-th new detail id; any other user is refused; every detail row still points at a stored order |
| TrxUsecase.DetailsOfNewTrx | internal/usecase/trx_usecase.go:170-186 | the detail rows created for a new order are exactly the rows found under that order's id, at consecutive ids in line order |
| TrxUsecase.NewDetailsReferenceTrx | internal/usecase/trx_usecase.go:145-186 | creating an order and then its detail rows keeps every detail row pointing at a stored order, as the `id_trx` foreign key requires |
| TrxUsecase.ReadNewTrx | internal/usecase/trx_usecase.go:69-81 | a just-created order reads back to its owner with its header and the rows created with it, and is refused to anyone else |
| ProdukUsecase.KeepNumber | internal/usecase/produk_usecase.go:72-76 | a numeric filter is copied, as its number, exactly when Atoi accepts it |
| ProdukUsecase.ParseProdukFilters | internal/usecase/produk_usecase.go:67-91 | `nama_produk` is passed through verbatim; the four numeric filters are kept exactly when they parse; nothing else enters the map |
| ProdukUsecase.MalformedFilterDropped | internal/usecase/produk_usecase.go:72-91 | a filter that is not a decimal number (e.g. "12a" or "") never reaches the repository |
| ProdukUsecase.GetAllProduk | internal/usecase/produk_usecase.go:98-102 | the rows and limit are passed on, and the page reported is the one containing `offset` |
| ProdukUsecase.GetAllProdukReportsRequestedPage | internal/usecase/produk_usecase.go:99 | with GetPaginationParams' output, the page reported is the page requested |
| ProdukUsecase.GetProdukByID | internal/usecase/produk_usecase.go:105-111 | a product that is missing or soft-deleted gives "No Data Product"; otherwise the stored row |
| ProdukUsecase.PhotoFailureNone | internal/usecase/produk_usecase.go:143-161 | the photo loop goes through exactly when every upload succeeds and no photo write fails; an upload error is reported as such |
| ProdukUsecase.PhotoFailurePrefix | internal/usecase/produk_usecase.go:144-160 | once an early file fails, the loop fails with that error |
| ProdukUsecase.SavePhotos | internal/usecase/produk_usecase.go:144-161 | the loop reports the first failure, or creates one photo row per file in order |
| ProdukUsecase.PhotosPointAt | internal/usecase/produk_usecase.go:151-157 | each created photo points at the product and keeps its upload's path |
| ProdukUsecase.CreateProduk | internal/usecase/produk_usecase.go:113-166 | "you don't have a toko" when the user owns none; otherwise the product (write 0) and its photos are committed together or not at all |
| ProdukUsecase.CreatedProduk | internal/usecase/produk_usecase.go:115-134 | the new product is visible, sits in the owner's toko, has the slug of its name (a valid slug), and older products are kept |
| ProdukUsecase.ProdukOwnership | internal/usecase/produk_usecase.go:169-181 | the check passes exactly for a visible product whose toko exists and belongs to the caller; a missing product gives the caller's message |
| ProdukUsecase.ProdukOwnershipErrors | internal/usecase/produk_usecase.go:174-181 | then "toko not found", then "unauthorized: not your product", in that order |
| ProdukUsecase.MergeFrame | internal/usecase/produk_usecase.go:184-205 | empty strings and non-positive numbers leave a field unchanged; a new name also re-slugs; toko, creation and deletion times never change |
| ProdukUsecase.MergeCannotClearStock | internal/usecase/produk_usecase.go:194-202 | stock and category can only be set to positive values, so a stock of 0 in the request keeps the old stock |
| ProdukUsecase.MergeKeepsSlug | internal/usecase/produk_usecase.go:184-187 | a product whose slug is its name's slug keeps that property across updates |
| ProdukUsecase.MergeIdempotent | internal/usecase/produk_usecase.go:184-205 | applying the same update twice is applying it once |
| ProdukUsecase.UpdateProduk | internal/usecase/produk_usecase.go:168-251 | ownership errors leave the store unchanged; otherwise the merged product is saved, new files replace all old photos of the product, and any failure rolls back |
| ProdukUsecase.UpdatedPhotos | internal/usecase/produk_usecase.go:214-246 | after an update with files, only photos of other products and the new ones remain |
| ProdukUsecase.DeleteProduk | internal/usecase/produk_usecase.go:253-304 | a product referenced by a snapshot is only stamped `deleted_at` and kept; otherwise it and its photos are removed; snapshots are never touched |
| ProdukUsecase.SoftDeleteHides | internal/usecase/produk_usecase.go:274-279 | after a soft delete the row is still stored, but GetProdukByID and the ownership check no longer find it |
| ProdukUsecase.HardDeleteRemoves | internal/usecase/produk_usecase.go:282-303 | a hard delete removes the product and exactly its photos, and the store stays well formed |
| AuthUsecase.ParseTanggal | internal/usecase/auth_usecase.go:68-74 | a birth date is kept exactly when it is non-empty and parses, and it then formats back to the text given |
| AuthUsecase.ParseId | internal/usecase/auth_usecase.go:76-86 | a region id is kept exactly when it is a decimal number within int64, with that value |
| AuthUsecase.ParseIdItoa | internal/usecase/auth_usecase.go:155 | an id printed by Itoa parses back to itself |
| AuthUsecase.Register | internal/usecase/auth_usecase.go:51-125 | "email already registered" before "nomor telepon already registered", then the hash error; the user and the toko are created together or not at all |
| AuthUsecase.RegisteredKeepsInvariants | internal/usecase/auth_usecase.go:89-121 | registration keeps emails and phone numbers unique and every user with a toko; the new user is not an admin, stores the hash, and owns a toko named GenerateSlug(nama) |
| AuthUsecase.TanggalText | internal/usecase/auth_usecase.go:146-149 | "" when there is no birth date, otherwise text that parses back to the date |
| AuthUsecase.LoginProvinsi | internal/usecase/auth_usecase.go:154-157 | the province map is empty exactly when there is no province id, and otherwise has exactly the keys `id` (the id as Itoa prints it) and `name`, which is "ACEH" |
| AuthUsecase.LoginKota | internal/usecase/auth_usecase.go:159-163 | the city map is empty exactly when there is no city id; otherwise its keys are `id`, `name` and, exactly when there is a province id, `province_id`, with the printed ids and the name "KABUPATEN SIMEULUE"; it agrees with the as-written map wherever that one exists |
| AuthUsecase.LoginPanicsAfterRegister | internal/usecase/auth_usecase.go:159-161 | a user registered with a city id but no province id cannot be shaped by the as-written Login |
| AuthUsecase.Login | internal/usecase/auth_usecase.go:127-180 | an unknown phone and a wrong password give the same "No Telp atau kata sandi salah"; then a token error; otherwise the shaped profile and the token |
| AuthUsecase.LoginAfterRegister | internal/usecase/auth_usecase.go:51-180 | right after registering, logging in with that phone and password returns the registered name, email and birth date |
| UserUsecase.ProfileProvinsi | internal/usecase/user_usecase.go:58-71 | empty exactly when there is no province id; otherwise exactly the keys `id` and `name`, the id as Itoa prints it, and the looked-up name, or "" when the lookup fails |
| UserUsecase.ProfileKota | internal/usecase/user_usecase.go:73-86 | empty exactly when there is no city id; otherwise exactly the keys `id`, `name` and, exactly when there is a province id, `province_id`: the printed ids and the looked-up city name, or "" when the lookup fails |
| UserUsecase.GetProfile | internal/usecase/user_usecase.go:47-100 | "user not found" exactly for an unknown id; otherwise the stored profile fields, the formatted birth date, and the province and city maps described by ProfileProvinsi and ProfileKota |
| UserUsecase.ProfileMatchesLogin | internal/usecase/user_usecase.go:53-97 | the profile and the login response have the same region map keys and ids; only the names differ |
| UserUsecase.AmendProfile | internal/usecase/user_usecase.go:108-146 | the field-by-field update yields the amended user |
| UserUsecase.UpdateProfile | internal/usecase/user_usecase.go:102-149 | "user not found", then a hash error, leave the store unchanged; otherwise the amended user is saved, unless the write fails or the phone is held by another user |
| UserUsecase.AmendedFrame | internal/usecase/user_usecase.go:108-146 | empty request fields keep the stored values, non-empty ones replace them, the password is stored as its hash, and gender, bio, admin flag and creation time never change |
| UserUsecase.AmendedParsedFields | internal/usecase/user_usecase.go:122-143 | an unparsable date or region id leaves the old value; a parsed date reads back as typed |
| UserUsecase.AmendedIdempotent | internal/usecase/user_usecase.go:108-146 | sending the same update twice stores what sending it once stores |
| UserUsecase.UpdateKeepsPhonesUnique | internal/config/database.go:92-97 | a successful update keeps phone numbers unique and touches no other user |
| UserUsecase.UpdateProfileSharesEmail | internal/usecase/user_usecase.go:131-133 | as written, a user can take another user's email, after which two users share it |
| UserUsecase.UpdateProfileChecked | internal/usecase/user_usecase.go:102-149 | corrected: an email held by another user is refused with "email already registered"; with a free or unchanged email it gives exactly UpdateProfile's outcomes: the hash error, the failing write or phone conflict, or the saved amended user |
| UserUsecase.CheckedUpdateKeepsContactsUnique | internal/usecase/user_usecase.go:131-133 | the corrected update keeps both emails and phone numbers unique |
| TokoUsecase.GetMyToko | internal/usecase/toko_usecase.go:45-57 | "toko not found" exactly when the user owns none; otherwise the lowest-id toko the caller owns, with its owner id |
| TokoUsecase.GetTokoByID | internal/usecase/toko_usecase.go:59-70 | "`Toko tidak ditemukan`" exactly for an unknown id; otherwise the name and photo, with the owner id left zero |
| TokoUsecase.MyTokoByIdAgree | internal/usecase/toko_usecase.go:51-69 | the caller's toko read by id is the same response without the owner id |
| TokoUsecase.GetAllToko | internal/usecase/toko_usecase.go:72-92 | one public view per returned row, in order, and page = offset/limit + 1, which is the page holding `offset` |
| TokoUsecase.ListedTokoReadable | internal/usecase/toko_usecase.go:78-85 | each listed toko reads back the same through GetTokoByID |
| TokoUsecase.UpdateToko | internal/usecase/toko_usecase.go:94-134 | "toko not found", then "unauthorized: not your toko", then an upload error, then a write error, each leaving the store unchanged; otherwise the retouched toko is saved |
| TokoUsecase.RetouchedFrame | internal/usecase/toko_usecase.go:105-131 | the owner and creation time never change; the name changes only for a non-empty name, and the photo only for an uploaded file |
| TokoUsecase.UpdatedTokoStillMine | internal/usecase/toko_usecase.go:94-134 | an update keeps every toko's owner, so GetMyToko still finds the same toko |
| AlamatUsecase.GetMyAlamat | internal/usecase/alamat_usecase.go:44-46 | exactly the addresses the caller owns |
| AlamatUsecase.GetAlamatByID | internal/usecase/alamat_usecase.go:48-60 | "alamat not found", then "unauthorized: not your alamat"; otherwise the stored row |
| AlamatUsecase.ReadableIffMine | internal/usecase/alamat_usecase.go:44-60 | an address can be read by id exactly when it is in the caller's list |
| AlamatUsecase.CreateAlamat | internal/usecase/alamat_usecase.go:62-79 | the new row, owned by the caller, is stored under the next id, which is returned; a failing write changes nothing |
| AlamatUsecase.CreatedAlamatIsMine | internal/usecase/alamat_usecase.go:64-72 | the creator reads the new address back and finds it in their list; anyone else is refused, and other users' lists are unchanged |
| AlamatUsecase.UpdateAlamat | internal/usecase/alamat_usecase.go:81-102 | GetAlamatByID's errors leave the store unchanged; otherwise all four fields are overwritten and saved |
| AlamatUsecase.UpdatedAlamatReadsBack | internal/usecase/alamat_usecase.go:92-101 | the update reads back as the request even for empty fields, keeps the owner, and changes no other address |
| AlamatUsecase.DeleteAlamat | internal/usecase/alamat_usecase.go:104-116 | GetAlamatByID's errors leave the store unchanged; otherwise exactly that row is deleted |
| AlamatUsecase.DeletedAlamatGone | internal/usecase/alamat_usecase.go:104-116 | only the owner can delete; afterwards nobody finds the address, and every other address reads the same |

## Left out

- Go integer width. The model uses unbounded integers, so int64 overflow of `price * quantity`, of `totalHarga`, of stock arithmetic and of `(page - 1) * limit` is not modelled. `strconv.Atoi`'s own int64 range is modelled.
- Unicode. `strings.ToLower` is modelled on ASCII letters only. Any other character is kept by that stage and then removed by the slug's regular expression. So `GenerateSlugEmptyIff`, `AlnumSurvives` and `NoAlnumTrimmedAway` speak of ASCII letters and digits: Go lower-cases a few non-ASCII letters to ASCII ones (the Kelvin sign U+212A to 'k', 'İ' to "i̇"), and for such input the source's slug is not empty while the model's is.
- Collation. Equality lookups (`WHERE email = ?`, `WHERE notelp = ?` in internal/repository/user_repository.go:57-72) and the unique index on `users.notelp` compare strings exactly in the model. The database's column collation is not modelled. MySQL's default utf8mb4 collation ignores case, so there "Budi@Mail.id" is refused as already registered when "budi@mail.id" is stored, while `Register`, `Login`, `PhoneHeldByOther` and `EmailHeldByOther` in the model treat the two as different.
- Persistence. The SQL filters and paging of the `FindAll` queries (`LIKE`, `CAST`, `LIMIT`/`OFFSET`), GORM's `Preload` of relations, GORM's automatic timestamps, and the order of rows in list results are not modelled. The list use cases take the returned rows as an input.
- Read errors from the database. A read that fails for reasons other than "not found" is not modelled, so `DeleteProduk`'s "failed to check product transactions" path does not appear.
- Returned ids. `CreateTrx` and `CreateProduk` read `trx.ID`/`produk.ID` in an order that Go leaves unspecified relative to the transaction, so their returned ids are not modelled. `CreateAlamat`'s id is modelled.
- `GetAllTrx` (a plain repository call with pagination) is not part of this model.
- Deletion of uploaded files (`utils.DeleteFile` in `UpdateToko` and `UpdateProduk`) is not modelled. Its errors are ignored by the source, and files are outside the store.
- The upload path and the md5-based file names of `utils.UploadFile` are not modelled. An upload is modelled as either an error or an opaque path.
- bcrypt, JWT and the region API are parameters: `hash`, `check`, `token`, `validate`, `provinceName` and `cityName`. Token expiry and the secret are not modelled.
- Which write of an order failed. The whole transaction is rolled back whatever failed, so the per-line loop checks a line's snapshot, detail-row and product writes together and reports only that one failed.
- Referential integrity. Of the foreign keys, only `detail_trx.id_trx` (internal/model/trx.go:50) is modelled, as the predicate `DetailsReferenceTrx`. `PlacedOrderReadable` assumes it of the store before the order and proves it after. The other foreign keys are not modelled.
- Concurrency. Two orders racing between the stock read and the stock save are not modelled.
- The handler-level binding rules (for example `Kuantitas` `binding:"required,min=1"` in internal/model/trx.go:69) are not modelled. The use cases are modelled for any quantity.
- JSON encoding. An empty toko list is a nil slice in Go and so encodes as `null`; the model returns an empty sequence.
- The `rand.Seed` call of `GenerateInvoiceCode` is not modelled; the draw is an input.
- TrxUsecase.CreateTrx models the order exactly as written, including the repeated-product behaviour in Findings. The corrected running-stock check `ReserveStock` stands beside it and is not wired into it.
- UserUsecase.UpdateProfile models the update as written, and `UpdateProfileChecked` stands beside it. The unique index on `users.notelp` (internal/config/database.go:92-97) is modelled as a failing write.
- UserUsecase.AmendProfile hashes the new password before the name is set, whereas the source sets the name first. The loaded copy is discarded on a hash error, so the order cannot be observed.
- AuthUsecase.Login shapes the city map with `province_id` guarded, as `GetProfile` does. The source's unguarded dereference is modelled separately by `LoginKotaAsWritten` (see Findings).
- Middleware.AuthMiddleware and Middleware.AdminMiddleware model a context whose `isAdmin` key holds a boolean, which is all that `AuthMiddleware` stores. A non-boolean value would make the source's type assertion panic.

## Findings

| source | as written | input that shows it | evidently intended | confidence | as-written member | corrected member |
|---|---|---|---|---|---|---|
| internal/usecase/trx_usecase.go:100-114 | every line is checked against the stock as loaded, and each line saves its own loaded copy of the product, so the last save wins | one product with stock 5, ordered in one request as lines (product 1, quantity 3) and (product 1, quantity 4): validation passes, 7 units are sold, and the stored stock ends at 1 | check each line against the stock left by the earlier lines and take off the total quantity | not executed; high (follows from lines 112 and 189-190) | TrxUsecase.OversellExample | TrxUsecase.ReserveStockRows |
| internal/usecase/auth_usecase.go:159-161 | `province_id` dereferences `IDProvinsi` whenever `IDKota` is set | Register with `id_kota` "5" and `id_provinsi` "" stores a city id without a province id; the next Login dereferences a nil pointer | guard `province_id` as `GetProfile` does (internal/usecase/user_usecase.go:76-78) | not executed; high | AuthUsecase.LoginPanicsAfterRegister | AuthUsecase.LoginKota |
| internal/usecase/user_usecase.go:131-133 | a non-empty email is stored without a duplicate check, and `users.email` has no unique index (only `users.notelp` does) | users 1 (ani@mail.id) and 2 (budi@mail.id); user 1 updates their email to budi@mail.id; the update goes through and both users share the email | refuse an email held by another user, as `Register` does at internal/usecase/auth_usecase.go:53-55 | not executed; medium | UserUsecase.UpdateProfileSharesEmail | UserUsecase.CheckedUpdateKeepsContactsUnique |
