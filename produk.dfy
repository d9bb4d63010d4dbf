/**
 * The product use cases of internal/usecase/produk_usecase.go: the list
 * filters and page number, the lookup that hides soft-deleted products,
 * creation in the caller's toko with its photos, the partial update, and the
 * choice between a soft and a hard delete.
 *
 * The writes of one call are numbered as in `Store.Fails`; an upload is the
 * outcome the caller supplies for each file, in file order.
 */
module ProdukUsecase {
  import opened Wrappers
  import opened Strconv
  import opened Tables
  import opened Store
  import Slug
  import Pagination

  // ---------------------------------------------------------------------------
  // Listing

  /** A value of the filter map handed to the repository: the name as text, the others as numbers. */
  datatype FilterValue = Text(text: string) | Number(n: int)

  /** `key` is in the filter map exactly when the query has it and `strconv.Atoi` accepts it, with the parsed value. */
  predicate KeptIfNumber(m: map<string, FilterValue>, filters: map<string, string>, key: string) {
    && (key in m <==> key in filters && Atoi(filters[key]).ok)
    && (key in m ==> m[key] == Number(Atoi(filters[key]).value))
  }

  /** One numeric filter of `GetAllProduk`: copied, as a number, only when it parses. */
  method KeepNumber(m: map<string, FilterValue>, filters: map<string, string>, key: string) returns (m': map<string, FilterValue>)
    requires key !in m
    ensures KeptIfNumber(m', filters, key)
    ensures m'.Keys <= m.Keys + {key}
    ensures forall k :: k in m ==> k in m' && m'[k] == m[k]
  {
    m' := m;
    if key in filters {
      var n := Atoi(filters[key]);
      if n.ok {
        m' := m'[key := Number(n.value)];
      }
    }
  }

  /**
   * `GetAllProduk`'s conversion of the query filters: `nama_produk` is passed
   * on verbatim, a numeric filter only when `strconv.Atoi` accepts it, and
   * nothing else.
   */
  method ParseProdukFilters(filters: map<string, string>) returns (m: map<string, FilterValue>)
    ensures "nama_produk" in m <==> "nama_produk" in filters
    ensures "nama_produk" in m ==> m["nama_produk"] == Text(filters["nama_produk"])
    ensures KeptIfNumber(m, filters, "category_id") && KeptIfNumber(m, filters, "toko_id")
    ensures KeptIfNumber(m, filters, "min_harga") && KeptIfNumber(m, filters, "max_harga")
    ensures m.Keys <= {"nama_produk", "category_id", "toko_id", "min_harga", "max_harga"}
  {
    m := map[];
    if "nama_produk" in filters {
      m := m["nama_produk" := Text(filters["nama_produk"])];
    }
    m := KeepNumber(m, filters, "category_id");
    m := KeepNumber(m, filters, "toko_id");
    m := KeepNumber(m, filters, "min_harga");
    m := KeepNumber(m, filters, "max_harga");
  }

  /** A malformed number, such as "12a" or "", never reaches the repository as a filter. */
  lemma MalformedFilterDropped(filters: map<string, string>, key: string, m: map<string, FilterValue>)
    requires key in filters && !IsDecimal(filters[key])
    requires KeptIfNumber(m, filters, key)
    ensures key !in m
  {
    AtoiOkIff(filters[key]);
  }

  /** `GetAllProduk` once the repository has returned `rows`: the page reported is `offset/limit + 1`. */
  function GetAllProduk(limit: int, offset: int, rows: seq<Produk>): (r: Pagination.Page<Produk>)
    requires limit != 0
    ensures r.limit == limit && r.data == rows
    ensures limit >= 1 && offset >= 0 ==> r.page >= 1 && (r.page - 1) * limit <= offset < r.page * limit
  {
    Pagination.PageHoldsOffset(limit, offset);
    Pagination.Page(Pagination.PageNumber(limit, offset), limit, rows)
  }

  /** With parameters from `GetPaginationParams`, the page reported is the page requested. */
  lemma GetAllProdukReportsRequestedPage(pageQuery: Option<string>, limitQuery: Option<string>, rows: seq<Produk>)
    ensures var p := Pagination.GetPaginationParams(pageQuery, limitQuery);
            GetAllProduk(p.limit, p.offset, rows).page == p.page
  {
    Pagination.PageNumberRoundTrip(pageQuery, limitQuery);
  }

  // ---------------------------------------------------------------------------
  // Reading one product

  /** `GetProdukByID`: "No Data Product" for a missing or soft-deleted product. */
  function GetProdukByID(db: Db, id: int): (r: Result<Produk, Error>)
    ensures r.Ok? <==> id in db.produk.rows && db.produk.rows[id].deletedAt.None?
    ensures r.Ok? ==> r.value == db.produk.rows[id]
    ensures r.Err? ==> r.error == Rejected("No Data Product")
  {
    match FindProduk(db, id)
    case None => Err(Rejected("No Data Product"))
    case Some(p) => Ok(p)
  }

  // ---------------------------------------------------------------------------
  // Photos

  /** The path an upload returned; only read for uploads that succeeded. */
  function UrlOf(u: Upload): string {
    match u
    case Uploaded(url) => url
    case UploadError => ""
  }

  /** The `foto_produk` rows for the uploaded files, in file order. */
  function Photos(idProduk: int, uploads: seq<Upload>, now: Instant): seq<FotoProduk> {
    seq(|uploads|, k requires 0 <= k < |uploads| => FotoProduk(idProduk, UrlOf(uploads[k]), Some(now), Some(now)))
  }

  /**
   * The first failure of the photo loop, whose `i`-th file is uploaded and
   * then created as write `base + i`: a failed upload or a failed write,
   * whichever comes first.
   */
  function PhotoFailure(uploads: seq<Upload>, fault: Option<nat>, base: nat): Option<Error>
    decreases |uploads|
  {
    if |uploads| == 0 then None
    else
      match PhotoFailure(uploads[..|uploads| - 1], fault, base)
      case Some(e) => Some(e)
      case None =>
        if uploads[|uploads| - 1].UploadError? then Some(UploadFailed)
        else if Fails(fault, base + |uploads| - 1) then Some(WriteFailed)
        else None
  }

  /** The photo loop goes through exactly when every upload succeeds and none of its writes fails. */
  lemma {:induction false} PhotoFailureNone(uploads: seq<Upload>, fault: Option<nat>, base: nat)
    ensures PhotoFailure(uploads, fault, base).None? <==>
              (forall i :: 0 <= i < |uploads| ==> uploads[i].Uploaded?) &&
              !(fault.Some? && base <= fault.value < base + |uploads|)
    ensures PhotoFailure(uploads, fault, base) == Some(UploadFailed) ==>
              exists i :: 0 <= i < |uploads| && uploads[i].UploadError?
    decreases |uploads|
  {
    if |uploads| > 0 {
      var init := uploads[..|uploads| - 1];
      PhotoFailureNone(init, fault, base);
      assert forall i :: 0 <= i < |init| ==> init[i] == uploads[i];
      if PhotoFailure(uploads, fault, base) == Some(UploadFailed) && PhotoFailure(init, fault, base).None? {
        assert uploads[|uploads| - 1].UploadError?;
      }
    }
  }

  /** Once a prefix of the files fails, the loop fails with the same error. */
  lemma {:induction false} PhotoFailurePrefix(uploads: seq<Upload>, fault: Option<nat>, base: nat, k: nat)
    requires k <= |uploads| && PhotoFailure(uploads[..k], fault, base).Some?
    ensures PhotoFailure(uploads, fault, base) == PhotoFailure(uploads[..k], fault, base)
    decreases |uploads| - k
  {
    if k == |uploads| {
      assert uploads[..k] == uploads;
    } else {
      assert uploads[..k + 1][..k] == uploads[..k];
      PhotoFailurePrefix(uploads, fault, base, k + 1);
    }
  }

  /** How one more file extends the photo table. */
  lemma PhotosStep(fotos: Table<FotoProduk>, idProduk: int, uploads: seq<Upload>, now: Instant, i: int)
    requires 0 <= i < |uploads|
    ensures InsertAll(fotos, Photos(idProduk, uploads[..i + 1], now)) ==
            Insert(InsertAll(fotos, Photos(idProduk, uploads[..i], now)), FotoProduk(idProduk, UrlOf(uploads[i]), Some(now), Some(now)))
  {
    assert Photos(idProduk, uploads[..i + 1], now) ==
           Photos(idProduk, uploads[..i], now) + [FotoProduk(idProduk, UrlOf(uploads[i]), Some(now), Some(now))];
    InsertAllSnoc(fotos, Photos(idProduk, uploads[..i], now), FotoProduk(idProduk, UrlOf(uploads[i]), Some(now), Some(now)));
  }

  /**
   * The photo loop shared by `CreateProduk` and `UpdateProduk`: upload each
   * file, then create its row. On a failure the caller's transaction rolls
   * back, so the partial table is not returned.
   */
  method SavePhotos(fotos: Table<FotoProduk>, idProduk: int, uploads: seq<Upload>, now: Instant, fault: Option<nat>, base: nat)
    returns (failure: Option<Error>, fotos': Table<FotoProduk>)
    ensures failure == PhotoFailure(uploads, fault, base)
    ensures failure.None? ==> fotos' == InsertAll(fotos, Photos(idProduk, uploads, now))
  {
    fotos' := fotos;
    var i := 0;
    while i < |uploads|
      invariant 0 <= i <= |uploads|
      invariant PhotoFailure(uploads[..i], fault, base).None?
      invariant fotos' == InsertAll(fotos, Photos(idProduk, uploads[..i], now))
    {
      assert uploads[..i + 1][..i] == uploads[..i];
      PhotosStep(fotos, idProduk, uploads, now, i);
      match uploads[i]
      case UploadError =>
        PhotoFailurePrefix(uploads, fault, base, i + 1);
        return Some(UploadFailed), fotos;
      case Uploaded(url) =>
        if Fails(fault, base + i) {
          PhotoFailurePrefix(uploads, fault, base, i + 1);
          return Some(WriteFailed), fotos;
        }
        fotos' := Insert(fotos', FotoProduk(idProduk, url, Some(now), Some(now)));
      i := i + 1;
    }
    assert uploads[..i] == uploads;
    return None, fotos';
  }

  /** Every photo created for a product points at it and keeps its upload's path. */
  lemma PhotosPointAt(fotos: Table<FotoProduk>, idProduk: int, uploads: seq<Upload>, now: Instant, k: int)
    requires 0 <= k < |uploads| && uploads[k].Uploaded?
    ensures var r := InsertAll(fotos, Photos(idProduk, uploads, now));
            && fotos.next + k in r.rows
            && r.rows[fotos.next + k].idProduk == idProduk
            && r.rows[fotos.next + k].url == uploads[k].url
  {
    var photos := Photos(idProduk, uploads, now);
    assert photos[k] == FotoProduk(idProduk, uploads[k].url, Some(now), Some(now));
    InsertAllAt(fotos, photos, k);
  }

  // ---------------------------------------------------------------------------
  // Creating a product

  datatype CreateProdukRequest = CreateProdukRequest(
    namaProduk: string,
    hargaReseller: string,
    hargaKonsumen: string,
    stok: int,
    deskripsi: string,
    categoryID: int)

  /** The row `CreateProduk` creates in the toko `idToko`. */
  function NewProduk(req: CreateProdukRequest, idToko: int, now: Instant): Produk {
    Produk(req.namaProduk, Slug.GenerateSlug(req.namaProduk), req.hargaReseller, req.hargaKonsumen, req.stok,
           req.deskripsi, Some(now), Some(now), None, idToko, req.categoryID)
  }

  /** The store after a successful `CreateProduk`: the product under the next id, then its photos. */
  function Created(db: Db, p: Produk, uploads: seq<Upload>, now: Instant): Db {
    db.(produk := Insert(db.produk, p), fotoProduk := InsertAll(db.fotoProduk, Photos(db.produk.next, uploads, now)))
  }

  /**
   * `CreateProduk`: the caller's toko is the first one they own; the product
   * is created in it and each file's photo after it, in one transaction.
   */
  method CreateProduk(db: Db, userID: int, req: CreateProdukRequest, uploads: seq<Upload>, now: Instant, fault: Option<nat>)
    returns (r: Outcome<Error>, db': Db)
    requires Tables.Valid(db.toko)
    ensures FirstWhere(db.toko, TokoOwnedBy(userID)).None? ==> r == Fail(Rejected("you don't have a toko")) && db' == db
    ensures FirstWhere(db.toko, TokoOwnedBy(userID)).Some? ==>
              var p := NewProduk(req, FirstWhere(db.toko, TokoOwnedBy(userID)).value, now);
              if Fails(fault, 0) then r == Fail(WriteFailed) && db' == db
              else if PhotoFailure(uploads, fault, 1).Some? then r == Fail(PhotoFailure(uploads, fault, 1).value) && db' == db
              else r == Pass && db' == Created(db, p, uploads, now)
  {
    var toko := FirstWhere(db.toko, TokoOwnedBy(userID));
    if toko.None? {
      return Fail(Rejected("you don't have a toko")), db;
    }
    var slug := Slug.GenerateSlug(req.namaProduk);
    var produk := Produk(req.namaProduk, slug, req.hargaReseller, req.hargaKonsumen, req.stok, req.deskripsi,
                         Some(now), Some(now), None, toko.value, req.categoryID);

    if Fails(fault, 0) {
      return Fail(WriteFailed), db;
    }
    var idProduk := db.produk.next;
    var produks := Insert(db.produk, produk);
    var failure, fotos := SavePhotos(db.fotoProduk, idProduk, uploads, now, fault, 1);
    if failure.Some? {
      return Fail(failure.value), db;
    }
    return Pass, db.(produk := produks, fotoProduk := fotos);
  }

  /**
   * A created product belongs to a toko the caller owns, carries the slug of
   * its name, is visible, and leaves every other product as it was.
   */
  lemma CreatedProduk(db: Db, userID: int, req: CreateProdukRequest, uploads: seq<Upload>, now: Instant)
    requires WellFormed(db) && FirstWhere(db.toko, TokoOwnedBy(userID)).Some?
    ensures var idToko := FirstWhere(db.toko, TokoOwnedBy(userID)).value;
            var db' := Created(db, NewProduk(req, idToko, now), uploads, now);
            && WellFormed(db')
            && db.produk.next !in db.produk.rows
            && GetProdukByID(db', db.produk.next).Ok?
            && var p := GetProdukByID(db', db.produk.next).value;
               && p.idToko in db.toko.rows && db.toko.rows[p.idToko].idUser == userID
               && p.slug == Slug.GenerateSlug(req.namaProduk) && Slug.IsSlug(p.slug)
               && (forall id :: id in db.produk.rows ==> id in db'.produk.rows && db'.produk.rows[id] == db.produk.rows[id])
  {
    var idToko := FirstWhere(db.toko, TokoOwnedBy(userID)).value;
    var p := NewProduk(req, idToko, now);
    InsertFresh(db.produk, p);
    InsertAllRows(db.fotoProduk, Photos(db.produk.next, uploads, now));
    Slug.GenerateSlugIsSlug(req.namaProduk);
    assert TokoOwnedBy(userID)(db.toko.rows[idToko]);
  }

  // ---------------------------------------------------------------------------
  // Ownership of an existing product

  /**
   * The checks `UpdateProduk` and `DeleteProduk` make first, in order: the
   * product (with the caller's message for a missing one), its toko, and the
   * toko's owner.
   */
  function ProdukOwnership(db: Db, id: int, userID: int, missing: string): (r: Outcome<Error>)
    ensures r == Pass <==>
              && FindProduk(db, id).Some?
              && db.produk.rows[id].idToko in db.toko.rows
              && db.toko.rows[db.produk.rows[id].idToko].idUser == userID
    ensures FindProduk(db, id).None? ==> r == Fail(Rejected(missing))
  {
    match FindProduk(db, id)
    case None => Fail(Rejected(missing))
    case Some(p) =>
      match Get(db.toko, p.idToko)
      case None => Fail(Rejected("toko not found"))
      case Some(toko) =>
        if toko.idUser != userID then Fail(Rejected("unauthorized: not your product")) else Pass
  }

  /** A product in a missing toko is reported as such; one in another user's toko is refused. */
  lemma ProdukOwnershipErrors(db: Db, id: int, userID: int, missing: string)
    requires FindProduk(db, id).Some?
    ensures db.produk.rows[id].idToko !in db.toko.rows ==>
              ProdukOwnership(db, id, userID, missing) == Fail(Rejected("toko not found"))
    ensures db.produk.rows[id].idToko in db.toko.rows && db.toko.rows[db.produk.rows[id].idToko].idUser != userID ==>
              ProdukOwnership(db, id, userID, missing) == Fail(Rejected("unauthorized: not your product"))
  {
  }

  // ---------------------------------------------------------------------------
  // Updating a product

  datatype UpdateProdukRequest = UpdateProdukRequest(
    namaProduk: string,
    hargaReseller: string,
    hargaKonsumen: string,
    stok: int,
    deskripsi: string,
    categoryID: int)

  /** The product after `UpdateProduk`'s field-by-field merge. */
  function Merge(p: Produk, req: UpdateProdukRequest, now: Instant): Produk {
    Produk(
      if req.namaProduk != "" then req.namaProduk else p.namaProduk,
      if req.namaProduk != "" then Slug.GenerateSlug(req.namaProduk) else p.slug,
      if req.hargaReseller != "" then req.hargaReseller else p.hargaReseller,
      if req.hargaKonsumen != "" then req.hargaKonsumen else p.hargaKonsumen,
      if req.stok > 0 then req.stok else p.stok,
      if req.deskripsi != "" then req.deskripsi else p.deskripsi,
      p.createdAt,
      Some(now),
      p.deletedAt,
      p.idToko,
      if req.categoryID > 0 then req.categoryID else p.idCategory)
  }

  /**
   * The merge never moves a product to another toko and never touches its
   * creation or deletion time; an empty request only stamps `updated_at`.
   */
  lemma MergeFrame(p: Produk, req: UpdateProdukRequest, now: Instant)
    ensures var q := Merge(p, req, now);
            && q.idToko == p.idToko && q.createdAt == p.createdAt && q.deletedAt == p.deletedAt
            && q.updatedAt == Some(now)
    ensures req == UpdateProdukRequest("", "", "", 0, "", 0) ==> Merge(p, req, now) == p.(updatedAt := Some(now))
  {
  }

  /** Stock and category can only be set to positive values: a stock of 0 in the request keeps the old stock. */
  lemma MergeCannotClearStock(p: Produk, req: UpdateProdukRequest, now: Instant)
    ensures Merge(p, req, now).stok == p.stok <==> req.stok <= 0 || req.stok == p.stok
    ensures Merge(p, req, now).stok <= 0 ==> Merge(p, req, now).stok == p.stok
    ensures Merge(p, req, now).idCategory <= 0 ==> Merge(p, req, now).idCategory == p.idCategory
  {
  }

  /** A product whose slug is its name's slug keeps that property across every update. */
  lemma MergeKeepsSlug(p: Produk, req: UpdateProdukRequest, now: Instant)
    requires p.slug == Slug.GenerateSlug(p.namaProduk)
    ensures Merge(p, req, now).slug == Slug.GenerateSlug(Merge(p, req, now).namaProduk)
  {
  }

  /** Applying the same update twice is applying it once. */
  lemma MergeIdempotent(p: Produk, req: UpdateProdukRequest, now: Instant)
    ensures Merge(Merge(p, req, now), req, now) == Merge(p, req, now)
  {
  }

  /** The `id_produk = ?` condition on photos. */
  function PhotoOf(id: int): FotoProduk -> bool {
    (f: FotoProduk) => f.idProduk == id
  }

  /** The store after a successful `UpdateProduk`; new files replace every old photo of the product. */
  function Updated(db: Db, id: int, p: Produk, uploads: seq<Upload>, now: Instant): Db {
    if |uploads| == 0 then db.(produk := Put(db.produk, id, p))
    else db.(produk := Put(db.produk, id, p),
             fotoProduk := InsertAll(RemoveWhere(db.fotoProduk, PhotoOf(id)), Photos(id, uploads, now)))
  }

  /**
   * `UpdateProduk`. The product is saved (write 0); with files, its old
   * photos are deleted (write 1) and each file uploaded and created (writes
   * from 2 on), all in one transaction.
   */
  method UpdateProduk(db: Db, id: int, userID: int, req: UpdateProdukRequest, uploads: seq<Upload>, now: Instant, fault: Option<nat>)
    returns (r: Outcome<Error>, db': Db)
    ensures ProdukOwnership(db, id, userID, "product not found").Fail? ==>
              r == ProdukOwnership(db, id, userID, "product not found") && db' == db
    ensures ProdukOwnership(db, id, userID, "product not found").Pass? ==>
              if Fails(fault, 0) || (|uploads| > 0 && Fails(fault, 1)) then r == Fail(WriteFailed) && db' == db
              else if PhotoFailure(uploads, fault, 2).Some? then r == Fail(PhotoFailure(uploads, fault, 2).value) && db' == db
              else r == Pass && db' == Updated(db, id, Merge(db.produk.rows[id], req, now), uploads, now)
  {
    var found := FindProduk(db, id);
    if found.None? {
      return Fail(Rejected("product not found")), db;
    }
    var produk := found.value;
    var toko := Get(db.toko, produk.idToko);
    if toko.None? {
      return Fail(Rejected("toko not found")), db;
    }
    if toko.value.idUser != userID {
      return Fail(Rejected("unauthorized: not your product")), db;
    }

    ghost var target := Merge(produk, req, now);
    var namaProduk, slug := produk.namaProduk, produk.slug;
    if req.namaProduk != "" {
      namaProduk, slug := req.namaProduk, Slug.GenerateSlug(req.namaProduk);
    }
    assert namaProduk == target.namaProduk && slug == target.slug;
    var hargaReseller := produk.hargaReseller;
    if req.hargaReseller != "" {
      hargaReseller := req.hargaReseller;
    }
    assert hargaReseller == target.hargaReseller;
    var hargaKonsumen := produk.hargaKonsumen;
    if req.hargaKonsumen != "" {
      hargaKonsumen := req.hargaKonsumen;
    }
    assert hargaKonsumen == target.hargaKonsumen;
    var stok := produk.stok;
    if req.stok > 0 {
      stok := req.stok;
    }
    assert stok == target.stok;
    var deskripsi := produk.deskripsi;
    if req.deskripsi != "" {
      deskripsi := req.deskripsi;
    }
    assert deskripsi == target.deskripsi;
    var idCategory := produk.idCategory;
    if req.categoryID > 0 {
      idCategory := req.categoryID;
    }
    assert idCategory == target.idCategory;
    produk := Produk(namaProduk, slug, hargaReseller, hargaKonsumen, stok, deskripsi,
                     produk.createdAt, Some(now), produk.deletedAt, produk.idToko, idCategory);
    assert produk == target;

    if Fails(fault, 0) {
      return Fail(WriteFailed), db;
    }
    var produks := Put(db.produk, id, produk);
    if |uploads| == 0 {
      return Pass, db.(produk := produks);
    }
    if Fails(fault, 1) {
      return Fail(WriteFailed), db;
    }
    var kept := RemoveWhere(db.fotoProduk, PhotoOf(id));
    var failure, fotos := SavePhotos(kept, id, uploads, now, fault, 2);
    if failure.Some? {
      return Fail(failure.value), db;
    }
    return Pass, db.(produk := produks, fotoProduk := fotos);
  }

  /**
   * After an update with files the product's photos are exactly the new
   * ones; other products' photos are kept. Without files the photos are
   * untouched.
   */
  lemma UpdatedPhotos(db: Db, id: int, p: Produk, uploads: seq<Upload>, now: Instant, f: int)
    requires Tables.Valid(db.fotoProduk) && f in db.fotoProduk.rows
    ensures var db' := Updated(db, id, p, uploads, now);
            && (|uploads| == 0 ==> db'.fotoProduk == db.fotoProduk)
            && (|uploads| > 0 ==> (f in db'.fotoProduk.rows && db'.fotoProduk.rows[f] == db.fotoProduk.rows[f] <==>
                                   db.fotoProduk.rows[f].idProduk != id))
  {
    if |uploads| > 0 {
      var kept := RemoveWhere(db.fotoProduk, PhotoOf(id));
      InsertAllRows(kept, Photos(id, uploads, now));
    }
  }

  // ---------------------------------------------------------------------------
  // Deleting a product

  /** The `id_produk = ?` condition on snapshots: `ExistsByProdukID`. */
  function SnapshotOf(id: int): LogProduk -> bool {
    (l: LogProduk) => l.idProduk == id
  }

  /** The store after a soft delete: the row stays, stamped with `deleted_at`. */
  function SoftDeleted(db: Db, id: int, now: Instant): Db
    requires id in db.produk.rows
  {
    db.(produk := Put(db.produk, id, db.produk.rows[id].(deletedAt := Some(now))))
  }

  /** The store after a hard delete: the product's photos, then the product. */
  function HardDeleted(db: Db, id: int): Db {
    db.(fotoProduk := RemoveWhere(db.fotoProduk, PhotoOf(id)), produk := Remove(db.produk, id))
  }

  /**
   * `DeleteProduk`: "record not found" for a missing product, then the
   * ownership checks; a product some snapshot refers to is soft-deleted
   * (write 0), any other is removed with its photos in one transaction
   * (writes 0 and 1).
   */
  method DeleteProduk(db: Db, id: int, userID: int, now: Instant, fault: Option<nat>) returns (r: Outcome<Error>, db': Db)
    ensures ProdukOwnership(db, id, userID, "record not found").Fail? ==>
              r == ProdukOwnership(db, id, userID, "record not found") && db' == db
    ensures db'.logProduk == db.logProduk
    ensures id in db.produk.rows && Exists(db.logProduk, SnapshotOf(id)) ==> id in db'.produk.rows
    ensures ProdukOwnership(db, id, userID, "record not found").Pass? && Exists(db.logProduk, SnapshotOf(id)) ==>
              if Fails(fault, 0) then r == Fail(WriteFailed) && db' == db
              else r == Pass && db' == SoftDeleted(db, id, now)
    ensures ProdukOwnership(db, id, userID, "record not found").Pass? && !Exists(db.logProduk, SnapshotOf(id)) ==>
              if Fails(fault, 0) || Fails(fault, 1) then r == Fail(WriteFailed) && db' == db
              else r == Pass && db' == HardDeleted(db, id)
  {
    var found := FindProduk(db, id);
    if found.None? {
      return Fail(Rejected("record not found")), db;
    }
    var produk := found.value;
    var toko := Get(db.toko, produk.idToko);
    if toko.None? {
      return Fail(Rejected("toko not found")), db;
    }
    if toko.value.idUser != userID {
      return Fail(Rejected("unauthorized: not your product")), db;
    }

    var hasTransaction := Exists(db.logProduk, SnapshotOf(id));
    if hasTransaction {
      produk := produk.(deletedAt := Some(now));
      if Fails(fault, 0) {
        return Fail(WriteFailed), db;
      }
      return Pass, db.(produk := Put(db.produk, id, produk));
    }

    if Fails(fault, 0) {
      return Fail(WriteFailed), db;
    }
    var fotos := RemoveWhere(db.fotoProduk, PhotoOf(id));
    if Fails(fault, 1) {
      return Fail(WriteFailed), db;
    }
    return Pass, db.(fotoProduk := fotos, produk := Remove(db.produk, id));
  }

  /**
   * A soft-deleted product keeps its row, so the snapshots that refer to it
   * still find it, but it is hidden from every lookup: reading it gives "No
   * Data Product", ordering it "product not found", and deleting it again
   * "record not found". Nothing but that row changes.
   */
  lemma SoftDeleteHides(db: Db, id: int, now: Instant, userID: int)
    requires WellFormed(db) && id in db.produk.rows
    ensures var db' := SoftDeleted(db, id, now);
            && WellFormed(db')
            && id in db'.produk.rows && db'.produk.rows.Keys == db.produk.rows.Keys
            && db'.logProduk == db.logProduk && db'.fotoProduk == db.fotoProduk
            && GetProdukByID(db', id) == Err(Rejected("No Data Product"))
            && ProdukOwnership(db', id, userID, "record not found") == Fail(Rejected("record not found"))
  {
    PutKeeps(db.produk, id, db.produk.rows[id].(deletedAt := Some(now)));
  }

  /** A hard delete removes the product and exactly its photos, and keeps the store well formed. */
  lemma HardDeleteRemoves(db: Db, id: int)
    requires WellFormed(db)
    ensures var db' := HardDeleted(db, id);
            && WellFormed(db')
            && id !in db'.produk.rows
            && (forall f :: f in db'.fotoProduk.rows <==> f in db.fotoProduk.rows && db.fotoProduk.rows[f].idProduk != id)
            && db'.logProduk == db.logProduk
  {
  }
}
