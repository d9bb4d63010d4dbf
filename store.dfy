/**
 * The rows the use cases read and write (the records under internal/model) and the store
 * that holds them. A record leaves out its `ID`: the id is the key of the row
 * in its table. GORM's relation fields (`Toko`, `Category`, `Photos`, ...)
 * are left out too; the foreign-key columns they follow are kept.
 *
 * Timestamps are the instants the use cases pass in (`time.Now()` is an
 * input); a nil `*time.Time` is `None`.
 */
module Store {
  import opened Wrappers
  import opened Tables
  import Dates

  type Instant = int

  datatype User = User(
    nama: string,
    kataSandi: string,
    noTelp: string,
    tanggalLahir: Option<Dates.Date>,
    jenisKelamin: string,
    tentang: string,
    pekerjaan: string,
    email: string,
    idProvinsi: Option<int>,
    idKota: Option<int>,
    isAdmin: bool,
    updatedAt: Option<Instant>,
    createdAt: Option<Instant>)

  datatype Toko = Toko(
    idUser: int,
    namaToko: string,
    urlFoto: string,
    updatedAt: Option<Instant>,
    createdAt: Option<Instant>)

  datatype Alamat = Alamat(
    idUser: int,
    judulAlamat: string,
    namaPenerima: string,
    noTelp: string,
    detailAlamat: string,
    updatedAt: Option<Instant>,
    createdAt: Option<Instant>)

  datatype Produk = Produk(
    namaProduk: string,
    slug: string,
    hargaReseller: string,
    hargaKonsumen: string,
    stok: int,
    deskripsi: string,
    createdAt: Option<Instant>,
    updatedAt: Option<Instant>,
    deletedAt: Option<Instant>,
    idToko: int,
    idCategory: int)

  datatype FotoProduk = FotoProduk(
    idProduk: int,
    url: string,
    updatedAt: Option<Instant>,
    createdAt: Option<Instant>)

  /** The snapshot of a product taken when it is ordered. */
  datatype LogProduk = LogProduk(
    idProduk: int,
    namaProduk: string,
    slug: string,
    hargaReseller: string,
    hargaKonsumen: string,
    deskripsi: string,
    createdAt: Option<Instant>,
    updatedAt: Option<Instant>,
    idToko: int,
    idCategory: int)

  datatype Trx = Trx(
    idUser: int,
    alamatPengiriman: int,
    hargaTotal: int,
    kodeInvoice: string,
    methodBayar: string,
    updatedAt: Option<Instant>,
    createdAt: Option<Instant>)

  datatype DetailTrx = DetailTrx(
    idTrx: int,
    idLogProduk: int,
    idToko: int,
    kuantitas: int,
    hargaTotal: int,
    updatedAt: Option<Instant>,
    createdAt: Option<Instant>)

  datatype Db = Db(
    users: Table<User>,
    toko: Table<Toko>,
    alamat: Table<Alamat>,
    produk: Table<Produk>,
    fotoProduk: Table<FotoProduk>,
    logProduk: Table<LogProduk>,
    trx: Table<Trx>,
    detailTrx: Table<DetailTrx>)

  predicate WellFormed(db: Db) {
    && Tables.Valid(db.users) && Tables.Valid(db.toko) && Tables.Valid(db.alamat)
    && Tables.Valid(db.produk) && Tables.Valid(db.fotoProduk) && Tables.Valid(db.logProduk)
    && Tables.Valid(db.trx) && Tables.Valid(db.detailTrx)
  }

  /** What a use case returns as its `error`. */
  datatype Error =
    | Rejected(message: string)  // an `errors.New(message)` of the use case itself
    | WriteFailed                // an error returned by a database write
    | UploadFailed               // an error returned by `utils.UploadFile`
    | HashFailed                 // an error returned by `utils.HashPassword`
    | TokenFailed                // an error returned by `utils.GenerateToken`

  /** The outcome of `utils.UploadFile` for one file: its relative path, or an error. */
  datatype Upload = UploadError | Uploaded(url: string)

  /**
   * Database writes that fail: the writes of one call are numbered from 0 in
   * the order the call issues them, and `fault == Some(k)` makes write `k`
   * return an error. `None` lets every write succeed.
   */
  predicate Fails(fault: Option<nat>, k: nat) {
    fault == Some(k)
  }

  /** `produkRepo.FindByID` / `FindByIDWithRelations`: soft-deleted products are not found. */
  function FindProduk(db: Db, id: int): (r: Option<Produk>)
    ensures r.Some? <==> id in db.produk.rows && db.produk.rows[id].deletedAt.None?
    ensures r.Some? ==> r.value == db.produk.rows[id]
  {
    if id in db.produk.rows && db.produk.rows[id].deletedAt.None? then Some(db.produk.rows[id]) else None
  }

  /**
   * Looking a product up after `Save`: the saved row is found exactly when it
   * carries no `deleted_at` (so stamping `deleted_at` hides it), and every
   * other id is looked up as before.
   */
  lemma FindAfterPut(db: Db, id: int, p: Produk, j: int)
    ensures FindProduk(db.(produk := Put(db.produk, id, p)), j) ==
            if j != id then FindProduk(db, j) else if p.deletedAt.None? then Some(p) else None
  {
  }

  /** The `Where("id_user = ?", userID)` condition of `tokoRepo.FindByUserID`. */
  function TokoOwnedBy(userID: int): Toko -> bool {
    (t: Toko) => t.idUser == userID
  }
}
