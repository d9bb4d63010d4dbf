/**
 * Toko (shop) use cases, internal/usecase/toko_usecase.go.
 *
 * A toko response carries its owner's id only for the caller's own toko; a
 * `userID` of 0 stands for the field left out of the JSON (`omitempty`).
 * `GetAllToko` gets the rows the repository returned for the page (its SQL
 * name filter and paging are not modelled) and maps them in order.
 */
module TokoUsecase {
  import opened Wrappers
  import opened Tables
  import opened Store
  import Pagination

  /** `model.TokoResponse`. */
  datatype TokoResponse = TokoResponse(id: int, namaToko: string, urlFoto: string, userID: int)

  /** The public view of a toko: no owner id. */
  function Brief(id: int, t: Toko): TokoResponse {
    TokoResponse(id, t.namaToko, t.urlFoto, 0)
  }

  // ---------------------------------------------------------------------------
  // Reading

  /** `GetMyToko`: the caller's toko (the one with the lowest id), with the owner id. */
  function GetMyToko(db: Db, userID: int): (r: Result<TokoResponse, Error>)
    requires Tables.Valid(db.toko)
    ensures r.Err? <==> !Exists(db.toko, TokoOwnedBy(userID))
    ensures r.Err? ==> r.error == Rejected("toko not found")
    ensures r.Ok? ==> && r.value.id in db.toko.rows && r.value.userID == userID
                      && db.toko.rows[r.value.id].idUser == userID
                      && r.value.namaToko == db.toko.rows[r.value.id].namaToko
                      && r.value.urlFoto == db.toko.rows[r.value.id].urlFoto
                      && forall j :: j in db.toko.rows && j < r.value.id ==> db.toko.rows[j].idUser != userID
  {
    match FirstWhere(db.toko, TokoOwnedBy(userID))
    case None => Err(Rejected("toko not found"))
    case Some(id) =>
      var t := db.toko.rows[id];
      assert TokoOwnedBy(userID)(t);
      Ok(TokoResponse(id, t.namaToko, t.urlFoto, t.idUser))
  }

  /** `GetTokoByID`: the public view, or "`Toko tidak ditemukan`" (backquotes included). */
  function GetTokoByID(db: Db, id: int): (r: Result<TokoResponse, Error>)
    ensures r.Err? <==> id !in db.toko.rows
    ensures r.Err? ==> r.error == Rejected("`Toko tidak ditemukan`")
    ensures r.Ok? ==> && r.value.id == id && r.value.userID == 0
                      && r.value.namaToko == db.toko.rows[id].namaToko
                      && r.value.urlFoto == db.toko.rows[id].urlFoto
  {
    if id !in db.toko.rows then Err(Rejected("`Toko tidak ditemukan`"))
    else Ok(Brief(id, db.toko.rows[id]))
  }

  /** The caller's toko read by its id is the same response without the owner id. */
  lemma MyTokoByIdAgree(db: Db, userID: int)
    requires Tables.Valid(db.toko) && GetMyToko(db, userID).Ok?
    ensures var mine := GetMyToko(db, userID).value;
            GetTokoByID(db, mine.id) == Ok(mine.(userID := 0))
  {
  }

  /**
   * `GetAllToko`: one public view per returned row, in the order the rows
   * came, under the page number `offset/limit + 1`.
   */
  method GetAllToko(limit: int, offset: int, tokos: seq<(int, Toko)>) returns (r: Pagination.Page<TokoResponse>)
    requires limit != 0
    ensures r.limit == limit && r.page == Pagination.PageNumber(limit, offset)
    ensures |r.data| == |tokos|
    ensures forall i :: 0 <= i < |tokos| ==> r.data[i] == Brief(tokos[i].0, tokos[i].1)
    ensures limit >= 1 && offset >= 0 ==> r.page >= 1 && (r.page - 1) * limit <= offset < r.page * limit
  {
    var responses: seq<TokoResponse> := [];
    var i := 0;
    while i < |tokos|
      invariant 0 <= i <= |tokos|
      invariant |responses| == i
      invariant forall k :: 0 <= k < i ==> responses[k] == Brief(tokos[k].0, tokos[k].1)
    {
      var (id, t) := tokos[i];
      responses := responses + [TokoResponse(id, t.namaToko, t.urlFoto, 0)];
      i := i + 1;
    }
    Pagination.PageHoldsOffset(limit, offset);
    r := Pagination.Page(Pagination.PageNumber(limit, offset), limit, responses);
  }

  /** Each toko listed from the store reads back the same through `GetTokoByID`. */
  lemma ListedTokoReadable(db: Db, tokos: seq<(int, Toko)>, data: seq<TokoResponse>, i: int)
    requires forall k :: 0 <= k < |tokos| ==> tokos[k].0 in db.toko.rows && db.toko.rows[tokos[k].0] == tokos[k].1
    requires |data| == |tokos| && forall k :: 0 <= k < |tokos| ==> data[k] == Brief(tokos[k].0, tokos[k].1)
    requires 0 <= i < |tokos|
    ensures GetTokoByID(db, data[i].id) == Ok(data[i])
  {
  }

  // ---------------------------------------------------------------------------
  // Updating

  /**
   * The toko after an update: a non-empty name replaces the old one, an
   * uploaded photo replaces the URL, and the update time is `now`.
   */
  function Retouched(t: Toko, namaToko: string, upload: Option<Upload>, now: Instant): Toko {
    t.(namaToko := if namaToko != "" then namaToko else t.namaToko,
       urlFoto := if upload.Some? && upload.value.Uploaded? then upload.value.url else t.urlFoto,
       updatedAt := Some(now))
  }

  /**
   * `UpdateToko`. `upload` is `None` when no file was sent, and otherwise
   * the outcome of `utils.UploadFile`; the single write (write 0) is `Update`.
   */
  method UpdateToko(db: Db, tokoID: int, userID: int, namaToko: string, upload: Option<Upload>,
                    now: Instant, fault: Option<nat>)
    returns (r: Outcome<Error>, db': Db)
    ensures tokoID !in db.toko.rows ==> r == Fail(Rejected("toko not found")) && db' == db
    ensures tokoID in db.toko.rows && db.toko.rows[tokoID].idUser != userID ==>
              r == Fail(Rejected("unauthorized: not your toko")) && db' == db
    ensures tokoID in db.toko.rows && db.toko.rows[tokoID].idUser == userID ==>
              if upload == Some(UploadError) then r == Fail(UploadFailed) && db' == db
              else if Fails(fault, 0) then r == Fail(WriteFailed) && db' == db
              else r == Pass && db' == db.(toko := Put(db.toko, tokoID, Retouched(db.toko.rows[tokoID], namaToko, upload, now)))
  {
    if tokoID !in db.toko.rows {
      return Fail(Rejected("toko not found")), db;
    }
    var toko := db.toko.rows[tokoID];
    if toko.idUser != userID {
      return Fail(Rejected("unauthorized: not your toko")), db;
    }
    if namaToko != "" {
      toko := toko.(namaToko := namaToko);
    }
    if upload.Some? {
      match upload.value
      case UploadError =>
        return Fail(UploadFailed), db;
      case Uploaded(url) =>
        toko := toko.(urlFoto := url);
    }
    toko := toko.(updatedAt := Some(now));
    if Fails(fault, 0) {
      return Fail(WriteFailed), db;
    }
    return Pass, db.(toko := Put(db.toko, tokoID, toko));
  }

  /**
   * An update keeps the owner and the creation time, changes the name only
   * for a non-empty one and the photo only for an uploaded one.
   */
  lemma RetouchedFrame(t: Toko, namaToko: string, upload: Option<Upload>, now: Instant)
    ensures var u := Retouched(t, namaToko, upload, now);
            && u.idUser == t.idUser && u.createdAt == t.createdAt && u.updatedAt == Some(now)
            && (namaToko == "" ==> u.namaToko == t.namaToko) && (namaToko != "" ==> u.namaToko == namaToko)
            && (upload.None? ==> u.urlFoto == t.urlFoto)
            && (upload.Some? && upload.value.Uploaded? ==> u.urlFoto == upload.value.url)
  {
  }

  /**
   * A successful update leaves every toko's owner as it was, so the
   * caller's toko is still the one `GetMyToko` finds.
   */
  lemma UpdatedTokoStillMine(db: Db, tokoID: int, userID: int, namaToko: string, upload: Option<Upload>, now: Instant)
    requires Tables.Valid(db.toko) && tokoID in db.toko.rows && db.toko.rows[tokoID].idUser == userID
    ensures var db' := db.(toko := Put(db.toko, tokoID, Retouched(db.toko.rows[tokoID], namaToko, upload, now)));
            && Tables.Valid(db'.toko)
            && (forall j :: j in db'.toko.rows <==> j in db.toko.rows)
            && (forall j :: j in db.toko.rows ==> db'.toko.rows[j].idUser == db.toko.rows[j].idUser)
            && GetMyToko(db', userID).Ok?
            && GetMyToko(db', userID).value.id == GetMyToko(db, userID).value.id
  {
    var t' := Retouched(db.toko.rows[tokoID], namaToko, upload, now);
    var db' := db.(toko := Put(db.toko, tokoID, t'));
    PutKeeps(db.toko, tokoID, t');
    assert TokoOwnedBy(userID)(db.toko.rows[tokoID]);
    assert TokoOwnedBy(userID)(db'.toko.rows[tokoID]);
    var mine := FirstWhere(db.toko, TokoOwnedBy(userID)).value;
    assert TokoOwnedBy(userID)(db'.toko.rows[mine]);
    var mine' := FirstWhere(db'.toko, TokoOwnedBy(userID)).value;
    assert TokoOwnedBy(userID)(db.toko.rows[mine']);
  }
}
