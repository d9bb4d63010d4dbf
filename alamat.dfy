/**
 * Shipping addresses, internal/usecase/alamat_usecase.go.
 *
 * Every address belongs to one user; reading, changing and deleting an
 * address by id first checks that it exists and then that the caller owns it.
 */
module AlamatUsecase {
  import opened Wrappers
  import opened Tables
  import opened Store

  /** `model.AlamatRequest`. */
  datatype AlamatRequest = AlamatRequest(judulAlamat: string, namaPenerima: string, noTelp: string, detailAlamat: string)

  /** The `Where("id_user = ?", userID)` condition on addresses. */
  function AlamatOf(userID: int): Alamat -> bool {
    (a: Alamat) => a.idUser == userID
  }

  // ---------------------------------------------------------------------------
  // Reading

  /** `GetMyAlamat`: the caller's addresses, by id. */
  function GetMyAlamat(db: Db, userID: int): (r: map<int, Alamat>)
    ensures forall id :: id in r <==> id in db.alamat.rows && db.alamat.rows[id].idUser == userID
    ensures forall id :: id in r ==> r[id] == db.alamat.rows[id]
  {
    Where(db.alamat, AlamatOf(userID))
  }

  /** `GetAlamatByID`: "alamat not found", then "unauthorized: not your alamat", else the stored row. */
  function GetAlamatByID(db: Db, id: int, userID: int): (r: Result<Alamat, Error>)
    ensures id !in db.alamat.rows ==> r == Err(Rejected("alamat not found"))
    ensures id in db.alamat.rows && db.alamat.rows[id].idUser != userID ==> r == Err(Rejected("unauthorized: not your alamat"))
    ensures r.Ok? <==> id in db.alamat.rows && db.alamat.rows[id].idUser == userID
    ensures r.Ok? ==> r.value == db.alamat.rows[id]
  {
    if id !in db.alamat.rows then Err(Rejected("alamat not found"))
    else if db.alamat.rows[id].idUser != userID then Err(Rejected("unauthorized: not your alamat"))
    else Ok(db.alamat.rows[id])
  }

  /** An address can be read by id exactly when it is among the caller's own. */
  lemma ReadableIffMine(db: Db, id: int, userID: int)
    ensures GetAlamatByID(db, id, userID).Ok? <==> id in GetMyAlamat(db, userID)
    ensures id in GetMyAlamat(db, userID) ==> GetAlamatByID(db, id, userID).value == GetMyAlamat(db, userID)[id]
  {
  }

  // ---------------------------------------------------------------------------
  // Creating

  /** The row `CreateAlamat` creates: owned by the caller, created and updated at `now`. */
  function NewAlamat(userID: int, req: AlamatRequest, now: Instant): Alamat {
    Alamat(userID, req.judulAlamat, req.namaPenerima, req.noTelp, req.detailAlamat, Some(now), Some(now))
  }

  /** `CreateAlamat`: one write (write 0); the new row's id on success and 0 on failure. */
  method CreateAlamat(db: Db, userID: int, req: AlamatRequest, now: Instant, fault: Option<nat>)
    returns (id: int, r: Outcome<Error>, db': Db)
    ensures Fails(fault, 0) ==> id == 0 && r == Fail(WriteFailed) && db' == db
    ensures !Fails(fault, 0) ==>
              id == db.alamat.next && r == Pass && db' == db.(alamat := Insert(db.alamat, NewAlamat(userID, req, now)))
  {
    var alamat := Alamat(userID, req.judulAlamat, req.namaPenerima, req.noTelp, req.detailAlamat, Some(now), Some(now));
    if Fails(fault, 0) {
      return 0, Fail(WriteFailed), db;
    }
    id := db.alamat.next;
    db' := db.(alamat := Insert(db.alamat, alamat));
    r := Pass;
  }

  /**
   * A created address belongs to its creator, whatever the request says: the
   * creator reads it back by id and in their list, anyone else is refused,
   * and every other address stays as it was.
   */
  lemma CreatedAlamatIsMine(db: Db, userID: int, other: int, req: AlamatRequest, now: Instant)
    requires Tables.Valid(db.alamat) && other != userID
    ensures var db' := db.(alamat := Insert(db.alamat, NewAlamat(userID, req, now)));
            var id := db.alamat.next;
            && Tables.Valid(db'.alamat)
            && GetAlamatByID(db', id, userID) == Ok(NewAlamat(userID, req, now))
            && GetAlamatByID(db', id, other) == Err(Rejected("unauthorized: not your alamat"))
            && GetMyAlamat(db', userID) == GetMyAlamat(db, userID)[id := NewAlamat(userID, req, now)]
            && GetMyAlamat(db', other) == GetMyAlamat(db, other)
  {
    InsertFresh(db.alamat, NewAlamat(userID, req, now));
  }

  // ---------------------------------------------------------------------------
  // Updating and deleting

  /** The address after an update: all four text fields replaced, owner and creation time kept. */
  function Readdressed(a: Alamat, req: AlamatRequest, now: Instant): Alamat {
    a.(judulAlamat := req.judulAlamat, namaPenerima := req.namaPenerima, noTelp := req.noTelp,
       detailAlamat := req.detailAlamat, updatedAt := Some(now))
  }

  /** `UpdateAlamat`: the ownership checks of `GetAlamatByID`, then one write (write 0). */
  method UpdateAlamat(db: Db, id: int, userID: int, req: AlamatRequest, now: Instant, fault: Option<nat>)
    returns (r: Outcome<Error>, db': Db)
    ensures GetAlamatByID(db, id, userID).Err? ==> r == Fail(GetAlamatByID(db, id, userID).error) && db' == db
    ensures GetAlamatByID(db, id, userID).Ok? ==>
              if Fails(fault, 0) then r == Fail(WriteFailed) && db' == db
              else r == Pass && db' == db.(alamat := Put(db.alamat, id, Readdressed(db.alamat.rows[id], req, now)))
  {
    if id !in db.alamat.rows {
      return Fail(Rejected("alamat not found")), db;
    }
    var alamat := db.alamat.rows[id];
    if alamat.idUser != userID {
      return Fail(Rejected("unauthorized: not your alamat")), db;
    }
    alamat := alamat.(judulAlamat := req.judulAlamat);
    alamat := alamat.(namaPenerima := req.namaPenerima);
    alamat := alamat.(noTelp := req.noTelp);
    alamat := alamat.(detailAlamat := req.detailAlamat);
    alamat := alamat.(updatedAt := Some(now));
    if Fails(fault, 0) {
      return Fail(WriteFailed), db;
    }
    return Pass, db.(alamat := Put(db.alamat, id, alamat));
  }

  /**
   * An update by the owner reads back as the request (the fields are
   * overwritten even when empty), keeps the owner, and changes no other
   * address; so no user's list of addresses gains or loses an entry.
   */
  lemma UpdatedAlamatReadsBack(db: Db, id: int, userID: int, req: AlamatRequest, now: Instant)
    requires Tables.Valid(db.alamat) && GetAlamatByID(db, id, userID).Ok?
    ensures var db' := db.(alamat := Put(db.alamat, id, Readdressed(db.alamat.rows[id], req, now)));
            && Tables.Valid(db'.alamat)
            && GetAlamatByID(db', id, userID).Ok?
            && var a := GetAlamatByID(db', id, userID).value;
               && a.judulAlamat == req.judulAlamat && a.namaPenerima == req.namaPenerima
               && a.noTelp == req.noTelp && a.detailAlamat == req.detailAlamat
               && a.createdAt == db.alamat.rows[id].createdAt
               && (forall j :: j in db.alamat.rows && j != id ==> db'.alamat.rows[j] == db.alamat.rows[j])
               && forall u :: GetMyAlamat(db', u).Keys == GetMyAlamat(db, u).Keys
  {
    var db' := db.(alamat := Put(db.alamat, id, Readdressed(db.alamat.rows[id], req, now)));
    PutKeeps(db.alamat, id, Readdressed(db.alamat.rows[id], req, now));
    forall u ensures GetMyAlamat(db', u).Keys == GetMyAlamat(db, u).Keys {
      assert forall j :: j in GetMyAlamat(db', u) <==> j in GetMyAlamat(db, u);
    }
  }

  /** `DeleteAlamat`: the ownership checks of `GetAlamatByID`, then one write (write 0). */
  method DeleteAlamat(db: Db, id: int, userID: int, fault: Option<nat>)
    returns (r: Outcome<Error>, db': Db)
    ensures GetAlamatByID(db, id, userID).Err? ==> r == Fail(GetAlamatByID(db, id, userID).error) && db' == db
    ensures GetAlamatByID(db, id, userID).Ok? ==>
              if Fails(fault, 0) then r == Fail(WriteFailed) && db' == db
              else r == Pass && db' == db.(alamat := Remove(db.alamat, id))
  {
    if id !in db.alamat.rows {
      return Fail(Rejected("alamat not found")), db;
    }
    if db.alamat.rows[id].idUser != userID {
      return Fail(Rejected("unauthorized: not your alamat")), db;
    }
    if Fails(fault, 0) {
      return Fail(WriteFailed), db;
    }
    return Pass, db.(alamat := Remove(db.alamat, id));
  }

  /**
   * Only the owner can delete an address. After the delete nobody finds it
   * any more, and every other address is still there unchanged.
   */
  lemma DeletedAlamatGone(db: Db, id: int, userID: int, anyone: int)
    requires GetAlamatByID(db, id, userID).Ok?
    ensures db.alamat.rows[id].idUser == userID
    ensures var db' := db.(alamat := Remove(db.alamat, id));
            && GetAlamatByID(db', id, anyone) == Err(Rejected("alamat not found"))
            && id !in GetMyAlamat(db', userID)
            && forall j :: j in db.alamat.rows && j != id ==> GetAlamatByID(db', j, anyone) == GetAlamatByID(db, j, anyone)
  {
  }
}
