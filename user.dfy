/**
 * The signed-in user's own profile, internal/usecase/user_usecase.go.
 *
 * Region names come from an outside wilayah service; `provinceName` and
 * `cityName` stand for its lookups by id text, `None` for a failed lookup.
 * Users are keyed by id; `users.notelp` carries a unique index
 * (internal/config/database.go), so saving a phone number another user holds
 * is a failed write. `users.email` has no such index.
 */
module UserUsecase {
  import opened Wrappers
  import opened Strconv
  import opened Tables
  import opened Store
  import Dates
  import AuthUsecase

  // ---------------------------------------------------------------------------
  // Reading the profile

  /** The province map: the id and the looked-up name ("" when the lookup fails), or empty. */
  function ProfileProvinsi(u: User, provinceName: string -> Option<string>): (m: map<string, string>)
    ensures "id" in m <==> u.idProvinsi.Some?
    ensures u.idProvinsi.None? ==> m == map[]
    ensures u.idProvinsi.Some? ==> m.Keys == {"id", "name"} && m["id"] == Itoa(u.idProvinsi.value)
    ensures u.idProvinsi.Some? && provinceName(Itoa(u.idProvinsi.value)).None? ==> m["name"] == ""
    ensures u.idProvinsi.Some? && provinceName(Itoa(u.idProvinsi.value)).Some? ==>
              m["name"] == provinceName(Itoa(u.idProvinsi.value)).value
  {
    match u.idProvinsi
    case None => map[]
    case Some(p) =>
      var id := Itoa(p);
      map["id" := id, "name" := match provinceName(id) case Some(n) => n case None => ""]
  }

  /** The city map: the id, the province id when there is one, and the looked-up name; or empty. */
  function ProfileKota(u: User, cityName: string -> Option<string>): (m: map<string, string>)
    ensures "id" in m <==> u.idKota.Some?
    ensures u.idKota.None? ==> m == map[]
    ensures "province_id" in m <==> u.idKota.Some? && u.idProvinsi.Some?
    ensures "province_id" in m ==> m["province_id"] == Itoa(u.idProvinsi.value)
    ensures u.idKota.Some? ==> "name" in m && m["id"] == Itoa(u.idKota.value)
    ensures u.idKota.Some? ==> m.Keys == (if u.idProvinsi.Some? then {"id", "province_id", "name"} else {"id", "name"})
    ensures u.idKota.Some? && cityName(Itoa(u.idKota.value)).None? ==> m["name"] == ""
    ensures u.idKota.Some? && cityName(Itoa(u.idKota.value)).Some? ==>
              m["name"] == cityName(Itoa(u.idKota.value)).value
  {
    match u.idKota
    case None => map[]
    case Some(k) =>
      var id := Itoa(k);
      var m := map["id" := id, "name" := match cityName(id) case Some(n) => n case None => ""];
      match u.idProvinsi
      case None => m
      case Some(p) => m["province_id" := Itoa(p)]
  }

  /** `GetProfile`: "user not found" for an unknown id, otherwise the stored profile with its two region maps. */
  function GetProfile(db: Db, userID: int, provinceName: string -> Option<string>, cityName: string -> Option<string>)
    : (r: Result<AuthUsecase.UserResponse, Error>)
    ensures r.Err? <==> userID !in db.users.rows
    ensures r.Err? ==> r.error == Rejected("user not found")
    ensures r.Ok? ==> var u := db.users.rows[userID];
              && r.value.nama == u.nama && r.value.noTelp == u.noTelp && r.value.email == u.email
              && r.value.tentang == u.tentang && r.value.pekerjaan == u.pekerjaan
              && r.value.tanggalLahir == AuthUsecase.TanggalText(u)
              && r.value.idProvinsi == ProfileProvinsi(u, provinceName)
              && r.value.idKota == ProfileKota(u, cityName)
  {
    if userID !in db.users.rows then Err(Rejected("user not found"))
    else
      var u := db.users.rows[userID];
      Ok(AuthUsecase.UserResponse(u.nama, u.noTelp, AuthUsecase.TanggalText(u), u.tentang, u.pekerjaan, u.email,
                                  ProfileProvinsi(u, provinceName), ProfileKota(u, cityName)))
  }

  /**
   * The profile and the login response describe a user alike: same fields,
   * same region ids, and the same keys in both region maps; only the region
   * names differ (looked up here, fixed at login).
   */
  lemma ProfileMatchesLogin(u: User, provinceName: string -> Option<string>, cityName: string -> Option<string>)
    ensures var l := AuthUsecase.Shape(u);
            && ProfileProvinsi(u, provinceName).Keys == l.idProvinsi.Keys
            && ProfileKota(u, cityName).Keys == l.idKota.Keys
            && (forall k :: k in l.idProvinsi && k != "name" ==> ProfileProvinsi(u, provinceName)[k] == l.idProvinsi[k])
            && (forall k :: k in l.idKota && k != "name" ==> ProfileKota(u, cityName)[k] == l.idKota[k])
  {
  }

  // ---------------------------------------------------------------------------
  // Updating the profile

  datatype UpdateProfileRequest = UpdateProfileRequest(
    nama: string,
    kataSandi: string,
    noTelp: string,
    tanggalLahir: string,
    pekerjaan: string,
    email: string,
    idProvinsi: string,
    idKota: string)

  /**
   * The user after an update: each non-empty request field replaces the
   * stored one (the password by its hash `hashed`), a birth date or region id
   * that does not parse keeps the stored value, and the update time is `now`.
   */
  function Amended(u: User, req: UpdateProfileRequest, hashed: string, now: Instant): User {
    var tanggal := AuthUsecase.ParseTanggal(req.tanggalLahir);
    var provinsi := AuthUsecase.ParseId(req.idProvinsi);
    var kota := AuthUsecase.ParseId(req.idKota);
    u.(nama := if req.nama != "" then req.nama else u.nama,
       kataSandi := if req.kataSandi != "" then hashed else u.kataSandi,
       noTelp := if req.noTelp != "" then req.noTelp else u.noTelp,
       tanggalLahir := if tanggal.Some? then tanggal else u.tanggalLahir,
       pekerjaan := if req.pekerjaan != "" then req.pekerjaan else u.pekerjaan,
       email := if req.email != "" then req.email else u.email,
       idProvinsi := if provinsi.Some? then provinsi else u.idProvinsi,
       idKota := if kota.Some? then kota else u.idKota,
       updatedAt := Some(now))
  }

  /** Whether a user other than `userID` holds this phone number. */
  predicate PhoneHeldByOther(db: Db, userID: int, noTelp: string) {
    exists j :: j in db.users.rows && j != userID && db.users.rows[j].noTelp == noTelp
  }

  /**
   * The field-by-field update of `UpdateProfile`, with the password already
   * hashed; each field of the loaded user is replaced in turn or kept.
   */
  method AmendProfile(u: User, req: UpdateProfileRequest, hashed: string, now: Instant) returns (user: User)
    ensures user == Amended(u, req, hashed, now)
  {
    ghost var target := Amended(u, req, hashed, now);
    var nama, kataSandi, noTelp, tanggalLahir := u.nama, u.kataSandi, u.noTelp, u.tanggalLahir;
    var pekerjaan, email, idProvinsi, idKota := u.pekerjaan, u.email, u.idProvinsi, u.idKota;
    if req.nama != "" {
      nama := req.nama;
    }
    assert nama == target.nama;
    if req.kataSandi != "" {
      kataSandi := hashed;
    }
    assert kataSandi == target.kataSandi;
    if req.noTelp != "" {
      noTelp := req.noTelp;
    }
    assert noTelp == target.noTelp;
    if req.tanggalLahir != "" {
      var t := Dates.ParseDMY(req.tanggalLahir);
      if t.Some? {
        tanggalLahir := t;
      }
    }
    assert tanggalLahir == target.tanggalLahir;
    if req.pekerjaan != "" {
      pekerjaan := req.pekerjaan;
    }
    assert pekerjaan == target.pekerjaan;
    if req.email != "" {
      email := req.email;
    }
    assert email == target.email;
    if req.idProvinsi != "" {
      var id := Atoi(req.idProvinsi);
      if id.ok {
        idProvinsi := Some(id.value);
      }
    }
    assert idProvinsi == target.idProvinsi;
    if req.idKota != "" {
      var id := Atoi(req.idKota);
      if id.ok {
        idKota := Some(id.value);
      }
    }
    assert idKota == target.idKota;
    user := u.(nama := nama, kataSandi := kataSandi, noTelp := noTelp, tanggalLahir := tanggalLahir,
               pekerjaan := pekerjaan, email := email, idProvinsi := idProvinsi, idKota := idKota,
               updatedAt := Some(now));
  }

  /**
   * `UpdateProfile`. The new password is hashed before anything is saved; the
   * single write (write 0) is `Save`, which the unique phone index refuses
   * when another user has the new phone number.
   */
  method UpdateProfile(db: Db, userID: int, req: UpdateProfileRequest, hash: string -> Option<string>,
                       now: Instant, fault: Option<nat>)
    returns (r: Outcome<Error>, db': Db)
    ensures userID !in db.users.rows ==> r == Fail(Rejected("user not found")) && db' == db
    ensures userID in db.users.rows && req.kataSandi != "" && hash(req.kataSandi).None? ==>
              r == Fail(HashFailed) && db' == db
    ensures userID in db.users.rows && !(req.kataSandi != "" && hash(req.kataSandi).None?) ==>
              var u' := Amended(db.users.rows[userID], req,
                                if req.kataSandi != "" then hash(req.kataSandi).value else "", now);
              if Fails(fault, 0) || PhoneHeldByOther(db, userID, u'.noTelp) then r == Fail(WriteFailed) && db' == db
              else r == Pass && db' == db.(users := Put(db.users, userID, u'))
  {
    if userID !in db.users.rows {
      return Fail(Rejected("user not found")), db;
    }
    // The source hashes between setting the name and the phone number; the
    // loaded copy is dropped on a hash error, so hashing first changes nothing.
    var hashed := "";
    if req.kataSandi != "" {
      var h := hash(req.kataSandi);
      if h.None? {
        return Fail(HashFailed), db;
      }
      hashed := h.value;
    }
    var user := AmendProfile(db.users.rows[userID], req, hashed, now);

    if Fails(fault, 0) || PhoneHeldByOther(db, userID, user.noTelp) {
      return Fail(WriteFailed), db;
    }
    return Pass, db.(users := Put(db.users, userID, user));
  }

  /**
   * What an update leaves alone: an empty request field keeps the stored
   * value, and the gender, bio, admin flag and creation time never change.
   * A non-empty name, phone, job or email is taken as given.
   */
  lemma AmendedFrame(u: User, req: UpdateProfileRequest, hashed: string, now: Instant)
    ensures var v := Amended(u, req, hashed, now);
            && v.jenisKelamin == u.jenisKelamin && v.tentang == u.tentang
            && v.isAdmin == u.isAdmin && v.createdAt == u.createdAt && v.updatedAt == Some(now)
            && (req.nama == "" ==> v.nama == u.nama) && (req.nama != "" ==> v.nama == req.nama)
            && (req.kataSandi == "" ==> v.kataSandi == u.kataSandi) && (req.kataSandi != "" ==> v.kataSandi == hashed)
            && (req.noTelp == "" ==> v.noTelp == u.noTelp) && (req.noTelp != "" ==> v.noTelp == req.noTelp)
            && (req.pekerjaan == "" ==> v.pekerjaan == u.pekerjaan) && (req.pekerjaan != "" ==> v.pekerjaan == req.pekerjaan)
            && (req.email == "" ==> v.email == u.email) && (req.email != "" ==> v.email == req.email)
            && (req.tanggalLahir == "" ==> v.tanggalLahir == u.tanggalLahir)
            && (req.idProvinsi == "" ==> v.idProvinsi == u.idProvinsi)
            && (req.idKota == "" ==> v.idKota == u.idKota)
  {
  }

  /**
   * A birth date or region id that does not parse is dropped silently: the
   * stored value stays. One that parses is stored and reads back as typed.
   */
  lemma AmendedParsedFields(u: User, req: UpdateProfileRequest, hashed: string, now: Instant)
    ensures var v := Amended(u, req, hashed, now);
            && (Dates.ParseDMY(req.tanggalLahir).None? ==> v.tanggalLahir == u.tanggalLahir)
            && (Dates.ParseDMY(req.tanggalLahir).Some? ==> AuthUsecase.TanggalText(v) == req.tanggalLahir)
            && (!IsDecimal(req.idProvinsi) ==> v.idProvinsi == u.idProvinsi)
            && (!IsDecimal(req.idKota) ==> v.idKota == u.idKota)
  {
    var v := Amended(u, req, hashed, now);
    if Dates.ParseDMY(req.tanggalLahir).Some? {
      assert v.tanggalLahir == Dates.ParseDMY(req.tanggalLahir);
    }
  }

  /** Sending the same update twice stores what sending it once stores. */
  lemma AmendedIdempotent(u: User, req: UpdateProfileRequest, hashed: string, now: Instant)
    ensures Amended(Amended(u, req, hashed, now), req, hashed, now) == Amended(u, req, hashed, now)
  {
  }

  /**
   * A successful update keeps phone numbers unique (the database index sees
   * to that), keeps the user table well formed and touches no other user.
   */
  lemma UpdateKeepsPhonesUnique(db: Db, userID: int, u': User)
    requires WellFormed(db) && userID in db.users.rows && !PhoneHeldByOther(db, userID, u'.noTelp)
    requires forall a, b :: a in db.users.rows && b in db.users.rows && a != b ==>
               db.users.rows[a].noTelp != db.users.rows[b].noTelp
    ensures var t := Put(db.users, userID, u');
            && Tables.Valid(t) && t.rows.Keys == db.users.rows.Keys
            && (forall j :: j in t.rows && j != userID ==> t.rows[j] == db.users.rows[j])
            && forall a, b :: a in t.rows && b in t.rows && a != b ==> t.rows[a].noTelp != t.rows[b].noTelp
  {
    PutKeeps(db.users, userID, u');
    var t := Put(db.users, userID, u');
    forall a, b | a in t.rows && b in t.rows && a != b ensures t.rows[a].noTelp != t.rows[b].noTelp {
      if a == userID {
        assert db.users.rows[b].noTelp != u'.noTelp;
      } else if b == userID {
        assert db.users.rows[a].noTelp != u'.noTelp;
      }
    }
  }

  // ---------------------------------------------------------------------------
  // Emails: `Register` refuses a taken email, `UpdateProfile` does not

  function TwoUsers(a: User, b: User): Db {
    Db(Table(map[1 := a, 2 := b], 3), Empty(), Empty(), Empty(), Empty(), Empty(), Empty(), Empty())
  }

  /**
   * As written, user 1 can take user 2's email through `UpdateProfile`: the
   * update goes through and the two users then share an email, which
   * `Register` would have refused with "email already registered".
   */
  lemma UpdateProfileSharesEmail(hash: string -> Option<string>, now: Instant)
    ensures var a := User("Ani", "h1", "0811", None, "", "", "", "ani@mail.id", None, None, false, None, None);
            var b := User("Budi", "h2", "0822", None, "", "", "", "budi@mail.id", None, None, false, None, None);
            var db := TwoUsers(a, b);
            var req := UpdateProfileRequest("", "", "", "", "", "budi@mail.id", "", "");
            && AuthUsecase.UniqueContacts(db)
            && !PhoneHeldByOther(db, 1, Amended(a, req, "", now).noTelp)
            && var db' := db.(users := Put(db.users, 1, Amended(a, req, "", now)));
               && !AuthUsecase.UniqueContacts(db')
               && Exists(db.users, AuthUsecase.EmailIs("budi@mail.id"))
  {
    var a := User("Ani", "h1", "0811", None, "", "", "", "ani@mail.id", None, None, false, None, None);
    var b := User("Budi", "h2", "0822", None, "", "", "", "budi@mail.id", None, None, false, None, None);
    var db := TwoUsers(a, b);
    var req := UpdateProfileRequest("", "", "", "", "", "budi@mail.id", "", "");
    var db' := db.(users := Put(db.users, 1, Amended(a, req, "", now)));
    assert db'.users.rows[1].email == db'.users.rows[2].email;
    assert AuthUsecase.EmailIs("budi@mail.id")(db.users.rows[2]);
    assert a.noTelp != b.noTelp;
  }

  /** Whether a user other than `userID` holds this email. */
  predicate EmailHeldByOther(db: Db, userID: int, email: string) {
    exists j :: j in db.users.rows && j != userID && db.users.rows[j].email == email
  }

  /**
   * `UpdateProfile` with the email check `Register` makes: a new email
   * another user holds is refused with "email already registered" before
   * anything is hashed or saved; otherwise it behaves as `UpdateProfile`.
   */
  method UpdateProfileChecked(db: Db, userID: int, req: UpdateProfileRequest, hash: string -> Option<string>,
                              now: Instant, fault: Option<nat>)
    returns (r: Outcome<Error>, db': Db)
    ensures userID !in db.users.rows ==> r == Fail(Rejected("user not found")) && db' == db
    ensures userID in db.users.rows && req.email != "" && EmailHeldByOther(db, userID, req.email) ==>
              r == Fail(Rejected("email already registered")) && db' == db
    ensures r == Pass ==> && userID in db.users.rows && (req.email == "" || !EmailHeldByOther(db, userID, req.email))
                          && (req.kataSandi != "" ==> hash(req.kataSandi).Some?)
    ensures r == Pass ==>
              var u' := Amended(db.users.rows[userID], req,
                                if req.kataSandi != "" then hash(req.kataSandi).value else "", now);
              && !PhoneHeldByOther(db, userID, u'.noTelp)
              && db' == db.(users := Put(db.users, userID, u'))
    ensures (req.email == "" || !EmailHeldByOther(db, userID, req.email)) ==>
              && (userID in db.users.rows && req.kataSandi != "" && hash(req.kataSandi).None? ==>
                    r == Fail(HashFailed) && db' == db)
              && (userID in db.users.rows && !(req.kataSandi != "" && hash(req.kataSandi).None?) ==>
                    var u' := Amended(db.users.rows[userID], req,
                                      if req.kataSandi != "" then hash(req.kataSandi).value else "", now);
                    if Fails(fault, 0) || PhoneHeldByOther(db, userID, u'.noTelp) then r == Fail(WriteFailed) && db' == db
                    else r == Pass && db' == db.(users := Put(db.users, userID, u')))
  {
    if userID in db.users.rows && req.email != "" && EmailHeldByOther(db, userID, req.email) {
      return Fail(Rejected("email already registered")), db;
    }
    r, db' := UpdateProfile(db, userID, req, hash, now, fault);
  }

  /** The checked update keeps both emails and phone numbers unique. */
  lemma CheckedUpdateKeepsContactsUnique(db: Db, userID: int, req: UpdateProfileRequest, hashed: string, now: Instant)
    requires WellFormed(db) && AuthUsecase.UniqueContacts(db) && userID in db.users.rows
    requires req.email == "" || !EmailHeldByOther(db, userID, req.email)
    requires !PhoneHeldByOther(db, userID, Amended(db.users.rows[userID], req, hashed, now).noTelp)
    ensures AuthUsecase.UniqueContacts(db.(users := Put(db.users, userID, Amended(db.users.rows[userID], req, hashed, now))))
  {
    var u' := Amended(db.users.rows[userID], req, hashed, now);
    var db' := db.(users := Put(db.users, userID, u'));
    PutKeeps(db.users, userID, u');
    forall a, b | a in db'.users.rows && b in db'.users.rows && a != b
      ensures db'.users.rows[a].email != db'.users.rows[b].email && db'.users.rows[a].noTelp != db'.users.rows[b].noTelp
    {
      if a == userID {
        assert db.users.rows[b].noTelp != u'.noTelp;
        assert db.users.rows[b].email != u'.email;
      } else if b == userID {
        assert db.users.rows[a].noTelp != u'.noTelp;
        assert db.users.rows[a].email != u'.email;
      }
    }
  }
}
