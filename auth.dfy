/**
 * Registration and login, internal/usecase/auth_usecase.go.
 *
 * `Register` refuses a taken email, then a taken phone number, hashes the
 * password, parses the optional birth date and region ids (keeping nothing
 * for a value that does not parse), and creates the user and its toko in one
 * transaction. `Login` finds the user by phone number, checks the password
 * and shapes the profile it returns with a token.
 *
 * bcrypt and JWT are parameters: `hash` is `utils.HashPassword` (`None` for
 * its error), `check` is `utils.CheckPasswordHash`, and `token` is
 * `utils.GenerateToken` for the user's id, email and admin flag.
 */
module AuthUsecase {
  import opened Wrappers
  import opened Strconv
  import opened Tables
  import opened Store
  import Dates
  import Slug

  // ---------------------------------------------------------------------------
  // Parsing the optional fields

  /** An optional birth date: nothing for "", and nothing for text "02/01/2006" does not accept. */
  function ParseTanggal(s: string): (r: Option<Dates.Date>)
    ensures r.Some? <==> s != "" && Dates.ParseDMY(s).Some?
    ensures r.Some? ==> Dates.Valid(r.value) && Dates.FormatDMY(r.value) == s
  {
    if s == "" then None
    else
      var d := Dates.ParseDMY(s);
      if d.Some? then Dates.FormatParseDMY(s); d else None
  }

  /** An optional region id: nothing for "", and nothing for text `strconv.Atoi` refuses. */
  function ParseId(s: string): (r: Option<int>)
    ensures r.Some? <==> IsDecimal(s) && MinInt64 <= DecimalValue(s) <= MaxInt64
    ensures r.Some? ==> r.value == DecimalValue(s)
  {
    AtoiOkIff(s);
    if s != "" && Atoi(s).ok then Some(Atoi(s).value) else None
  }

  /** The province id as `Login` prints it reads back as the same id. */
  lemma ParseIdItoa(n: int)
    requires MinInt64 <= n <= MaxInt64
    ensures ParseId(Itoa(n)) == Some(n)
  {
    ItoaAtoiRoundTrip(n);
    assert Itoa(n) != "";
  }

  // ---------------------------------------------------------------------------
  // Registration

  datatype RegisterRequest = RegisterRequest(
    nama: string,
    kataSandi: string,
    noTelp: string,
    tanggalLahir: string,
    pekerjaan: string,
    email: string,
    idProvinsi: string,
    idKota: string)

  function EmailIs(email: string): User -> bool {
    (u: User) => u.email == email
  }

  function NoTelpIs(noTelp: string): User -> bool {
    (u: User) => u.noTelp == noTelp
  }

  /** The user `Register` creates; it is never an admin, and gender and bio start empty. */
  function NewUser(req: RegisterRequest, hashed: string, now: Instant): User {
    User(req.nama, hashed, req.noTelp, ParseTanggal(req.tanggalLahir), "", "", req.pekerjaan, req.email,
         ParseId(req.idProvinsi), ParseId(req.idKota), false, Some(now), Some(now))
  }

  /** The store after a successful registration: the user, then its toko named after the user. */
  function Registered(db: Db, u: User, now: Instant): Db {
    db.(users := Insert(db.users, u),
        toko := Insert(db.toko, Toko(db.users.next, Slug.GenerateSlug(u.nama), "", Some(now), Some(now))))
  }

  /**
   * `Register`. The duplicate checks and the hash come before any write; the
   * user (write 0) and the toko (write 1) are created together or not at all.
   */
  method Register(db: Db, req: RegisterRequest, hash: string -> Option<string>, now: Instant, fault: Option<nat>)
    returns (r: Outcome<Error>, db': Db)
    ensures Exists(db.users, EmailIs(req.email)) ==> r == Fail(Rejected("email already registered")) && db' == db
    ensures !Exists(db.users, EmailIs(req.email)) && Exists(db.users, NoTelpIs(req.noTelp)) ==>
              r == Fail(Rejected("nomor telepon already registered")) && db' == db
    ensures !Exists(db.users, EmailIs(req.email)) && !Exists(db.users, NoTelpIs(req.noTelp)) ==>
              if hash(req.kataSandi).None? then r == Fail(HashFailed) && db' == db
              else if Fails(fault, 0) || Fails(fault, 1) then r == Fail(WriteFailed) && db' == db
              else r == Pass && db' == Registered(db, NewUser(req, hash(req.kataSandi).value, now), now)
  {
    if Exists(db.users, EmailIs(req.email)) {
      return Fail(Rejected("email already registered")), db;
    }
    if Exists(db.users, NoTelpIs(req.noTelp)) {
      return Fail(Rejected("nomor telepon already registered")), db;
    }
    var hashed := hash(req.kataSandi);
    if hashed.None? {
      return Fail(HashFailed), db;
    }

    var tanggalLahir: Option<Dates.Date> := None;
    if req.tanggalLahir != "" {
      var t := Dates.ParseDMY(req.tanggalLahir);
      if t.Some? {
        tanggalLahir := t;
      }
    }
    var idProvinsi: Option<int> := None;
    var idKota: Option<int> := None;
    if req.idProvinsi != "" {
      var id := Atoi(req.idProvinsi);
      if id.ok {
        idProvinsi := Some(id.value);
      }
    }
    if req.idKota != "" {
      var id := Atoi(req.idKota);
      if id.ok {
        idKota := Some(id.value);
      }
    }
    var user := User(req.nama, hashed.value, req.noTelp, tanggalLahir, "", "", req.pekerjaan, req.email,
                     idProvinsi, idKota, false, Some(now), Some(now));

    if Fails(fault, 0) {
      return Fail(WriteFailed), db;
    }
    var userID := db.users.next;
    var users := Insert(db.users, user);
    var toko := Toko(userID, Slug.GenerateSlug(user.nama), "", Some(now), Some(now));
    if Fails(fault, 1) {
      return Fail(WriteFailed), db;
    }
    return Pass, db.(users := users, toko := Insert(db.toko, toko));
  }

  /** No two users share an email or a phone number. */
  predicate UniqueContacts(db: Db) {
    forall a, b :: a in db.users.rows && b in db.users.rows && a != b ==>
      db.users.rows[a].email != db.users.rows[b].email && db.users.rows[a].noTelp != db.users.rows[b].noTelp
  }

  /** Every user owns a toko. */
  predicate EveryUserHasToko(db: Db) {
    forall u :: u in db.users.rows ==> exists t :: t in db.toko.rows && db.toko.rows[t].idUser == u
  }

  /**
   * A registration that goes through keeps emails and phone numbers unique
   * and gives the new user, who is no admin and whose password is stored
   * hashed, a toko named after the slug of their name.
   */
  lemma RegisteredKeepsInvariants(db: Db, req: RegisterRequest, hashed: string, now: Instant)
    requires WellFormed(db) && UniqueContacts(db) && EveryUserHasToko(db)
    requires !Exists(db.users, EmailIs(req.email)) && !Exists(db.users, NoTelpIs(req.noTelp))
    ensures var db' := Registered(db, NewUser(req, hashed, now), now);
            && WellFormed(db') && UniqueContacts(db') && EveryUserHasToko(db')
            && db.users.next in db'.users.rows
            && var u := db'.users.rows[db.users.next];
               && !u.isAdmin && u.kataSandi == hashed
               && db.toko.next in db'.toko.rows
               && db'.toko.rows[db.toko.next].idUser == db.users.next
               && db'.toko.rows[db.toko.next].namaToko == Slug.GenerateSlug(req.nama)
  {
    var u := NewUser(req, hashed, now);
    var db' := Registered(db, u, now);
    InsertFresh(db.users, u);
    InsertFresh(db.toko, Toko(db.users.next, Slug.GenerateSlug(u.nama), "", Some(now), Some(now)));
    forall a, b | a in db'.users.rows && b in db'.users.rows && a != b
      ensures db'.users.rows[a].email != db'.users.rows[b].email && db'.users.rows[a].noTelp != db'.users.rows[b].noTelp
    {
      if a == db.users.next {
        assert !EmailIs(req.email)(db.users.rows[b]) && !NoTelpIs(req.noTelp)(db.users.rows[b]);
      } else if b == db.users.next {
        assert !EmailIs(req.email)(db.users.rows[a]) && !NoTelpIs(req.noTelp)(db.users.rows[a]);
      }
    }
    forall v | v in db'.users.rows ensures exists t :: t in db'.toko.rows && db'.toko.rows[t].idUser == v {
      if v == db.users.next {
        assert db'.toko.rows[db.toko.next].idUser == v;
      } else {
        var t :| t in db.toko.rows && db.toko.rows[t].idUser == v;
        assert db'.toko.rows[t].idUser == v;
      }
    }
  }

  // ---------------------------------------------------------------------------
  // Login

  datatype LoginRequest = LoginRequest(noTelp: string, kataSandi: string)

  /** `model.UserResponse`; the two region maps have string values only. */
  datatype UserResponse = UserResponse(
    nama: string,
    noTelp: string,
    tanggalLahir: string,
    tentang: string,
    pekerjaan: string,
    email: string,
    idProvinsi: map<string, string>,
    idKota: map<string, string>)

  datatype LoginResponse = LoginResponse(user: UserResponse, token: string)

  /** The birth date as "02/01/2006", or "" when there is none. */
  function TanggalText(u: User): (s: string)
    ensures u.tanggalLahir.None? ==> s == ""
    ensures u.tanggalLahir.Some? && Dates.Valid(u.tanggalLahir.value) ==> Dates.ParseDMY(s) == u.tanggalLahir
  {
    match u.tanggalLahir
    case None => ""
    case Some(d) =>
      if Dates.Valid(d) then Dates.ParseFormatDMY(d); Dates.FormatDMY(d) else ""
  }

  /** `Login`'s province map: the id and a fixed name, or empty. */
  function LoginProvinsi(u: User): (m: map<string, string>)
    ensures "id" in m <==> u.idProvinsi.Some?
    ensures u.idProvinsi.None? ==> m == map[]
    ensures u.idProvinsi.Some? ==> m.Keys == {"id", "name"} && m["id"] == Itoa(u.idProvinsi.value)
    ensures u.idProvinsi.Some? ==> m["name"] == "ACEH"
  {
    match u.idProvinsi
    case None => map[]
    case Some(p) => map["id" := Itoa(p), "name" := "ACEH"]
  }

  /**
   * `Login`'s city map as written: `province_id` dereferences the province id
   * whenever a city id is set; `None` stands for the nil dereference that
   * panics when there is no province id.
   */
  function LoginKotaAsWritten(u: User): Option<map<string, string>> {
    match u.idKota
    case None => Some(map[])
    case Some(k) =>
      match u.idProvinsi
      case None => None
      case Some(p) => Some(map["id" := Itoa(k), "province_id" := Itoa(p), "name" := "KABUPATEN SIMEULUE"])
  }

  /**
   * `Login`'s city map with the province id guarded, as `GetProfile` does:
   * never a failure, and `province_id` present exactly when both ids are.
   */
  function LoginKota(u: User): (m: map<string, string>)
    ensures "id" in m <==> u.idKota.Some?
    ensures u.idKota.None? ==> m == map[]
    ensures "province_id" in m <==> u.idKota.Some? && u.idProvinsi.Some?
    ensures LoginKotaAsWritten(u).Some? ==> LoginKotaAsWritten(u).value == m
    ensures u.idKota.Some? ==> m.Keys == (if u.idProvinsi.Some? then {"id", "province_id", "name"} else {"id", "name"})
    ensures u.idKota.Some? ==> m["id"] == Itoa(u.idKota.value) && m["name"] == "KABUPATEN SIMEULUE"
    ensures "province_id" in m ==> m["province_id"] == Itoa(u.idProvinsi.value)
  {
    match u.idKota
    case None => map[]
    case Some(k) =>
      var m := map["id" := Itoa(k), "name" := "KABUPATEN SIMEULUE"];
      match u.idProvinsi
      case None => m
      case Some(p) => m["province_id" := Itoa(p)]
  }

  /**
   * A registration with a city id but no province id (an empty or unparsable
   * `id_provinsi`) stores a user the as-written `Login` cannot shape: its
   * city map dereferences the missing province id.
   */
  lemma LoginPanicsAfterRegister(db: Db, req: RegisterRequest, hashed: string, now: Instant)
    requires Atoi(req.idKota).ok && req.idKota != "" && req.idProvinsi == ""
    ensures LoginKotaAsWritten(NewUser(req, hashed, now)).None?
    ensures "province_id" !in LoginKota(NewUser(req, hashed, now)) && "id" in LoginKota(NewUser(req, hashed, now))
  {
  }

  function Shape(u: User): UserResponse {
    UserResponse(u.nama, u.noTelp, TanggalText(u), u.tentang, u.pekerjaan, u.email, LoginProvinsi(u), LoginKota(u))
  }

  /**
   * `Login`: the first user with that phone number; an unknown number and a
   * wrong password give the same error, so the two cannot be told apart.
   */
  function Login(db: Db, req: LoginRequest, check: (string, string) -> bool, token: (int, string, bool) -> Option<string>)
    : (r: Result<LoginResponse, Error>)
    requires Tables.Valid(db.users)
    ensures !Exists(db.users, NoTelpIs(req.noTelp)) ==> r == Err(Rejected("No Telp atau kata sandi salah"))
    ensures Exists(db.users, NoTelpIs(req.noTelp)) ==>
              var id := FirstWhere(db.users, NoTelpIs(req.noTelp)).value;
              var u := db.users.rows[id];
              && (!check(req.kataSandi, u.kataSandi) ==> r == Err(Rejected("No Telp atau kata sandi salah")))
              && (check(req.kataSandi, u.kataSandi) && token(id, u.email, u.isAdmin).None? ==> r == Err(TokenFailed))
              && (check(req.kataSandi, u.kataSandi) && token(id, u.email, u.isAdmin).Some? ==>
                    r == Ok(LoginResponse(Shape(u), token(id, u.email, u.isAdmin).value)))
  {
    match FirstWhere(db.users, NoTelpIs(req.noTelp))
    case None => Err(Rejected("No Telp atau kata sandi salah"))
    case Some(id) =>
      var u := db.users.rows[id];
      if !check(req.kataSandi, u.kataSandi) then Err(Rejected("No Telp atau kata sandi salah"))
      else match token(id, u.email, u.isAdmin)
        case None => Err(TokenFailed)
        case Some(t) => Ok(LoginResponse(Shape(u), t))
  }

  /**
   * Right after registering, logging in with the same phone number and a
   * password the hash accepts returns the profile that was registered: the
   * birth date as it was typed when it parsed, and "" otherwise.
   */
  lemma LoginAfterRegister(db: Db, req: RegisterRequest, hashed: string, now: Instant,
                           check: (string, string) -> bool, token: (int, string, bool) -> Option<string>)
    requires WellFormed(db) && !Exists(db.users, EmailIs(req.email)) && !Exists(db.users, NoTelpIs(req.noTelp))
    requires check(req.kataSandi, hashed) && token(db.users.next, req.email, false).Some?
    ensures var db' := Registered(db, NewUser(req, hashed, now), now);
            && Tables.Valid(db'.users)
            && var r := Login(db', LoginRequest(req.noTelp, req.kataSandi), check, token);
               && r.Ok?
               && r.value.user.nama == req.nama && r.value.user.email == req.email
               && (Dates.ParseDMY(req.tanggalLahir).Some? ==> r.value.user.tanggalLahir == req.tanggalLahir)
               && (Dates.ParseDMY(req.tanggalLahir).None? ==> r.value.user.tanggalLahir == "")
  {
    var u := NewUser(req, hashed, now);
    var db' := Registered(db, u, now);
    InsertFresh(db.users, u);
    assert NoTelpIs(req.noTelp)(db'.users.rows[db.users.next]);
    forall j | j in db'.users.rows && j != db.users.next ensures !NoTelpIs(req.noTelp)(db'.users.rows[j]) {
      assert db'.users.rows[j] == db.users.rows[j];
    }
    assert FirstWhere(db'.users, NoTelpIs(req.noTelp)) == Some(db.users.next);
    if Dates.ParseDMY(req.tanggalLahir).Some? {
      Dates.FormatParseDMY(req.tanggalLahir);
    }
  }
}
