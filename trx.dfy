/**
 * Order placement (`CreateTrx`) and the ownership-checked read of one order
 * (`GetTrxByID`), internal/usecase/trx_usecase.go.
 *
 * `CreateTrx` checks the delivery address, validates the lines in request
 * order against the products as loaded, prices them, and then, inside one
 * database transaction, writes the header, and per line a product snapshot, a
 * detail row and the product with its stock decreased. The clock, the
 * invoice's random draw and failing writes are inputs.
 */
module TrxUsecase {
  import opened Wrappers
  import opened Strconv
  import opened Tables
  import opened Store
  import Dates
  import Invoice

  datatype LineRequest = LineRequest(productId: int, kuantitas: int)

  datatype TrxRequest = TrxRequest(alamatPengiriman: int, methodBayar: string, detailTrx: seq<LineRequest>)

  /** A validated line: the product id, the product row as it was loaded, and the quantity. */
  datatype Line = Line(produkId: int, produk: Produk, kuantitas: int)

  // ---------------------------------------------------------------------------
  // Validation

  /** The checks one line goes through, in the order the loop makes them. */
  function CheckLine(db: Db, req: LineRequest): (r: Result<Line, Error>)
    ensures r.Ok? <==> FindProduk(db, req.productId).Some? && req.kuantitas <= db.produk.rows[req.productId].stok
    ensures r.Ok? ==> r.value == Line(req.productId, db.produk.rows[req.productId], req.kuantitas)
  {
    match FindProduk(db, req.productId)
    case None => Err(Rejected("product not found: " + Itoa(req.productId)))
    case Some(produk) =>
      if produk.deletedAt.Some? then Err(Rejected("product is no longer available: " + produk.namaProduk))
      else if produk.stok < req.kuantitas then Err(Rejected("insufficient stock for product: " + produk.namaProduk))
      else Ok(Line(req.productId, produk, req.kuantitas))
  }

  /**
   * A missing or soft-deleted product is reported as not found, with its id;
   * a product is rejected for stock exactly when its stock is below the
   * quantity, so ordering the whole stock is accepted.
   */
  lemma CheckLineErrors(db: Db, req: LineRequest)
    ensures FindProduk(db, req.productId).None? ==>
              CheckLine(db, req) == Err(Rejected("product not found: " + Itoa(req.productId)))
    ensures FindProduk(db, req.productId).Some? && db.produk.rows[req.productId].stok < req.kuantitas ==>
              CheckLine(db, req) == Err(Rejected("insufficient stock for product: " + db.produk.rows[req.productId].namaProduk))
    ensures FindProduk(db, req.productId).Some? && db.produk.rows[req.productId].stok == req.kuantitas ==>
              CheckLine(db, req).Ok?
  {
  }

  /**
   * The validation loop: the first failing line, in request order, decides the
   * error; when none fails, one validated line per request line, in order.
   */
  function ValidateLines(db: Db, reqs: seq<LineRequest>): Result<seq<Line>, Error>
    decreases |reqs|
  {
    if |reqs| == 0 then Ok([])
    else
      match ValidateLines(db, reqs[..|reqs| - 1])
      case Err(e) => Err(e)
      case Ok(lines) =>
        match CheckLine(db, reqs[|reqs| - 1])
        case Err(e) => Err(e)
        case Ok(line) => Ok(lines + [line])
  }

  /** Validation succeeds exactly when every line passes, and then yields each line's check result in request order. */
  lemma {:induction false} ValidateLinesOk(db: Db, reqs: seq<LineRequest>)
    ensures ValidateLines(db, reqs).Ok? <==> forall i :: 0 <= i < |reqs| ==> CheckLine(db, reqs[i]).Ok?
    ensures ValidateLines(db, reqs).Ok? ==>
              |ValidateLines(db, reqs).value| == |reqs| &&
              forall i :: 0 <= i < |reqs| ==> CheckLine(db, reqs[i]) == Ok(ValidateLines(db, reqs).value[i])
    decreases |reqs|
  {
    if |reqs| > 0 {
      var init := reqs[..|reqs| - 1];
      ValidateLinesOk(db, init);
      assert forall i :: 0 <= i < |init| ==> init[i] == reqs[i];
    }
  }

  /** A failed validation reports the error of the first failing line. */
  lemma {:induction false} ValidateLinesFirstError(db: Db, reqs: seq<LineRequest>)
    requires ValidateLines(db, reqs).Err?
    ensures exists i :: 0 <= i < |reqs| && CheckLine(db, reqs[i]) == Err(ValidateLines(db, reqs).error) &&
                        forall j :: 0 <= j < i ==> CheckLine(db, reqs[j]).Ok?
    decreases |reqs|
  {
    var init := reqs[..|reqs| - 1];
    assert forall i :: 0 <= i < |init| ==> init[i] == reqs[i];
    if ValidateLines(db, init).Err? {
      ValidateLinesFirstError(db, init);
      var i :| 0 <= i < |init| && CheckLine(db, init[i]) == Err(ValidateLines(db, init).error) &&
               forall j :: 0 <= j < i ==> CheckLine(db, init[j]).Ok?;
      assert CheckLine(db, reqs[i]) == Err(ValidateLines(db, reqs).error);
    } else {
      ValidateLinesOk(db, init);
      assert CheckLine(db, reqs[|reqs| - 1]) == Err(ValidateLines(db, reqs).error);
    }
  }

  /** Once a prefix of the lines fails, the whole request fails with the same error. */
  lemma {:induction false} FailedPrefixDecides(db: Db, reqs: seq<LineRequest>, k: nat)
    requires k <= |reqs| && ValidateLines(db, reqs[..k]).Err?
    ensures ValidateLines(db, reqs) == ValidateLines(db, reqs[..k])
    decreases |reqs| - k
  {
    if k == |reqs| {
      assert reqs[..k] == reqs;
    } else {
      assert reqs[..k + 1][..k] == reqs[..k];
      FailedPrefixDecides(db, reqs, k + 1);
    }
  }

  /** The `DeletedAt` check is defensive only: the lookup already hides soft-deleted products. */
  lemma DeletedCheckUnreachable(db: Db, req: LineRequest, name: string)
    ensures CheckLine(db, req) != Err(Rejected("product is no longer available: " + name))
  {
    var r := CheckLine(db, req);
    if r.Err? && FindProduk(db, req.productId).Some? {
      var nama := db.produk.rows[req.productId].namaProduk;
      assert r.error == Rejected("insufficient stock for product: " + nama);
      assert "insufficient stock for product: " + nama != "product is no longer available: " + name by {
        assert ("insufficient stock for product: " + nama)[0] == 'i';
      }
    } else if r.Err? {
      assert ("product not found: " + Itoa(req.productId))[1] == 'r';
      assert ("product is no longer available: " + name)[1] == 'r';
      assert ("product not found: " + Itoa(req.productId))[2] == 'o';
      assert ("product not found: " + Itoa(req.productId))[8] == 'n';
      assert ("product is no longer available: " + name)[8] == 'i';
    }
  }

  // ---------------------------------------------------------------------------
  // Pricing

  /** `strconv.Atoi(HargaKonsumen) * Kuantitas`, with an unparsable price counted as 0. */
  function LineTotal(line: Line): int {
    AtoiOrZero(line.produk.hargaKonsumen) * line.kuantitas
  }

  /** `totalHarga`: the line totals summed in order. */
  function OrderTotal(lines: seq<Line>): int
    decreases |lines|
  {
    if |lines| == 0 then 0 else OrderTotal(lines[..|lines| - 1]) + LineTotal(lines[|lines| - 1])
  }

  /** The validation loop of `CreateTrx`, accumulating `totalHarga` and the `details` slice. */
  method ValidateOrder(db: Db, reqs: seq<LineRequest>) returns (r: Result<seq<Line>, Error>, totalHarga: int)
    ensures r == ValidateLines(db, reqs)
    ensures r.Ok? ==> totalHarga == OrderTotal(r.value)
  {
    totalHarga := 0;
    var details: seq<Line> := [];
    var i := 0;
    while i < |reqs|
      invariant 0 <= i <= |reqs|
      invariant ValidateLines(db, reqs[..i]) == Ok(details)
      invariant totalHarga == OrderTotal(details)
    {
      var detail := reqs[i];
      assert reqs[..i + 1][..i] == reqs[..i];
      var produk := FindProduk(db, detail.productId);
      if produk.None? {
        FailedPrefixDecides(db, reqs, i + 1);
        return Err(Rejected("product not found: " + Itoa(detail.productId))), 0;
      }
      // The loop's `DeletedAt` check cannot fire: the lookup hides soft-deleted rows.
      if produk.value.stok < detail.kuantitas {
        FailedPrefixDecides(db, reqs, i + 1);
        return Err(Rejected("insufficient stock for product: " + produk.value.namaProduk)), 0;
      }
      var line := Line(detail.productId, produk.value, detail.kuantitas);
      totalHarga := totalHarga + AtoiOrZero(produk.value.hargaKonsumen) * detail.kuantitas;
      assert (details + [line])[..|details|] == details;
      details := details + [line];
      i := i + 1;
    }
    assert reqs[..i] == reqs;
    return Ok(details), totalHarga;
  }

  // ---------------------------------------------------------------------------
  // The rows the transaction writes

  function Header(userID: int, req: TrxRequest, totalHarga: int, kodeInvoice: string, now: Instant): Trx {
    Trx(userID, req.alamatPengiriman, totalHarga, kodeInvoice, req.methodBayar, Some(now), Some(now))
  }

  /** The `log_produk` snapshot of the product as loaded for one line. */
  function Snapshot(line: Line, now: Instant): LogProduk {
    var p := line.produk;
    LogProduk(line.produkId, p.namaProduk, p.slug, p.hargaReseller, p.hargaKonsumen, p.deskripsi,
              Some(now), Some(now), p.idToko, p.idCategory)
  }

  function DetailRow(trxId: int, logId: int, line: Line, now: Instant): DetailTrx {
    DetailTrx(trxId, logId, line.produk.idToko, line.kuantitas, LineTotal(line), Some(now), Some(now))
  }

  /** The product as the line's `Save` writes it: its own loaded copy with the quantity taken off. */
  function Restocked(line: Line): Produk {
    line.produk.(stok := line.produk.stok - line.kuantitas)
  }

  function Snapshots(lines: seq<Line>, now: Instant): seq<LogProduk> {
    seq(|lines|, k requires 0 <= k < |lines| => Snapshot(lines[k], now))
  }

  /** The detail rows of an order whose snapshots get ids from `logBase` on. */
  function DetailRows(trxId: int, logBase: int, lines: seq<Line>, now: Instant): seq<DetailTrx> {
    seq(|lines|, k requires 0 <= k < |lines| => DetailRow(trxId, logBase + k, lines[k], now))
  }

  /** The position of the last line for product `id`, or -1 when no line orders it. */
  function LastIndex(lines: seq<Line>, id: int): (k: int)
    ensures -1 <= k < |lines|
    ensures k >= 0 ==> lines[k].produkId == id && forall j :: k < j < |lines| ==> lines[j].produkId != id
    ensures k < 0 ==> forall j :: 0 <= j < |lines| ==> lines[j].produkId != id
    decreases |lines|
  {
    if |lines| == 0 then -1
    else if lines[|lines| - 1].produkId == id then |lines| - 1
    else LastIndex(lines[..|lines| - 1], id)
  }

  /** The product table after each line's `Save`, in order. */
  function Restock(t: Table<Produk>, lines: seq<Line>): Table<Produk>
    decreases |lines|
  {
    if |lines| == 0 then t
    else Put(Restock(t, lines[..|lines| - 1]), lines[|lines| - 1].produkId, Restocked(lines[|lines| - 1]))
  }

  /** For every product the last save wins; products no line orders keep their row. */
  lemma {:induction false} RestockRows(t: Table<Produk>, lines: seq<Line>)
    ensures var r := Restock(t, lines);
            && r.next == t.next
            && (forall id :: id in r.rows <==> id in t.rows || LastIndex(lines, id) >= 0)
            && (forall id :: LastIndex(lines, id) >= 0 ==> r.rows[id] == Restocked(lines[LastIndex(lines, id)]))
            && (forall id :: id in t.rows && LastIndex(lines, id) < 0 ==> r.rows[id] == t.rows[id])
    decreases |lines|
  {
    if |lines| > 0 {
      var init := lines[..|lines| - 1];
      var last := lines[|lines| - 1];
      RestockRows(t, init);
      assert forall id :: id != last.produkId ==> LastIndex(lines, id) == LastIndex(init, id);
    }
  }

  /** The store after a committed order: the header at `trx.next`, and per line a snapshot, a detail row and a saved product. */
  function Placed(db: Db, header: Trx, lines: seq<Line>, now: Instant): Db
  {
    db.(trx := Insert(db.trx, header),
        logProduk := InsertAll(db.logProduk, Snapshots(lines, now)),
        detailTrx := InsertAll(db.detailTrx, DetailRows(db.trx.next, db.logProduk.next, lines, now)),
        produk := Restock(db.produk, lines))
  }

  /** Some database write of an order with `n` lines fails: the header is write 0, line `i` writes `1+3i`, `2+3i`, `3+3i`. */
  predicate WriteFaultIn(fault: Option<nat>, n: nat) {
    fault.Some? && fault.value < 1 + 3 * n
  }

  /** The address check that comes first. */
  function CheckAlamat(db: Db, userID: int, alamatID: int): (r: Outcome<Error>)
    ensures r == Pass <==> alamatID in db.alamat.rows && db.alamat.rows[alamatID].idUser == userID
  {
    if alamatID !in db.alamat.rows then Fail(Rejected("alamat not found"))
    else if db.alamat.rows[alamatID].idUser != userID then Fail(Rejected("unauthorized: not your alamat"))
    else Pass
  }

  /**
   * `CreateTrx`. Every failure leaves the store as it was: the address and
   * line checks come before any write, and a failing write rolls back the
   * whole transaction.
   */
  method CreateTrx(db: Db, userID: int, req: TrxRequest, now: Instant, today: Dates.Date, draw: int, fault: Option<nat>)
    returns (r: Outcome<Error>, db': Db)
    requires Dates.Valid(today) && 0 <= draw < Invoice.RandomBound
    ensures CheckAlamat(db, userID, req.alamatPengiriman).Fail? ==>
              r == CheckAlamat(db, userID, req.alamatPengiriman) && db' == db
    ensures CheckAlamat(db, userID, req.alamatPengiriman).Pass? && ValidateLines(db, req.detailTrx).Err? ==>
              r == Fail(ValidateLines(db, req.detailTrx).error) && db' == db
    ensures CheckAlamat(db, userID, req.alamatPengiriman).Pass? && ValidateLines(db, req.detailTrx).Ok? ==>
              var lines := ValidateLines(db, req.detailTrx).value;
              if WriteFaultIn(fault, |lines|) then r == Fail(WriteFailed) && db' == db
              else r == Pass &&
                   db' == Placed(db, Header(userID, req, OrderTotal(lines),
                                            Invoice.GenerateInvoiceCode(today, draw), now), lines, now)
  {
    var alamat := Get(db.alamat, req.alamatPengiriman);
    if alamat.None? {
      return Fail(Rejected("alamat not found")), db;
    }
    if alamat.value.idUser != userID {
      return Fail(Rejected("unauthorized: not your alamat")), db;
    }

    var validated, totalHarga := ValidateOrder(db, req.detailTrx);
    if validated.Err? {
      return Fail(validated.error), db;
    }
    var details := validated.value;

    var kodeInvoice := Invoice.GenerateInvoiceCode(today, draw);
    var trx := Header(userID, req, totalHarga, kodeInvoice, now);
    r, db' := Commit(db, trx, details, now, fault);
  }

  /** How one more line extends the three tables the transaction fills. */
  lemma CommitStep(logs: Table<LogProduk>, rows: Table<DetailTrx>, produks: Table<Produk>, trxId: int, details: seq<Line>, i: int, now: Instant)
    requires 0 <= i < |details|
    ensures InsertAll(logs, Snapshots(details[..i + 1], now)) ==
            Insert(InsertAll(logs, Snapshots(details[..i], now)), Snapshot(details[i], now))
    ensures InsertAll(rows, DetailRows(trxId, logs.next, details[..i + 1], now)) ==
            Insert(InsertAll(rows, DetailRows(trxId, logs.next, details[..i], now)),
                   DetailRow(trxId, logs.next + i, details[i], now))
    ensures Restock(produks, details[..i + 1]) ==
            Put(Restock(produks, details[..i]), details[i].produkId, Restocked(details[i]))
  {
    assert details[..i + 1][..i] == details[..i];
    assert Snapshots(details[..i + 1], now) == Snapshots(details[..i], now) + [Snapshot(details[i], now)];
    InsertAllSnoc(logs, Snapshots(details[..i], now), Snapshot(details[i], now));
    assert DetailRows(trxId, logs.next, details[..i + 1], now) ==
           DetailRows(trxId, logs.next, details[..i], now) + [DetailRow(trxId, logs.next + i, details[i], now)];
    InsertAllSnoc(rows, DetailRows(trxId, logs.next, details[..i], now),
                  DetailRow(trxId, logs.next + i, details[i], now));
  }

  /** One line's writes: its snapshot, its detail row pointing at that snapshot, and the product's `Save`. */
  method SaveLine(logs: Table<LogProduk>, rows: Table<DetailTrx>, produks: Table<Produk>, trxId: int, detail: Line, now: Instant)
    returns (logs': Table<LogProduk>, rows': Table<DetailTrx>, produks': Table<Produk>)
    ensures logs' == Insert(logs, Snapshot(detail, now))
    ensures rows' == Insert(rows, DetailRow(trxId, logs.next, detail, now))
    ensures produks' == Put(produks, detail.produkId, Restocked(detail))
  {
    var logId := logs.next;
    logs' := Insert(logs, Snapshot(detail, now));
    var detailHarga := AtoiOrZero(detail.produk.hargaKonsumen) * detail.kuantitas;
    rows' := Insert(rows, DetailTrx(trxId, logId, detail.produk.idToko, detail.kuantitas, detailHarga, Some(now), Some(now)));
    produks' := Put(produks, detail.produkId, detail.produk.(stok := detail.produk.stok - detail.kuantitas));
  }

  /**
   * The `db.Transaction` of `CreateTrx`: the header, then per line its
   * snapshot, its detail row and the product's `Save`. The writes go to a
   * scratch copy of the tables; an early return discards it.
   */
  method Commit(db: Db, trx: Trx, details: seq<Line>, now: Instant, fault: Option<nat>) returns (r: Outcome<Error>, db': Db)
    ensures WriteFaultIn(fault, |details|) ==> r == Fail(WriteFailed) && db' == db
    ensures !WriteFaultIn(fault, |details|) ==> r == Pass && db' == Placed(db, trx, details, now)
  {
    if Fails(fault, 0) {
      return Fail(WriteFailed), db;
    }
    var trxId := db.trx.next;
    var trxs := Insert(db.trx, trx);
    var failed, logs, rows, produks := SaveLines(db.logProduk, db.detailTrx, db.produk, trxId, details, now, fault);
    if failed {
      return Fail(WriteFailed), db;
    }
    return Pass, db.(trx := trxs, logProduk := logs, detailTrx := rows, produk := produks);
  }

  /** The three tables after saving lines `i` onwards, one line at a time. */
  function SaveFrom(logs: Table<LogProduk>, rows: Table<DetailTrx>, produks: Table<Produk>,
                    trxId: int, details: seq<Line>, i: int, now: Instant): (Table<LogProduk>, Table<DetailTrx>, Table<Produk>)
    requires 0 <= i <= |details|
    decreases |details| - i
  {
    if i == |details| then (logs, rows, produks)
    else SaveFrom(Insert(logs, Snapshot(details[i], now)), Insert(rows, DetailRow(trxId, logs.next, details[i], now)),
                  Put(produks, details[i].produkId, Restocked(details[i])), trxId, details, i + 1, now)
  }

  /** Saving the lines one at a time creates the snapshots and detail rows in one go and restocks every line. */
  lemma {:induction false} SaveFromAll(logs0: Table<LogProduk>, rows0: Table<DetailTrx>, produks0: Table<Produk>,
                                       trxId: int, details: seq<Line>, i: int, now: Instant)
    requires 0 <= i <= |details|
    ensures var logs := InsertAll(logs0, Snapshots(details[..i], now));
            SaveFrom(logs, InsertAll(rows0, DetailRows(trxId, logs0.next, details[..i], now)),
                     Restock(produks0, details[..i]), trxId, details, i, now) ==
            (InsertAll(logs0, Snapshots(details, now)), InsertAll(rows0, DetailRows(trxId, logs0.next, details, now)),
             Restock(produks0, details))
    decreases |details| - i
  {
    if i == |details| {
      assert details[..i] == details;
    } else {
      CommitStep(logs0, rows0, produks0, trxId, details, i, now);
      assert InsertAll(logs0, Snapshots(details[..i], now)).next == logs0.next + i;
      SaveFromAll(logs0, rows0, produks0, trxId, details, i + 1, now);
    }
  }

  /**
   * The loop of the transaction over the lines: line `i` writes its
   * snapshot (write 1+3i), its detail row (2+3i) and the product's save
   * (3+3i); the first failing write stops the loop.
   */
  method SaveLines(logs0: Table<LogProduk>, rows0: Table<DetailTrx>, produks0: Table<Produk>,
                   trxId: int, details: seq<Line>, now: Instant, fault: Option<nat>)
    returns (failed: bool, logs: Table<LogProduk>, rows: Table<DetailTrx>, produks: Table<Produk>)
    requires !Fails(fault, 0)
    ensures failed <==> WriteFaultIn(fault, |details|)
    ensures !failed ==> && logs == InsertAll(logs0, Snapshots(details, now))
                        && rows == InsertAll(rows0, DetailRows(trxId, logs0.next, details, now))
                        && produks == Restock(produks0, details)
  {
    logs, rows, produks := logs0, rows0, produks0;
    // The index of the write that fails, or -1 when none does.
    var failAt := if fault.Some? then fault.value as int else -1;
    var i := 0;
    SaveFromAll(logs0, rows0, produks0, trxId, details, 0, now);
    assert details[..0] == [];
    ghost var total := SaveFrom(logs0, rows0, produks0, trxId, details, 0, now);
    while i < |details|
      invariant 0 <= i <= |details|
      invariant failAt < 0 || failAt >= 1 + 3 * i
      invariant SaveFrom(logs, rows, produks, trxId, details, i, now) == total
    {
      var detail := details[i];
      // The snapshot (write 1+3i), the detail row (2+3i) or the product's
      // save (3+3i) failing rolls the whole transaction back, so which of
      // the three failed is not seen.
      if 1 + 3 * i <= failAt <= 3 + 3 * i {
        return true, logs, rows, produks;
      }
      logs, rows, produks := SaveLine(logs, rows, produks, trxId, detail, now);
      i := i + 1;
    }
    failed := false;
  }

  // ---------------------------------------------------------------------------
  // What a committed order leaves behind

  /** The sum of `harga_total` over the `n` detail rows from id `base` on. */
  function SumHarga(t: Table<DetailTrx>, base: int, n: nat): int
    requires forall k :: base <= k < base + n ==> k in t.rows
  {
    if n == 0 then 0 else SumHarga(t, base, n - 1) + t.rows[base + n - 1].hargaTotal
  }

  /** The `harga_total` of a sequence of detail rows, summed in order. */
  function SumRows(rows: seq<DetailTrx>): int
    decreases |rows|
  {
    if |rows| == 0 then 0 else SumRows(rows[..|rows| - 1]) + rows[|rows| - 1].hargaTotal
  }

  /** Summing stored rows by id is summing the sequence they were stored from. */
  lemma {:induction false} SumHargaOfSeq(t: Table<DetailTrx>, base: int, rows: seq<DetailTrx>, n: nat)
    requires n <= |rows|
    requires forall j :: base <= j < base + |rows| ==> j in t.rows
    requires forall k :: 0 <= k < |rows| ==> t.rows[base + k] == rows[k]
    ensures SumHarga(t, base, n) == SumRows(rows[..n])
  {
    if n > 0 {
      SumHargaOfSeq(t, base, rows, n - 1);
      assert rows[..n][..n - 1] == rows[..n - 1];
    }
  }

  /** Rows created in one go, summed by id from where they start. */
  lemma SumHargaInsertAll(t: Table<DetailTrx>, rows: seq<DetailTrx>)
    ensures var r := InsertAll(t, rows);
            && (forall j :: t.next <= j < t.next + |rows| ==> j in r.rows)
            && SumHarga(r, t.next, |rows|) == SumRows(rows)
  {
    var r := InsertAll(t, rows);
    InsertAllNew(t, rows);
    SumHargaOfSeq(r, t.next, rows, |rows|);
    assert rows[..|rows|] == rows;
  }

  /** The detail rows of an order are priced like its lines. */
  lemma {:induction false} SumDetailRows(trxId: int, logBase: int, lines: seq<Line>, now: Instant)
    ensures SumRows(DetailRows(trxId, logBase, lines, now)) == OrderTotal(lines)
    decreases |lines|
  {
    if |lines| > 0 {
      var init := lines[..|lines| - 1];
      SumDetailRows(trxId, logBase, init, now);
      var rows := DetailRows(trxId, logBase, lines, now);
      assert rows[..|rows| - 1] == DetailRows(trxId, logBase, init, now);
    }
  }

  /** The detail rows an order creates, from the table's `next` id on, sum to the order's total. */
  lemma DetailRowsSum(t: Table<DetailTrx>, trxId: int, logBase: int, lines: seq<Line>, now: Instant)
    ensures var r := InsertAll(t, DetailRows(trxId, logBase, lines, now));
            && (forall k :: t.next <= k < t.next + |lines| ==> k in r.rows)
            && SumHarga(r, t.next, |lines|) == OrderTotal(lines)
  {
    SumHargaInsertAll(t, DetailRows(trxId, logBase, lines, now));
    SumDetailRows(trxId, logBase, lines, now);
  }

  /**
   * A committed order's header total equals the sum of its detail rows'
   * totals: the detail rows it created, one per line, each priced by the
   * same formula.
   */
  lemma HeaderTotalIsSumOfDetails(db: Db, userID: int, req: TrxRequest, lines: seq<Line>, code: string, now: Instant)
    requires WellFormed(db)
    ensures var db' := Placed(db, Header(userID, req, OrderTotal(lines), code, now), lines, now);
            && (forall k :: db.detailTrx.next <= k < db.detailTrx.next + |lines| ==> k in db'.detailTrx.rows)
            && db.trx.next in db'.trx.rows
            && db'.trx.rows[db.trx.next].hargaTotal == SumHarga(db'.detailTrx, db.detailTrx.next, |lines|)
  {
    DetailRowsSum(db.detailTrx, db.trx.next, db.logProduk.next, lines, now);
  }

  /** Where the `k`-th line's snapshot and detail row land. */
  lemma LineRowsAt(logs: Table<LogProduk>, details: Table<DetailTrx>, trxId: int, lines: seq<Line>, now: Instant, k: int)
    requires 0 <= k < |lines|
    ensures var logs' := InsertAll(logs, Snapshots(lines, now));
            var details' := InsertAll(details, DetailRows(trxId, logs.next, lines, now));
            && logs.next + k in logs'.rows && logs'.rows[logs.next + k] == Snapshot(lines[k], now)
            && details.next + k in details'.rows
            && details'.rows[details.next + k] == DetailRow(trxId, logs.next + k, lines[k], now)
  {
    OrderRowsAt(trxId, logs.next, lines, now, k);
    InsertAllAt(logs, Snapshots(lines, now), k);
    InsertAllAt(details, DetailRows(trxId, logs.next, lines, now), k);
  }

  /** The `k`-th snapshot and detail row are made from the `k`-th line. */
  lemma OrderRowsAt(trxId: int, logBase: int, lines: seq<Line>, now: Instant, k: int)
    requires 0 <= k < |lines|
    ensures |Snapshots(lines, now)| == |DetailRows(trxId, logBase, lines, now)| == |lines|
    ensures Snapshots(lines, now)[k] == Snapshot(lines[k], now)
    ensures DetailRows(trxId, logBase, lines, now)[k] == DetailRow(trxId, logBase + k, lines[k], now)
  {
  }

  /**
   * Each line of a committed order leaves a snapshot copying the product as it
   * was, and a detail row pointing at the new order, at that snapshot and at
   * the product's toko, with the ordered quantity and its price.
   */
  lemma RowsOfEachLine(db: Db, reqs: seq<LineRequest>, header: Trx, now: Instant, k: int)
    requires ValidateLines(db, reqs).Ok? && 0 <= k < |reqs|
    ensures var db' := Placed(db, header, ValidateLines(db, reqs).value, now);
            var id := reqs[k].productId;
            && id in db.produk.rows
            && db.logProduk.next + k in db'.logProduk.rows
            && db.detailTrx.next + k in db'.detailTrx.rows
            && var p := db.produk.rows[id];
               && db'.logProduk.rows[db.logProduk.next + k] ==
                  LogProduk(id, p.namaProduk, p.slug, p.hargaReseller, p.hargaKonsumen, p.deskripsi,
                            Some(now), Some(now), p.idToko, p.idCategory)
               && db'.detailTrx.rows[db.detailTrx.next + k] ==
                  DetailTrx(db.trx.next, db.logProduk.next + k, p.idToko, reqs[k].kuantitas,
                            AtoiOrZero(p.hargaKonsumen) * reqs[k].kuantitas, Some(now), Some(now))
  {
    ValidateLinesOk(db, reqs);
    var lines := ValidateLines(db, reqs).value;
    var id := reqs[k].productId;
    assert CheckLine(db, reqs[k]) == Ok(lines[k]);
    var p := db.produk.rows[id];
    assert lines[k] == Line(id, p, reqs[k].kuantitas);
    var db' := Placed(db, header, lines, now);
    assert db'.logProduk == InsertAll(db.logProduk, Snapshots(lines, now));
    assert db'.detailTrx == InsertAll(db.detailTrx, DetailRows(db.trx.next, db.logProduk.next, lines, now));
    LineRowsAt(db.logProduk, db.detailTrx, db.trx.next, lines, now, k);
  }

  /**
   * Stock after a committed order. A product no line orders is unchanged.
   * An ordered product ends at its loaded stock minus the quantity of the
   * LAST line ordering it (each line saves its own loaded copy), which
   * validation keeps at zero or above.
   */
  lemma StockAfterOrder(db: Db, reqs: seq<LineRequest>, header: Trx, now: Instant, id: int)
    requires ValidateLines(db, reqs).Ok?
    ensures var lines := ValidateLines(db, reqs).value;
            var produk' := Placed(db, header, lines, now).produk;
            && (LastIndex(lines, id) < 0 ==> (id in produk'.rows <==> id in db.produk.rows) &&
                                             (id in db.produk.rows ==> produk'.rows[id] == db.produk.rows[id]))
            && (LastIndex(lines, id) >= 0 ==>
                  id in db.produk.rows && id in produk'.rows &&
                  produk'.rows[id] == db.produk.rows[id].(stok := db.produk.rows[id].stok - lines[LastIndex(lines, id)].kuantitas) &&
                  produk'.rows[id].stok >= 0)
  {
    ValidateLinesOk(db, reqs);
    var lines := ValidateLines(db, reqs).value;
    RestockRows(db.produk, lines);
    assert Placed(db, header, lines, now).produk == Restock(db.produk, lines);
    var k := LastIndex(lines, id);
    if k >= 0 {
      assert CheckLine(db, reqs[k]) == Ok(lines[k]);
    }
  }

  /** Ids that occur at most once among the request lines. */
  predicate DistinctProducts(reqs: seq<LineRequest>) {
    forall i, j :: 0 <= i < j < |reqs| ==> reqs[i].productId != reqs[j].productId
  }

  /** With distinct product ids every ordered product loses exactly its line's quantity. */
  lemma StockWithDistinctProducts(db: Db, reqs: seq<LineRequest>, header: Trx, now: Instant, k: int)
    requires ValidateLines(db, reqs).Ok? && DistinctProducts(reqs) && 0 <= k < |reqs|
    ensures var id := reqs[k].productId;
            var produk' := Placed(db, header, ValidateLines(db, reqs).value, now).produk;
            id in db.produk.rows && id in produk'.rows &&
            produk'.rows[id].stok == db.produk.rows[id].stok - reqs[k].kuantitas
  {
    ValidateLinesOk(db, reqs);
    var lines := ValidateLines(db, reqs).value;
    var id := reqs[k].productId;
    assert CheckLine(db, reqs[k]) == Ok(lines[k]);
    var last := LastIndex(lines, id);
    assert CheckLine(db, reqs[last]) == Ok(lines[last]);
    StockAfterOrder(db, reqs, header, now, id);
  }

  /** A committed order keeps the store well formed and leaves users, toko, addresses, photos and all older rows alone. */
  lemma PlacedKeepsStore(db: Db, reqs: seq<LineRequest>, header: Trx, now: Instant)
    requires WellFormed(db) && ValidateLines(db, reqs).Ok?
    ensures var db' := Placed(db, header, ValidateLines(db, reqs).value, now);
            && WellFormed(db')
            && db'.users == db.users && db'.toko == db.toko && db'.alamat == db.alamat && db'.fotoProduk == db.fotoProduk
            && (forall id :: id in db.trx.rows ==> id in db'.trx.rows && db'.trx.rows[id] == db.trx.rows[id])
            && (forall id :: id in db.logProduk.rows ==> id in db'.logProduk.rows && db'.logProduk.rows[id] == db.logProduk.rows[id])
            && (forall id :: id in db.detailTrx.rows ==> id in db'.detailTrx.rows && db'.detailTrx.rows[id] == db.detailTrx.rows[id])
            && db'.produk.rows.Keys == db.produk.rows.Keys
  {
    ValidateLinesOk(db, reqs);
    var lines := ValidateLines(db, reqs).value;
    var db' := Placed(db, header, lines, now);
    InsertFresh(db.trx, header);
    InsertAllRows(db.logProduk, Snapshots(lines, now));
    InsertAllRows(db.detailTrx, DetailRows(db.trx.next, db.logProduk.next, lines, now));
    RestockKeepsRows(db, reqs);
  }

  /** Validated lines only save products that exist, so the product table keeps its ids. */
  lemma RestockKeepsRows(db: Db, reqs: seq<LineRequest>)
    requires Tables.Valid(db.produk) && ValidateLines(db, reqs).Ok?
    ensures var produk' := Restock(db.produk, ValidateLines(db, reqs).value);
            Tables.Valid(produk') && produk'.rows.Keys == db.produk.rows.Keys
  {
    ValidateLinesOk(db, reqs);
    var lines := ValidateLines(db, reqs).value;
    var produk' := Restock(db.produk, lines);
    RestockRows(db.produk, lines);
    forall id | id in produk'.rows ensures id in db.produk.rows {
      var k := LastIndex(lines, id);
      if k >= 0 {
        assert CheckLine(db, reqs[k]) == Ok(lines[k]);
      }
    }
  }

  // ---------------------------------------------------------------------------
  // Repeated products: the stock check does not see earlier lines

  /** A store holding one product, under id 1, and nothing else. */
  function WithOneProduct(p: Produk): Db {
    Db(Empty(), Empty(), Empty(), Table(map[1 := p], 2), Empty(), Empty(), Empty(), Empty())
  }

  /**
   * As written, two lines for the same product are each checked against the
   * stock as loaded, and each saves its own loaded copy: a product with stock
   * 5 ordered as 3 then 4 passes validation, 7 units are sold, and the
   * stored stock ends at 1.
   */
  lemma OversellExample(header: Trx, now: Instant)
    ensures var p := Produk("Kopi", "kopi", "9000", "10000", 5, "", None, None, None, 1, 1);
            var db := WithOneProduct(p);
            var reqs := [LineRequest(1, 3), LineRequest(1, 4)];
            && ValidateLines(db, reqs).Ok?
            && 1 in Placed(db, header, ValidateLines(db, reqs).value, now).produk.rows
            && Placed(db, header, ValidateLines(db, reqs).value, now).produk.rows[1].stok == 1
            && reqs[0].kuantitas + reqs[1].kuantitas > p.stok
  {
    var p := Produk("Kopi", "kopi", "9000", "10000", 5, "", None, None, None, 1, 1);
    var db := WithOneProduct(p);
    var reqs := [LineRequest(1, 3), LineRequest(1, 4)];
    assert reqs[..1] == [LineRequest(1, 3)];
    assert [LineRequest(1, 3)][..0] == [];
    var lines := [Line(1, p, 3), Line(1, p, 4)];
    assert CheckLine(db, reqs[0]) == Ok(lines[0]);
    assert CheckLine(db, reqs[1]) == Ok(lines[1]);
    assert [reqs[0]][..0] == [];
    assert ValidateLines(db, []) == Ok([]);
    assert ValidateLines(db, [reqs[0]]) == Ok([] + [lines[0]]);
    assert [] + [lines[0]] == [lines[0]];
    assert ValidateLines(db, reqs[..1]) == Ok([lines[0]]);
    assert [lines[0]] + [lines[1]] == lines;
    assert ValidateLines(db, reqs) == Ok(lines);
    assert lines[..1] == [Line(1, p, 3)];
    assert [Line(1, p, 3)][..0] == [];
    assert Restock(db.produk, lines).rows[1] == p.(stok := 1);
  }

  /** The quantity a request orders of product `id`, over all its lines. */
  function Ordered(reqs: seq<LineRequest>, id: int): int
    decreases |reqs|
  {
    if |reqs| == 0 then 0
    else Ordered(reqs[..|reqs| - 1], id) + (if reqs[|reqs| - 1].productId == id then reqs[|reqs| - 1].kuantitas else 0)
  }

  /**
   * The stock check as evidently intended: each line is checked against the
   * stock left after the lines before it, and takes its quantity off that
   * running stock.
   */
  function ReserveStock(t: Table<Produk>, reqs: seq<LineRequest>): Result<Table<Produk>, Error>
    decreases |reqs|
  {
    if |reqs| == 0 then Ok(t)
    else
      match ReserveStock(t, reqs[..|reqs| - 1])
      case Err(e) => Err(e)
      case Ok(t') =>
        var req := reqs[|reqs| - 1];
        if req.productId !in t'.rows || t'.rows[req.productId].deletedAt.Some? then
          Err(Rejected("product not found: " + Itoa(req.productId)))
        else if t'.rows[req.productId].stok < req.kuantitas then
          Err(Rejected("insufficient stock for product: " + t'.rows[req.productId].namaProduk))
        else
          Ok(Put(t', req.productId, t'.rows[req.productId].(stok := t'.rows[req.productId].stok - req.kuantitas)))
  }

  /**
   * A reservation that goes through takes off every product exactly the
   * quantity ordered of it over all lines, changes nothing else, and leaves
   * every ordered product at zero stock or above: it never sells more than
   * the stock.
   */
  lemma {:induction false} ReserveStockRows(t: Table<Produk>, reqs: seq<LineRequest>)
    requires ReserveStock(t, reqs).Ok?
    ensures var r := ReserveStock(t, reqs).value;
            && r.next == t.next && r.rows.Keys == t.rows.Keys
            && (forall id :: id in t.rows ==>
                  r.rows[id] == t.rows[id].(stok := t.rows[id].stok - Ordered(reqs, id)))
            && (forall i :: 0 <= i < |reqs| ==> reqs[i].productId in r.rows && r.rows[reqs[i].productId].stok >= 0)
    decreases |reqs|
  {
    if |reqs| > 0 {
      var init := reqs[..|reqs| - 1];
      var req := reqs[|reqs| - 1];
      ReserveStockRows(t, init);
      assert forall i :: 0 <= i < |init| ==> init[i] == reqs[i];
    }
  }

  /** With the running check, the repeated lines of the example are rejected. */
  lemma ReserveRejectsOversell()
    ensures var p := Produk("Kopi", "kopi", "9000", "10000", 5, "", None, None, None, 1, 1);
            ReserveStock(Table(map[1 := p], 2), [LineRequest(1, 3), LineRequest(1, 4)]) ==
              Err(Rejected("insufficient stock for product: " + p.namaProduk))
  {
    var p := Produk("Kopi", "kopi", "9000", "10000", 5, "", None, None, None, 1, 1);
    var reqs := [LineRequest(1, 3), LineRequest(1, 4)];
    assert reqs[..1] == [LineRequest(1, 3)];
    assert [LineRequest(1, 3)][..0] == [];
    var t := Table(map[1 := p], 2);
    assert ReserveStock(t, []) == Ok(t);
    var t1 := Put(t, 1, p.(stok := 2));
    assert ReserveStock(t, reqs[..1]) == Ok(t1);
    assert t1.rows[1].stok == 2 && t1.rows[1].namaProduk == "Kopi";
    assert reqs[..|reqs| - 1] == reqs[..1];
    assert ReserveStock(t, reqs) == Err(Rejected("insufficient stock for product: " + t1.rows[1].namaProduk));
  }

  // ---------------------------------------------------------------------------
  // Reading one order back

  /** An order with its detail rows (`Preload("DetailTrx...")`). */
  datatype TrxView = TrxView(trx: Trx, details: map<int, DetailTrx>)

  /** The `id_trx = ?` condition of the detail rows preloaded with an order. */
  function OfTrx(id: int): DetailTrx -> bool {
    (d: DetailTrx) => d.idTrx == id
  }

  /** `GetTrxByID`: "`No Data Trx`" for an unknown id, then the ownership check. */
  function GetTrxByID(db: Db, id: int, userID: int): (r: Result<TrxView, Error>)
    ensures id !in db.trx.rows ==> r == Err(Rejected("`No Data Trx`"))
    ensures id in db.trx.rows && db.trx.rows[id].idUser != userID ==> r == Err(Rejected("unauthorized: not your transaction"))
    ensures r.Ok? <==> id in db.trx.rows && db.trx.rows[id].idUser == userID
    ensures r.Ok? ==> r.value.trx == db.trx.rows[id] &&
                      forall d :: d in r.value.details <==> d in db.detailTrx.rows && db.detailTrx.rows[d].idTrx == id
    ensures r.Ok? ==> forall d :: d in r.value.details ==> r.value.details[d] == db.detailTrx.rows[d]
  {
    match Get(db.trx, id)
    case None => Err(Rejected("`No Data Trx`"))
    case Some(trx) =>
      if trx.idUser != userID then Err(Rejected("unauthorized: not your transaction"))
      else Ok(TrxView(trx, Where(db.detailTrx, OfTrx(id))))
  }

  /** Every detail row in `details` points at an order stored in `trxs`. */
  predicate RefsIn(details: Table<DetailTrx>, trxs: Table<Trx>) {
    forall d :: d in details.rows ==> details.rows[d].idTrx in trxs.rows
  }

  /**
   * Every detail row belongs to a stored order: the `foreignKey:IDTrx`
   * constraint of `DetailTrx.Trx` (internal/model/trx.go:50).
   */
  predicate DetailsReferenceTrx(db: Db) {
    RefsIn(db.detailTrx, db.trx)
  }

  /** The detail rows read with an order are exactly `rows`, row `k` under id `base + k`. */
  ghost predicate OrderDetails(w: map<int, DetailTrx>, base: int, rows: seq<DetailTrx>) {
    && (forall d :: d in w <==> base <= d < base + |rows|)
    && (forall k :: 0 <= k < |rows| ==> w[base + k] == rows[k])
  }

  /**
   * The buyer can read back the order just placed: its header, and as its
   * details exactly the rows the order wrote; no one else can read it. The
   * foreign key still holds afterwards.
   */
  lemma PlacedOrderReadable(db: Db, userID: int, req: TrxRequest, lines: seq<Line>, code: string, now: Instant, other: int)
    requires WellFormed(db) && DetailsReferenceTrx(db)
    ensures var header := Header(userID, req, OrderTotal(lines), code, now);
            var db' := Placed(db, header, lines, now);
            && DetailsReferenceTrx(db')
            && GetTrxByID(db', db.trx.next, userID).Ok?
            && GetTrxByID(db', db.trx.next, userID).value.trx == header
            && OrderDetails(GetTrxByID(db', db.trx.next, userID).value.details, db.detailTrx.next,
                            DetailRows(db.trx.next, db.logProduk.next, lines, now))
            && (other != userID ==> GetTrxByID(db', db.trx.next, other) == Err(Rejected("unauthorized: not your transaction")))
  {
    var header := Header(userID, req, OrderTotal(lines), code, now);
    var db' := Placed(db, header, lines, now);
    var rows := DetailRows(db.trx.next, db.logProduk.next, lines, now);
    assert db'.trx == Insert(db.trx, header) && db'.detailTrx == InsertAll(db.detailTrx, rows);
    DetailRowsOfTrx(db.trx.next, db.logProduk.next, lines, now);
    DetailsOfNewTrx(db.detailTrx, db.trx, rows);
    NewDetailsReferenceTrx(db.detailTrx, db.trx, header, rows);
    ReadNewTrx(db', db.trx, db.detailTrx, header, rows, userID, other);
  }

  /** The detail rows of one order all point at that order. */
  lemma DetailRowsOfTrx(trxId: int, logBase: int, lines: seq<Line>, now: Instant)
    ensures |DetailRows(trxId, logBase, lines, now)| == |lines|
    ensures forall k :: 0 <= k < |lines| ==> DetailRows(trxId, logBase, lines, now)[k].idTrx == trxId
  {
  }

  /** Reading back a stored order whose detail rows were created with it. */
  lemma ReadNewTrx(db': Db, trxs: Table<Trx>, details: Table<DetailTrx>, header: Trx, rows: seq<DetailTrx>,
                   userID: int, other: int)
    requires Valid(trxs) && header.idUser == userID
    requires db'.trx == Insert(trxs, header) && db'.detailTrx == InsertAll(details, rows)
    requires OrderDetails(Where(InsertAll(details, rows), OfTrx(trxs.next)), details.next, rows)
    ensures && GetTrxByID(db', trxs.next, userID).Ok?
            && GetTrxByID(db', trxs.next, userID).value.trx == header
            && OrderDetails(GetTrxByID(db', trxs.next, userID).value.details, details.next, rows)
            && (other != userID ==> GetTrxByID(db', trxs.next, other) == Err(Rejected("unauthorized: not your transaction")))
  {
    InsertFresh(trxs, header);
    assert GetTrxByID(db', trxs.next, userID) == Ok(TrxView(header, Where(db'.detailTrx, OfTrx(trxs.next))));
  }

  /**
   * Detail rows created for a new order, in a table whose rows all point at
   * stored orders, are exactly the rows that order finds.
   */
  lemma DetailsOfNewTrx(t: Table<DetailTrx>, trxs: Table<Trx>, rows: seq<DetailTrx>)
    requires Valid(t) && Valid(trxs) && RefsIn(t, trxs)
    requires forall k :: 0 <= k < |rows| ==> rows[k].idTrx == trxs.next
    ensures OrderDetails(Where(InsertAll(t, rows), OfTrx(trxs.next)), t.next, rows)
  {
    InsertAllRows(t, rows);
    var r := InsertAll(t, rows);
    var w := Where(r, OfTrx(trxs.next));
    forall d | d in t.rows
      ensures d !in w
    {
      assert t.rows[d].idTrx in trxs.rows;
    }
    forall d | t.next <= d < t.next + |rows|
      ensures d in r.rows && r.rows[d] == rows[d - t.next]
    {
      assert r.rows[t.next + (d - t.next)] == rows[d - t.next];
    }
  }

  /** A new order and its detail rows keep every detail row pointing at a stored order. */
  lemma NewDetailsReferenceTrx(t: Table<DetailTrx>, trxs: Table<Trx>, header: Trx, rows: seq<DetailTrx>)
    requires Valid(t) && RefsIn(t, trxs)
    requires forall k :: 0 <= k < |rows| ==> rows[k].idTrx == trxs.next
    ensures RefsIn(InsertAll(t, rows), Insert(trxs, header))
  {
    InsertAllRows(t, rows);
    var r := InsertAll(t, rows);
    forall d | d in r.rows
      ensures r.rows[d].idTrx in Insert(trxs, header).rows
    {
      if d !in t.rows {
        assert r.rows[t.next + (d - t.next)] == rows[d - t.next];
      }
    }
  }
}
