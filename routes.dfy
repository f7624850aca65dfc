/**
  The eight route handlers, as decisions: given the request and what the
  storage call would answer (a row count with the returned rows, or an
  exception), a handler yields the statement it sends to storage, if any,
  and the HTTP response. The SQL text itself is not modelled, only which
  statement is sent and with which parameter values.
 */
module Routes {
  import opened Wrappers
  import opened JsNumber
  import opened Validators

  datatype Table = ProfileTable | BookTable

  /** The parameter values of an INSERT or UPDATE, in column order. */
  datatype Columns =
    | ProfileColumns(profile: ProfileBody)
    | BookColumns(judul: Option<string>, penulis: Option<string>, penerbit: Option<string>,
                  kategori: Option<string>, stok: Scalar, harga: Option<Scalar>, sinopsis: Option<string>)

  datatype Statement =
    | SelectAll(table: Table)
    | Insert(columns: Columns)
    | UpdateById(columns: Columns, id: string)
    | DeleteById(table: Table, id: string)

  /** What `pool.query` gives back: `rowCount` and `rows`, or an exception. */
  datatype Outcome<Row> = Completed(rowCount: nat, rows: seq<Row>) | Threw

  /** The JSON body of a response: an array of rows, `{message}`,
      `{message, data}` or `{error}`. */
  datatype Body<Row> =
    | RowList(rows: seq<Row>)
    | Message(message: string)
    | MessageWithData(message: string, data: Option<Row>)
    | Failure(error: string)

  datatype Response<Row> = Response(status: nat, body: Body<Row>)

  /** One request handled: the statement sent to storage (`None` when the
      handler answered without calling storage) and the response. */
  datatype Exchange<Row> = Exchange(query: Option<Statement>, response: Response<Row>)

  // ------------------------------------------------------------ messages

  function NotFound(noun: string, id: string): string {
    noun + " dengan ID " + id + " tidak ditemukan."
  }

  function Removed(noun: string, id: string): string {
    noun + " dengan ID " + id + " berhasil dihapus."
  }

  /** `s` has `part` as a contiguous piece. */
  predicate Contains(s: string, part: string)
    decreases |s|
  {
    (|part| <= |s| && s[..|part|] == part) || (s != [] && Contains(s[1..], part))
  }

  lemma {:induction false} ContainsMiddle(pre: string, part: string, post: string)
    ensures Contains(pre + part + post, part)
  {
    var s := pre + part + post;
    if pre == [] {
      assert s[..|part|] == part;
    } else {
      assert s[1..] == pre[1..] + part + post;
      ContainsMiddle(pre[1..], part, post);
    }
  }

  /** The not-found and deleted messages name the id they are about. */
  lemma IdMessagesNameId(noun: string, id: string)
    ensures Contains(NotFound(noun, id), id)
    ensures Contains(Removed(noun, id), id)
  {
    ContainsMiddle(noun + " dengan ID ", id, " tidak ditemukan.");
    ContainsMiddle(noun + " dengan ID ", id, " berhasil dihapus.");
  }

  // ---------------------------------------- the shape shared by the routes

  function FirstRow<Row>(rows: seq<Row>): Option<Row> {
    if |rows| > 0 then Some(rows[0]) else None
  }

  /** GET: every row, or 500. */
  function Listing<Row>(table: Table, outcome: Outcome<Row>, failed: string): Exchange<Row> {
    Exchange(Some(SelectAll(table)),
      match outcome
      case Completed(_, rows) => Response(200, RowList(rows))
      case Threw => Response(500, Failure(failed)))
  }

  /** POST: 400 with the validator's message before any query, else insert
      and answer 201, or 500 when storage throws. */
  function Creation<Row>(verdict: Option<string>, columns: Columns, outcome: Outcome<Row>,
                         created: string, failed: string): Exchange<Row>
  {
    match verdict
    case Some(error) => Exchange(None, Response(400, Failure(error)))
    case None =>
      Exchange(Some(Insert(columns)),
        match outcome
        case Completed(_, _) => Response(201, Message(created))
        case Threw => Response(500, Failure(failed)))
  }

  /** PUT: 400 before any query, else update by id and answer 404 when no
      row matched, 200 with the first returned row, or 500. */
  function Modification<Row>(verdict: Option<string>, columns: Columns, id: string, outcome: Outcome<Row>,
                             noun: string, updated: string, failed: string): Exchange<Row>
  {
    match verdict
    case Some(error) => Exchange(None, Response(400, Failure(error)))
    case None =>
      Exchange(Some(UpdateById(columns, id)),
        match outcome
        case Completed(count, rows) =>
          if count == 0 then Response(404, Failure(NotFound(noun, id)))
          else Response(200, MessageWithData(updated, FirstRow(rows)))
        case Threw => Response(500, Failure(failed)))
  }

  /** DELETE: delete by id and answer 404 when no row matched, 200, or 500. */
  function Removal<Row>(table: Table, id: string, outcome: Outcome<Row>, noun: string, failed: string): Exchange<Row> {
    Exchange(Some(DeleteById(table, id)),
      match outcome
      case Completed(count, _) =>
        if count == 0 then Response(404, Failure(NotFound(noun, id)))
        else Response(200, Message(Removed(noun, id)))
      case Threw => Response(500, Failure(failed)))
  }

  // ------------------------------------------------------ profile routes

  /** GET /profiles */
  function GetProfiles<Row>(outcome: Outcome<Row>): Exchange<Row> {
    Listing(ProfileTable, outcome, "Terjadi kesalahan saat mengambil data.")
  }

  /** POST /profiles */
  function PostProfile<Row>(body: ProfileBody, outcome: Outcome<Row>): Exchange<Row> {
    Creation(ValidateProfile(body), ProfileColumns(body), outcome,
      "Profile berhasil ditambahkan.", "Terjadi kesalahan saat menambahkan data.")
  }

  /** PUT /profiles/:id */
  function PutProfile<Row>(id: string, body: ProfileBody, outcome: Outcome<Row>): Exchange<Row> {
    Modification(ValidateProfile(body), ProfileColumns(body), id, outcome,
      "Profile", "Profile berhasil diperbarui.", "Terjadi kesalahan saat memperbarui data.")
  }

  /** DELETE /profiles/:id */
  function DeleteProfile<Row>(id: string, outcome: Outcome<Row>): Exchange<Row> {
    Removal(ProfileTable, id, outcome, "Profile", "Terjadi kesalahan saat menghapus data.")
  }

  // --------------------------------------------------------- book routes

  /** `stok || 0`: a falsy stock (missing, null, false, 0, "") is stored as 0. */
  function StoredStock(stok: Option<Scalar>): Scalar {
    if Truthy(stok) then stok.value else Num(0.0)
  }

  function BookColumnsOf(b: BookBody): Columns {
    BookColumns(b.judul, b.penulis, b.penerbit, b.kategori, StoredStock(b.stok), b.harga, b.sinopsis)
  }

  /** GET /buku */
  function GetBooks<Row>(outcome: Outcome<Row>): Exchange<Row> {
    Listing(BookTable, outcome, "Terjadi kesalahan saat mengambil data buku.")
  }

  /** POST /buku */
  function PostBook<Row>(body: BookBody, outcome: Outcome<Row>): Exchange<Row> {
    Creation(ValidateBook(body), BookColumnsOf(body), outcome,
      "Buku berhasil ditambahkan.", "Terjadi kesalahan saat menambahkan buku.")
  }

  /** PUT /buku/:id */
  function PutBook<Row>(id: string, body: BookBody, outcome: Outcome<Row>): Exchange<Row> {
    Modification(ValidateBook(body), BookColumnsOf(body), id, outcome,
      "Buku", "Buku berhasil diperbarui.", "Terjadi kesalahan saat memperbarui buku.")
  }

  /** DELETE /buku/:id */
  function DeleteBook<Row>(id: string, outcome: Outcome<Row>): Exchange<Row> {
    Removal(BookTable, id, outcome, "Buku", "Terjadi kesalahan saat menghapus buku.")
  }

  // ------------------------------------------------------- profile lemmas

  /** A profile body the validator rejects gets 400 with the validator's
      message and no statement is sent, whatever storage would have
      answered; a body it accepts is always sent, as given. */
  lemma RejectedProfileNeverStored<Row>(id: string, p: ProfileBody, outcome: Outcome<Row>)
    ensures ValidateProfile(p).Some? ==>
      var rejected := Exchange(None, Response(400, Failure(ValidateProfile(p).value)));
      PostProfile(p, outcome) == rejected && PutProfile(id, p, outcome) == rejected
    ensures ValidateProfile(p).None? ==>
      PostProfile(p, outcome).query == Some(Insert(ProfileColumns(p)))
      && PutProfile(id, p, outcome).query == Some(UpdateById(ProfileColumns(p), id))
  {
  }

  /** Every profile sent to storage has a non-blank name and a birth date. */
  lemma StoredProfilesAreValid<Row>(id: string, p: ProfileBody, outcome: Outcome<Row>)
    ensures PostProfile(p, outcome).query.Some? || PutProfile(id, p, outcome).query.Some?
            ==> !Blank(p.fullName) && Present(p.tanggalLahir)
  {
  }

  /** An update of a valid profile, or a delete, that matches no row gets
      404 with a message naming the id. */
  lemma MissingProfileIsNotFound<Row>(id: string, p: ProfileBody, rows: seq<Row>)
    ensures ValidateProfile(p).None? ==>
      PutProfile(id, p, Completed(0, rows)).response == Response(404, Failure(NotFound("Profile", id)))
    ensures DeleteProfile(id, Completed(0, rows)).response == Response(404, Failure(NotFound("Profile", id)))
    ensures Contains(NotFound("Profile", id), id)
  {
    IdMessagesNameId("Profile", id);
  }

  /** A storage exception gets 500 with the route's fixed message, which
      depends neither on the body nor on the id. */
  lemma ProfileStorageFailure<Row>(id: string, id': string, p: ProfileBody)
    ensures GetProfiles<Row>(Threw).response == Response(500, Failure("Terjadi kesalahan saat mengambil data."))
    ensures ValidateProfile(p).None? ==>
      PostProfile<Row>(p, Threw).response == Response(500, Failure("Terjadi kesalahan saat menambahkan data."))
      && PutProfile<Row>(id, p, Threw).response == Response(500, Failure("Terjadi kesalahan saat memperbarui data."))
    ensures DeleteProfile<Row>(id, Threw).response == DeleteProfile<Row>(id', Threw).response
            == Response(500, Failure("Terjadi kesalahan saat menghapus data."))
  {
  }

  /** Each profile route answers only with the statuses of its row in the
      HTTP interface, and succeeds exactly when the body passes, storage does
      not throw and, for an update or a delete, some row matched. */
  lemma ProfileStatuses<Row>(id: string, p: ProfileBody, outcome: Outcome<Row>)
    ensures GetProfiles(outcome).response.status in {200, 500}
    ensures PostProfile(p, outcome).response.status in {201, 400, 500}
    ensures PutProfile(id, p, outcome).response.status in {200, 400, 404, 500}
    ensures DeleteProfile(id, outcome).response.status in {200, 404, 500}
    ensures GetProfiles(outcome).response.status == 200 <==> outcome.Completed?
    ensures PostProfile(p, outcome).response.status == 201 <==> ValidateProfile(p).None? && outcome.Completed?
    ensures PutProfile(id, p, outcome).response.status == 200
            <==> ValidateProfile(p).None? && outcome.Completed? && outcome.rowCount > 0
    ensures DeleteProfile(id, outcome).response.status == 200 <==> outcome.Completed? && outcome.rowCount > 0
  {
  }

  /** A listing returns the rows as storage gave them, an empty table
      included; a valid create that storage completed answers 201 with the
      fixed message; a successful update answers with the first row storage
      returned (no data when it returned none); a delete that matched a row
      answers 200 naming the id, whatever rows came back (a DELETE without
      RETURNING gives none). */
  lemma ProfileSuccessBodies<Row>(id: string, p: ProfileBody, count: nat, rows: seq<Row>)
    ensures GetProfiles(Completed(count, rows)).response == Response(200, RowList(rows))
    ensures ValidateProfile(p).None? ==>
      PostProfile(p, Completed(count, rows)).response == Response(201, Message("Profile berhasil ditambahkan."))
    ensures ValidateProfile(p).None? && count > 0 ==>
      PutProfile(id, p, Completed(count, rows)).response
        == Response(200, MessageWithData("Profile berhasil diperbarui.", if |rows| > 0 then Some(rows[0]) else None))
    ensures count > 0 ==>
      var r := DeleteProfile(id, Completed(count, rows)).response;
      r.status == 200 && r.body.Message? && Contains(r.body.message, id)
  {
    IdMessagesNameId("Profile", id);
  }

  // ---------------------------------------------------------- book lemmas

  /** A book body the validator rejects gets 400 with the validator's
      message and no statement is sent; a body it accepts is always sent. */
  lemma RejectedBookNeverStored<Row>(id: string, b: BookBody, outcome: Outcome<Row>)
    ensures ValidateBook(b).Some? ==>
      var rejected := Exchange(None, Response(400, Failure(ValidateBook(b).value)));
      PostBook(b, outcome) == rejected && PutBook(id, b, outcome) == rejected
    ensures ValidateBook(b).None? ==>
      PostBook(b, outcome).query == Some(Insert(BookColumnsOf(b)))
      && PutBook(id, b, outcome).query == Some(UpdateById(BookColumnsOf(b), id))
  {
  }

  /** `stok || 0`: a missing or falsy stock is stored as 0, any other is
      stored as given; once the body has passed validation the stored
      stock converts to a number that is neither NaN nor negative. */
  lemma StoredStockDefaults(b: BookBody)
    ensures !Truthy(b.stok) ==> StoredStock(b.stok) == Num(0.0)
    ensures Truthy(b.stok) ==> StoredStock(b.stok) == b.stok.value
    ensures ValidateBook(b).None? ==>
      ToNumber(Some(StoredStock(b.stok))) != NaN && !LessThanZero(ToNumber(Some(StoredStock(b.stok))))
  {
    if ValidateBook(b).None? {
      AcceptedBookBounds(b);
    }
  }

  /** Every book sent to storage has a non-blank title and author, a
      positive price and a stock that converts to a non-negative number. */
  lemma StoredBooksAreValid<Row>(id: string, b: BookBody, outcome: Outcome<Row>)
    ensures PostBook(b, outcome).query.Some? || PutBook(id, b, outcome).query.Some? ==>
      var c := BookColumnsOf(b);
      && !Blank(c.judul) && !Blank(c.penulis) && IsPositive(ToNumber(c.harga))
      && ToNumber(Some(c.stok)) != NaN && !LessThanZero(ToNumber(Some(c.stok)))
  {
    if ValidateBook(b).None? {
      StoredStockDefaults(b);
      AcceptedBookBounds(b);
    }
  }

  /** An update of a valid book, or a delete, that matches no row gets 404
      with a message naming the id. */
  lemma MissingBookIsNotFound<Row>(id: string, b: BookBody, rows: seq<Row>)
    ensures ValidateBook(b).None? ==>
      PutBook(id, b, Completed(0, rows)).response == Response(404, Failure(NotFound("Buku", id)))
    ensures DeleteBook(id, Completed(0, rows)).response == Response(404, Failure(NotFound("Buku", id)))
    ensures Contains(NotFound("Buku", id), id)
  {
    IdMessagesNameId("Buku", id);
  }

  /** A storage exception gets 500 with the route's fixed message. */
  lemma BookStorageFailure<Row>(id: string, id': string, b: BookBody)
    ensures GetBooks<Row>(Threw).response == Response(500, Failure("Terjadi kesalahan saat mengambil data buku."))
    ensures ValidateBook(b).None? ==>
      PostBook<Row>(b, Threw).response == Response(500, Failure("Terjadi kesalahan saat menambahkan buku."))
      && PutBook<Row>(id, b, Threw).response == Response(500, Failure("Terjadi kesalahan saat memperbarui buku."))
    ensures DeleteBook<Row>(id, Threw).response == DeleteBook<Row>(id', Threw).response
            == Response(500, Failure("Terjadi kesalahan saat menghapus buku."))
  {
  }

  /** The statuses of the book routes, as for profiles. */
  lemma BookStatuses<Row>(id: string, b: BookBody, outcome: Outcome<Row>)
    ensures GetBooks(outcome).response.status in {200, 500}
    ensures PostBook(b, outcome).response.status in {201, 400, 500}
    ensures PutBook(id, b, outcome).response.status in {200, 400, 404, 500}
    ensures DeleteBook(id, outcome).response.status in {200, 404, 500}
    ensures GetBooks(outcome).response.status == 200 <==> outcome.Completed?
    ensures PostBook(b, outcome).response.status == 201 <==> ValidateBook(b).None? && outcome.Completed?
    ensures PutBook(id, b, outcome).response.status == 200
            <==> ValidateBook(b).None? && outcome.Completed? && outcome.rowCount > 0
    ensures DeleteBook(id, outcome).response.status == 200 <==> outcome.Completed? && outcome.rowCount > 0
  {
  }

  /** The same for the book routes: the rows of a listing as given, 201 with
      the fixed message for a valid create, the first returned row of an update, and the id of a delete that matched. */
  lemma BookSuccessBodies<Row>(id: string, b: BookBody, count: nat, rows: seq<Row>)
    ensures GetBooks(Completed(count, rows)).response == Response(200, RowList(rows))
    ensures ValidateBook(b).None? ==>
      PostBook(b, Completed(count, rows)).response == Response(201, Message("Buku berhasil ditambahkan."))
    ensures ValidateBook(b).None? && count > 0 ==>
      PutBook(id, b, Completed(count, rows)).response
        == Response(200, MessageWithData("Buku berhasil diperbarui.", if |rows| > 0 then Some(rows[0]) else None))
    ensures count > 0 ==>
      var r := DeleteBook(id, Completed(count, rows)).response;
      r.status == 200 && r.body.Message? && Contains(r.body.message, id)
  {
    IdMessagesNameId("Buku", id);
  }

  // ------------------------------------------------------------ scenarios

  /** POST /buku with a title, an author and a price of 50000 and no stock
      is created, and the row sent to storage has a stock of 0. */
  lemma CreateBookWithoutStock<Row>(outcome: Outcome<Row>)
    requires outcome.Completed?
    ensures
      var b := BookBody(Some("Dune"), Some("Herbert"), None, None, None, Some(Num(50000.0)), None);
      && PostBook(b, outcome).response == Response(201, Message("Buku berhasil ditambahkan."))
      && PostBook(b, outcome).query.value.columns.stok == Num(0.0)
  {
    var b := BookBody(Some("Dune"), Some("Herbert"), None, None, None, Some(Num(50000.0)), None);
    VisibleTextNotBlank("Dune");
    VisibleTextNotBlank("Herbert");
    BookFirstFailure(b);
  }

  /** PUT /profiles/999 with a valid body that matches no row gets 404 and a
      message naming 999. */
  lemma UpdateMissingProfile<Row>(rows: seq<Row>)
    ensures
      var p := ProfileBody(Some("Budi"), Some("2000-01-01"), None, None, None);
      && PutProfile("999", p, Completed(0, rows)).response.status == 404
      && Contains(PutProfile("999", p, Completed(0, rows)).response.body.error, "999")
  {
    var p := ProfileBody(Some("Budi"), Some("2000-01-01"), None, None, None);
    VisibleTextNotBlank("Budi");
    ProfileFirstFailure(p);
    MissingProfileIsNotFound("999", p, rows);
  }

  /** POST /profiles with an empty name gets 400 with the name message and
      stores nothing. */
  lemma CreateProfileWithoutName<Row>(outcome: Outcome<Row>)
    ensures
      var p := ProfileBody(Some(""), Some("2000-01-01"), None, None, None);
      PostProfile(p, outcome) == Exchange(None, Response(400, Failure("Nama lengkap wajib diisi.")))
  {
  }
}
