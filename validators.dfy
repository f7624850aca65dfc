/**
  The two request-body validators of the service: `validateProfile` and
  `validateBook`. Each returns the message of the first check that fails,
  or `None` (JavaScript `null`) when the body is acceptable.

  Text fields are `Option<string>`: `None` stands for a field that is
  missing or `null`, both of which JavaScript treats as falsy. The numeric
  book fields `stok` and `harga` hold any JSON scalar, because the source
  tells `undefined` apart from `null` for `stok` and coerces strings with
  `Number(...)`.
 */
module Validators {
  import opened Wrappers
  import opened JsString
  import opened JsNumber

  // --------------------------------------------------------------- profile

  datatype ProfileBody = ProfileBody(
    fullName: Option<string>,
    tanggalLahir: Option<string>,   // date of birth
    nomorTelepon: Option<string>,   // phone number
    alamat: Option<string>,         // address
    sosialMedia: Option<string>)    // social-media handle

  const NameRequired := "Nama lengkap wajib diisi."
  const BirthDateRequired := "Tanggal lahir wajib diisi."
  const PhoneInvalid := "Nomor telepon harus berupa angka dan memiliki panjang 10-15 karakter."
  const SocialMediaTooLong := "Sosial media tidak boleh lebih dari 100 karakter."

  /** JavaScript truthiness of a string field: present and not empty. */
  predicate Present(v: Option<string>) {
    v.Some? && v.value != []
  }

  /** `!v || v.trim() === ""` */
  predicate Blank(v: Option<string>) {
    !Present(v) || Trim(v.value) == []
  }

  /** `v && (isNaN(v) || v.length < 10 || v.length > 15)` */
  predicate PhoneRejected(v: Option<string>) {
    Present(v) && (StringToNumber(v.value) == NaN || Utf16Length(v.value) < 10 || Utf16Length(v.value) > 15)
  }

  /** `v && v.trim().length > 100` */
  predicate SocialMediaRejected(v: Option<string>) {
    Present(v) && Utf16Length(Trim(v.value)) > 100
  }

  /** `validateProfile(data)` */
  function ValidateProfile(p: ProfileBody): (r: Option<string>)
    ensures r.None? || r.value in {NameRequired, BirthDateRequired, PhoneInvalid, SocialMediaTooLong}
  {
    if Blank(p.fullName) then Some(NameRequired)
    else if !Present(p.tanggalLahir) then Some(BirthDateRequired)
    else if PhoneRejected(p.nomorTelepon) then Some(PhoneInvalid)
    else if SocialMediaRejected(p.sosialMedia) then Some(SocialMediaTooLong)
    else None
  }

  /** The checks run in the order name, birth date, phone, social media:
      each message is returned exactly when its check fails and every
      earlier one passes, and `None` exactly when all four pass. */
  lemma ProfileFirstFailure(p: ProfileBody)
    ensures ValidateProfile(p) == Some(NameRequired) <==> Blank(p.fullName)
    ensures ValidateProfile(p) == Some(BirthDateRequired)
            <==> !Blank(p.fullName) && !Present(p.tanggalLahir)
    ensures ValidateProfile(p) == Some(PhoneInvalid)
            <==> !Blank(p.fullName) && Present(p.tanggalLahir) && PhoneRejected(p.nomorTelepon)
    ensures ValidateProfile(p) == Some(SocialMediaTooLong)
            <==> !Blank(p.fullName) && Present(p.tanggalLahir) && !PhoneRejected(p.nomorTelepon)
                 && SocialMediaRejected(p.sosialMedia)
    ensures ValidateProfile(p) == None
            <==> !Blank(p.fullName) && Present(p.tanggalLahir) && !PhoneRejected(p.nomorTelepon)
                 && !SocialMediaRejected(p.sosialMedia)
  {
  }

  /** A missing, empty or whitespace-only name gives the name message,
      whatever the other fields hold, and nothing else gives it. */
  lemma BlankNameRejected(p: ProfileBody)
    ensures ValidateProfile(p) == Some(NameRequired)
            <==> p.fullName.None? || AllWhitespace(p.fullName.value)
  {
    if p.fullName.Some? {
      TrimBlank(p.fullName.value);
    }
  }

  /** Text that starts with a visible character passes the required-field
      check. */
  lemma VisibleTextNotBlank(s: string)
    requires s != [] && !IsWhitespace(s[0])
    ensures !Blank(Some(s))
  {
    TrimBlank(s);
  }

  /** A missing or empty phone number never causes an error: the result is
      the one for the same body without a phone number. */
  lemma AbsentPhoneIgnored(p: ProfileBody)
    requires !Present(p.nomorTelepon)
    ensures ValidateProfile(p) != Some(PhoneInvalid)
    ensures ValidateProfile(p) == ValidateProfile(p.(nomorTelepon := None))
  {
  }

  /** A phone number of 10 to 15 decimal digits passes. */
  lemma DigitPhoneAccepted(s: string)
    requires IsDigits(s, 10) && 10 <= |s| <= 15
    ensures !PhoneRejected(Some(s))
  {
    DigitStringValue(s);
    assert InBasicPlane(s) by {
      forall i | 0 <= i < |s| ensures s[i] as int < 0x1_0000 {
        assert IsRadixDigit(s[i], 10);
      }
    }
    Utf16LengthBasicPlane(s);
  }

  /** A phone number holding a character that cannot occur in a numeral (a
      parenthesis, a slash, most letters) is rejected, as is one with
      whitespace between its digits. */
  lemma MalformedPhoneRejected(s: string, i: nat)
    requires i < |s| && !IsWhitespace(s[i]) && !IsNumeralChar(s[i])
    ensures PhoneRejected(Some(s))
  {
    ForeignCharIsNaN(s, i);
  }

  lemma SpacedPhoneRejected(s: string, i: nat, j: nat, k: nat)
    requires i < j < k < |s|
    requires !IsWhitespace(s[i]) && IsWhitespace(s[j]) && !IsWhitespace(s[k])
    ensures PhoneRejected(Some(s))
  {
    InnerWhitespaceIsNaN(s, i, j, k);
  }

  /** A phone written with dashes, such as `0812-3456-78`, is made of
      numeral characters only, yet it is not a numeral, so it is rejected
      whatever its length. */
  lemma DashedPhoneRejected(s: string, j: nat)
    requires |s| >= 2 && IsDecimalDigit(s[0]) && IsDecimalDigit(s[|s| - 1])
    requires forall i :: 0 <= i < |s| ==> IsDecimalDigit(s[i]) || s[i] == '-'
    requires j < |s| && s[j] == '-'
    ensures AllNumeral(s)
    ensures PhoneRejected(Some(s))
  {
    TrimNoop(s);
    assert Radix(s[1]) == 0;
    assert s != "Infinity" by { assert !IsDecimalDigit('I'); }
    UnmarkedNonDigitIsNaN(s, j);
  }

  /** As written, `isNaN` of a whitespace-only string is false, so a phone
      number of 10 to 15 spaces passes. */
  lemma BlankPhoneAccepted(s: string)
    requires AllWhitespace(s) && 10 <= Utf16Length(s) <= 15
    ensures !PhoneRejected(Some(s))
  {
    BlankStringIsZero(s);
  }

  /** A phone number that passes is 10 to 15 UTF-16 code units long and
      converts to a number. */
  lemma AcceptedPhoneShape(s: string)
    requires s != [] && !PhoneRejected(Some(s))
    ensures 10 <= Utf16Length(s) <= 15 && 5 <= |s| <= 15
    ensures StringToNumber(s) != NaN
  {
  }

  /** A missing social-media handle never causes an error, and one of at
      most 100 code units always passes, since trimming only shortens it. */
  lemma ShortSocialMediaAccepted(v: Option<string>)
    requires v.None? || Utf16Length(v.value) <= 100
    ensures !SocialMediaRejected(v)
  {
    if v.Some? {
      Utf16LengthTrim(v.value);
    }
  }

  /** Surrounding whitespace never counts towards the 100-code-unit limit. */
  lemma SocialMediaIgnoresPadding(s: string, pad: string, pad': string)
    requires AllWhitespace(pad) && AllWhitespace(pad') && s != [] && !IsWhitespace(s[0]) && !IsWhitespace(s[|s| - 1])
    ensures SocialMediaRejected(Some(pad + s + pad')) <==> Utf16Length(s) > 100
  {
    TrimPadded(pad, s, pad');
  }

  /** The address is never looked at. */
  lemma AlamatIgnored(p: ProfileBody, alamat: Option<string>)
    ensures ValidateProfile(p.(alamat := alamat)) == ValidateProfile(p)
  {
  }

  // ------------------------------------------------------------------ book

  datatype BookBody = BookBody(
    judul: Option<string>,     // title
    penulis: Option<string>,   // author
    penerbit: Option<string>,  // publisher
    kategori: Option<string>,  // category
    stok: Option<Scalar>,      // stock
    harga: Option<Scalar>,     // price
    sinopsis: Option<string>)  // synopsis

  const TitleRequired := "Judul buku wajib diisi."
  const AuthorRequired := "Penulis buku wajib diisi."
  const StockInvalid := "Stok harus berupa angka positif atau nol."
  const PriceInvalid := "Harga harus berupa angka positif."

  /** `v !== undefined && (isNaN(v) || v < 0)` */
  predicate StockRejected(v: Option<Scalar>) {
    v.Some? && (IsNaN(v) || LessThanZero(ToNumber(v)))
  }

  /** `!v || isNaN(v) || v <= 0` */
  predicate PriceRejected(v: Option<Scalar>) {
    !Truthy(v) || IsNaN(v) || AtMostZero(ToNumber(v))
  }

  /** `validateBook(data)` */
  function ValidateBook(b: BookBody): (r: Option<string>)
    ensures r.None? || r.value in {TitleRequired, AuthorRequired, StockInvalid, PriceInvalid}
  {
    if Blank(b.judul) then Some(TitleRequired)
    else if Blank(b.penulis) then Some(AuthorRequired)
    else if StockRejected(b.stok) then Some(StockInvalid)
    else if PriceRejected(b.harga) then Some(PriceInvalid)
    else None
  }

  /** The checks run in the order title, author, stock, price. */
  lemma BookFirstFailure(b: BookBody)
    ensures ValidateBook(b) == Some(TitleRequired) <==> Blank(b.judul)
    ensures ValidateBook(b) == Some(AuthorRequired) <==> !Blank(b.judul) && Blank(b.penulis)
    ensures ValidateBook(b) == Some(StockInvalid)
            <==> !Blank(b.judul) && !Blank(b.penulis) && StockRejected(b.stok)
    ensures ValidateBook(b) == Some(PriceInvalid)
            <==> !Blank(b.judul) && !Blank(b.penulis) && !StockRejected(b.stok) && PriceRejected(b.harga)
    ensures ValidateBook(b) == None
            <==> !Blank(b.judul) && !Blank(b.penulis) && !StockRejected(b.stok) && !PriceRejected(b.harga)
  {
  }

  /** A missing or whitespace-only title, then author, is rejected with its
      own message. */
  lemma BlankTitleOrAuthorRejected(b: BookBody)
    ensures (b.judul.None? || AllWhitespace(b.judul.value)) ==> ValidateBook(b) == Some(TitleRequired)
    ensures b.judul.Some? && !AllWhitespace(b.judul.value) && (b.penulis.None? || AllWhitespace(b.penulis.value))
            ==> ValidateBook(b) == Some(AuthorRequired)
  {
    if b.judul.Some? { TrimBlank(b.judul.value); }
    if b.penulis.Some? { TrimBlank(b.penulis.value); }
  }

  /** Publisher, category and synopsis are never looked at. */
  lemma UncheckedBookFieldsIgnored(b: BookBody, penerbit: Option<string>, kategori: Option<string>, sinopsis: Option<string>)
    ensures ValidateBook(b.(penerbit := penerbit, kategori := kategori, sinopsis := sinopsis)) == ValidateBook(b)
  {
    var b' := b.(penerbit := penerbit, kategori := kategori, sinopsis := sinopsis);
    assert b'.judul == b.judul && b'.penulis == b.penulis && b'.stok == b.stok && b'.harga == b.harga;
  }

  /** A missing stock passes the stock check; `null` passes it too, since
      it is not `undefined` and converts to 0. */
  lemma AbsentStockAccepted(b: BookBody)
    requires b.stok.None? || b.stok == Some(Null)
    ensures ValidateBook(b) != Some(StockInvalid)
  {
    assert !StockRejected(b.stok);
    BookFirstFailure(b);
  }

  /** A negative stock, given as a JSON number or as a string of a minus
      sign and digits, is rejected once title and author pass; so is a stock
      string that contains a character no numeral has. */
  lemma NegativeStockRejected(b: BookBody)
    requires !Blank(b.judul) && !Blank(b.penulis)
    requires || (b.stok.Some? && b.stok.value.Num? && b.stok.value.x < 0.0)
             || (b.stok.Some? && b.stok.value.Text? && |b.stok.value.s| > 1 && b.stok.value.s[0] == '-'
                 && IsDigits(b.stok.value.s[1..], 10) && DigitsValue(b.stok.value.s[1..], 10) > 0)
    ensures ValidateBook(b) == Some(StockInvalid)
  {
    if b.stok.value.Text? {
      var s := b.stok.value.s;
      assert s == "-" + s[1..];
      NegativeDigitStringValue(s[1..]);
    }
    assert StockRejected(b.stok);
    BookFirstFailure(b);
  }

  lemma MalformedStockRejected(b: BookBody, i: nat)
    requires !Blank(b.judul) && !Blank(b.penulis)
    requires b.stok.Some? && b.stok.value.Text? && i < |b.stok.value.s|
    requires !IsWhitespace(b.stok.value.s[i]) && !IsNumeralChar(b.stok.value.s[i])
    ensures ValidateBook(b) == Some(StockInvalid)
  {
    ForeignCharIsNaN(b.stok.value.s, i);
    BookFirstFailure(b);
  }

  /** The price check rejects exactly the prices that do not convert to a
      positive number: a falsy price (missing, null, false, 0, "") converts
      to 0 or NaN. */
  lemma PriceRejectedIffNotPositive(v: Option<Scalar>)
    ensures PriceRejected(v) <==> !IsPositive(ToNumber(v))
  {
    if v == Some(Text("")) {
      assert Trim("") == [];
    }
  }

  /** Every book that passes has a positive price and a stock that is
      missing or converts to a non-negative number. */
  lemma AcceptedBookBounds(b: BookBody)
    requires ValidateBook(b) == None
    ensures IsPositive(ToNumber(b.harga))
    ensures b.stok.Some? ==> ToNumber(b.stok) != NaN && !LessThanZero(ToNumber(b.stok))
  {
    PriceRejectedIffNotPositive(b.harga);
  }
}
