# kuis-mora: request validation and route outcomes, in Dafny

This project models the logic of a small Express + PostgreSQL CRUD service with
two resources: `profile` (a person: `full_name`, `tanggal_lahir` (date of birth),
`nomor_telepon` (phone), `alamat` (address), `sosial_media` (social-media
handle)) and `buku` (a book: `judul` (title), `penulis` (author), `penerbit`,
`kategori`, `stok` (stock), `harga` (price), `sinopsis`). All of that logic is
in `index.js`:

- `validateProfile` and `validateBook` return the Indonesian message of the
  first check that fails, or `null`.
- The eight route handlers, GET/POST/PUT/DELETE on `/profiles` and `/buku`,
  turn the validator's verdict and the result of one `pool.query` call into an
  HTTP status and a JSON body.

The model is pure: datatypes, functions and lemmas, one module per concern.

- `Wrappers` (`wrappers.dfy`): `Option`.
- `JsString` (`js_string.dfy`): the JavaScript string behaviour the validators
  rely on. It covers `String.prototype.trim` over the ECMAScript WhiteSpace and
  LineTerminator code points, and `length`, which counts UTF-16 code units.
- `JsNumber` (`js_number.dfy`): `Number(...)` as `isNaN`, `< 0` and `<= 0` use
  it. The StringNumericLiteral grammar of the ECMAScript Language Specification
  (section 7.1.4.1.1) covers signs, decimals, exponents, `Infinity`, and
  `0x`/`0o`/`0b` integers. A blank string converts to 0. ToNumber (section
  7.1.4) covers `null`, booleans and JSON numbers. A missing field is
  `undefined`, which converts to NaN.
- `Validators` (`validators.dfy`): the two validators, check by check, with the
  source's messages.
- `Routes` (`routes.dfy`): each handler is a function from the request and the
  storage outcome to an `Exchange`. The outcome is either a row count with
  rows, or an exception. The `Exchange` records the statement sent to storage
  (`None` when the handler answered before any query) and the response.

Text fields are `Option<string>`. `None` is a missing or `null` field; the
source treats both as falsy. `stok` and `harga` hold any JSON scalar
(`null`, a boolean, a number, a string). The source tells `stok === undefined`
apart from `null`, and it coerces strings with `Number(...)`.

Behaviour of the code as written that the lemmas make explicit:
- `isNaN` of a blank string is false. So a phone number of 10 to 15 spaces
  passes (`BlankPhoneAccepted`).
- A signed, decimal or hexadecimal phone number of the right length passes too.
  The phone check fails when the trimmed text is not a StringNumericLiteral: a
  character that no numeral has, whitespace between digits, or a misplaced
  sign or point, as in `0812-3456-78` (`DashedPhoneRejected`).
- A `stok` of `null` passes the stock check and is stored as 0.

Three more behaviours of the code:
- The phone and social-media checks run only when the field is truthy. An empty
  string is skipped like a missing field.
- `tanggal_lahir` is rejected when it is empty as well as when it is missing.
- The stored stock is `stok || 0`. So `null`, `false`, `0` and `""` are all
  stored as 0, not only a missing stock.

## Model

| member | source | states |
|---|---|---|
| `JsString.LeadingSpace` | index.js:12 | the count of leading characters `trim` drops: all of them are whitespace and the next character, if any, is not |
| `JsString.ContentEnd` | index.js:12 | where `trim` cuts off the end: everything from there on is whitespace and the character before it, if any, is not |
| `JsString.Trim` | index.js:12 | `s.trim()`: what it returns is stated by `TrimIsSlice`, `TrimBlank`, `TrimPadded` and `TrimIdempotent` |
| `JsString.TrimIsSlice` | index.js:21 | `trim()` returns a slice `s[lo..hi]` with only whitespace outside it, and the slice is empty or starts and ends with non-whitespace |
| `JsString.TrimBlank` | index.js:12 | `s.trim() === ""` exactly when every character of `s` is whitespace |
| `JsString.TrimKeeps` | index.js:12 | a stretch that starts and ends with non-whitespace survives `trim` unchanged |
| `JsString.TrimNoop` | index.js:12 | a string with no whitespace at either end is its own trim |
| `JsString.TrimPadded` | index.js:21 | `trim` removes exactly the whitespace padding around a string |
| `JsString.TrimIdempotent` | index.js:21 | trimming twice is trimming once |
| `JsString.Utf16Length` | index.js:18 | `length` is between one and two code units per character |
| `JsString.Utf16LengthBasicPlane` | index.js:18 | `length` equals the character count exactly when every character is in the Basic Multilingual Plane |
| `JsString.Utf16LengthAppend` | index.js:21 | `length` adds up over concatenation |
| `JsString.Utf16LengthSlice` | index.js:21 | a slice is never longer than the whole string |
| `JsString.Utf16LengthTrim` | index.js:21 | `s.trim().length <= s.length` |
| `JsNumber.StringToNumber` | index.js:18 | `Number(s)` for a string: blank strings give 0 (`BlankStringIsZero`), digit runs give their value (`DigitStringValue`, `NegativeDigitStringValue`), and non-numerals give NaN (`LiteralIsNumeral`, `ForeignCharIsNaN`, `InnerWhitespaceIsNaN`) |
| `JsNumber.ToNumber` | index.js:107-111 | `Number(v)` for a JSON value: `undefined` gives NaN and `null` gives 0; stated by `AbsentStockAccepted` and `PriceRejectedIffNotPositive` |
| `JsNumber.Truthy` | index.js:110 | JavaScript truthiness; `PriceRejectedIffNotPositive` shows `!harga` adds nothing to the price check, and `StoredStockDefaults` the stock that falls back to 0 |
| `JsNumber.MantissaValue` | index.js:18 | a well-formed decimal mantissa has a non-negative value |
| `JsNumber.UnsignedDecimalValue` | index.js:107 | an unsigned decimal literal never converts to a negative number |
| `JsNumber.DigitStringValue` | index.js:18 | a string of decimal digits converts to its value, so `isNaN` is false for it |
| `JsNumber.NegativeDigitStringValue` | index.js:107 | `"-"` followed by digits converts to minus their value |
| `JsNumber.UnmarkedNonDigitIsNaN` | index.js:18 | an unsigned literal with no exponent marker or point, other than `Infinity`, is NaN as soon as one character is not a digit |
| `JsNumber.BlankStringIsZero` | index.js:18 | an empty or all-whitespace string converts to 0, not NaN |
| `JsNumber.LiteralIsNumeral` | index.js:18 | a trimmed string that does not convert to NaN consists of numeral characters only (digits, signs, `.`, `e`, radix letters, the letters of `Infinity`) |
| `JsNumber.ForeignCharIsNaN` | index.js:18 | a string holding a non-whitespace character that no numeral has converts to NaN |
| `JsNumber.InnerWhitespaceIsNaN` | index.js:18 | whitespace between two non-whitespace characters makes a string NaN |
| `Validators.ValidateProfile` | index.js:9-25 | `validateProfile`: the result is `None` or one of the four profile messages; which one is stated by `ProfileFirstFailure` and the check-by-check lemmas below |
| `Validators.ProfileFirstFailure` | index.js:9-25 | each profile message is returned exactly when its check fails and all earlier checks (name, birth date, phone, social media) pass; `None` exactly when all four pass |
| `Validators.BlankNameRejected` | index.js:12-14 | the name message is returned exactly when `full_name` is missing or all whitespace, whatever the other fields hold |
| `Validators.VisibleTextNotBlank` | index.js:12 | text that starts with a non-whitespace character passes a required-field check |
| `Validators.AbsentPhoneIgnored` | index.js:18-20 | a missing or empty phone never gives the phone message and the result equals that without a phone |
| `Validators.DigitPhoneAccepted` | index.js:18-20 | a phone of 10 to 15 decimal digits passes |
| `Validators.MalformedPhoneRejected` | index.js:18-20 | a phone holding a character that no numeral has is rejected |
| `Validators.SpacedPhoneRejected` | index.js:18-20 | a phone with whitespace between its characters is rejected |
| `Validators.DashedPhoneRejected` | index.js:18-20 | a phone of digits and dashes that starts and ends with a digit and has a dash inside, such as `0812-3456-78`, is made of numeral characters only and is still rejected (a leading dash instead makes a negative number, which passes) |
| `Validators.BlankPhoneAccepted` | index.js:18-20 | a phone of 10 to 15 whitespace code units passes, because `isNaN` of a blank string is false |
| `Validators.AcceptedPhoneShape` | index.js:18-20 | a present phone that passes is 10 to 15 code units long and not NaN |
| `Validators.ShortSocialMediaAccepted` | index.js:21-23 | a missing social-media handle, or one of at most 100 code units, is never rejected |
| `Validators.SocialMediaIgnoresPadding` | index.js:21-23 | a padded handle is rejected exactly when its unpadded text is over 100 code units |
| `Validators.AlamatIgnored` | index.js:10 | the address never changes the profile verdict |
| `Validators.ValidateBook` | index.js:98-114 | `validateBook`: the result is `None` or one of the four book messages; which one is stated by `BookFirstFailure` and the check-by-check lemmas below |
| `Validators.BookFirstFailure` | index.js:98-114 | each book message is returned exactly when its check fails and all earlier checks (title, author, stock, price) pass; `None` exactly when all four pass |
| `Validators.BlankTitleOrAuthorRejected` | index.js:101-106 | a missing or blank title gives the title message; otherwise a missing or blank author gives the author message |
| `Validators.UncheckedBookFieldsIgnored` | index.js:99 | publisher, category and synopsis never change the book verdict |
| `Validators.AbsentStockAccepted` | index.js:107-109 | a missing or `null` stock never gives the stock message |
| `Validators.NegativeStockRejected` | index.js:107-109 | a negative stock, given as a number or as `"-"` and digits, gives the stock message once title and author pass |
| `Validators.MalformedStockRejected` | index.js:107-109 | a stock string with a character that no numeral has gives the stock message |
| `Validators.PriceRejectedIffNotPositive` | index.js:110-112 | the price check fails exactly when the price does not convert to a positive number, including missing, `null`, `false`, `0` and `""` |
| `Validators.AcceptedBookBounds` | index.js:107-113 | an accepted book has a positive price and a stock that is missing or converts to a non-negative number |
| `Routes.GetProfiles` | index.js:27-34 | GET /profiles; stated by `ProfileStatuses`, `ProfileStorageFailure` and `ProfileSuccessBodies` |
| `Routes.PostProfile` | index.js:36-53 | POST /profiles: 400 with the validator's message and no statement, else an insert answered by 201 with "Profile berhasil ditambahkan." or 500; stated by `RejectedProfileNeverStored`, `StoredProfilesAreValid`, `ProfileSuccessBodies`, `ProfileStatuses` and `ProfileStorageFailure` |
| `Routes.PutProfile` | index.js:55-78 | PUT /profiles/:id; stated by `RejectedProfileNeverStored`, `MissingProfileIsNotFound`, `ProfileStatuses` and `ProfileSuccessBodies` |
| `Routes.DeleteProfile` | index.js:80-93 | DELETE /profiles/:id; stated by `MissingProfileIsNotFound`, `ProfileStatuses` and `ProfileSuccessBodies` |
| `Routes.StoredStock` | index.js:139-161 | the stock `stok`, or 0 when it is falsy, as sent by POST and PUT /buku; stated by `StoredStockDefaults` |
| `Routes.GetBooks` | index.js:117-124 | GET /buku; stated by `BookStatuses`, `BookStorageFailure` and `BookSuccessBodies` |
| `Routes.PostBook` | index.js:127-145 | POST /buku: 400 with the validator's message and no statement, else an insert answered by 201 with "Buku berhasil ditambahkan." or 500; stated by `RejectedBookNeverStored`, `StoredBooksAreValid`, `BookSuccessBodies`, `BookStatuses`, `BookStorageFailure` and `CreateBookWithoutStock` |
| `Routes.PutBook` | index.js:148-172 | PUT /buku/:id; stated by `RejectedBookNeverStored`, `MissingBookIsNotFound`, `BookStatuses` and `BookSuccessBodies` |
| `Routes.DeleteBook` | index.js:175-188 | DELETE /buku/:id; stated by `MissingBookIsNotFound`, `BookStatuses` and `BookSuccessBodies` |
| `Routes.IdMessagesNameId` | index.js:71-185 | the not-found and deleted messages contain the id |
| `Routes.RejectedProfileNeverStored` | index.js:36-68 | a rejected profile gets 400 with the validator's message and no statement; an accepted one is inserted or updated as given |
| `Routes.StoredProfilesAreValid` | index.js:39-48 | any profile sent to storage has a non-blank name and a birth date |
| `Routes.MissingProfileIsNotFound` | index.js:70-72 | a valid update or a delete matching no row gets 404 with a message containing the id |
| `Routes.ProfileStorageFailure` | index.js:31-92 | a storage exception gets 500 with the route's fixed message, the same for every id |
| `Routes.ProfileStatuses` | index.js:27-94 | the profile routes answer only with 200/500, 201/400/500, 200/400/404/500 and 200/404/500, and succeed exactly when the body passes, storage does not throw and a row matched |
| `Routes.ProfileSuccessBodies` | index.js:27-90 | a list answers 200 with the rows for any outcome, an empty table included; a valid create answers 201 with its fixed message; an update that matched answers 200 with the first returned row, or no data when none came back; a delete that matched answers 200 naming the id, whatever rows came back |
| `Routes.RejectedBookNeverStored` | index.js:127-162 | a rejected book gets 400 with the validator's message and no statement; an accepted one is inserted or updated |
| `Routes.StoredStockDefaults` | index.js:139 | the stored stock is 0 for a missing or falsy `stok`, `stok` itself otherwise, and never NaN or negative after validation |
| `Routes.StoredBooksAreValid` | index.js:153-162 | any book sent to storage has a non-blank title and author, a positive price and a non-negative stock |
| `Routes.MissingBookIsNotFound` | index.js:164-166 | a valid update or a delete matching no book gets 404 with a message containing the id |
| `Routes.BookStorageFailure` | index.js:121-188 | a storage exception gets 500 with the route's fixed message |
| `Routes.BookStatuses` | index.js:117-189 | the book routes answer only with their listed statuses, and succeed exactly when the body passes, storage does not throw and a row matched |
| `Routes.BookSuccessBodies` | index.js:117-185 | a list answers 200 with the rows for any outcome, an empty table included; a valid create answers 201 with its fixed message; an update that matched answers 200 with the first returned row, or no data when none came back; a delete that matched answers 200 naming the id, whatever rows came back |
| `Routes.CreateBookWithoutStock` | index.js:127-145 | POST /buku with a title, an author and a price of 50000 but no stock gets 201 and stores a stock of 0 |
| `Routes.UpdateMissingProfile` | index.js:55-78 | PUT /profiles/999 with a valid body and no matching row gets 404 and a message containing "999" |
| `Routes.CreateProfileWithoutName` | index.js:36-42 | POST /profiles with an empty name gets 400 with the name message and stores nothing |

## Left out

- Express setup, the JSON body parser and `app.listen` (index.js:1-6, 191-193) are framework plumbing.
- The connection pool and the SQL text are left out: `db.js` is not part of this model. A handler takes the storage outcome as an input: a row count with the returned rows, or an exception. The model records which statement is sent and with which parameter values, but not what the database does with them.
- Rows are an abstract type parameter. JSON serialisation of responses is not modelled.
- `async`/`await` and concurrent requests are left out. The handlers share no in-process state.
- Text fields are always strings or missing. For a non-string `full_name`, `judul` or `penulis`, `.trim()` would throw outside the `try` block. For a numeric `nomor_telepon`, `.length` is undefined and the length check is skipped. Neither case is modelled.
- `stok` and `harga` never hold an array or an object. `Number(...)` of those is not modelled.
- Strings are sequences of Unicode scalar values. A JSON escape such as `"\ud800"` gives JavaScript a lone surrogate, one code unit for `length` and `trim`; the model cannot represent it.
- Numbers are exact reals, not IEEE doubles. A string like `"1e-400"` that underflows to 0 in JavaScript is positive in the model, so `PriceRejectedIffNotPositive` and `AcceptedBookBounds` do not cover that case. Likewise `"-1e-400"` is -0 in JavaScript and passes `stok < 0`, but the model rejects it as negative stock. An overflow to Infinity keeps its sign and is modelled alike.
