# Donation ledger: record codec and file-mirrored list

This project models the core of a small desktop application that records
donations. Each donation (`Doacao`) has a kind (`tipo`), a quantity
(`quantidade`) and a date (`data`). The ledger (`SistemaDeDoacoes`) keeps the
donations in a list. It mirrors that list to the text file `doacoes.txt`, one
line per donation. Each line is `tipo;quantidade;data`.

The model covers:

- the line codec `Doacao.toString` / `Doacao.fromString` (module `Codec`), with
  Java's `String.split` semantics (module `JavaSplit`);
- the amount's text form (module `Amount`) and the date's text form (module
  `IsoDate`, the calendar-date extended format YYYY-MM-DD of section 4.1.2.2
  of ISO 8601:2004);
- the file as text, written with `newLine` and read back with `readLine`
  (module `TextFile`);
- the ledger class with `adicionarDoacao`, `salvarDoacoes`, `carregarDoacoes`
  and `calcularTotalDoacoes`, and the constructor that loads the file (module
  `Ledger`);
- concrete lines and ledgers (module `Scenarios`).

Modelling decisions:

- The amount is an exact decimal: a sign, a whole part and the fraction digits,
  with no trailing zero after the point. Its text always has at least one
  fraction digit (`20.0`, `10.5`), as `Double.toString` writes values of
  ordinary size. `Parse` reads plain decimal notation (`10`, `5.`, `.5`,
  `-3.25`), and its value is that of the decimal numeral (`10.50` is 10.5).
  The proofs establish that `Parse` undoes `Render`. The converse does not
  hold, and it does not hold in the source either: `"10"` reads as ten, whose
  text is `"10.0"`, just as `Double.toString(Double.parseDouble("10"))` is
  `"10.0"`. They also establish that a rendered amount holds only digits, `.`
  and `-`, so never `;`.
- The date is a proleptic Gregorian day with a year from 0 to 9999. Day,
  month and leap years are checked strictly, as `LocalDate.parse` does. Here
  the pair is inverse both ways: a date's text reads back to that date, and
  an accepted text is the text of the date read from it. The absence of `;`
  is proved too.
- The file state is `Absent`, `Unreadable` or `Text(content)`. It lives in its
  own object (`TextFile.Arquivo`), shared by every ledger opened on it.
- `fromString` throws, so `FromString` returns a `Result`. The error says
  which step failed, in the source's order: field 0, field 1, the amount,
  field 2, the date (`MissingField(i)`, `BadAmount`, `BadDate`). So `food;abc`
  fails on the amount before field 2 is looked at.
- The public constructor can throw out of `carregarDoacoes`. It is the static
  method `Abrir`, which returns either a ledger or the decode error. The
  constructor `Vazio` is only the field initialiser.

Where a reader might expect otherwise, the model follows the code
(`SistemaDeDoacoes.java`):

- Empty lines are not skipped. An empty line decodes as one empty field and
  fails with `MissingField(1)`.
- More than three fields are accepted. Fields after the third are ignored.
- A negative amount is accepted, since `Double.parseDouble` accepts one.
- Read and write errors are swallowed, not reported. A missing or unreadable
  file gives an empty ledger. Saving always succeeds from the caller's view.
- A line that fails to decode stops the load. The records before it are
  already in the list (`CarregarDoacoes`), but the exception escapes the
  constructor, so no ledger object results (`Abrir` returns `Err`).
- The round trip needs more than "no `;` in `tipo`". `tipo` must also hold no
  line break (`\n` or `\r`), because `readLine` would split that record into
  two lines (`Ledger.Storable`). A `;` in `tipo` provably breaks the round trip
  (`Codec.SeparatorInTipoBreaksRoundTrip`).

## Model

| member | source | states |
|---|---|---|
| `JavaSplit.Split` | SistemaDeDoacoes.java:140 | `split(";")` returns fields that never contain the separator |
| `JavaSplit.DropTrailingEmpty` | SistemaDeDoacoes.java:140 | `split` with limit 0 keeps a prefix of the fields; everything it drops is empty, and its last field is non-empty |
| `JavaSplit.SplitThreeAndMore` | SistemaDeDoacoes.java:140 | `a;b;c;more`, with `a`, `b`, `c` free of `;` and `c` non-empty, splits into fields starting with exactly `a`, `b`, `c`, whatever `more` is (an empty `a` included: the leading empty field is kept) |
| `JavaSplit.SplitTwo` | SistemaDeDoacoes.java:140 | `a;b` with `b` non-empty splits into exactly `[a, b]` |
| `JavaSplit.SplitTwoTrailing` | SistemaDeDoacoes.java:140 | `a;b;` with `b` non-empty also splits into exactly `[a, b]`: the trailing empty field is dropped |
| `JavaSplit.SplitExactlyThree` | SistemaDeDoacoes.java:140 | `a;b;c` with `c` non-empty splits into exactly `[a, b, c]` |
| `Amount.Render` | SistemaDeDoacoes.java:136 | the amount's text has at least three characters, all digits, `.` or `-`, with `-` only first (so no `;` and no line break) |
| `Amount.ParseRender` | SistemaDeDoacoes.java:136-142 | reading back the text of an amount gives the same amount |
| `Amount.Value` | SistemaDeDoacoes.java:29 | the number an amount stands for: its whole part is its integer part (between the whole part and the whole part plus one without a minus sign, the mirror image with one) |
| `Amount.StripZeros` | SistemaDeDoacoes.java:142 | dropping the trailing zeros keeps a prefix of the fraction digits, removes only zeros, leaves no trailing zero, and keeps the value |
| `Amount.ParseMagnitude` | SistemaDeDoacoes.java:142 | an unsigned text is accepted exactly when it is digits with at most one point and at least one digit; the result is not negative and has the text's decimal value |
| `Amount.Parse` | SistemaDeDoacoes.java:142 | `Double.parseDouble` on plain decimal notation: accepted exactly when the text after an optional sign is an accepted unsigned number; a minus makes the result negative and negates its value |
| `IsoDate.Render` | SistemaDeDoacoes.java:136 | the date's text is ten characters, all digits or `-` |
| `IsoDate.Parse` | SistemaDeDoacoes.java:143 | an accepted date text is ten characters with `-` at positions 4 and 7, and it names a valid calendar day (the result type); `RenderParse` pins the date down |
| `IsoDate.RenderParse` | SistemaDeDoacoes.java:136-143 | an accepted date text is exactly the text of the date read from it, so `LocalDate.parse` and `toString` are inverse both ways |
| `IsoDate.ParseRender` | SistemaDeDoacoes.java:136-143 | reading back the text of a date gives the same date |
| `Codec.ToString` | SistemaDeDoacoes.java:135-137 | a definition with no contract of its own: `tipo`, the amount's text and the date's text joined by `;`; `SplitToString` and `FromStringToString` carry its properties |
| `Codec.DecodeFields` | SistemaDeDoacoes.java:141-144 | fewer than three fields always fail; three or more whose field 1 is an amount and field 2 a date always succeed; on success the record's `tipo` is field 0, its amount is field 1 parsed and its date is field 2 parsed; never a partial record |
| `Codec.FromString` | SistemaDeDoacoes.java:139-145 | a line with fewer than three fields after the split always fails; a decoded `tipo` never contains `;` |
| `Codec.DecodeFieldsFirstThree` | SistemaDeDoacoes.java:141-144 | two field lists agreeing on their first three fields decode alike |
| `Codec.DecodeTwoFields` | SistemaDeDoacoes.java:140-143 | `a;b` and `a;b;` fail on the amount when `b` is not one, and otherwise on the missing field 2 |
| `Codec.DecodeThreeFields` | SistemaDeDoacoes.java:140-144 | `a;b;c` fails on the amount if `b` is not one, else on the date if `c` is not one, else yields the record `(a, amount, date)` |
| `Codec.SplitToString` | SistemaDeDoacoes.java:135-140 | a line written for a `tipo` without `;` splits back into exactly its three texts |
| `Codec.FromStringToString` | SistemaDeDoacoes.java:135-144 | round trip: a record whose `tipo` has no `;`, the empty `tipo` included, is decoded back unchanged |
| `Codec.SeparatorInTipoBreaksRoundTrip` | SistemaDeDoacoes.java:135-144 | a record whose `tipo` contains `;` never decodes back to itself (with the round trip above: the round trip holds exactly when `tipo` has no `;`) |
| `Codec.OneSeparatorInTipoFailsDecode` | SistemaDeDoacoes.java:135-144 | a `tipo` holding one `;` shifts the fields so that the saved line fails to decode: either the part of `tipo` after its `;` is not an amount, and decoding fails with `BadAmount`, or it is one, and the amount text is then read as the date, which never parses |
| `Codec.AmountTextIsNoDate` | SistemaDeDoacoes.java:136-143 | the text of an amount is never accepted as a date |
| `Codec.FromStringFirstThree` | SistemaDeDoacoes.java:140-144 | two lines whose first three fields agree decode to the same result |
| `Codec.ExtraFieldsIgnored` | SistemaDeDoacoes.java:140-144 | the encoded line followed by `;` and anything at all still decodes to the original record |
| `Codec.FromStringStable` | SistemaDeDoacoes.java:135-144 | a record decoded from any line re-encodes to a line that decodes to it again |
| `Scenarios.ParseTen` | SistemaDeDoacoes.java:142 | `"10"` is read as ten, with no fraction digits |
| `Scenarios.ParseTrailingZero` | SistemaDeDoacoes.java:142 | `"10.50"` is read as 10.5 |
| `Scenarios.RenderOfParsedTen` | SistemaDeDoacoes.java:136-142 | the amount read from `"10"` is written back as `"10.0"` |
| `Scenarios.EmptyLine` | SistemaDeDoacoes.java:140-142 | `""` fails when field 1 is read |
| `Scenarios.LoneSeparator` | SistemaDeDoacoes.java:140-141 | `";"` has no field at all and fails when field 0 is read |
| `Scenarios.TwoFields` | SistemaDeDoacoes.java:140-143 | `"food;10"` parses the amount, then fails when field 2 is read |
| `Scenarios.TrailingSeparator` | SistemaDeDoacoes.java:140-143 | `"food;10;"` loses its empty last field and fails when field 2 is read |
| `Scenarios.BadAmountLine` | SistemaDeDoacoes.java:142 | `"food;abc;2024-01-01"` fails on the amount `abc` |
| `Scenarios.BadDateLine` | SistemaDeDoacoes.java:143 | `"food;10;not-a-date"` fails on the date `not-a-date` |
| `Scenarios.NoThirtiethOfFebruary` | SistemaDeDoacoes.java:143 | `2024-02-30` is well formed but rejected, since February 2024 has 29 days |
| `TextFile.ReadLine` | SistemaDeDoacoes.java:47 | `readLine` returns null exactly at the end of the text; otherwise the line is the text up to its first line break and the rest is what follows the terminator, which is `"\n"`, `"\r\n"`, a `"\r"` not followed by `"\n"`, or the end of the text; reading moves forward |
| `TextFile.ReadLineTerminators` | SistemaDeDoacoes.java:47 | a line ended by `"\n"`, by `"\r\n"` (one terminator) or by a `"\r"` not followed by `"\n"` is read back as that same line, with the text after the terminator left |
| `TextFile.ReadLines` | SistemaDeDoacoes.java:47 | the lines the `readLine` loop yields before null; none holds a line break |
| `TextFile.WriteLines` | SistemaDeDoacoes.java:34-36 | a definition with no contract of its own: each line followed by `newLine`'s separator; `WriteLinesAppend` and `ReadLinesWriteLines` carry its properties |
| `TextFile.WriteLinesAppend` | SistemaDeDoacoes.java:34-37 | writing one more line appends that line and the separator to the text |
| `TextFile.ReadLinesWriteLines` | SistemaDeDoacoes.java:34-49 | lines without line breaks are read back by `readLine` exactly as they were written |
| `Ledger.EncodeAll` | SistemaDeDoacoes.java:34-35 | one line per record, the i-th line being the i-th record's `toString` |
| `Ledger.Load` | SistemaDeDoacoes.java:43-52 | a definition with no contract of its own: an absent or unreadable file gives no records and no failure, a text file the decoded lines; `LoadSaved`, `BadLineFailsLoad` and `CarregarDoacoes` carry its properties |
| `Ledger.DecodeLines` | SistemaDeDoacoes.java:47-49 | decoding stops at the first failing line: without a failure every line gave its record; with one, the records decoded so far come from the lines before it and the failure is that line's error |
| `Ledger.BadLineFailsLoad` | SistemaDeDoacoes.java:47-49 | one undecodable line anywhere in the file makes the reload fail, at that line or an earlier one |
| `Ledger.DecodeAllOk` | SistemaDeDoacoes.java:47-49 | when every line decodes, the reload yields exactly their records, in line order, and no failure |
| `Ledger.DecodeEncoded` | SistemaDeDoacoes.java:35-48 | decoding the encoded lines of records without `;` in `tipo` gives back the records and no failure |
| `Ledger.LoadSaved` | SistemaDeDoacoes.java:32-49 | loading the text a save wrote reproduces the list, when every record is storable |
| `Ledger.Total` | SistemaDeDoacoes.java:29 | the sum of the amounts in list order; with no negative amount it is not negative |
| `Ledger.TotalAppend` | SistemaDeDoacoes.java:28-30 | total(old + [d]) = total(old) + amount(d) |
| `Scenarios.TotalOfThree` | SistemaDeDoacoes.java:28-30 | amounts 10.5, 20 and 5.25 total exactly 35.75 |
| `Ledger.SistemaDeDoacoes.Vazio` | SistemaDeDoacoes.java:15 | a new ledger starts with an empty list, on the given file |
| `Ledger.SistemaDeDoacoes.Abrir` | SistemaDeDoacoes.java:14-17 | the constructor yields a ledger exactly when the file loads without a decode failure; its list is then the loaded records and mirrors the file; otherwise the failure escapes |
| `Ledger.SistemaDeDoacoes.AdicionarDoacao` | SistemaDeDoacoes.java:23-26 | the list becomes old + [d], so earlier entries are unchanged and `d` is last; the file then holds the saved list and, if every record is storable, reloads to it |
| `Ledger.SistemaDeDoacoes.SalvarDoacoes` | SistemaDeDoacoes.java:32-41 | the file is overwritten with one encoded line per record, in list order, leaving the list alone; with storable records a reload reproduces the list |
| `Ledger.SistemaDeDoacoes.CarregarDoacoes` | SistemaDeDoacoes.java:43-53 | the old list is discarded; an absent or unreadable file leaves it empty; otherwise the list is the records decoded in line order up to the first failing line, whose error is returned |
| `Ledger.SistemaDeDoacoes.CalcularTotalDoacoes` | SistemaDeDoacoes.java:28-30 | the result is `Total` of the list: 0 for an empty list, and not negative when no amount is |
| `Ledger.ReloadAfterAdd` | SistemaDeDoacoes.java:14-26 | after adding a storable record to a ledger of storable records, a new ledger opened on the same file has the same list |

## Left out

- The Swing window (`criarInterface`, `main`, the listeners and dialogs) is not modelled. It is user-interface plumbing. Its input parsing calls the same library parses that are modelled here.
- Real file I/O is not modelled. The file is a value in an object. `printStackTrace` is dropped.
- Ledger.SistemaDeDoacoes.SalvarDoacoes: a write error that leaves the file truncated or half-written is not modelled. The save always succeeds, because the source swallows the error and the caller cannot observe it.
- Ledger.SistemaDeDoacoes.CarregarDoacoes: only failure to open the file counts as an I/O error. Read errors in the middle of the file are not modelled; these include malformed UTF-8. They would be swallowed with the records before them kept. Character decoding is left out.
- The line separator written by `newLine` is fixed to `"\n"`. On some platforms it is `"\r\n"`, which `readLine` reads the same way (`TextFile.ReadLineTerminators`).
- Amount.Render: floating point is not modelled. This covers IEEE-754 rounding of the `double` amount, `Double.toString`'s shortest-digits output and its exponent form (`1.0E7`), and the compensated summation of `DoubleStream.sum`. Amounts are exact decimals and the total is an exact `real`.
- Amount.Parse: some inputs `Double.parseDouble` accepts are not modelled. These are surrounding blanks, exponents, hexadecimal forms, the `d`/`f` suffixes, `NaN` and `Infinity`. Such lines fail here, while the source would accept them.
- IsoDate.Parse: `LocalDate`'s signed years (`+10000-01-01`, `-0001-01-01`) are not modelled. The model handles only years 0 to 9999.
- The record getters are not separate members. They are the datatype's field names.
