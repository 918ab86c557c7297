# Go archive/tar: header format selection and the FileInfo round trip

This project models two parts of Go's `archive/tar` package, as its header tests
(`src/archive/tar/tar_test.go`) pin them down.

- **`Header.allowedFormats`.** It decides which of the three tar formats (USTAR,
  PAX and GNU) can encode a header. It also returns the PAX extended-header
  records that a PAX encoding needs for values a USTAR field cannot hold.
  - The model visits the fields in the package's order: the strings, then
    the numbers, then the three times.
  - For each field, a USTAR octal or C-string field, a GNU base-256 field or
    long-name record, and a PAX record each either hold the value or they do
    not. Each check removes the formats that cannot hold the value and adds
    any record the value needs.
  - Extended attributes then leave PAX as the only candidate.
  - An invalid record, or a negative size, leaves no format at all
    (`formatUnknown`).
  - Time records are written by the PAX time formatter (`formatPAXTime`):
    whole seconds in decimal, or the exact decimal value with trailing
    zeros removed. A reader parses them back with `parsePAXTime`.
- **`Header.FileInfo` and `FileInfoHeader`.** `Header.FileInfo` is the
  read-only `os.FileInfo` view of a header:
  - base name;
  - the size field as it is;
  - `os.FileMode` built from the permission bits, the setuid/setgid/sticky
    bits and the type flag;
  - `Sys()` returning the header itself.

  `FileInfoHeader` is the inverse. It builds a header from a FileInfo,
  refuses sockets, and takes the owner, the access and change times, the
  extended attributes and hard links from a `Sys` header.
- **The two table-driven tests.** `TestHeaderAllowedFormats` has 37 entries
  and `TestHeaderRoundTrip` has 11. Each test's loop is a method whose result
  is the list of failing entry positions. The method is proved equal to a
  specification function of which entries pass. Every entry is proved to
  pass, so each test reports nothing.

Modules:

| module | file | what it holds |
|---|---|---|
| `Wrappers` | `wrappers.dfy` | `Option` and `Result` |
| `GoTypes` | `gotypes.dfy` | Go bytes and strings, int64 with two's-complement wrap-around, `isASCII`/`hasNUL`, `strings.IndexByte`/`TrimRight`/`Repeat` |
| `GoTime` | `gotime.dfy` | `time.Time` as Unix seconds plus nanoseconds, the zero Time, `time.Unix` |
| `GoOs` | `goos.dfy` | `os.FileMode` as permission bits plus mode flags |
| `GoPath` | `gopath.dfy` | `path.Base` and `path.Clean` |
| `Strconv` | `strconv.dfy` | `strconv.FormatInt`/`ParseInt` in base 10 |
| `TarHeader` | `header.dfy` | the `Header` record, type flags, `c_IS*` mode bits, field widths, PAX keywords, `validPAXRecord` |
| `TarStrconv` | `tarstrconv.dfy` | `fitsInOctal`, `fitsInBase256`, `formatPAXTime`, `parsePAXTime` |
| `TarFormats` | `formats.dfy` | `allowedFormats` with its per-field checks, and its field-by-field characterisation |
| `TarFormatsLemmas` | `formats_lemmas.dfy` | `allowedFormats` on headers with one kind of field set, and facts about every header |
| `TarFileInfo` | `fileinfo.dfy` | `Header.FileInfo`, `FileInfoHeader`, and their round trip |
| `TarTestLoop` | `test_loop.dfy` | the failure list a table-driven loop reports |
| `TarTestStrings` | `test_strings.dfy` | the byte strings and numerals of the tables |
| `TarFormatsTest` | `formats_test.dfy` | `TestHeaderAllowedFormats` |
| `TarRoundTripTest` | `roundtrip_test.dfy` | `TestHeaderRoundTrip` |

The test table fixes two points of the classification:

- A user name longer than 32 bytes rules out GNU as well as USTAR. The table
  expects `formatPAX` alone at lines 402-404.
- A non-ASCII name or link name rules out USTAR even when it is short. The
  table expects USTAR to be missing at lines 388-389 and 416-418.

## Model

| member | source | states |
|---|---|---|
| TarFormats.AllowedFormats | src/archive/tar/tar_test.go:487-495 | Models `Header.allowedFormats`: the string, numeric and time checks from all three formats, then the attribute step, then formatUnknown for an invalid record or a negative size. Its partner `AllowedFormatsSpec` characterises the result field by field for every header, and `AllFormatsVectorsPass` checks it against each table entry. |
| TarFileInfo.HeaderFileInfo | src/archive/tar/tar_test.go:275 | Models `Header.FileInfo`: the headerFileInfo view with the name, size, mode and modification time of the header and the header itself as Sys. Its partners are `HeaderModeTable`, `FileInfoNameHasNoSlash` and the round trips `HeaderRoundTrip` and `ModeRoundTrip` through `FileInfoHeader`. |
| TarFileInfo.HeaderMode | src/archive/tar/tar_test.go:316-318 | Models `headerFileInfo.Mode`: the permission bits, the setuid/setgid/sticky flags, and the kind flags of the mode's type bits and of the type flag. `HeaderModeTable` and `SpecialFlags` state it for every header with a mode below 010000. |
| TarFileInfo.HeaderName | src/archive/tar/tar_test.go:281-290 | Models `headerFileInfo.Name`: the base name, of the cleaned path for a directory. `FileInfoNameHasNoSlash` states that it is nonempty and holds a slash only as "/". |
| TarFileInfo.HeaderSize | src/archive/tar/tar_test.go:291-293 | Models `headerFileInfo.Size`: the size field of the header. `KindRoundTrip` states that `FileInfoHeader` takes it back for a regular file. |
| TarFileInfo.TypeBitsFlags | src/archive/tar/tar_test.go:316-318 | Models the c_IS* switch of `headerFileInfo.Mode` over the type bits above 07777. `HeaderModeTable` states that a mode below 010000 has none of them. |
| TarFileInfo.TypeflagFlags | src/archive/tar/tar_test.go:166-216 | Models the type-flag switch of `headerFileInfo.Mode`. `HeaderModeTable` states the kind each type flag names, and `KindRoundTrip` states that `FileInfoHeader` gives the type flag back. |
| TarStrconv.FitsInOctal | src/archive/tar/tar_test.go:360-371 | Models `fitsInOctal`. `OctalBounds` states its ranges: 0..07777777 for 8-byte fields and 0..077777777777 for 12-byte ones. |
| TarStrconv.FitsInBase256 | src/archive/tar/tar_test.go:373-386 | Models `fitsInBase256`. `OctalBounds` states its ranges: -2^56..2^56-1 for 8-byte fields, and every int64 for 12-byte ones. |
| TarStrconv.ParsePAXTime | src/archive/tar/tar_test.go:466-484 | Models `parsePAXTime`. Its partner `ParseFormatPAXTime` states that it reads `formatPAXTime` of every instant back as that instant. |
| Strconv.ParseInt | src/archive/tar/tar_test.go:431-433 | Models `strconv.ParseInt` in base 10 for int64. Its contract states that only a nonempty text parses. Its partner `ParseFormatInt` states that it reads `FormatInt` of every int64 back as that value. |
| GoPath.Base | src/archive/tar/tar_test.go:284 | Models `path.Base`. `BaseShape` states that it is never empty and holds a slash only as "/", exactly for a nonempty path of slashes. |
| GoPath.Clean | src/archive/tar/tar_test.go:198-206 | Models `path.Clean`. Its contract states that the result is never empty; `CleanIdempotent` states that cleaning twice is cleaning once, and `CleanTrailingSlash` that "e/" cleans to "e". |
| GoTime.UnixTime | src/archive/tar/tar_test.go:470-472 | Models `time.Unix` for a nanosecond count within one second. `UnixTimeValue` states that it denotes sec*1e9 + nsec nanoseconds when the seconds counter does not wrap. |
| GoTime.IsZero | src/archive/tar/tar_test.go:357-358 | Models `time.Time.IsZero`: an unset time is zero, and `time.Unix(0, 0)` is not. `AccessTimeOnly` states that a set atime, the epoch included, needs an atime record, as lines 474-476 expect. |
| TarHeader.ValidPAXRecord | src/archive/tar/tar_test.go:420-450 | Models `validPAXRecord`: a nonempty key without '=', with no NUL in the value of a path or name keyword and no NUL in any other key. `OverridesValid` states when every record of a header is valid. |
| GoTypes.IsASCII | src/archive/tar/tar_test.go:388-389 | Models the C-style `isASCII`: every byte is nonzero and below 0x80. `StringRecords` states that a string record is needed exactly when a string is not such a string or is too long, and `HanIsNotASCII` checks the table's Han text. |
| GoTypes.HasNUL | src/archive/tar/tar_test.go:420-426 | Models `strings.IndexByte(s, 0) >= 0`. `OverridesValid` states that a NUL in a string field makes its record invalid, and `RepeatedHanWithNUL` checks the table's link name. |
| TarFormats.VerifyString | src/archive/tar/tar_test.go:399-426 | Each string check (name, linkname, uname, gname) works as follows. USTAR survives exactly when the string is a C ASCII string within its width. GNU survives exactly when the string has no NUL and is within its width, or is a path (name or link name). PAX is untouched. The record added is exactly the string, under its keyword, when USTAR cannot hold it. |
| TarFormats.VerifyNumeric | src/archive/tar/tar_test.go:360-397 | Each numeric check works as follows. USTAR survives exactly when the value fits the octal field, and GNU exactly when it fits the base-256 field. PAX survives unless the value misses the octal field and has no keyword (mode and device numbers). The decimal record is added exactly when the octal field is too small. |
| TarFormats.VerifyTime | src/archive/tar/tar_test.go:452-484 | An unset time changes nothing. USTAR survives only an mtime of whole seconds that fits the octal field. GNU survives only whole seconds in base-256 range. PAX is untouched. A set time that USTAR cannot hold becomes a record in PAX time format. |
| TarFormats.XattrRecords | src/archive/tar/tar_test.go:438-444 | Every extended attribute becomes a record under "SCHILY.xattr." plus its name, holding its value verbatim, and every record comes from one attribute. |
| TarFormats.AddXattrs | src/archive/tar/tar_test.go:435-450 | A nonempty attribute map narrows the formats to at most PAX and adds its records. An empty one, which is the same as a nil one, changes nothing. |
| TarFormats.CheckStrings | src/archive/tar/tar_test.go:399-426 | After the four string checks, USTAR and GNU survive exactly when every string fits them, and the records are exactly those of the strings that USTAR cannot hold. |
| TarFormats.CheckNumbers | src/archive/tar/tar_test.go:360-397 | After the six numeric checks, USTAR, GNU and PAX survive exactly when every number fits them, and the records are those of uid, gid and size where the octal field is too small. |
| TarFormats.CheckTimes | src/archive/tar/tar_test.go:452-484 | After the three time checks, USTAR and GNU survive exactly when every time fits them. The mtime, atime and ctime records are the ones USTAR cannot do without. |
| TarFormats.CheckFields | src/archive/tar/tar_test.go:356-484 | Starting from all three formats and no records, the field checks allow USTAR, GNU and PAX exactly when every field fits that format. The records are the union of the field records. |
| TarFormats.StringRecords | src/archive/tar/tar_test.go:402-426 | There is a path, linkpath, uname or gname record exactly when that string is not a C ASCII string within its width, and it holds the string itself. |
| TarFormats.NumericRecords | src/archive/tar/tar_test.go:363-397 | There is a uid, gid or size record exactly when the value misses its octal field, and it holds strconv.FormatInt of the value. |
| TarFormats.TimeRecords | src/archive/tar/tar_test.go:458-484 | There is an mtime record exactly when the set mtime is not whole seconds that fit the octal field. There is an atime or ctime record exactly when that time is set. Each record holds formatPAXTime of the time. |
| TarFormats.OverridesValid | src/archive/tar/tar_test.go:420-450 | Every record is valid and nonempty exactly when the strings have no NUL and every attribute name has neither '=' nor NUL and has a nonempty value. |
| TarFormats.XattrRecordInvalid | src/archive/tar/tar_test.go:446-450 | An attribute whose name holds '=' or NUL, or whose value is empty, gives an invalid record. |
| TarFormats.AllowedFormatsSpec | src/archive/tar/tar_test.go:352-485 | allowedFormats field by field. A negative size or an invalid record gives formatUnknown and no records. Otherwise USTAR and GNU are allowed exactly when their headers hold every field and there are no attributes, and PAX exactly when mode and device numbers fit their octal fields. The records are exactly the field records plus the attribute records. |
| TarFormats.AllowedFormatsCases | src/archive/tar/tar_test.go:395-397 | allowedFormats gives formatUnknown exactly for a header with a negative size or an invalid record source, and otherwise the field checks followed by the attribute step. |
| TarFormats.FieldsThenXattrs | src/archive/tar/tar_test.go:435-444 | Before the validity checks, the attribute step leaves USTAR and GNU exactly when there are no attributes, and the records are the field records plus the attribute records. |
| TarFormatsLemmas.OnlyStrings | src/archive/tar/tar_test.go:399-426 | With only strings set, a NUL gives formatUnknown. Otherwise PAX is always allowed, USTAR and GNU as far as the strings fit them, and the records are the string records. |
| TarFormatsLemmas.OnlyNumbers | src/archive/tar/tar_test.go:360-397 | With only numbers set, a negative size gives formatUnknown. Otherwise each format is allowed as far as the numbers fit it, and the records are the numeric records. |
| TarFormatsLemmas.OnlyTimes | src/archive/tar/tar_test.go:452-484 | With only times set, PAX is always allowed, USTAR and GNU as far as the times fit them, and the records are the time records. |
| TarFormatsLemmas.OnlyXattrs | src/archive/tar/tar_test.go:435-450 | With only attributes set: none gives all formats; an invalid one gives formatUnknown; otherwise the result is PAX alone with one record per attribute. |
| TarFormatsLemmas.OctalBounds | src/archive/tar/tar_test.go:360-386 | The 8-byte octal field holds 0..07777777 and the 12-byte one holds 0..077777777777. The 8-byte base-256 field holds -2^56..2^56-1, and the 12-byte one holds every int64. |
| TarFormatsLemmas.SizeOnly | src/archive/tar/tar_test.go:360-397 | The size alone: up to 077777777777 every format and no record; above that PAX and GNU with a size record; below zero formatUnknown. |
| TarFormatsLemmas.UidOnly | src/archive/tar/tar_test.go:428-433 | The uid alone: up to 07777777 every format. Otherwise a uid record with PAX, and GNU too within the base-256 range. |
| TarFormatsLemmas.ModeOnly | src/archive/tar/tar_test.go:367-371 | The mode alone: up to 07777777 every format. Otherwise only GNU, within its base-256 range, and no record. |
| TarFormatsLemmas.DevmajorOnly | src/archive/tar/tar_test.go:373-386 | The major device number alone: up to 07777777 every format. Otherwise GNU alone within -2^56..2^56-1, and no format outside that range. |
| TarFormatsLemmas.NameOnly | src/archive/tar/tar_test.go:406-414 | The name alone: a NUL gives formatUnknown. A C ASCII name of at most 100 bytes allows every format. Any other name allows PAX and GNU, with a path record. |
| TarFormatsLemmas.LinknameOnly | src/archive/tar/tar_test.go:416-426 | The link name alone: the same as the name, with a linkpath record. |
| TarFormatsLemmas.UnameOnly | src/archive/tar/tar_test.go:399-404 | The user name alone: a NUL gives formatUnknown. A C ASCII name of at most 32 bytes allows every format. Otherwise PAX with a uname record, and GNU only when the name is within 32 bytes. |
| TarFormatsLemmas.NameWithDevmajor | src/archive/tar/tar_test.go:388-389 | With the name and the major device number set, the formats are those both fields allow. |
| TarFormatsLemmas.ModTimeOnly | src/archive/tar/tar_test.go:452-472 | The mtime alone: unset, or whole seconds in 0..077777777777, allows every format. Other whole seconds allow PAX and GNU with a decimal mtime record. A sub-second part leaves PAX alone, with a PAX-time record. |
| TarFormatsLemmas.AccessTimeOnly | src/archive/tar/tar_test.go:474-480 | The atime alone: unset allows every format. A set atime is always an atime record with PAX, and GNU too for whole seconds. |
| TarFormatsLemmas.ChangeTimeOnly | src/archive/tar/tar_test.go:482-484 | The ctime alone: the same as the atime, with a ctime record. |
| TarFormatsLemmas.USTARNeedsNoRecords | src/archive/tar/tar_test.go:353-355 | Whenever USTAR is allowed, no PAX record is needed. |
| TarFormatsLemmas.USTARIsStrictest | src/archive/tar/tar_test.go:357-361 | Whenever USTAR is allowed, PAX and GNU are allowed too. |
| TarFormatsLemmas.NumericRecordsRoundTrip | src/archive/tar/tar_test.go:431-433 | For an encodable header, a uid, gid or size record exists exactly when the octal field is too small, and strconv.ParseInt reads it back as the value. |
| TarFormatsLemmas.TimeRecordsRoundTrip | src/archive/tar/tar_test.go:458-484 | For an encodable header, every time record parses back with parsePAXTime to exactly the instant recorded. |
| TarFormatsLemmas.StringRecordsVerbatim | src/archive/tar/tar_test.go:402-426 | For an encodable header, a string record exists exactly when USTAR cannot hold the string, and it holds the string verbatim. |
| TarFormatsLemmas.XattrRecordsVerbatim | src/archive/tar/tar_test.go:438-444 | For an encodable header, every attribute is a record holding its value verbatim. |
| TarFormatsLemmas.RecordKeys | src/archive/tar/tar_test.go:363-484 | Every record has one of the ten field keywords, or is "SCHILY.xattr." plus the name of an attribute of the header. |
| TarStrconv.FormatPAXTime | src/archive/tar/tar_test.go:466-484 | formatPAXTime gives a nonempty text without '=' or NUL, so it is always a valid record value. |
| TarStrconv.ParseFormatPAXTime | src/archive/tar/tar_test.go:466-484 | parsePAXTime reads formatPAXTime of any instant back as the same instant, negative sub-second times included. |
| Strconv.FormatInt | src/archive/tar/tar_test.go:431-433 | FormatInt is nonempty, starts with '-' exactly for a negative value, and is otherwise digits. |
| Strconv.ParseFormatInt | src/archive/tar/tar_test.go:391-397 | strconv.ParseInt reads FormatInt of any int64 back as the same value. |
| GoTime.UnixTimeValue | src/archive/tar/tar_test.go:470-472 | Unless the seconds counter wraps, time.Unix(sec, nsec) denotes sec*1e9 + nsec nanoseconds after the epoch. |
| GoPath.BaseShape | src/archive/tar/tar_test.go:281-284 | path.Base is never empty. It holds a slash only when it is "/", which it is exactly for a nonempty path of slashes. |
| GoPath.CleanIdempotent | src/archive/tar/tar_test.go:198-206 | path.Clean of a cleaned path is the path itself. |
| GoPath.CleanTrailingSlash | src/archive/tar/tar_test.go:199-206 | A single plain element with a trailing slash cleans to the element, and both forms have the element as their base name. |
| TarFileInfo.SpecialFlags | src/archive/tar/tar_test.go:218-246 | The FileInfo mode has ModeSetuid, ModeSetgid or ModeSticky exactly when the header mode has c_ISUID, c_ISGID or c_ISVTX. |
| TarFileInfo.KindHeader | src/archive/tar/tar_test.go:275-280 | FileInfoHeader's choice by file kind fails exactly for a socket, with the sockets-not-supported error. |
| TarFileInfo.SpecialBits | src/archive/tar/tar_test.go:313-315 | The mode FileInfoHeader writes keeps the permission bits and sets only special bits below 010000. |
| TarFileInfo.FileInfoHeader | src/archive/tar/tar_test.go:276-280 | A nil FileInfo is an error. Otherwise the call fails exactly for a socket, with the sockets-not-supported error. |
| TarFileInfo.HeaderModeTable | src/archive/tar/tar_test.go:316-318 | For a mode below 010000, the FileInfo mode is the permission bits, plus the special flags of the mode bits, plus exactly the kind its type flag names. It is a directory exactly for TypeDir and regular exactly for the other type flags. |
| TarFileInfo.FileInfoNameHasNoSlash | src/archive/tar/tar_test.go:281-283 | The FileInfo name is nonempty and has a slash only when it is "/". |
| TarFileInfo.KindRoundTrip | src/archive/tar/tar_test.go:284-312 | Rebuilding by kind gives back the type flag, or TypeReg for the non-special flags. It gives the base name, cleaned and with a slash for a directory. It gives the size for regular files only, and the link target for symlinks only. |
| TarFileInfo.SpecialBitsRestore | src/archive/tar/tar_test.go:313-315 | FileInfoHeader puts back exactly the mode below 010000 that the FileInfo view reported. |
| TarFileInfo.HeaderRoundTrip | src/archive/tar/tar_test.go:274-331 | Header, FileInfo, header: Sys is the original and no error occurs. The second header keeps the mode, type flag (hard links included), owner, user and group names, all three times and the extended attributes. It has the base name (with a slash for a directory), the size for regular files, and the link target for hard links. |
| TarFileInfo.ModeRoundTrip | src/archive/tar/tar_test.go:313-318 | FileInfo, header, FileInfo: a mode of one kind comes back unchanged, and FileInfoHeader fails exactly for a socket. |
| TarTestLoop.FailuresMembers | src/archive/tar/tar_test.go:487-495 | A table loop reports exactly the failing positions, once each, in increasing order. |
| TarTestLoop.NoFailures | src/archive/tar/tar_test.go:487-495 | A table whose entries all pass reports nothing. |
| TarTestStrings.HanIsNotASCII | src/archive/tar/tar_test.go:388-389 | "用戶名" is not ASCII but has no NUL and no '='. |
| TarTestStrings.RepeatedHanWithNUL | src/archive/tar/tar_test.go:420-422 | The repeated "用戶名\x00" link name holds a NUL. |
| TarTestStrings.Numeral2097152 | src/archive/tar/tar_test.go:432 | FormatInt(07777777+1) is "2097152". |
| TarTestStrings.Numeral8589934592 | src/archive/tar/tar_test.go:364 | FormatInt(077777777777+1) is "8589934592". |
| TarTestStrings.NumeralMaxInt64 | src/archive/tar/tar_test.go:392 | FormatInt(math.MaxInt64) is "9223372036854775807". |
| TarTestStrings.NumeralMinus1 | src/archive/tar/tar_test.go:467 | FormatInt(-1) is "-1". |
| TarTestStrings.NumeralZeroTime | src/archive/tar/tar_test.go:475 | The PAX time of time.Unix(0, 0) is "0". |
| TarTestStrings.NumeralMinus123Time | src/archive/tar/tar_test.go:479 | The PAX time of time.Unix(-123, 0) is "-123". |
| TarTestStrings.NegativeFractionText | src/archive/tar/tar_test.go:471 | The PAX time of time.Unix(-1, 500) is "-0.9999995". |
| TarTestStrings.PositiveFractionText | src/archive/tar/tar_test.go:483 | The PAX time of time.Unix(123, 456) is "123.000000456". |
| TarFormatsTest.CheckFormatsVectors | src/archive/tar/tar_test.go:487-495 | The loop over the table reports the positions whose allowedFormats result differs from the entry, in order. The formats are compared always, and the records only when PAX is allowed. |
| TarFormatsTest.FormatsFailuresMeaning | src/archive/tar/tar_test.go:489-494 | A position is reported exactly when its entry disagrees with allowedFormats. |
| TarFormatsTest.AllFormatsVectorsPass | src/archive/tar/tar_test.go:356-485 | Every one of the 37 entries agrees with allowedFormats. |
| TarFormatsTest.TestHeaderAllowedFormats | src/archive/tar/tar_test.go:334-496 | TestHeaderAllowedFormats reports no failure. |
| TarFormatsTest.EmptyHeaderAllFormats | src/archive/tar/tar_test.go:357-358 | The empty header allows all three formats. |
| TarFormatsTest.SizeAtOctalLimit | src/archive/tar/tar_test.go:360-361 | Size 077777777777 allows all three formats. |
| TarFormatsTest.SizeAboveOctalLimit | src/archive/tar/tar_test.go:363-365 | Size 077777777777+1 allows PAX and GNU, with size "8589934592". |
| TarFormatsTest.ModeAtOctalLimit | src/archive/tar/tar_test.go:367-368 | Mode 07777777 allows all three formats. |
| TarFormatsTest.ModeAboveOctalLimit | src/archive/tar/tar_test.go:370-371 | Mode 07777777+1 allows GNU alone. |
| TarFormatsTest.DevmajorNegative | src/archive/tar/tar_test.go:373-374 | Devmajor -123 allows GNU alone. |
| TarFormatsTest.DevmajorAtBase256Limit | src/archive/tar/tar_test.go:376-377 | Devmajor 1<<56-1 allows GNU alone. |
| TarFormatsTest.DevmajorAboveBase256Limit | src/archive/tar/tar_test.go:379-380 | Devmajor 1<<56 allows no format. |
| TarFormatsTest.DevmajorAtNegativeBase256Limit | src/archive/tar/tar_test.go:382-383 | Devmajor -1<<56 allows GNU alone. |
| TarFormatsTest.DevmajorBelowNegativeBase256Limit | src/archive/tar/tar_test.go:385-386 | Devmajor -1<<56-1 allows no format. |
| TarFormatsTest.HanNameWithNegativeDevmajor | src/archive/tar/tar_test.go:388-389 | Name "用戶名" with devmajor -1<<56 allows GNU alone. |
| TarFormatsTest.SizeMaxInt64 | src/archive/tar/tar_test.go:391-393 | Size math.MaxInt64 allows PAX and GNU, with size "9223372036854775807". |
| TarFormatsTest.SizeMinInt64 | src/archive/tar/tar_test.go:395-397 | Size math.MinInt64 allows no format, so the records are not compared. |
| TarFormatsTest.UnameAtLimit | src/archive/tar/tar_test.go:399-400 | A 32-byte user name allows all three formats. |
| TarFormatsTest.UnameAboveLimit | src/archive/tar/tar_test.go:402-404 | A 33-byte user name allows PAX alone, with a uname record. |
| TarFormatsTest.NameShort | src/archive/tar/tar_test.go:406-407 | Name "foobar" allows all three formats. |
| TarFormatsTest.NameAtLimit | src/archive/tar/tar_test.go:409-410 | A 100-byte name allows all three formats. |
| TarFormatsTest.NameAboveLimit | src/archive/tar/tar_test.go:412-414 | A 101-byte name allows PAX and GNU, with a path record. |
| TarFormatsTest.LinknameHan | src/archive/tar/tar_test.go:416-418 | Link name "用戶名" allows PAX and GNU, with a linkpath record. |
| TarFormatsTest.LinknameWithNULs | src/archive/tar/tar_test.go:420-422 | A link name with NULs allows no format. |
| TarFormatsTest.LinknameLeadingNUL | src/archive/tar/tar_test.go:424-426 | Link name "\x00hello" allows no format. |
| TarFormatsTest.UidAtOctalLimit | src/archive/tar/tar_test.go:428-429 | Uid 07777777 allows all three formats. |
| TarFormatsTest.UidAboveOctalLimit | src/archive/tar/tar_test.go:431-433 | Uid 07777777+1 allows PAX and GNU, with uid "2097152". |
| TarFormatsTest.XattrsNil | src/archive/tar/tar_test.go:435-436 | No extended attributes allows all three formats. |
| TarFormatsTest.XattrsPlain | src/archive/tar/tar_test.go:438-440 | Attribute foo=bar allows PAX alone, with record "SCHILY.xattr.foo" = "bar". |
| TarFormatsTest.XattrsHanWithNULValue | src/archive/tar/tar_test.go:442-444 | Attribute "用戶名" with value "\x00hello" allows PAX alone, with its record. |
| TarFormatsTest.XattrsNameWithEquals | src/archive/tar/tar_test.go:446-447 | An attribute named "foo=bar" allows no format. |
| TarFormatsTest.XattrsEmptyValue | src/archive/tar/tar_test.go:449-450 | An attribute with an empty value allows no format. |
| TarFormatsTest.ModTimeEpoch | src/archive/tar/tar_test.go:452-453 | ModTime Unix(0, 0) allows all three formats. |
| TarFormatsTest.ModTimeAtOctalLimit | src/archive/tar/tar_test.go:455-456 | ModTime Unix(077777777777, 0) allows all three formats. |
| TarFormatsTest.ModTimeAboveOctalLimit | src/archive/tar/tar_test.go:458-460 | ModTime Unix(077777777777+1, 0) allows PAX and GNU, with mtime "8589934592". |
| TarFormatsTest.ModTimeMaxInt64 | src/archive/tar/tar_test.go:462-464 | ModTime Unix(math.MaxInt64, 0) allows PAX and GNU, with mtime "9223372036854775807". |
| TarFormatsTest.ModTimeMinusOne | src/archive/tar/tar_test.go:466-468 | ModTime Unix(-1, 0) allows PAX and GNU, with mtime "-1". |
| TarFormatsTest.ModTimeNegativeFraction | src/archive/tar/tar_test.go:470-472 | ModTime Unix(-1, 500) allows PAX alone, with mtime "-0.9999995". |
| TarFormatsTest.AccessTimeEpoch | src/archive/tar/tar_test.go:474-476 | AccessTime Unix(0, 0) allows PAX and GNU, with atime "0". |
| TarFormatsTest.AccessTimeNegative | src/archive/tar/tar_test.go:478-480 | AccessTime Unix(-123, 0) allows PAX and GNU, with atime "-123". |
| TarFormatsTest.ChangeTimeFraction | src/archive/tar/tar_test.go:482-484 | ChangeTime Unix(123, 456) allows PAX alone, with ctime "123.000000456". |
| TarRoundTripTest.CheckRoundTripVectors | src/archive/tar/tar_test.go:274-331 | The loop over the table reports the positions whose round trip fails one of the field comparisons, in order. |
| TarRoundTripTest.RoundTripFailuresMeaning | src/archive/tar/tar_test.go:274-331 | A position is reported exactly when its entry fails a check. |
| TarRoundTripTest.RoundTripPassWhen | src/archive/tar/tar_test.go:274-331 | Any header passes every check of the loop when all of the following hold: its mode is below 010000; its type flag survives the round trip; a special file or hard link has size zero; only a hard link has a link target; its base name is not "/"; a directory's base name does not change when its path is cleaned first; its expected mode is its FileInfo mode. |
| TarRoundTripTest.AllRoundTripVectorsPass | src/archive/tar/tar_test.go:157-272 | Every one of the 11 entries passes. |
| TarRoundTripTest.TestHeaderRoundTrip | src/archive/tar/tar_test.go:156-332 | TestHeaderRoundTrip reports no failure. |
| TarRoundTripTest.ModeWithoutSpecial | src/archive/tar/tar_test.go:166-216 | Without special bits, the FileInfo mode is the permission bits with the kind of the type flag. |
| TarRoundTripTest.SpecialModeFlags | src/archive/tar/tar_test.go:218-246 | 0755 + c_ISUID, 0750 + c_ISGID and 0600 + c_ISVTX report ModeSetuid, ModeSetgid and ModeSticky over their permission bits. |
| TarRoundTripTest.DirName | src/archive/tar/tar_test.go:199-206 | "dir/" cleans to "dir", and both have the base name "dir". |
| TarRoundTripTest.RegularFile | src/archive/tar/tar_test.go:158-166 | The regular-file entry passes, with mode 0644. |
| TarRoundTripTest.SymbolicLink | src/archive/tar/tar_test.go:168-176 | The symlink entry passes, with mode 0777 + ModeSymlink. |
| TarRoundTripTest.CharacterDevice | src/archive/tar/tar_test.go:178-186 | The character-device entry passes, with mode 0666 + ModeDevice + ModeCharDevice. |
| TarRoundTripTest.BlockDevice | src/archive/tar/tar_test.go:188-196 | The block-device entry passes, with mode 0660 + ModeDevice. |
| TarRoundTripTest.Directory | src/archive/tar/tar_test.go:198-206 | The directory entry passes, with mode 0755 + ModeDir and the name "dir/" restored. |
| TarRoundTripTest.Fifo | src/archive/tar/tar_test.go:208-216 | The fifo entry passes, with mode 0600 + ModeNamedPipe. |
| TarRoundTripTest.Setuid | src/archive/tar/tar_test.go:218-226 | The setuid entry passes, with mode 0755 + ModeSetuid. |
| TarRoundTripTest.Setgid | src/archive/tar/tar_test.go:228-236 | The setgid entry passes, with mode 0750 + ModeSetgid. |
| TarRoundTripTest.Sticky | src/archive/tar/tar_test.go:238-246 | The sticky entry passes, with mode 0600 + ModeSticky. |
| TarRoundTripTest.HardLink | src/archive/tar/tar_test.go:248-257 | The hard-link entry passes, and its link target comes back. |
| TarRoundTripTest.MoreInformation | src/archive/tar/tar_test.go:259-271 | The entry with owner and names passes, and uid, gid, uname and gname come back. |

## Left out

- The implementation files of the package are not part of this model: `common.go`, `format.go` and `strconv.go`, holding `allowedFormats`, `FileInfo`, `FileInfoHeader`, `formatPAXTime` and `parsePAXTime`. Go's `path`, `os`, `strconv` and `time` packages are not part of this model either. What the model states about them comes from the behaviour the test table fixes and from those packages' documented contracts.
- `prettyFormat` (lines 335-350) only renders a format set for an error message, and the model has no output.
- The filesystem tests and `TestRoundTrip` (lines 21-149) do I/O and run a full writer and reader, which are outside the modelled core.
- The test's `t.Errorf` messages are not modelled. A failing entry is recorded by its position alone.
- `Sys() != v.h` (line 328) compares pointers. The model compares the header value, because Dafny datatypes have no identity.
- A nil `Xattrs` map and an empty one are one value. The records are compared with the `len == 0` leniency of line 492 built in.
- The `Header.Format` and `Header.PAXRecords` fields, the typeflag checks, and the splitting of a long name into the USTAR prefix field are left out. The test table does not reach them.
- The error result of `allowedFormats` is left out. The test discards it.
- TarFormats.AllowedFormats: a negative size gives formatUnknown for every type flag, as line 395-397 fixes. The finer rule of later releases, which depends on the type flag, is not modelled.
- TarFileInfo.HeaderRoundTrip: stated for modes below 010000, that is, with no file-type bits above the special bits. Every entry of the table is such a mode. The type bits that `headerFileInfo.Mode` also reads are modelled in `TypeBitsFlags` but not carried through the round trip.
- TarFileInfo.ModeRoundTrip: stated for modes naming at most one kind of file. A mode with two kind flags has no single type flag to go to.
- TarFileInfo.FileInfoHeader: the platform hook that fills in device numbers and owner names from an operating-system stat result is left out, because it reads the host system; the device numbers stay zero, and no test entry sets them.
- TarFileInfo.KindHeader: the unknown-mode error branch is shown to be unreachable. Every mode is regular or names a kind. This rests on `os.ModeType` being the five flags ModeDir, ModeSymlink, ModeNamedPipe, ModeSocket and ModeDevice, as in the Go release this test belongs to. Under the later mask, which adds ModeCharDevice and ModeIrregular, a mode with only ModeCharDevice would reach that branch.
- GoOs.FileMode is a set of flags over the permission bits, not a 32-bit word. The bit positions of the flags play no part.
- GoTime.UnixTimeValue: the claim is stated only when the seconds counter does not wrap below math.MinInt64. Time zones, monotonic readings and nanosecond normalisation beyond one second are left out.
- GoPath.Clean is modelled from the documented rules of `path.Clean`: split at slashes, drop "." and empty elements, and resolve "..". It is not transliterated from its byte loop.
