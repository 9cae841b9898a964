# dupe — a Dafny model of the duplicate-image finder's core

`dupe` scans folders of image files and reports files whose decoded pixels are
identical. This project models its core in Dafny and proves properties of the
model:

- **Fingerprint pipeline** (`fingerprint` in main.go, all of uuid.go). The
  traversal walks an image's bounds column by column: x in the outer loop, y in
  the inner loop. It collects red, green and blue per pixel and drops alpha.
  The samples go through `fmt.Sprint` and are hashed. The first 16 digest bytes
  are stamped with the RFC 4122 variant (section 4.1.1 of RFC 4122) and with
  version 4 (section 4.1.3). The result is rendered in the 8-4-4-4-12 hex form
  of section 3 of RFC 4122.
- **Duplicate index** (`main` in main.go). This is a table from fingerprint to
  the first file seen with it. A hit reports a duplicate of the stored path and
  never overwrites. A miss inserts the file. Files that fail to open or decode
  are skipped.
- **Decoder selection** (`decode` in main.go). The decoders are tried in order
  (PNG, then JPEG). The first success wins. When all fail, the last error is
  returned.

Files: `serialise.dfy` (module `Serialise`: `fmt.Sprint` of integers and
`[]byte`), `uuid.dfy` (`Uuid`), `decoding.dfy` (`Decoding`), `fingerprint.dfy`
(`Fingerprinting`), `index.dfy` (`Index`), `wrappers.dfy` (`Option`).

Parameters stand in for what the model cannot see:

- MD5 is the parameter `md5: Hash`, an arbitrary function from bytes to at
  least 16 bytes.
- The process-wide generator `rng` is replaced by `Draw`, the three
  `rng.Int31()` values that a call of `NewID()` with no arguments would get.
- An image is its bounds plus a function from a point to the four 32-bit
  values of `RGBA()`.
- Each decoder is represented by the outcome it would have on the file.

Four behaviours of the code worth knowing:

- **Empty images.** An image of zero area yields no samples. `NewID` then takes
  its random branch (uuid.go:27-28), so the fingerprint depends on the draw.
  It is not deterministic (`ZeroAreaFingerprint`).
- **Separators.** Go's `fmt.Sprint` puts a space between two adjacent non-string
  operands, so the samples are serialised as decimals joined by single spaces.
  The serialisation is therefore injective (`SerialisedInjective`).
- **Dimensions.** The bounds are not hashed. A uniform 1x2 image and a uniform
  2x1 image of the same colour get the same fingerprint
  (`TransposedImagesCollide`).
- **Version.** The code stamps version 4 on an MD5 name-derived identifier,
  where section 4.3 of RFC 4122 would use version 3.

## Model

| member | source | states |
|---|---|---|
| `Serialise.Decimal` | uuid.go:62 | The default text of an integer operand is non-empty, all decimal digits, and has no leading zero unless the value is 0. |
| `Serialise.DecimalRoundTrip` | uuid.go:62 | Reading the decimal text of n back as a number gives n. |
| `Serialise.Sprint` | uuid.go:62 | `fmt.Sprint` of integer operands holds only digits and spaces, and is empty exactly when there are no operands. |
| `Serialise.AsciiBytes` | uuid.go:62 | Converting the text to `[]byte` gives one byte per character, each with the character's code. |
| `Serialise.SprintInjective` | uuid.go:62 | Distinct operand lists render to distinct text, because the operands are separated by single spaces. |
| `Serialise.SerialisedInjective` | uuid.go:62 | Distinct operand lists give distinct byte sequences to the hash. |
| `Uuid.VariantByte` | uuid.go:37-51 | NCS clears bit 7. RFC 4122 sets the top two bits to 10. Microsoft sets the top three bits to 110, Future to 111. Each keeps the remaining low bits. Any other selector leaves the byte unchanged. |
| `Uuid.VersionByte` | uuid.go:53-55 | The high nibble becomes the version's low nibble (the shift is within a byte). The low nibble is kept. |
| `Uuid.WithVariant` | uuid.go:37-51 | Setting the variant rewrites byte 8 as `VariantByte` says and changes no other byte. |
| `Uuid.WithVersion` | uuid.go:53-55 | Setting the version rewrites byte 6 as `VersionByte` says and changes no other byte. |
| `Uuid.StampsCommute` | uuid.go:37-55 | Setting the variant and setting the version commute. |
| `Uuid.SetVariant` | uuid.go:37-51 | The in-place update of the array leaves exactly `WithVariant` of its old contents. |
| `Uuid.SetVersion` | uuid.go:53-55 | The in-place update of the array leaves exactly `WithVersion` of its old contents. |
| `Uuid.NewUuid` | uuid.go:57-70 | The result carries version 4 and the RFC 4122 variant. Every other bit is the digest's: bytes other than 6 and 8, the low nibble of byte 6, the low six bits of byte 8. It depends on the serialised arguments only. |
| `Uuid.DeriveAgreement` | uuid.go:57-70 | Two argument lists give the same identifier if and only if their digests agree on the 122 kept bits. |
| `Uuid.Hex` | uuid.go:34 | `%x` of a byte slice has two characters per byte. |
| `Uuid.HexDigit` | uuid.go:34 | The digit for a nibble is a lowercase hexadecimal character whose value, read back in base 16, is that nibble. |
| `Uuid.HexAt` | uuid.go:34 | Byte k of a slice is written at positions 2k and 2k+1, high nibble first. |
| `Uuid.String` | uuid.go:33-35 | The text form is 36 characters long. |
| `Uuid.StringLayout` | uuid.go:33-35 | Hyphens stand at 8, 13, 18 and 23. Byte i is written as two lowercase hex digits at its position in the 4-2-2-2-6 grouping. |
| `Uuid.StringReadsBack` | uuid.go:33-35 | Reading the two digits at each byte's position back in base 16 gives that byte, so the text form spells out all 16 bytes. |
| `Uuid.StringInjective` | uuid.go:33-35 | Distinct identifiers have distinct text forms. |
| `Uuid.NewId` | uuid.go:26-31 | Every identifier text is 36 characters long. |
| `Uuid.NewIdDeterministic` | uuid.go:26-31 | With at least one argument, the text depends only on the serialised arguments and never on the generator. |
| `Uuid.NewIdWithoutArguments` | uuid.go:27-28 | With no arguments, the text is that of the three drawn values. |
| `Uuid.NewIdStamped` | uuid.go:26-70 | Every text has the four hyphens, the version digit `4` at index 14 and a variant digit 8, 9, a or b at index 19. |
| `Uuid.NewIdCollision` | uuid.go:26-70 | Two different non-empty argument lists share a text only if their distinct serialisations have digests agreeing on all 122 kept bits. |
| `Decoding.FirstSuccess` | main.go:29-35 | Gives the position of the first successful decoder: all before it failed, and it succeeded or is past the end. |
| `Decoding.Decode` | main.go:22-38 | Returns the first success's image with no error. If all decoders fail, returns no image and the last decoder's error. With no decoders at all, returns neither. |
| `Fingerprinting.Fingerprint` | main.go:42-53 | The nested x-outer, y-inner loops build exactly `Samples(im)`, and the result is `NewID` of it. |
| `Fingerprinting.SamplesLength` | main.go:43-50 | There are 3 x width x height samples. There are none when either extent is zero or negative. |
| `Fingerprinting.SampleAt` | main.go:45-49 | Each in-bounds point is visited exactly once, column by column. Its red, green and blue stand at `3 * ((x - minX) * height + (y - minY))`. |
| `Fingerprinting.SamplesEqualIff` | main.go:47-48 | For equal bounds, two images have equal samples if and only if they agree in red, green and blue at every point. Alpha is ignored. |
| `Fingerprinting.ZeroAreaFingerprint` | main.go:43-52 | A zero-area image is fingerprinted from the three random draws. |
| `Fingerprinting.FingerprintIgnoresDraw` | main.go:42-53 | An image with at least one pixel gets the text of the hashed samples, whatever the generator yields. |
| `Fingerprinting.SameRgbSameFingerprint` | main.go:42-53 | Non-empty images with equal bounds and equal red, green and blue everywhere share a fingerprint, whatever their alpha. |
| `Fingerprinting.FingerprintCollision` | main.go:42-53 | Equal-bounds images differing in RGB at some point share a fingerprint only through a hash collision: the hash inputs differ but the digests agree on the kept bits. |
| `Fingerprinting.TransposedImagesCollide` | main.go:45-52 | A uniform 1x2 image and a uniform 2x1 image of the same colour share a fingerprint: the bounds are not hashed. |
| `Index.Reports` | main.go:105-111 | One report per recorded file. |
| `Index.ReplayFirstWins` | main.go:105-111 | The table only grows and keeps every old entry. Its keys are the old keys plus the fingerprints recorded. Each new key maps to the first file that produced it. |
| `Index.ReportsAt` | main.go:105-108 | The report of a file is the lookup against the table built from the files recorded before it. |
| `Index.ReportFirstWins` | main.go:89-111 | A file is reported new iff its fingerprint was neither in the table nor submitted earlier. Otherwise it is a duplicate of the stored path, or of the first file with that fingerprint. |
| `Index.Submitted` | main.go:91-103 | A file is submitted iff it opens and some decoder succeeds. Its fingerprint is that of the PNG image when PNG succeeds, of the JPEG image otherwise. |
| `Index.UnreadableFileIgnored` | main.go:91-101 | A file that fails to open or decode leaves the table and the reports as if it were absent. |
| `Index.ReplayConcat` | main.go:83-112 | Recording one folder's files and then the next folder's is recording them all in order. The table persists across folders. |
| `Index.FirstUnlistable` | main.go:83-87 | Gives the position of the first folder that cannot be listed: all before it were listed. |
| `Index.DuplicateIndex.constructor` | main.go:81 | The table starts empty. |
| `Index.DuplicateIndex.Record` | main.go:105-111 | On a hit, reports the stored path and leaves the table unchanged. On a miss, reports new and inserts exactly this one entry. |
| `Index.DuplicateIndex.Scan` | main.go:89-112 | After a folder's files, the table and the reports are those of recording, in order, the files that open and decode. |
| `Index.Run` | main.go:81-113 | One table for the whole run, folder after folder. The run panics at the first folder that cannot be listed, having processed exactly the folders before it. |

## Left out

- MD5 (`crypto/md5`) is not part of this model. The hash is an arbitrary function parameter, so nothing is proved about its collisions.
- `fmt.Sprint` is modelled only for the non-negative integer operands the program passes to it. Those are the `uint32` samples and the `int32` values of `rng.Int31()`, which print alike. The variadic `interface{}` arguments become a sequence of such integers.
- The generator `rng` is left out, including its seeding from the clock and how its state advances between calls. The model takes the values it yields as a `Draw` per call (per file in `Run`).
- The PNG and JPEG decoders (`png.Decode`, and `decodeJPEG`, which is not part of this model) are left out. So is the `io.Reader` they share, from which the second decoder reads what the first left. Each decoder is represented by its outcome on the file. The model does not show that decoders after the first success are never called.
- The `image.Image` interface is reduced to bounds and a colour function. Colour-model conversion inside `RGBA()` is not modelled.
- Go's 64-bit `int` overflow of the loop counters `dx`/`dy` is not modelled. The coordinates are unbounded integers.
- `listdir` (`ioutil.ReadDir` and the sub-folder filter), `os.Open`, the never-closed file handles, the `kong` command-line parsing, and `log.Printf` are not modelled. Each folder comes as its listing result. Each file comes as the result of opening it. The reports are returned as values instead of being logged.
- Dafny has no `panic`. A folder that cannot be listed ends `Run` with `panicked` set.
