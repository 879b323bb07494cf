# parth and pathparse, modelled in Dafny

The repository offers two small Go packages for reading the segments of a
URL path by position.

* **parth** keeps the path and scans it each time it is asked. `String(i)`
  finds segment `i` with one pass over the bytes. Only one leading slash is
  skipped, and an empty segment counts as "not found". The integer accessors
  (`Int`, `Int8` … `Int64`) do not parse the whole segment. They take its
  first whole-number token, a `-` or a digit followed by digits, so `"nn4nn"`
  reads as 4. The float accessors take the first decimal token instead: a
  `-`, digit or `.` followed by digits and at most one dot. `Bool` parses the
  whole segment. Every accessor returns a value and an error.
* **pathparse** splits the path once, at construction. It first trims every
  leading slash, then splits at each slash. Its accessors parse the whole
  segment strictly with Go's `strconv`. They return only a value. The first
  error is remembered and read back with `Err`, and once there is an error
  every accessor returns its zero value.

The model has five files:

* `results.dfy`: the error kinds, plus `Result` and `Option`.
* `pathstrings.dfy`: Go's `strings.Split`, `strings.Join` and
  `strings.TrimLeft` on `/`, with the splitting facts both packages rely on.
* `strconv.dfy`: `strconv.ParseInt` base 10 and `strconv.ParseBool` as
  definitions, each paired with its inverse (`FormatInt`, `FormatBool`).
* `parth.dfy`: the `Parth` class and the package-level scans. The class's
  `String` method and the module-level methods `GetIntString` and
  `GetFloatString` (Go's `getIntString` and `getFloatString`) are imperative
  loops, each proved equal to a recursive specification function (`Segment`,
  `IntToken`, `FloatToken`). The specification functions carry lemmas that
  state their properties.
* `pathparse.dfy`: the `Parser` class, whose error field is updated in place.
  Each accessor's contract is stated with the predicate `Sticky`, which
  describes the remembered-error discipline.

## Model

| member | source | states |
|---|---|---|
| PathStrings.Split | pathparse.go:16 | `strings.Split(s, "/")`: the pieces between slashes, empty ones kept, always at least one |
| PathStrings.TrimLeftSlashes | pathparse.go:16 | the result is a suffix of the path, everything removed was a slash, and the result does not start with a slash |
| PathStrings.JoinSplit | pathparse.go:16 | joining the pieces of a split with slashes gives back the string |
| PathStrings.SplitJoin | pathparse.go:16 | splitting a join of slash-free pieces gives back the pieces |
| PathStrings.SplitPieces | pathparse.go:16 | no piece of a split contains a slash |
| PathStrings.SplitConcat | pathparse.go:16 | splitting around one slash splits each side independently |
| PathStrings.SplitAt | parth.go:31-43 | a slash at position k separates the pieces before it from those after it |
| PathStrings.SplitNoSlash | parth.go:44-54 | a string without a slash is a single piece |
| PathStrings.SplitFirstEmpty | parth.go:32-37 | a string that is empty or starts with a slash has an empty first piece |
| PathStrings.SplitSnoc | parth.go:30-55 | one more byte either opens an empty piece (a slash) or extends the last piece |
| PathStrings.JoinSlice | pathparse.go:16 | piece i lies at its offset in the joined string, bounded by a slash or the string's edge on each side |
| PathStrings.PieceSlice | parth.go:56-59 | piece i of a split lies at its offset in the string, bounded by a slash or the edge on each side |
| Strconv.ParseInt | parth.go:75 | a success means the input was an optional sign followed by decimal digits only, and the value is in the width's signed range; every failure is Unparsable |
| Strconv.InRangeBounds | parth.go:75 | the range for bit sizes 8, 16, 32, 64 and 0 is exactly that of int8, int16, int32, int64 and a 64-bit int |
| Strconv.DigitsValue | parth.go:75 | the decimal spelling of n is non-empty, all digits, and has value n |
| Strconv.FormatIntShape | parth.go:75 | a formatted integer is an optional minus sign and then digits |
| Strconv.ParseFormatInt | pathparse.go:40 | parsing the decimal spelling of an in-range value gives that value back |
| Strconv.ParseFormatIntOutOfRange | pathparse.go:40-44 | a correctly spelled value outside the width is refused |
| Strconv.ParseBool | parth.go:167 | every failure is reported as Unparsable |
| Strconv.FloatVerdict | parth.go:186-188 | the outcome of `strconv.ParseFloat`: a value exactly when the conversion gives one, otherwise Unparsable |
| Strconv.ParseFormatBool | pathparse.go:105 | "true" and "false" parse back to their booleans |
| Parth.Parth.New | parth.go:21-23 | the object holds exactly the given path |
| Parth.Segment | parth.go:28-60 | the reference definition of the segment `String(i)` finds: piece i after one leading slash; a found segment is non-empty and slash-free, and every failure is SegmentNotFound |
| Parth.Parth.String | parth.go:28-60 | the byte scan returns exactly Segment(path, i): piece i of the path after one leading slash, or SegmentNotFound when i is negative, past the last piece, names an empty piece, or the path is one byte that is not a slash |
| Parth.SegmentIsSlice | parth.go:56-59 | a found segment is a non-empty, slash-free run of the path, with a slash or the path's edge on each side |
| Parth.LeadingSlashIgnored | parth.go:31-48 | one leading slash creates no segment |
| Parth.DoubleLeadingSlash | parth.go:32-37 | after two leading slashes segment 0 is empty and is not found |
| Parth.EmptySegmentNotFound | parth.go:32-37 | two adjacent slashes make an empty segment that is not found |
| Parth.SegmentsOfAB | parth.go:28-60 | "a/b" and "/a/b" both have the segments "a" and "b" |
| Parth.SegmentExamples | parth.go:28-60 | on "/a/b" indexes 0 and 1 give "a" and "b", while 2 and -1 are not found |
| Parth.SegmentEmptyExamples | parth.go:28-60 | "", "/", "//x" and the one-byte path "a" have no segment 0 |
| Parth.SegmentTrailingExample | parth.go:32-37 | a trailing "//" leaves an empty segment that is not found |
| Parth.DigitPrefixShape | parth.go:213-225 | the digit run is a prefix of the input, all digits, and stops only at a non-digit or the end |
| Parth.DigitPrefixStop | parth.go:214-225 | digits followed by a non-digit form exactly the whole digit run |
| Parth.IntToken | parth.go:211-240 | the reference definition of the integer token: a found token is non-empty and no longer than the input; the only failures are IntNotFound and the read past the end |
| Parth.GetIntString | parth.go:211-240 | the scan returns exactly IntToken(s), including the "0" shortcut and the read past the end |
| Parth.IntTokenShape | parth.go:211-240 | an integer token is a digit or '-' followed only by digits |
| Parth.IntTokenAbsent | parth.go:226-238 | with no digit and no '-' the result is IntNotFound, or IndexOutOfRange when the last byte is a dot |
| Parth.IntTokenFirst | parth.go:213-225 | the first digit or '-' starts the token, which then takes the digits after it |
| Parth.IntTokenFraction | parth.go:227-229 | a dot followed by a digit, before any token, gives "0" |
| Parth.IntTokenSkip | parth.go:226-233 | bytes that are not a digit, '-' or '.' are skipped |
| Parth.IntTokenOfShape | parth.go:213-225 | a digit or '-' followed by digits and then a non-digit is the token |
| Parth.IntTokenLeading | parth.go:213-225 | a decimal number followed by a non-digit is the token |
| Parth.IntTokenOfFormatted | parth.go:211-240 | the decimal spelling of any integer is its own token |
| Parth.IntTokenEmbedded | parth.go:211-240 | a number inside text without digits, '-' or '.' before it and no digit after it is found |
| Parth.IntTokenExamples | parth.go:211-240 | "10-" gives "10", "aaa6aa" gives "6", and "-9" gives "-9" |
| Parth.IntTokenDotExamples | parth.go:226-238 | ".7.aaaa" gives "0", "." reads past the end, and "error" has no token |
| Parth.FloatTailPrefix | parth.go:244-271 | the tail is the longest prefix of digits with at most one dot |
| Parth.FloatTailChars | parth.go:244-271 | the tail holds digits and at most one dot, and no dot at all once one was seen |
| Parth.FloatToken | parth.go:242-277 | the reference definition of the decimal token: a found token is non-empty, no longer than the input and not a lone dot; the only failure is FloatNotFound |
| Parth.GetFloatString | parth.go:242-277 | the scan returns exactly FloatToken(s) |
| Parth.FloatTokenShape | parth.go:242-277 | a decimal token starts with a digit, '-' or '.', then holds only digits and dots, has at most one dot, and is never a lone dot |
| Parth.FloatTokenAbsent | parth.go:266-275 | with no digit, '-' or '.' the result is FloatNotFound |
| Parth.FloatTokenFirst | parth.go:244-265 | the first digit, '-' or '.' starts the token, which then takes digits and at most one dot |
| Parth.FloatTokenSecondDot | parth.go:257-263 | a second dot ends the token: ".7.aaaa" gives ".7" |
| Parth.FloatTokenNoExponent | parth.go:266-270 | an exponent is not part of the token: "3.14e+11" gives "3.14" |
| Parth.FloatTokenEnds | parth.go:250-275 | a later '-' ends the token ("10-" gives "10"), while "." and "error" have no token |
| Parth.IntAt | parth.go:65-79 | a success comes from a found segment and lies in the width's signed range; a failure is the segment's, the token's or ParseInt's error |
| Parth.IntAtFormatted | parth.go:65-79 | a segment spelling an in-range integer yields that integer |
| Parth.IntAtEmbedded | parth.go:65-79 | an integer surrounded by letters in the segment is still found |
| Parth.IntAtOutOfRange | parth.go:75-77 | a segment spelling an integer outside the width is refused |
| Parth.BoolAt | parth.go:160-171 | a success means the whole segment is one of ParseBool's spellings of that value; a failure is SegmentNotFound or Unparsable |
| Parth.BoolAtFormatted | parth.go:160-171 | a segment spelling a boolean yields it |
| Parth.FloatAt | parth.go:176-190 | a success comes from a found segment with a decimal token; a failure is SegmentNotFound, FloatNotFound or Unparsable |
| Parth.FloatAtToken | parth.go:176-190 | the float parser sees only a well-formed decimal token, and the value it gives is the result |
| Parth.Parth.IntOf | parth.go:65-79 | the three stages (segment, token, ParseInt) give exactly IntAt |
| Parth.Parth.Int64 | parth.go:65-79 | the result is IntAt at 64 bits, and a success lies in int64's range |
| Parth.Parth.Int32 | parth.go:84-98 | the result is IntAt at 32 bits, and a success lies in int32's range |
| Parth.Parth.Int16 | parth.go:103-117 | the result is IntAt at 16 bits, and a success lies in int16's range |
| Parth.Parth.Int8 | parth.go:122-136 | the result is IntAt at 8 bits, and a success lies in int8's range |
| Parth.Parth.Int | parth.go:141-155 | the result is IntAt at bit size 0, and a success lies in a 64-bit int's range |
| Parth.Parth.Bool | parth.go:160-171 | the result is the whole segment through ParseBool, or the segment's error |
| Parth.Parth.FloatOf | parth.go:176-190 | the segment, its decimal token and the parser give exactly FloatAt |
| Parth.Parth.Float64 | parth.go:176-190 | FloatAt at 64 bits |
| Parth.Parth.Float32 | parth.go:195-209 | FloatAt at 32 bits |
| PathParse.SegmentsOf | pathparse.go:14-18 | the stored segments are at least one, hold no slash, and join back to the path without its leading slashes |
| PathParse.Field | pathparse.go:24-33 | a read succeeds exactly for 0 <= i < number of segments, gives that segment, and otherwise fails with OutOfBounds |
| PathParse.IntField | pathparse.go:35-46 | a success reads an existing segment and lies in the width's signed range; a failure is OutOfBounds or Unparsable |
| PathParse.BoolField | pathparse.go:100-111 | a success means the segment is one of ParseBool's spellings of that value; a failure is OutOfBounds or Unparsable |
| PathParse.FloatField | pathparse.go:113-124 | a success is the parser's value for the whole segment; a failure is OutOfBounds or Unparsable |
| PathParse.Sticky | pathparse.go:24-137 | the remembered-error rule of every accessor: no error afterwards exactly when there was none before and the read succeeded, in which case the value is the read's; otherwise the value is the zero value |
| PathParse.StickyFirstError | pathparse.go:24-46 | over two calls on a fresh parser, the recorded error is that of the first failing read, and after a failure the next call returns its zero value |
| PathParse.SegmentsOfJoin | pathparse.go:14-18 | slash-free segments whose first is non-empty are exactly what a parser of their join stores |
| PathParse.LeadingSlashesIgnored | pathparse.go:16 | any number of leading slashes leaves the segments unchanged |
| PathParse.IntFieldFormatted | pathparse.go:35-46 | a segment spelling an in-range integer reads as that integer |
| PathParse.IntFieldStrict | pathparse.go:40-44 | a segment with a non-digit after its first byte is refused, so there is no lenient token scan |
| PathParse.BoolFieldFormatted | pathparse.go:100-111 | a segment spelling a boolean reads as it |
| PathParse.SegmentsAgree | pathparse.go:16 | unless the path starts with "//", both packages see the same segments |
| PathParse.Parser.New | pathparse.go:14-18 | the parser stores SegmentsOf(path) and has no error |
| PathParse.Parser.Err | pathparse.go:20-22 | returns the remembered error |
| PathParse.Parser.String | pathparse.go:24-33 | with an earlier error: "" and the error kept; otherwise Field's value, or "" and OutOfBounds recorded |
| PathParse.Parser.IntOf | pathparse.go:35-46 | the sticky-error discipline over IntField, and the value is always in the width's range |
| PathParse.Parser.Int64 | pathparse.go:35-46 | sticky IntField at 64 bits; the value always lies in int64's range |
| PathParse.Parser.Int32 | pathparse.go:48-59 | sticky IntField at 32 bits; the value always lies in int32's range |
| PathParse.Parser.Int16 | pathparse.go:61-72 | sticky IntField at 16 bits; the value always lies in int16's range |
| PathParse.Parser.Int8 | pathparse.go:74-85 | sticky IntField at 8 bits; the value always lies in int8's range |
| PathParse.Parser.Int | pathparse.go:87-98 | sticky IntField at bit size 0; the value always lies in a 64-bit int's range |
| PathParse.Parser.Bool | pathparse.go:100-111 | sticky ParseBool of the whole segment, false on error |
| PathParse.Parser.FloatOf | pathparse.go:113-124 | sticky parser result over the whole segment, 0.0 on error |
| PathParse.Parser.Float64 | pathparse.go:113-124 | FloatOf at 64 bits |
| PathParse.Parser.Float32 | pathparse.go:126-137 | FloatOf at 32 bits |

## Left out

- `strconv.ParseFloat` is a parameter `parseFloat` of the float accessors, returning a value or nothing, because decimal-to-binary floating point is outside the model. The values are reals, and a failure becomes `Unparsable`. The `float32(v)` narrowing in both `Float32` methods is therefore not modelled.
- Error messages are not modelled; each failure is one tag of `Error`. `Unparsable` covers both of strconv's syntax and range errors.
- `strconv.ParseInt` with bit size 0 is taken on a 64-bit platform. Underscores and base prefixes do not arise, because both packages pass base 10.
- The read past the end of the string in `getIntString` (parth.go:227, a dot as the last byte before any token) is a Go run-time panic. The model returns `Err(IndexOutOfRange)` instead, and the accessors pass it on.
- Strings are sequences of `char` standing for bytes. `unicode.IsDigit` on a byte is modelled as '0'..'9', which is exact because no Latin-1 character beyond ASCII is a decimal digit.
- `Parth.String` on a one-byte path without a slash finds nothing, because its scan opens segment 0 without ever closing it. The model keeps this behaviour as written (`NeverClosed`).
- Go's `int` index is unbounded here. Indexes beyond the machine range cannot reach a different outcome.
- Parth.Parth.Float64, Parth.Parth.Float32, PathParse.Parser.Float64, PathParse.Parser.Float32: no range property is stated, because the parser is abstract.
