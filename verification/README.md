# Bill-code helpers of the Congress Android client

A Dafny model of the static helpers in the `Bill` model class of the
Congress Android app (`src/com/sunlightlabs/congress/models/Bill.java`).
These helpers handle bill codes that users type in ("H.R. 3200", "hr3200",
"S.J.Res.4"). They normalise a code, turn it into an API bill id
(`<code>-<session>`), compute the current Congress session from the year,
pretty-print a code in a long or a short style, translate a bill type into
GovTrack's abbreviation, build THOMAS, OpenCongress and GovTrack links, and
pick a bill's display title.

Modules, leaves first:

- `Options`: Java's nullable references, as `Option`.
- `Ascii`: ASCII character classes and the two `String` operations the
  helpers chain: `toLowerCase()` as `ToLower`, and `replace(x, "")` as
  `RemoveAll`. It also holds three string-equality helpers.
- `Decimal`: Java's `Integer.toString`, which string concatenation uses on
  `int`s, with `ParseNat` as its inverse.
- `Congress`: `currentSession`, in 32-bit `int` arithmetic with truncating
  division.
- `BillCode`: the normaliser, the pattern `^([a-z]+)(\d+)$`, the eight
  bill types, `formatCode`/`formatCodeShort` and `codeToBillId`.
- `BillLinks`: `govTrackType` and the three URL builders.
- `Bills`: the `Bill` record and `displayTitle`.

The two formatters share one definition, `BillCode.Format(code, style)`.
`FormatCode` is `Format(code, Long)` and `FormatCodeShort` is
`Format(code, Short)`, because the two Java methods differ only in four
label literals. Each formatter has a partner. For the pattern, the partner
is the reference predicate `IsSplit` (a code is letters followed by digits).
For the normaliser, it is the one-pass definition `NormalizeFrom`. For bill
ids, it is the decoder `SplitBillId`. For the links, it is injectivity: the
link identifies the bill.

One observation, proved rather than assumed: whatever `formatCodeShort`
prints normalises to the same string as the code it was given. So a short label typed
back in names the same bill (`BillIdOfShortFormat`). The long labels of
joint and concurrent resolutions ("H. Joint Res.", "H. Con. Res.") do not
have this property (`FormatCodeRoundTrip`).

## Model

| member | source | states |
|---|---|---|
| `Ascii.ToLower` | src/com/sunlightlabs/congress/models/Bill.java:59 | ASCII `toLowerCase()` keeps the length and lower-cases each character in place. |
| `Ascii.RemoveAll` | src/com/sunlightlabs/congress/models/Bill.java:59 | `replace(x, "")` deletes every occurrence of `x` and keeps every other character. |
| `BillCode.Normalize` | src/com/sunlightlabs/congress/models/Bill.java:59 | The normalised code has no space, no dot and no ASCII upper-case letter. |
| `BillCode.NormalizeIsByChar` | src/com/sunlightlabs/congress/models/Bill.java:68 | The three chained passes (lower-case, delete spaces, delete dots) equal one character-by-character pass that drops spaces and dots and lower-cases the rest. |
| `BillCode.NormalizeConcat` | src/com/sunlightlabs/congress/models/Bill.java:98 | Normalising a concatenation is concatenating the normalised parts. |
| `BillCode.NormalizeFixes` | src/com/sunlightlabs/congress/models/Bill.java:68 | A string is left unchanged by the normaliser exactly when it has no space, no dot and no upper-case letter. |
| `BillCode.NormalizeIdempotent` | src/com/sunlightlabs/congress/models/Bill.java:98 | Normalising twice equals normalising once. |
| `BillCode.LetterRun` | src/com/sunlightlabs/congress/models/Bill.java:69 | The greedy first group: the prefix it measures is all `[a-z]` and the next character, if any, is not. |
| `BillCode.MatchCode` | src/com/sunlightlabs/congress/models/Bill.java:69-75 | On a match, the code is exactly group 1 (one or more `[a-z]`) followed by group 2 (one or more digits). |
| `BillCode.MatchCodeIff` | src/com/sunlightlabs/congress/models/Bill.java:69-75 | `matches()` succeeds with groups (p, d) if and only if the code splits as letters p followed by digits d. |
| `BillCode.SplitUnique` | src/com/sunlightlabs/congress/models/Bill.java:69 | A code splits into letters and digits in at most one way. |
| `BillCode.ParseType` | src/com/sunlightlabs/congress/models/Bill.java:76-91 | The `equals` chain recognises exactly the eight type codes: a hit is the tested code, and a miss means no type has that code. |
| `BillCode.ParseTypeCode` | src/com/sunlightlabs/congress/models/Bill.java:76-91 | Each of the eight type codes is recognised as its own type. |
| `BillCode.Recognize` | src/com/sunlightlabs/congress/models/Bill.java:67-93 | A recognised code normalises to the type's code followed by the digits it reports. |
| `BillCode.FormatNoMatch` | src/com/sunlightlabs/congress/models/Bill.java:71-72 | A code whose normal form does not match `^([a-z]+)(\d+)$` is printed in its normalised form, in both styles. |
| `BillCode.FormatKnown` | src/com/sunlightlabs/congress/models/Bill.java:74-91 | When the letters are one of the eight type codes, the output is that type's label followed by the digit group, copied verbatim (leading zeros kept), in both styles. |
| `BillCode.FormatUnknownPrefix` | src/com/sunlightlabs/congress/models/Bill.java:92-93 | When the letters match no type code, the output is the normalised code. |
| `BillCode.ShortDiffersFromLong` | src/com/sunlightlabs/congress/models/Bill.java:106-123 | `formatCodeShort` and `formatCode` give different results if and only if the code is a recognised joint or concurrent resolution. |
| `BillCode.ShortIsShorter` | src/com/sunlightlabs/congress/models/Bill.java:96-124 | The short form is never longer than the long form, and is strictly shorter exactly for recognised joint and concurrent resolutions. |
| `BillCode.LabelLengths` | src/com/sunlightlabs/congress/models/Bill.java:76-121 | Each short label is at most as long as the long label for the same type, and strictly shorter exactly for joint and concurrent resolutions. |
| `BillCode.FormatOfNormal` | src/com/sunlightlabs/congress/models/Bill.java:98 | The formatters depend only on the normalised code. |
| `BillCode.NormalizeShortLabel` | src/com/sunlightlabs/congress/models/Bill.java:106-121 | Each short label normalises to its type code ("H.J. Res. " to "hjres"). |
| `BillCode.LabelLetters` | src/com/sunlightlabs/congress/models/Bill.java:76-91 | The long and short labels agree except for joint and concurrent resolutions. Those long labels contain an 'o', which no type code does. |
| `BillCode.FormatCodeShortRoundTrip` | src/com/sunlightlabs/congress/models/Bill.java:97-124 | The short form normalises to the same string as the input code. |
| `BillCode.FormatCodeShortIdempotent` | src/com/sunlightlabs/congress/models/Bill.java:97-124 | Short-formatting a short-formatted code changes nothing. |
| `BillCode.FormatCodeRoundTrip` | src/com/sunlightlabs/congress/models/Bill.java:67-94 | The long form normalises to the same string as the input code if and only if the code is not a joint or concurrent resolution. |
| `BillCode.BillIdRoundTrip` | src/com/sunlightlabs/congress/models/Bill.java:58-60 | For a non-negative session, the bill id splits at its last '-' into the normalised code and the session number. |
| `BillCode.BillIdIdentifiesCode` | src/com/sunlightlabs/congress/models/Bill.java:58-60 | Two codes give the same bill id in a year if and only if they normalise to the same string. |
| `BillCode.BillIdOfShortFormat` | src/com/sunlightlabs/congress/models/Bill.java:58-60 | Passing a code's short form to `codeToBillId` gives the bill id of the code itself. |
| `Congress.Wrap32` | src/com/sunlightlabs/congress/models/Bill.java:64 | Java `int` arithmetic wraps to the 32-bit range: the result is congruent to the exact value modulo 2^32, equals it inside the range, and is 2^32 lower just above it. |
| `Congress.Half` | src/com/sunlightlabs/congress/models/Bill.java:64 | Java's `/ 2` truncates toward zero, for both signs. |
| `Congress.Session` | src/com/sunlightlabs/congress/models/Bill.java:62-65 | The session is a Java `int`. |
| `Congress.CurrentSession` | src/com/sunlightlabs/congress/models/Bill.java:62-65 | The session is rendered as its decimal digits, with a '-' sign if negative. |
| `Congress.SessionOfCalendarYear` | src/com/sunlightlabs/congress/models/Bill.java:62-65 | For calendar year y from 1789 until `year + 1901` overflows (y < 2^31 - 1), the session is (y - 1789) / 2 + 1, the number of the Congress sitting that year. |
| `Congress.SessionExamples` | src/com/sunlightlabs/congress/models/Bill.java:62-65 | 2009 and 2010 give session 111, 2011 gives 112, and 2010 renders as "111". |
| `Congress.SessionMonotone` | src/com/sunlightlabs/congress/models/Bill.java:63-64 | The session never decreases as the year grows, as long as `year + 1901` does not overflow. |
| `Congress.SessionTermPair` | src/com/sunlightlabs/congress/models/Bill.java:63-64 | An odd calendar year from -1 on and the even year after it share a session, as long as `year + 1901` does not overflow for the later one. |
| `Congress.SessionStep` | src/com/sunlightlabs/congress/models/Bill.java:63-64 | For calendar years from -1 on, two years later the session is exactly one higher, as long as `year + 1901` does not overflow for the later year. |
| `Congress.SessionOverflow` | src/com/sunlightlabs/congress/models/Bill.java:64 | At the top of the `int` range, `year + 1901` wraps and the session becomes negative. |
| `Decimal.NatToString` | src/com/sunlightlabs/congress/models/Bill.java:64 | A rendered natural number is non-empty, all digits, and has no leading zero. |
| `Decimal.IntToString` | src/com/sunlightlabs/congress/models/Bill.java:148 | A rendered `int` is all digits, or '-' followed by digits when negative. |
| `Decimal.ParseNatToString` | src/com/sunlightlabs/congress/models/Bill.java:148 | Parsing the rendering of a number gives the number back. |
| `Decimal.NatToStringInjective` | src/com/sunlightlabs/congress/models/Bill.java:152 | Distinct numbers render as distinct strings. |
| `BillLinks.GovTrackCode` | src/com/sunlightlabs/congress/models/Bill.java:127-142 | Each GovTrack abbreviation is one or two lower-case letters and keeps the chamber letter of the type code. |
| `BillLinks.GovTrackType` | src/com/sunlightlabs/congress/models/Bill.java:126-145 | Each of the eight type codes maps to its abbreviation. Every other string is returned unchanged. |
| `BillLinks.GovTrackCodeInjective` | src/com/sunlightlabs/congress/models/Bill.java:127-142 | The eight abbreviations are pairwise distinct. |
| `BillLinks.GovTrackTypeInjective` | src/com/sunlightlabs/congress/models/Bill.java:126-145 | Two known type codes translate to the same abbreviation only if they are equal. |
| `BillLinks.GovTrackTypeNotIdempotent` | src/com/sunlightlabs/congress/models/Bill.java:127-130 | "hres" translates to "hr", which translates again to "h". |
| `BillLinks.ThomasUrlInjective` | src/com/sunlightlabs/congress/models/Bill.java:147-149 | A THOMAS link (raw type, number, trailing ':') determines the type, number and session. This holds for letter-only types and non-negative numbers. |
| `BillLinks.ThomasUrlFrame` | src/com/sunlightlabs/congress/models/Bill.java:147-149 | For every type string, number and session, a THOMAS link starts with the fixed THOMAS prefix and ends in ':'. |
| `BillLinks.OpenCongressUrlFrame` | src/com/sunlightlabs/congress/models/Bill.java:151-153 | For every type string, number and session, an OpenCongress link starts with the fixed OpenCongress prefix and ends in "/show". |
| `BillLinks.OpenCongressUrlInjective` | src/com/sunlightlabs/congress/models/Bill.java:151-153 | For the eight known types and non-negative numbers, an OpenCongress link determines the type, number and session. |
| `BillLinks.GovTrackUrlFrame` | src/com/sunlightlabs/congress/models/Bill.java:155-157 | For every type string, non-negative number and session, a GovTrack link starts with the fixed GovTrack prefix and ends in the digits of the number. |
| `BillLinks.GovTrackUrlInjective` | src/com/sunlightlabs/congress/models/Bill.java:155-157 | For the eight known types and non-negative numbers, a GovTrack link determines the type, number and session. |
| `BillLinks.LinksOutsideKnownTypes` | src/com/sunlightlabs/congress/models/Bill.java:151-157 | Outside the known types the links collide: the unknown type "h" passes through and gives the same OpenCongress and GovTrack links as "hr". |
| `BillLinks.ThomasUrlAmbiguous` | src/com/sunlightlabs/congress/models/Bill.java:147-149 | A THOMAS link does not identify the bill when the raw type ends in a digit: type "hr1" with number 2 gives the same link as "hr" with 12. |
| `Bills.DisplayTitle` | src/com/sunlightlabs/congress/models/Bill.java:171-173 | The short title when it is non-null, otherwise the official title. The result is null only when both titles are. |

`BillCode.CodeToBillId`, `BillCode.Label`, the URL builders (`ThomasUrl`,
`OpenCongressUrl`, `GovTrackUrl`) and `FormatCode`/`FormatCodeShort` are
plain definitions without contracts of their own; their properties are the
lemmas in the table. `BillLinks.OpenCongressUrlShape`,
`BillLinks.GovTrackUrlShape`, `BillLinks.PrefixExtends`, `BillLinks.Unframe`
and the `BillCode.ShortLabel*` lemmas are proof helpers for those lemmas.

## Left out

- `formatSummary` (Bill.java:159-169) chains regular-expression replacements that use lazy quantifiers and `$1` back-references, and it splices the short title into a pattern unescaped. Modelling it would need a regular-expression engine.
- `fromCursor` and `parseDate` (Bill.java:175-225) map an Android database `Cursor` row to a `Bill`. `Database.parseDate` is not part of this model.
- The clock: `currentSession` reads `new Date().getYear()`. In the model, that value (the calendar year minus 1900) is the parameter `year` of `Congress.Session`, `Congress.CurrentSession` and `BillCode.CodeToBillId`.
- BillCode.Normalize: lower-cases the ASCII letters only. Java's `toLowerCase()` is locale-sensitive and also maps non-ASCII letters.
- Java `null` arguments are not modelled: the string parameters are never null, and the `bill` passed to `displayTitle` is never null (a null `bill` throws `NullPointerException` at Bill.java:172). A null code or type makes `codeToBillId`, `formatCode`, `formatCodeShort` and `govTrackType` throw `NullPointerException`, and `openCongressUrl` and `govTrackUrl` throw through `govTrackType`; `thomasUrl` instead concatenates a null type as the text "null". The two titles read by `displayTitle` may be null, and are modelled as `Option`.
- The data-transfer fields of `Bill`, `Bill.Action` and `Bill.Vote`, and `Serializable`, carry no behaviour. `Bills.Bill` keeps only the two titles that `displayTitle` reads.
- `TwitterFinder` (notification finder over a Twitter timeline) is a thin wrapper over the jtwitter library and Android `Intent`. The notification-finder base class and its dispatcher are not part of this model.
