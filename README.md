# flog severity levels, in Dafny

flog reads structured log lines and filters them by severity. Its core is
the `Level` type of `pkg/loglevel`:

- a bitmask over nine singular flags, `Unknown` (1 << 0) to `Panic` (1 << 8);
- its rendering as text, for example `Trace|Panic`, or `Undefined` when no flag is set;
- the parsing of level names and their aliases, ignoring case.

Around it sits the printer's filter. The filter decides from a record's level
and a `LogFilter` whether the record is printed:

- `MinLevel` and `MaxLevel` are thresholds;
- `BlacklistMask` and `WhitelistMask` are masks;
- a field left zero imposes no constraint.

The printer also has a summary that lists the number of skipped records per level.

The project has three modules:

- `Strings` (strings.dfy) covers what the level code uses from Go's `strings` package:
  - joining with `|`, built part by part as `strings.Builder` does;
  - splitting at `|`, which is used to state where the separators go;
  - ASCII lower-casing.
- `LogLevel` (level.dfy) covers the level constants, `singularLevels`, `String()`
  (a method with a loop, proved against the function `Format`),
  `singularLevelString` and `ParseLevel`.
- `Printer` (printer.dfy) covers `shouldIncludeLogInOutput` and its `LogFilter`, and
  `getSkippedLevelsSlice`. Both are modelled after their table tests, which the
  model's lemmas reproduce row by row; where the tests leave behaviour open, the
  model makes a choice, listed under "## Left out".

`Level` is a 64-bit bit-vector (`bv64`), the width of Go's `int` on the
platforms flog targets. Only `&`, `|`, `==` and the order of the small
constants are applied to it. Where a lemma needs to speak of "the k-th
singular bit", it uses the predicate `IsSet(lvl, k)`: the bit of
`singularLevels[k]` is set in `lvl`.

## Model

| member | source | states |
|---|---|---|
| LogLevel.SingularLevelsArePowersOfTwo | pkg/loglevel/level.go:7-30 | Undefined is 0 and not singular; the nine singular levels are 1 << 0 … 1 << 8, strictly increasing in singularLevels order |
| LogLevel.OrdinalPosition | pkg/loglevel/level.go:20-30 | a level has a position in singularLevels exactly when it is singular, and singularLevels at that position is the level |
| LogLevel.SingularLevelsOrdinals | pkg/loglevel/level.go:20-30 | the position of singularLevels[k] is k |
| LogLevel.OrdinalOrder | pkg/loglevel/level.go:7-30 | for singular levels, order by position in singularLevels is numeric order |
| LogLevel.SingularLevelString | pkg/loglevel/level.go:48-70 | every name is non-empty and has no separator |
| LogLevel.SingularLevelStringUndefined | pkg/loglevel/level.go:48-70 | the name is "Undefined" exactly for values that are not singular |
| LogLevel.SingularLevelStringInjective | pkg/loglevel/level.go:48-70 | distinct singular levels have distinct names |
| LogLevel.String | pkg/loglevel/level.go:32-46 | the loop over singularLevels returns Format(lvl) |
| LogLevel.WriteLevel | pkg/loglevel/level.go:35-40 | one iteration extends the text to the joined names of the set positions one further |
| LogLevel.SetPositionsMembers | pkg/loglevel/level.go:34-35 | the rendered positions are exactly the singular bits set in the value |
| LogLevel.SetPositionsAscending | pkg/loglevel/level.go:34-35 | the rendered positions are strictly ascending, so each set bit appears once and in singularLevels order |
| LogLevel.Format | pkg/loglevel/level.go:32-46 | the text of a level is never empty |
| LogLevel.NoPositionsSet | pkg/loglevel/level.go:42-44 | no name is appended exactly when none of the nine low bits is set |
| LogLevel.FormatShape | pkg/loglevel/level.go:34-45 | the text is "Undefined" exactly when none of the nine low bits is set; otherwise splitting it at the separator gives the names of the set bits in order, so there is no leading, trailing or doubled separator |
| LogLevel.FormatJoined | pkg/loglevel/level.go:34-45 | with some singular bit set, the text splits into the names of the set bits and is not "Undefined" |
| LogLevel.FormatIgnoresHighBits | pkg/loglevel/level.go:34-45 | bits outside the nine flags do not change the text |
| LogLevel.IsSetSingular | pkg/loglevel/level.go:35 | a mask has the bit of a singular level set exactly when `mask & level != 0` |
| LogLevel.FormatSingular | pkg/loglevel/level.go:34-41 | a singular level renders as exactly its singularLevelString name, with no separator |
| LogLevel.FormatTracePanic | pkg/loglevel/level.go:34-41 | the union of Trace and Panic renders as "Trace", the separator, "Panic" |
| Strings.ToLower | pkg/loglevel/level.go:73 | the lower-cased text has the same length and no upper-case ASCII letter |
| LogLevel.ParseLevel | pkg/loglevel/level.go:72-100 | the result is always a singular level, never Undefined |
| LogLevel.ParseLevelIgnoresCase | pkg/loglevel/level.go:73 | parsing a text and parsing its lower-cased form agree |
| LogLevel.ParseLevelAliases | pkg/loglevel/level.go:74-96 | each alias, in any case, parses to its own level |
| LogLevel.ParseLevelUnknown | pkg/loglevel/level.go:97-99 | the result is Unknown exactly when the lower-cased text is no alias |
| LogLevel.ParseLevelFail | pkg/loglevel/level.go:86-87 | "fail" parses to Error |
| LogLevel.ParseLevelDbug | pkg/loglevel/level.go:77-78 | "dbug" parses to Debug |
| LogLevel.ParseLevelUpperWarn | pkg/loglevel/level.go:83-84 | "WARN" parses to Warning |
| LogLevel.ParseLevelVerbose | pkg/loglevel/level.go:99 | a text that is no alias, "verbose", parses to Unknown |
| LogLevel.ParseSingularLevelString | pkg/loglevel/level.go:72-100 | parsing the name of a singular level gives back the level, including "Unknown" through the default case |
| LogLevel.ParseFormatRoundTrip | pkg/loglevel/level.go:72-100 | parsing the rendered text of a singular level gives back the level |
| Printer.ShouldIncludeLogInOutput | printer_test.go:83 | the conjunction of PassesMin, PassesMax, PassesBlacklist and PassesWhitelist over the four LogFilter fields; a record whose level is Undefined never passes a whitelist |
| Printer.NoFilterIncludesAll | printer_test.go:83 | the zero LogFilter includes every record |
| Printer.ShouldIncludeIsConjunction | printer_test.go:58-208 | the decision for a filter is the conjunction of the decisions for its four fields taken one at a time, with the other three zero |
| Printer.MinLevelIsValueOrder | printer_test.go:64-79 | for singular levels, MinLevel admits exactly the levels at or above it |
| Printer.MaxLevelIsValueOrder | printer_test.go:97-111 | for singular levels, MaxLevel admits exactly the levels at or below it |
| Printer.BlacklistExcludesMembers | printer_test.go:130-149 | a singular record passes a blacklist exactly when its own bit is not in the mask |
| Printer.WhitelistAdmitsMembers | printer_test.go:168-197 | a singular record passes a whitelist exactly when the mask is zero or its own bit is in the mask |
| Printer.MinLevelTable | printer_test.go:64-79 | the three rows of the MinLevel table |
| Printer.MaxLevelTable | printer_test.go:97-111 | the three rows of the MaxLevel table |
| Printer.BlacklistTable | printer_test.go:130-149 | the four rows of the BlacklistMask table |
| Printer.WhitelistTable | printer_test.go:168-197 | the six rows of the WhitelistMask table, including the zero mask and the disjoint Unknown mask |
| Printer.NatDigitsValue | printer_test.go:33-42 | the decimal digits written for a count read back as that count |
| Printer.DecimalString | printer_test.go:33-42 | the `%d` text of a count is its decimal digits, after a '-' when it is negative, and the digits read back as its magnitude |
| Printer.GetSkippedLevelsSlice | printer_test.go:14 | the summary has at most one entry per singular level |
| Printer.SkippedLevelsSliceEmpty | printer_test.go:10-19 | an empty map gives an empty summary |
| Printer.SkippedLevelsSliceEmptyIff | printer_test.go:10-19 | in the model, the summary is empty exactly when no singular level has a count; the test fixes only the empty map |
| Printer.SkippedLevelsSliceAgree | printer_test.go:21-56 | in the model, the summary depends only on the counts of singular levels; the test uses singular keys only |
| Printer.SkippedLevelsSliceAllInOrder | printer_test.go:21-56 | the counts 1..8 for Trace..Panic give "1 Trace" … "8 Panic" in level order |

## Left out

- ToLower: lower-cases ASCII letters only. Go's `strings.ToLower` follows Unicode.
  So case-insensitivity is proved relative to this function.
- printer.go is not part of this model. `shouldIncludeLogInOutput` and
  `getSkippedLevelsSlice` are modelled after their tests.
- PassesMin and PassesMax: for record levels or thresholds that are not singular,
  the position of a value is taken as -1. The tests do not fix this case. The general
  threshold lemmas therefore assume singular levels.
- Min and max threshold order is by position in `singularLevels`; OrdinalOrder shows
  that this agrees with Go's integer order on singular levels.
- String: `strings.Builder` is modelled as a string that is extended by concatenation.
  `b.Len()` becomes `|b|`.
- WriteLevel: one iteration of String's loop, split out as its own method. Its
  effect is the same as the loop body.
- DecimalString: `%d` formatting is written out as decimal digits, with a '-' for
  negative counts. The tests only use the counts 1 to 8.
- GetSkippedLevelsSlice: Go's map iteration order is not modelled. The map is an input
  and only the resulting order is specified.
    - The entries follow `singularLevels` order, which is the order the AllInOrder test
      expects.
    - The map is keyed by the level's integer value, as Go's `map[Level]int` is keyed by an
      integer type.
- GetSkippedLevelsSlice: three choices go beyond what its two tests fix.
    - A key that is not a singular level is dropped. This includes `Undefined`, so
      a map holding only a count for `Undefined` gives an empty summary.
    - `Unknown`, when it has a count, is listed first, as `singularLevels` puts it first.
    - A count of zero or below still gives an entry.
- Reading log streams, printing and colouring, CLI flag parsing and the `testing` harness are out of scope.
