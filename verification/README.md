# Versions, a command-line parser and deep lookups, in Dafny

A functional model of three small Ruby components and proofs about them.

- **Version and Version::Range.** A version is a dotted string of decimal integers. The empty string is the empty version. Anything else, such as `banana`, is rejected with the message `Invalid version string 'banana'`. Versions compare by padding with zeros and comparing component by component, so trailing zeros do not matter and intermediate ones do. `to_s` writes the canonical form. `components(n)` pads or truncates to `n` entries. A range holds an inclusive lower and an exclusive upper bound. It answers `include?` and enumerates its versions with `to_a`. The enumeration is an odometer: the last component counts up, and a component that reaches 10 carries into the one on its left. It runs at the depth of the longer bound as written. The repository holds only the RSpec suite for this component (`tasks/4/solution.rb`), so the model follows what those tests assert.
- **CommandParser** (`tasks/3/solution.rb`). It declares positional arguments, flag options and options with a parameter. Its `parse` splits the parameters into positional ones and options, and calls the blocks of the matching declarations. Each block call is modelled as an event.
- **`Hash#fetch_deep`, `Array#fetch_deep` and `reshape`** (`tasks/2/solution.rb`). These follow a dotted key path through nested hashes and arrays. `reshape` rebuilds a shape hash with its leaf paths replaced by the values they fetch.

Files: `outcomes.dfy` holds the `Option`/`Result` types. `text.dfy` splits and joins on a separator character, and `decimal.dfy` reads and writes numerals. `versions.dfy`, `ranges.dfy`, `command_parser.dfy` and `deep_fetch.dfy` hold the four models. `version_texts.dfy` states, for each version string used in the RSpec suite, the components it parses to. `version_examples.dfy` and `range_examples.dfy` derive every asserted example of the suite from the general definitions.

## Model

| member | source | states |
|---|---|---|
| Versions.Parse | tasks/4/solution.rb:3-9 | construction from a string succeeds exactly on the grammar "" or digits('.'digits)*, and a failure carries the message `Invalid version string '<s>'` |
| Versions.TokensFollowGrammar | tasks/4/solution.rb:3-9 | the '.'-separated fields of a non-empty string are all non-empty digit runs exactly when, character by character, the string is digits with single dots between digits |
| Versions.ParseFormat | tasks/4/solution.rb:79-83 | parsing the dotted numerals of any component sequence gives back exactly that sequence |
| Versions.ParseToString | tasks/4/solution.rb:79-83 | a canonical version string (no leading zeros, no trailing `.0`) parses, and `to_s` gives back the same string |
| Versions.ToStringParse | tasks/4/solution.rb:97-101 | `to_s` parses back to the version with trailing zero components dropped, which compares equal to the original |
| Versions.ToString | tasks/4/solution.rb:92-101 | `to_s` is empty exactly when every component is 0, the empty version included |
| Versions.ToStringCanonical | tasks/4/solution.rb:97-113 | `to_s` is always a canonical version string: no leading zeros in a component and no trailing `.0` |
| Versions.Make | tasks/4/solution.rb:85-90 | a version built from another version renders the same `to_s` and compares equal to it; a version built from a string is that string's parse, so it succeeds exactly on the grammar |
| Versions.Trim | tasks/4/solution.rb:56-58 | the canonical form is a prefix of the components, ends in a non-zero component, and only zeros were dropped |
| Versions.Pad | tasks/4/solution.rb:64-70 | the result has exactly `n` entries, and entry `i` is component `i`, or 0 past the end |
| Versions.Components | tasks/4/solution.rb:52-70 | without `n`, the canonical components in order, which compare equal to the version; with `n`, the first `n` components, or all of them followed by zeros up to `n` |
| Versions.SameIffComponents | tasks/4/solution.rb:42-48 | two versions are equal exactly when their canonical components are equal |
| Versions.Compare | tasks/4/solution.rb:13-48 | `<=>` is -1, 0 or 1, and 0 exactly when the versions agree after dropping trailing zeros |
| Versions.CompareAtDepth | tasks/4/solution.rb:13-40 | `<=>` is the lexicographic comparison of the components padded with zeros to any common length |
| Versions.CompareLessIff | tasks/4/solution.rb:13-40 | `a < b` exactly when, reading missing components as 0, the first position where they differ is smaller in `a` |
| Versions.CompareAntisymmetric | tasks/4/solution.rb:22-28 | swapping the operands negates `<=>` |
| Versions.CompareTransitive | tasks/4/solution.rb:13-28 | `<=` is transitive, and strictly so when one step is strict |
| Versions.TotalOrder | tasks/4/solution.rb:13-40 | exactly one of `<`, `==`, `>` holds, and `<=`, `>=`, `!=` agree with them |
| Versions.LexLessIff | tasks/4/solution.rb:13-20 | the lexicographic comparison is negative exactly when the first differing position is smaller on the left |
| Versions.LexTransitive | tasks/4/solution.rb:13-28 | the lexicographic order on equally long sequences is transitive |
| VersionRanges.MakeRange | tasks/4/solution.rb:119-133 | a range is built from two strings or versions; it fails exactly when a bound fails, with the lower bound's error first |
| VersionRanges.IncludesSource | tasks/4/solution.rb:119-133 | `include?` converts its argument like a version, and answers lower <= v < upper |
| VersionRanges.Includes | tasks/4/solution.rb:117-158 | a version is in the range exactly when, with the bounds and the version padded with zeros to their common length, lower <= v and v < upper lexicographically |
| VersionRanges.IncludesNonEmpty | tasks/4/solution.rb:135-138 | a range that contains anything has its lower bound below its upper bound |
| VersionRanges.EqualBoundsEmpty | tasks/4/solution.rb:135-138 | a range with equal bounds contains no version |
| VersionRanges.EmptyIsLeast | tasks/4/solution.rb:140-158 | the version of `''` is at most every version, so `''` is the least lower bound |
| VersionRanges.Increment | tasks/4/solution.rb:182-185 | one odometer step keeps the length and either moves strictly up in lexicographic order or carries out of the first component; a carry out of the first component only happens from components of at least 9, and leaves all zeros |
| VersionRanges.Odometer | tasks/4/solution.rb:161-185 | the readings start at the lower reading, stay between the bounds, strictly increase, and are empty exactly when the lower reading is not below the upper one |
| VersionRanges.ToA | tasks/4/solution.rb:161-185 | every string of `to_a` parses to a version inside the range, and the versions are strictly ascending |
| VersionRanges.ToAEmptyIff | tasks/4/solution.rb:174-176 | `to_a` is empty exactly when the lower bound is not below the upper bound |
| VersionRanges.ToADecimal | tasks/4/solution.rb:161-185 | with bounds of decimal digits, `to_a` renders the numerals of the consecutive numbers from the lower reading up to the upper reading |
| VersionRanges.ToAComplete | tasks/4/solution.rb:161-172 | with bounds of decimal digits, every decimal reading of the enumeration depth inside the range appears in `to_a` |
| VersionRanges.OdometerDecimal | tasks/4/solution.rb:182-185 | on decimal digits the odometer counts: its readings are the numerals of consecutive numbers up to the bound |
| VersionRanges.IncrementDecimal | tasks/4/solution.rb:182-185 | on decimal digits below all nines, an odometer step adds exactly one to the value |
| VersionRanges.LexLessValue | tasks/4/solution.rb:161-185 | for numerals of equal length, a lexicographically smaller one has a smaller value |
| VersionRanges.LexOrderIsValueOrder | tasks/4/solution.rb:161-185 | for numerals of equal length, lexicographically smaller exactly when numerically smaller |
| VersionExamples.BananaRejected | tasks/4/solution.rb:3-9 | `Version.new('banana')` fails with `Invalid version string 'banana'` |
| VersionExamples.LowerOrEqual | tasks/4/solution.rb:14-20 | `1.2.3 < 1.3`, `1.2.3 <= 1.3`, and `1.2.3` is `<=` its copy |
| VersionExamples.HigherOrEqual | tasks/4/solution.rb:22-28 | `2.3 > 1.0.2.3`, `2.3 >= 1.0.2.3`, and `1.0.2.3` is `>=` its copy |
| VersionExamples.EqualToCopy | tasks/4/solution.rb:30-33 | `0.1` equals its copy |
| VersionExamples.DifferentVersions | tasks/4/solution.rb:35-40 | `1.0.4 != 2.35` and `1.0.4 <=> 2.35` is -1 |
| VersionExamples.TrailingZerosIgnored | tasks/4/solution.rb:42-44 | `1.2.3 == 1.2.3.0.0` |
| VersionExamples.IntermediateZerosCount | tasks/4/solution.rb:46-48 | `1.2.0.3 != 1.2.3` |
| VersionExamples.ComponentsInOrder | tasks/4/solution.rb:52-54 | the components of `1.2.3.40` are `[1, 2, 3, 40]` |
| VersionExamples.ComponentsDropTrailingZeros | tasks/4/solution.rb:56-58 | the components of `1.2.3.0.0` are `[1, 2, 3]` |
| VersionExamples.ComponentsKeepInnerZeros | tasks/4/solution.rb:60-62 | the components of `0.1.0.2.3` are `[0, 1, 0, 2, 3]` |
| VersionExamples.ComponentsPadded | tasks/4/solution.rb:64-66 | `components(6)` of `1.2.3` is `[1, 2, 3, 0, 0, 0]` |
| VersionExamples.ComponentsTruncated | tasks/4/solution.rb:68-70 | `components(3)` of `1.2.3.4.5.6` is `[1, 2, 3]` |
| VersionExamples.RenderFromString | tasks/4/solution.rb:79-90 | `4.78.1.2` renders as itself, and so does its copy |
| VersionExamples.EmptyStringIsEmptyVersion | tasks/4/solution.rb:92-95 | `''` is the empty version and renders as `''` |
| VersionExamples.RenderDropsTrailingZeros | tasks/4/solution.rb:97-101 | `1.2.3.0.0.0` renders as `1.2.3` |
| VersionExamples.RenderKeepsZerosInsideComponents | tasks/4/solution.rb:103-107 | `1.20.3.50` renders as itself |
| VersionExamples.RenderKeepsIntermediateZeros | tasks/4/solution.rb:109-113 | `1.2.3.0.0.0.6` renders as itself |
| RangeExamples.IncludeWithStringsBounds | tasks/4/solution.rb:119-123 | the bounds `1.2.30` and `1.30.6` parse |
| RangeExamples.IncludeWithStrings | tasks/4/solution.rb:119-125 | `1.3` lies in `[1.2.30, 1.30.6)` |
| RangeExamples.IncludeWithVersions | tasks/4/solution.rb:127-133 | a range built from versions `1.2.3` and `1.3.6` includes a copy of `1.3` |
| RangeExamples.IncludeEqualBounds | tasks/4/solution.rb:135-138 | `1.2.3` is not in `[1.2.3, 1.2.3)` |
| RangeExamples.IncludeFromEmptyLower | tasks/4/solution.rb:140-143 | `0.5` lies in `['', 9.19.9)` |
| RangeExamples.ExcludeAboveUpper | tasks/4/solution.rb:145-148 | `9.9.9` is not in `['', 1.2.3)` |
| RangeExamples.IncludeLowerBound | tasks/4/solution.rb:150-153 | `0.1` lies in `[0.1, 9.9.9)` |
| RangeExamples.ExcludeUpperBound | tasks/4/solution.rb:155-158 | `9.9.9` is not in `['', 9.9.9)` |
| RangeExamples.ToAFromLowerToUpperBounds | tasks/4/solution.rb:163 | the bounds `1.1.0` and `1.2.2` parse |
| RangeExamples.ToAFromLowerToUpper | tasks/4/solution.rb:162-172 | `to_a` of `[1.1.0, 1.2.2)` is the twelve listed strings from `1.1` to `1.2.1` |
| RangeExamples.ToAFromStrings | tasks/4/solution.rb:162-172 | `Version::Range.new('1.1.0', '1.2.2')` is built from the strings, and its `to_a` is the same twelve strings |
| RangeExamples.ToAEqualBounds | tasks/4/solution.rb:174-176 | `to_a` of `[1.1, 1.1)` is empty |
| RangeExamples.ToAIncludesLowerExcludesUpperBounds | tasks/4/solution.rb:179 | the bounds `0.1.1` and `0.1.2` parse |
| RangeExamples.ToAIncludesLowerExcludesUpper | tasks/4/solution.rb:178-180 | `to_a` of `[0.1.1, 0.1.2)` is `['0.1.1']` |
| RangeExamples.ToACarriesIntoMiddleBounds | tasks/4/solution.rb:183 | the bounds `0.1.9` and `0.2` parse |
| RangeExamples.ToACarriesIntoMiddle | tasks/4/solution.rb:183 | `to_a` of `[0.1.9, 0.2)` is `['0.1.9']` |
| RangeExamples.ToACarriesIntoFirstBounds | tasks/4/solution.rb:184 | the bounds `0.9.9` and `1` parse |
| RangeExamples.ToACarriesIntoFirst | tasks/4/solution.rb:184 | `to_a` of `[0.9.9, 1)` is `['0.9.9']` |
| CommandParser.New | tasks/3/solution.rb:2-7 | a new parser keeps its command and has no declarations |
| CommandParser.AddArgument | tasks/3/solution.rb:9-11 | the new argument takes the next position, and earlier declarations keep theirs |
| CommandParser.AddOption | tasks/3/solution.rb:13-15 | the new flag option takes the next position, and earlier declarations keep theirs |
| CommandParser.AddParameterOption | tasks/3/solution.rb:17-20 | the new parameter option takes the next position, and earlier declarations keep theirs |
| CommandParser.Positionals | tasks/3/solution.rb:23 | the selected parameters are no more than the input, and none starts with '-' |
| CommandParser.Difference | tasks/3/solution.rb:25 | array difference keeps exactly the elements of the list that do not occur in the removed list, each kept element as many times as it occurs in the list |
| CommandParser.DifferenceAppend | tasks/3/solution.rb:25 | array difference distributes over concatenation, so the kept elements stay in the list's order |
| CommandParser.Options | tasks/3/solution.rb:23-25 | the parameters minus the positional ones are exactly the parameters starting with '-', in order and with repetitions |
| CommandParser.Partition | tasks/3/solution.rb:23-25 | the positional parameters and the options together are the parameters, each exactly once |
| CommandParser.PartitionKeepsOrder | tasks/3/solution.rb:23-25 | both parts keep the relative order of the parameters |
| CommandParser.SplitNameAndValue | tasks/3/solution.rb:49-55 | a `--` option's name is its text up to the first '='; otherwise the name is the first two characters and the value the rest |
| CommandParser.DropTrailingEmpty | tasks/3/solution.rb:51 | splitting drops exactly the trailing empty fields |
| CommandParser.SplitLongWithValue | tasks/3/solution.rb:50-51 | `--name=value` splits into `--name` and `value` |
| CommandParser.SplitLongFlag | tasks/3/solution.rb:50-51 | `--name` alone has no value |
| CommandParser.SplitShort | tasks/3/solution.rb:52-53 | `-xVALUE` splits into `-x` and `VALUE`, and `-x` has the empty value |
| CommandParser.FirstMatch | tasks/3/solution.rb:40 | the first declaration whose long or short form equals the name, or none when no declaration does |
| CommandParser.Matches | tasks/3/solution.rb:71-83 | `name?` only answers to names starting with '-', and for those exactly when the rest is the short name or '-' followed by the long name |
| CommandParser.OptionEvent | tasks/3/solution.rb:36-47 | an empty value calls the first matching flag option and a non-empty one the first matching parameter option with that value; there is a call exactly when some declaration of that kind matches |
| CommandParser.OptionEvents | tasks/3/solution.rb:37 | each option makes at most one call, and none of them is an argument call |
| CommandParser.ArgumentEvents | tasks/3/solution.rb:30-33 | the i-th positional parameter goes to the i-th declared argument |
| CommandParser.Parse | tasks/3/solution.rb:22-27 | the argument calls come first, in order, and then the option calls; the parse stops with an error exactly when there are more positional parameters than declared arguments |
| CommandParser.EventCount | tasks/3/solution.rb:22-47 | a parse makes at most one call per parameter, whether or not it stops with an error |
| CommandParser.ParseDeterminedBy | tasks/3/solution.rb:22-27 | the parse depends only on the positional parameters and the calls the options make |
| CommandParser.UnknownOptionIgnored | tasks/3/solution.rb:39-44 | an option that matches no declaration changes nothing: the parse with it equals the parse without it |
| CommandParser.FlagDispatch | tasks/3/solution.rb:39-41 | `--name` or `-x` calls the first flag option answering to it, with `true` |
| CommandParser.ParameterDispatch | tasks/3/solution.rb:42-44 | `--name=value` or `-xvalue` with a non-empty value calls the first parameter option answering to the name, with the value |
| DeepFetch.Lookup | tasks/2/solution.rb:18 | `hash[key]` is the value of the first entry with that key, and `nil` when there is none |
| DeepFetch.TryGetValue | tasks/2/solution.rb:17-19 | no key gives `nil`; a truthy string-key value wins; otherwise the symbol key's value is the answer |
| DeepFetch.SplitPath | tasks/2/solution.rb:3 | `split('.', 2)` gives no segment for `''`; otherwise a first segment without '.', and the rest after the first '.' if there is one, so that segment + '.' + rest is the path |
| DeepFetch.SkipSpaces | tasks/2/solution.rb:25 | `to_i` skips a prefix of whitespace only, and what is left does not start with whitespace |
| DeepFetch.DigitRun | tasks/2/solution.rb:25 | the digits `to_i` reads are all digits, no more than the text, and there are some exactly when the text starts with a digit |
| DeepFetch.DigitRunOfDigits | tasks/2/solution.rb:25 | a string of digits is read whole |
| DeepFetch.ToI | tasks/2/solution.rb:24-25 | `nil.to_i` is 0, and a segment without any digit reads as 0 |
| DeepFetch.UnsignedIndex | tasks/2/solution.rb:25 | a segment of digits reads as its decimal value |
| DeepFetch.SignedIndex | tasks/2/solution.rb:25 | whitespace, a sign and digits read as the digits' value, negated for '-' |
| DeepFetch.DigitRunUnderscore | tasks/2/solution.rb:25 | for non-empty digit strings x and y, the digit run of `x_y` is `xy`: the '_' is read through and dropped |
| DeepFetch.UnderscoreIndex | tasks/2/solution.rb:25 | for non-empty digit strings x and y, the index `x_y` reads as `xy`, its decimal value, so `12_345` is 12345 |
| DeepFetch.Element | tasks/2/solution.rb:25 | `array[i]` is the element at `i` from the front for `0 <= i < n`, at `n + i` for `-n <= i < 0`, and `nil` otherwise; it is always `nil` or an element |
| DeepFetch.FromEnd | tasks/2/solution.rb:23-27 | the path `-k` selects the k-th element from the end of an array |
| DeepFetch.Step | tasks/2/solution.rb:4-25 | one segment selects `nil` or a value stored in the receiver; without a segment a hash gives `nil` and an array its first element |
| DeepFetch.FetchDeep | tasks/2/solution.rb:2-29 | receivers other than hashes and arrays have no `fetch_deep`; a path without '.' is one step, and the empty path is a step without a key |
| DeepFetch.FetchDeepEmptyPath | tasks/2/solution.rb:2-29 | the empty path has no segment: a hash gives `nil` and an array its first element |
| DeepFetch.FetchDeepSingleSegment | tasks/2/solution.rb:2-7 | a non-empty path without '.' is one lookup: string key then symbol key in a hash, and an index in an array |
| DeepFetch.FetchDeepStep | tasks/2/solution.rb:2-8 | for `key.rest`, the rest is fetched from the value at `key` when it is truthy; otherwise the result is `nil` |
| DeepFetch.FetchDeepConcat | tasks/2/solution.rb:2-29 | following `p.q` equals following `p` and then, from a truthy result, `q`, when the last segment of `p` is not empty |
| DeepFetch.ReshapeHash | tasks/2/solution.rb:10-14 | the result has the shape's keys in order, each with its leaf's fetched value or its nested shape's reshape of the same hash; it fails exactly when some entry fails |
| DeepFetch.ReshapeEntry | tasks/2/solution.rb:12 | a path entry is fetched from the hash; a nested shape that succeeds gives a hash with that shape's keys in order |
| DeepFetch.Reshape | tasks/2/solution.rb:31-33 | a hash reshapes as above; an array reshapes every element with the same shape and keeps its length, failing exactly when some element fails; other receivers have no `reshape` |
| DeepFetch.ReshapeThenFetch | tasks/2/solution.rb:10-14 | for a shape key that is a dot-free string occurring once, with no symbol key of the same name, fetching it from the reshaped hash gives what the shape's path fetched from the original, with a falsy value read as `nil` |

## Left out

- `tasks/1/solution.rb`, the temperature converter, is not part of this model: it computes in floating point.
- The RSpec machinery and the Ruby exception classes. A failed construction is a `Failure` that carries the message. `NoMethodError` is one error value in the deep lookup.
- The implementation of `Version` is not part of this model. The model follows the behaviour that the RSpec suite asserts.
- The test that `components` returns a copy (`tasks/4/solution.rb:72-75`): model values are immutable, so there is nothing to copy.
- VersionRanges.Increment: a component that reaches 10 or more carries. The tests only enumerate components below 10, so for larger components this carry rule is a modelling choice.
- VersionRanges.ToAComplete: completeness and the counting characterisation (`ToADecimal`) are proved only for bounds whose components are decimal digits. With larger components the model still proves that `to_a` is ordered and lies inside the range.
- Ruby blocks and the command runner. A block call is an event naming the declaration and its value, and the runner passed to every block is left out.
- CommandParser.Parse: a positional parameter with no declared argument is modelled as a `crashed` flag after the earlier argument calls. The exception itself is not modelled.
- The option descriptions and parameter names are stored but have no behaviour in the source.
- DeepFetch.ToI: Ruby's `to_i` also accepts a `0d` decimal prefix after the sign; the model reads such a segment as 0.
- DeepFetch.Lookup: hash keys are strings or symbols only. Keys of other types can never match a lookup.
- DeepFetch.Reshape: shape leaves are strings only. A non-string leaf makes `fetch_deep` fail in the source. A shape with a repeated key keeps every entry, while Ruby's `to_h` keeps the last one; a shape that is itself a hash has no repeated keys.
- The monkey-patching of `Hash` and `Array` is modelled as functions over a `Value` datatype.
