# ffmpeg-simple, modelled in Dafny

ffmpeg-simple is a small JavaScript wrapper around the `ffmpeg` and `ffprobe`
command-line tools. This project models its core:

- the complex-filter graph builder (`ComplexFilterGenerator`). Each pushed
  filter is wired to the previous filter's outputs or to the graph's first
  input, and is given labelled outputs. The static helpers flatten nested
  graphs and read their last outputs.
- the utility functions `arrify`, `unique`, `shorten`, `try` and
  `replaceFile`. `replaceFile` works over an abstract file system whose
  operations can fail.
- `ffprobe`'s per-input cache, its `halt` switch, and the metadata record it
  builds from a probe result.
- the argument records that `concat` and `concatDemux` pass to `ffmpeg`, the
  text of the concat-demuxer list file, and the duration and size folds.
- `ffmpeg`'s option normalisation, its default output path, the
  `HH:MM:SS.ss` timemark parse, and the progress line.

Files:

- `js.dfy` (module `Js`) holds the JavaScript values the model needs:
  truthiness, `String()` of integers, `parseInt` of digit strings,
  `Array.prototype.join` and `String.prototype.split`.
- `utils.dfy`, `filter_graph.dfy`, `probe.dfy`, `helpers.dfy` and
  `ffmpeg.dfy` follow `lib/utils.js`, `lib/complex-filter-generator.js`,
  `lib/ffprobe.js`, `lib/helpers.js` and `lib/ffmpeg.js`.

Objects whose fields the source updates in place are classes, with
`modifies` clauses:

- the graph builder (`FilterGraph.ComplexFilterGenerator`);
- the file system (`Utils.FileSystem`);
- the probe cache (`Probe.Prober`);
- the progress record (`Ffmpeg.Progress`).

Each of their methods is proved against a function on values, and the lemmas
are stated about those functions.

Calls out of the core are parameters, and so are results the core cannot
compute itself:

- the outcome of `stat` and of the probe;
- the path of the concat list file;
- the random output-label suffix;
- each file-system step's failure.

## Model

| member | source | states |
|---|---|---|
| Utils.Arrify | lib/utils.js:148 | an array is returned as is, `undefined` becomes `[]`, and anything else becomes a one-element array |
| Utils.ArrifyIdempotent | lib/utils.js:148 | arrifying the array that `arrify` returned gives the same array |
| Utils.Unique | lib/utils.js:270 | the result has no duplicates, holds exactly the input's elements, and is no longer than the input |
| Utils.UniqueKeepsFirstOccurrenceOrder | lib/utils.js:270 | elements appear in the order of their first occurrence in the input |
| Utils.UniqueOfDistinct | lib/utils.js:270 | an input without duplicates is returned unchanged |
| Utils.UniqueIdempotent | lib/utils.js:270 | applying `unique` twice is the same as applying it once |
| Utils.Strip | lib/utils.js:275 | the result holds no character of `[ []().,_-]`, keeps every other character exactly as often as the input, and is no longer |
| Utils.StripConcat | lib/utils.js:275 | stripping distributes over concatenation |
| Utils.StripClean | lib/utils.js:275 | a string holding none of those characters is unchanged |
| Utils.StripIdempotent | lib/utils.js:275 | stripping twice is the same as stripping once |
| Utils.Tail | lib/utils.js:278 | `substr(-k)` for `k` up to the length: the last `k` characters, and the whole string for `k = 0` (as `-0` is the start) |
| Utils.Shorten | lib/utils.js:272-280 | a string shorter than `length` is returned as is; a stripped string shorter than `length` is returned stripped; otherwise the result is the first `9*length/10` characters of the stripped string, the marker, then the last `length/10` |
| Utils.ShortenBounds | lib/utils.js:272-280 | for `length` of at least 10 the result is at most `length` plus the marker long; a result shorter than `length` is the input or the stripped input |
| Utils.ShortenDefault | lib/utils.js:272-279 | with the default length of 15, a name whose stripped form has at least 15 characters becomes its first 13 stripped characters, the marker, and its last character |
| Utils.Errors | lib/utils.js:165-174 | the errors of the failing outcomes, in order |
| Utils.TryFrom | lib/utils.js:158-175 | the result of the first function at or after `i` that succeeds; when none succeeds, the last error is thrown, carrying the earlier ones |
| Utils.Try | lib/utils.js:155-176 | `try` returns the first success after the failures before it; when all fail it throws the last error with the earlier ones attached; with no functions there is no error to rethrow (`errors.pop()` is `undefined`) |
| Utils.TryIgnoresLaterFunctions | lib/utils.js:165-171 | functions after the first success are never consulted |
| Utils.TryFromPrefix | lib/utils.js:158-175 | a success within a prefix decides the outcome whatever follows |
| Utils.RenameStep | lib/utils.js:182 | a rename fails when the source is missing or the step faults, and otherwise moves the content |
| Utils.MoveStep | lib/utils.js:186 | a move fails when the source is missing, the destination exists (or is the source) or the step faults, and otherwise moves the content |
| Utils.BackupDiffers | lib/utils.js:180 | the backup path differs from the file it backs up |
| Utils.Replace | lib/utils.js:178-201 | `replaceFile` changes no file other than the target, the replacement and the backup, and a success leaves no backup behind |
| Utils.ReplaceSuccess | lib/utils.js:178-201 | on success the target holds the replacement's content, the replacement and the backup are gone, and every other file is unchanged |
| Utils.ReplaceSucceedsIff | lib/utils.js:178-201 | `replaceFile` succeeds exactly when the target exists, the replacement is another existing file (or the backup path itself), and neither the backup nor the move faults |
| Utils.ReplaceBackupFails | lib/utils.js:182 | when the target is missing or the backup rename faults, `replaceFile` rejects with that error and nothing changes |
| Utils.ReplaceRollback | lib/utils.js:192-197 | when the move fails and the restore does not fault, the move's error is rethrown and the files are as before, without a backup |
| Utils.ReplaceKeepsOriginal | lib/utils.js:178-201 | the original content is never lost: it is at the target or at the backup path |
| Utils.FileSystem.Rename | lib/utils.js:182 | the file system changes exactly as `RenameStep` says |
| Utils.FileSystem.Move | lib/utils.js:186 | the file system changes exactly as `MoveStep` says |
| Utils.FileSystem.Remove | lib/utils.js:199 | the path is removed and nothing else changes |
| Utils.ReplaceFile | lib/utils.js:178-201 | the outcome and the new file system are those of `Replace` on the old file system |
| FilterGraph.FlatAll | lib/complex-filter-generator.js:12 | `flat(Infinity)`: no array is left in the result |
| FilterGraph.FlatAllConcat | lib/complex-filter-generator.js:12 | flattening distributes over concatenation |
| FilterGraph.Flatten | lib/complex-filter-generator.js:11-12 | `arrify` then `flat(Infinity)`: `undefined` gives nothing, and a single non-array value gives itself |
| FilterGraph.FlatAllSingle | lib/complex-filter-generator.js:12 | a non-array value flattens to itself |
| FilterGraph.LastOutputOf | lib/complex-filter-generator.js:56-60 | the last node's outputs, or none for an empty graph |
| FilterGraph.ProcessInput | lib/complex-filter-generator.js:61-78 | a string gives itself, a number its decimal text, a generator with outputs its last outputs; `undefined`, `null`, booleans, functions and plain objects throw `Invalid input` |
| FilterGraph.Both | lib/complex-filter-generator.js:68-69 | succeeds exactly when both halves succeed, and then the outputs are concatenated |
| FilterGraph.BothAssociative | lib/complex-filter-generator.js:68-69 | combining results is associative |
| FilterGraph.ProcessAll | lib/complex-filter-generator.js:68-69 | the empty list gives no labels; a list succeeds exactly when `processInput` succeeds on each of its elements |
| FilterGraph.ProcessAllConcat | lib/complex-filter-generator.js:68-69 | processing a concatenation combines the two halves' results |
| FilterGraph.ProcessAllSingle | lib/complex-filter-generator.js:68-69 | processing a one-element list is processing its element |
| FilterGraph.ProcessFlatAll | lib/complex-filter-generator.js:12 | processing the flattened list gives the same result as processing the nested one |
| FilterGraph.NonEmpty | lib/complex-filter-generator.js:35 | `filter(Boolean)` on labels: no empty label is left, every non-empty label is kept, and nothing is added |
| FilterGraph.NonEmptyClean | lib/complex-filter-generator.js:35 | a list with no empty label is unchanged |
| FilterGraph.ResolveInputs | lib/complex-filter-generator.js:35 | resolved input labels are never empty |
| FilterGraph.ResolveIsProcess | lib/complex-filter-generator.js:35 | resolving an input list is processing its arrified, flattened items and then dropping the empty labels |
| FilterGraph.ProcessInputSucceedsIff | lib/complex-filter-generator.js:61-78 | `processInput` succeeds exactly on strings, numbers, arrays whose every element succeeds, and generators that either have non-empty last outputs or whose first input succeeds |
| FilterGraph.ProcessAllSucceedsIff | lib/complex-filter-generator.js:68-69 | a list succeeds exactly when every element succeeds |
| FilterGraph.ResolveScalarsAndArrays | lib/complex-filter-generator.js:68-73 | a string gives itself, a number gives its decimal text, and an array gives the concatenation of its items |
| FilterGraph.NonEmptySingle | lib/complex-filter-generator.js:35 | a single non-empty label survives `filter(Boolean)` |
| FilterGraph.ResolveArray | lib/complex-filter-generator.js:35 | resolving an array resolves its items |
| FilterGraph.NonEmptyConcat | lib/complex-filter-generator.js:35 | `filter(Boolean)` distributes over concatenation |
| FilterGraph.ResolveGenerator | lib/complex-filter-generator.js:62-67 | a generator used as an input stands for its non-empty last outputs; when those are empty (no filters, or a last filter with `outputs: []`) it stands for its first input, and throws `Invalid input` when that is `undefined` |
| FilterGraph.Labels | lib/complex-filter-generator.js:61-78 | the labels as an array value of strings |
| FilterGraph.ResolveLabels | lib/complex-filter-generator.js:35 | non-empty labels given as an array resolve to themselves |
| FilterGraph.ProcessAllLabels | lib/complex-filter-generator.js:68-69 | processing string labels returns them unchanged |
| FilterGraph.SpecOf | lib/complex-filter-generator.js:22-26 | a bare string pushes a filter of that name with no options; a record is taken as is |
| FilterGraph.WiredInputs | lib/complex-filter-generator.js:28-34 | truthy inputs and `false` are kept; omitted inputs end up truthy exactly when there are previous outputs or a truthy first input, and after a node they resolve to that node's non-empty outputs |
| FilterGraph.NewNode | lib/complex-filter-generator.js:21-45 | the new node carries the filter name and options; its inputs, when it has any, are non-empty labels; its outputs are the given ones or `<name>-<suffix>` |
| FilterGraph.PushExplicitInputs | lib/complex-filter-generator.js:35-38 | with truthy inputs, `push` throws exactly when resolving them throws, with that error; otherwise the node's inputs are the resolved labels, or absent when there are none |
| FilterGraph.PushChainsToPrevious | lib/complex-filter-generator.js:28-30 | without explicit inputs, a push after another filter takes that filter's outputs |
| FilterGraph.PushFallsBackToFirstInput | lib/complex-filter-generator.js:31-38 | without explicit inputs and with no previous outputs, the node takes the generator's first input, or no inputs when that is falsy |
| FilterGraph.PushInputsFalse | lib/complex-filter-generator.js:28 | `inputs: false` pushes a node with no inputs |
| FilterGraph.PushName | lib/complex-filter-generator.js:22-23 | pushing a bare name is pushing `{ filter: name }` |
| FilterGraph.ComplexFilterGenerator.constructor | lib/complex-filter-generator.js:17-20 | a fresh generator has no filters and remembers its first input |
| FilterGraph.ComplexFilterGenerator.LastFilter | lib/complex-filter-generator.js:53-55 | the last pushed node, or none |
| FilterGraph.ComplexFilterGenerator.LastOutput | lib/complex-filter-generator.js:56-60 | the last node's outputs, or nothing when no filter was pushed |
| FilterGraph.ComplexFilterGenerator.SnapshotResolves | lib/complex-filter-generator.js:62-67 | a generator passed as an input resolves to its non-empty last outputs; while those are empty it resolves as its first input does, and throws `Invalid input` when that is `undefined` |
| FilterGraph.ComplexFilterGenerator.Push | lib/complex-filter-generator.js:21-46 | on success the new node is appended and its outputs are returned; on error nothing changes |
| FilterGraph.ComplexFilterGenerator.Items | lib/complex-filter-generator.js:48-52 | iteration yields the nodes in push order |
| FilterGraph.PushOnFreshGenerator | lib/complex-filter-generator.js:17-42 | the first push on a generator over an input is wired to that input and gets the default output label |
| FilterGraph.ExpandPart | lib/complex-filter-generator.js:80-86 | expanding one part leaves no generator |
| FilterGraph.ExpandParts | lib/complex-filter-generator.js:80-86 | static `flatten`: no generator is left in the result |
| FilterGraph.ExpandPartsConcat | lib/complex-filter-generator.js:80-86 | expansion distributes over concatenation |
| FilterGraph.ExpandPlainThenGraph | lib/complex-filter-generator.js:80-86 | plain parts followed by a generator expand to those parts followed by its nodes |
| FilterGraph.ExpandPlain | lib/complex-filter-generator.js:80-86 | parts without a generator are unchanged |
| FilterGraph.LastOutputs | lib/complex-filter-generator.js:88-94 | static `lastOutput`: no array and no generator is left in the result |
| FilterGraph.LastOutputsOfFlat | lib/complex-filter-generator.js:88-94 | over an already-flat list, no array and no generator is left |
| FilterGraph.LastOutputsOfGenerator | lib/complex-filter-generator.js:88-94 | a generator and a label give the generator's last outputs, then the label |
| FilterGraph.LastOutputsOfFlatConcat | lib/complex-filter-generator.js:88-94 | over flat lists, the result of a concatenation is the concatenation of the results |
| FilterGraph.LastOutputsConcat | lib/complex-filter-generator.js:88-94 | the result for a concatenation of arguments is the concatenation of their results |
| FilterGraph.LastOutputsSingle | lib/complex-filter-generator.js:88-94 | one argument: a generator gives its last node's labels (nothing when it is empty, whatever its first input), an array gives its elements' results, and any other value is kept as it is |
| Js.NatToString | lib/complex-filter-generator.js:73 | `String(n)`: a non-empty digit string with no leading zero |
| Js.IntToString | lib/complex-filter-generator.js:73 | `String(n)` for integers: a minus sign exactly for negative numbers |
| Js.ParseNatToString | lib/ffmpeg.js:74 | reading back the decimal text of `n` gives `n` |
| Js.NatToStringInjective | lib/complex-filter-generator.js:73 | different numbers have different texts |
| Js.Split | lib/ffmpeg.js:63 | `split` always gives at least one piece |
| Js.SplitJoin | lib/helpers.js:37 | splitting a join of pieces without the separator gives the pieces back |
| Js.JoinEnds | lib/helpers.js:37 | a joined text starts with the first part and ends with the last |
| Probe.IntOrZero | lib/ffprobe.js:75-76 | `x \|\| 0`: a missing value gives 0, and a present one itself |
| Probe.RealOrZero | lib/ffprobe.js:65 | `Number(x \|\| 0)`: a missing value gives 0 |
| Probe.Kilo | lib/ffprobe.js:67 | `Math.round(b / 1000) \|\| 0`: within half a unit of `b/1000`, rounding halves up, and 0 when missing |
| Probe.Tag | lib/ffprobe.js:59-63 | a tag is present exactly when it is in the tags and not empty, and then it is that tag |
| Probe.Min | lib/ffprobe.js:81 | at most both rates, and one of them |
| Probe.FindStream | lib/ffprobe.js:70 | the first stream of the given type, or none exactly when there is none |
| Probe.MetadataOf | lib/ffprobe.js:56-95 | the record names the input, its size and the full probe; duration and bitrate are present exactly when the probe has a format section |
| Probe.MetadataTags | lib/ffprobe.js:58-64 | title, artist, date and comment are copied only from non-empty tags of the format |
| Probe.MetadataFormat | lib/ffprobe.js:56-68 | the input, the duration (0 when missing), the bitrate in kbit/s, and the size |
| Probe.MetadataVideo | lib/ffprobe.js:69-84 | the video part is present exactly when a video stream is, and then it is built from the first one: its codec, profile, level, aspect ratio and duration are copied, width and height read as 0 when missing, and the frame rate is the smaller rate |
| Probe.MetadataAudio | lib/ffprobe.js:85-92 | the audio part is present exactly when an audio stream is, and then it is built from the first one: codec and duration copied, channels and sample rate read as 0 when missing, the bit rate in kbit/s |
| Probe.FramerateIsMin | lib/ffprobe.js:79-81 | the frame rate is at most both rates, and it is one of them or 0 |
| Probe.BuildRecord | lib/ffprobe.js:56-95 | the record built field by field equals the metadata record of the probe |
| Probe.ReadFormat | lib/ffprobe.js:58-68 | each of title, artist, date and comment is set exactly when the tag is present and non-empty, and then holds the tag's value; duration and bitrate are set from the format section; no other field changes |
| Probe.ReadVideo | lib/ffprobe.js:69-84 | with a video stream, the video fields hold those of the first one; without one, nothing changes; no other field changes |
| Probe.ReadAudio | lib/ffprobe.js:85-91 | with an audio stream, the audio fields hold those of the first one; without one, nothing changes; no other field changes |
| Probe.ProbeCacheHit | lib/ffprobe.js:24-26 | a cached input with `cache` not `false` returns the cached record, and the cache is unchanged |
| Probe.ProbeFailure | lib/ffprobe.js:28-53 | a failed stat or probe throws `Couldn't read input` when halting, and otherwise resolves to nothing; the cache is unchanged |
| Probe.ProbeSuccess | lib/ffprobe.js:56-98 | a successful probe resolves to the record, and stores it under the input unless `cache` is `false` |
| Probe.ProbeTwice | lib/ffprobe.js:24-26 | a second call on the same input with caching on returns the first call's record |
| Probe.Prober.Probe | lib/ffprobe.js:19-106 | the result and the new cache are those of `ProbeSpec` on the old cache |
| Probe.ProbeSpec | lib/ffprobe.js:19-98 | a probe changes at most the entry of its own input, and only by storing the record it resolves to, with caching on; every other entry is untouched |
| Probe.ProbeAsWrittenNeverRecords | lib/ffprobe.js:66-98 | as written, the cache never changes, a record is only ever returned from the cache, and with an empty cache a successful probe rejects |
| Probe.ProbeAsWritten | lib/ffprobe.js:19-98 | as written, the cache never changes, and the call rejects exactly when the input is not served from the cache and either the stat and probe succeed or the call halts |
| Probe.ProbeAsWrittenFailure | lib/ffprobe.js:7-53 | as written, a halting failure throws a `TypeError`, because `Error` is undefined |
| Probe.ProbeCorrectedRecords | lib/ffprobe.js:56-98 | where the as-written probe rejects, the corrected one resolves to the record |
| Helpers.InputsLength | lib/helpers.js:15-19 | `.length` of an array or a string; a `TypeError` for `undefined` and `null` |
| Helpers.ConcatFilter | lib/helpers.js:19 | the text is `concat=n=<count>:v=1:a=<0 or 1>`, with `undefined` for a missing count and `1` unless `audio` is `false` |
| Helpers.ConcatArgs | lib/helpers.js:13-21 | the caller's options plus `filterComplex` set to the concat filter; a `TypeError` exactly when `inputs` is missing |
| Helpers.ConcatFilterRoundTrip | lib/helpers.js:19 | the filter text names the input count, and `a=1` exactly when `audio` is not `false` |
| Helpers.ListLines | lib/helpers.js:34 | one `file '<path>'` line per input, in order |
| Helpers.ListText | lib/helpers.js:34-37 | no inputs give the empty text, one input gives its single line, and the text starts with `file '` and ends with a quote |
| Helpers.UnquoteAllLines | lib/helpers.js:34 | unquoting the lines gives back the paths |
| Helpers.ListTextRoundTrip | lib/helpers.js:34-37 | reading the list text back line by line gives the inputs |
| Helpers.Present | lib/helpers.js:32-33 | the values of a list where every value is present |
| Helpers.Total | lib/helpers.js:32-33 | the fold is 0 for no values and right after a missing value, and never negative over non-negative values |
| Helpers.TotalIsSum | lib/helpers.js:32-33 | with every value present, the fold is the sum |
| Helpers.TotalResets | lib/helpers.js:32 | a missing value (NaN) resets the fold to 0, so only the values after it count |
| Helpers.Durations | lib/helpers.js:32 | each input's duration, in order |
| Helpers.Sizes | lib/helpers.js:33 | each input's size, in order |
| Helpers.InputSizeIsSum | lib/helpers.js:33 | `inputSize` is exactly the sum of the sizes |
| Helpers.Rest | lib/helpers.js:27 | every option except `inputs` |
| Helpers.ConcatDemuxArgs | lib/helpers.js:27-48 | a `TypeError` exactly when `inputs` is not an array; otherwise a record without `inputs` |
| Helpers.ConcatDemuxPrecedence | lib/helpers.js:39-48 | the caller's options override the defaults, a default is kept exactly when the caller did not pass its key, and `inputs` is not forwarded |
| Ffmpeg.NormalizeOptions | lib/ffmpeg.js:15-21 | a string becomes `{input}` and a function becomes `{ffmpeg}`; a rejection unless the callback is truthy; `TypeError` for `undefined` and `null` |
| Ffmpeg.PathAloneNeedsCallback | lib/ffmpeg.js:15-21 | a bare path is always rejected for the missing callback |
| Ffmpeg.OutputPath | lib/ffmpeg.js:28-32 | never empty: the declared output when it is non-empty, and otherwise the input's text followed by `_compressed` |
| Ffmpeg.DefaultOutputsDiffer | lib/ffmpeg.js:28-32 | different inputs get different default outputs |
| Ffmpeg.Add | lib/ffmpeg.js:67 | NaN plus anything is NaN |
| Ffmpeg.Scale | lib/ffmpeg.js:67 | NaN times anything is NaN |
| Ffmpeg.Pow | lib/ffmpeg.js:67 | a power of a non-zero base is at least 1 |
| Ffmpeg.DotIndex | lib/ffmpeg.js:67 | the position of the first `.`, and none exactly when there is no `.` |
| Ffmpeg.ParseDecimalNonNegative | lib/ffmpeg.js:67 | `Number()` of a field is never negative |
| Ffmpeg.ParseDecimalDigits | lib/ffmpeg.js:67 | a digit text gives its value, and a lone `.` is NaN |
| Ffmpeg.ParseDecimalChars | lib/ffmpeg.js:67 | a field gives a number only when it consists of digits and points |
| Ffmpeg.ParseDecimalOfNat | lib/ffmpeg.js:67 | the coercion of a decimal digit text gives its value |
| Ffmpeg.DotAfterDigits | lib/ffmpeg.js:67 | the first dot after a digit run is right after the run |
| Ffmpeg.ParseDecimalOfTenths | lib/ffmpeg.js:67 | the coercion of `q.d` gives `q + d/10` |
| Ffmpeg.Parsed | lib/ffmpeg.js:66-67 | each field coerced to a number, in order |
| Ffmpeg.SexagesimalFinite | lib/ffmpeg.js:65-68 | the sum is a number exactly when every field is, and it is never negative over non-negative fields |
| Ffmpeg.SexagesimalOfParsed | lib/ffmpeg.js:63-68 | the coerced fields sum to a number exactly when each field coerces to a number, and that sum is never negative |
| Ffmpeg.TimemarkValue | lib/ffmpeg.js:62-69 | the duration of a timemark is never negative |
| Ffmpeg.TimemarkFinite | lib/ffmpeg.js:63-68 | a timemark has a duration (not NaN) exactly when each of its `:`-separated fields is a number |
| Ffmpeg.SexagesimalPrepend | lib/ffmpeg.js:65-68 | a higher field adds 60 times the value of the rest |
| Ffmpeg.Reversed | lib/ffmpeg.js:63 | `reverse()`: the same fields in the opposite order |
| Ffmpeg.TimemarkSeconds | lib/ffmpeg.js:62-69 | the loop's duration is the timemark's value in seconds |
| Ffmpeg.SexagesimalThree | lib/ffmpeg.js:65-68 | three fields are hours, minutes and seconds |
| Ffmpeg.TimemarkHoursMinutesSeconds | lib/ffmpeg.js:63-68 | `h:m:s` is `3600h + 60m + s` |
| Ffmpeg.TimemarkSingle | lib/ffmpeg.js:63-68 | a timemark without `:` is its own value |
| Ffmpeg.TimemarkPrepend | lib/ffmpeg.js:63-68 | a component in front of a timemark adds its value times `60^k`, `k` the number of components after it |
| Ffmpeg.TimemarkLeadingZero | lib/ffmpeg.js:63-68 | a leading `0:` field does not change the value |
| Ffmpeg.FixedValue | lib/ffmpeg.js:55 | `Number(x.toFixed(1))` keeps the sign of `x` (or is 0) and is a whole number of tenths |
| Ffmpeg.FixedText | lib/ffmpeg.js:56 | `x.toFixed(1)` ends in a point and one digit, and starts with a minus sign exactly for negative `x` |
| Ffmpeg.FixedRounding | lib/ffmpeg.js:55 | `Number(x.toFixed(1))` is within 0.05 of `x`, and rounding it again changes nothing |
| Ffmpeg.FixedTextReadsBack | lib/ffmpeg.js:55-56 | the text of `toFixed(1)` reads back as the rounded value |
| Ffmpeg.Truncate | lib/ffmpeg.js:58 | `parseInt` of a number: an integer with the number's sign whose magnitude is the number's magnitude rounded down |
| Ffmpeg.NewPercent | lib/ffmpeg.js:52-60 | the percent is present exactly when it was; a set percent becomes a whole number of tenths, and from 10 up a whole number |
| Ffmpeg.NewKbps | lib/ffmpeg.js:73-74 | an unset bit rate is kept; a set one becomes a whole number of the same sign whose magnitude is the old magnitude rounded down |
| Ffmpeg.PercentText | lib/ffmpeg.js:54-60 | the percent text ends in `%`, has one decimal below 10, and starts with a minus sign exactly for a negative percent that does not round to 0 |
| Ffmpeg.KbpsText | lib/ffmpeg.js:74-75 | the kbps text ends in ` kbps` and starts with a minus sign exactly for a bit rate of -1 or less |
| Ffmpeg.KbpsTextReadsBack | lib/ffmpeg.js:74-75 | for a non-negative bit rate, the text before ` kbps` is a digit string that reads back as the stored, truncated bit rate |
| Ffmpeg.NewPercentRounds | lib/ffmpeg.js:52-60 | an unset percent is kept; below 10 the stored percent is within 0.05 of the reported one; from 10 up it is the reported one's integer part |
| Ffmpeg.ProgressParts | lib/ffmpeg.js:51-76 | one part for each of percent, timemark and kbps that is set, in that order: the percent text first, then the timemark, then the kbps text last |
| Ffmpeg.ProgressPartsDecompose | lib/ffmpeg.js:51-76 | the parts are the concatenation of the percent part, the timemark part and the kbps part, each determined by its own field alone |
| Ffmpeg.ProgressLineAll | lib/ffmpeg.js:51-82 | with all three set, the line is `<percent>% <timemark> <kbps> kbps` |
| Ffmpeg.ProgressLineSkips | lib/ffmpeg.js:51-82 | unset fields add neither text nor separator |
| Ffmpeg.PercentTextReadsBack | lib/ffmpeg.js:52-60 | the percent text reads back as the stored percent |
| Ffmpeg.Progress.HandlePercent | lib/ffmpeg.js:52-61 | the stored percent is rounded, and the percent part is produced |
| Ffmpeg.Progress.HandleTimemark | lib/ffmpeg.js:62-72 | the duration is set from the timemark, and the timemark part is produced |
| Ffmpeg.Progress.HandleKbps | lib/ffmpeg.js:73-76 | the stored kbps are truncated, and the kbps part is produced |
| Ffmpeg.Progress.Handle | lib/ffmpeg.js:50-82 | the whole new progress record: rounded percent, computed duration, truncated kbps, and the joined line |

## Left out

- `readdir`, `stat` and the other thin wrappers over `fs` in `lib/utils.js`, along with the formatters, the ETA helpers and the reflection helpers: none of them is part of the modelled core.
- The `ffmpeg` run itself is left out because it is I/O: the fluent-ffmpeg command, its `start`/`error`/`end` events, `ensureDir`, `onProgress` and `stdoutLine`, and the returned promise. What is modelled is the options, the default output and the per-event progress computation.
- Utils.Try: the asynchronous path is not modelled, that is, a function that returns a promise and is retried when it rejects. Thrown values are modelled as opaque errors, so attaching `errors` to a thrown primitive is not modelled either.
- Utils.ReplaceFile: the steps are modelled as sequential, with no concurrent writers. Each step's operating-system failure is an input. Removing the backup is taken never to fail.
- Utils.Shorten: `length` is a natural number. A negative or fractional `length` and the fractional `substr` arguments are not modelled.
- Js values carry integers only. Fractional numbers in `String()`, and `String()` of objects, are not modelled.
- FilterGraph.NewNode: explicit `outputs` must be a list of labels. A bare string as `outputs` is not modelled.
- FilterGraph.ComplexFilterGenerator.Push: the random output suffix is a parameter. Its uniqueness is not modelled.
- Probe: the `extractKeyframes` probe arguments are not modelled. The `eval` of the frame-rate fractions is not modelled either: rates arrive already evaluated, None stands for a missing rate or `0/0`, and a rate of `x/0` (Infinity) is not modelled. The probe result and the input's size are inputs, and a string argument is taken as `{ input }`.
- Probe.MetadataOf: `humanDuration`, `humanSize` and `createdAt` are not fields of the record. The first two come from functions that `lib/utils.js` does not define (see Findings), and `createdAt` is a clock value.
- Probe.ProbeSpec: the cache is a map with no inherited keys. In the source it is a plain object (line 9 of `lib/ffprobe.js`), so the test `opts.input in cache` at line 24 also holds for names inherited from `Object.prototype` (`constructor`, `toString`, `hasOwnProperty`, `__proto__`, ...): such an input resolves to an inherited function without a stat or a probe, and storing a record under `__proto__` at line 98 replaces the object's prototype instead of adding an entry. Inputs with those names are not modelled.
- Probe.Prober.Probe: the same inherited names of the plain-object cache are not modelled; its cache is Probe.ProbeSpec's map.
- Probe.ProbeAsWritten: as written, the inherited `Object.prototype` names still count as cached at line 24 and resolve to functions; these inputs are not modelled.
- Probe.Prober.Probe: the cache check and the cache store are separated by awaits. Interleaved concurrent calls are not modelled.
- Helpers.InputsLength: an object with its own `length` property is read as having none.
- Helpers.ConcatDemuxArgs: any `inputs` that is not an array is a `TypeError` (lines 29 and 31). An object with its own `map` method, which the source would call, is not modelled. A failing `ffprobe` of one input, which rejects the whole call, is not modelled either: the metadata arrive as a parameter.
- Helpers.ConcatDemuxArgs: line 35 calls `_.pathFrom`, which `lib/utils.js` does not define, so the list path is a parameter. Writing and removing the list file, the log lines, and the `ffprobe` calls are I/O, so the metadata is also a parameter.
- `concat` and `concatDemux` forward every caller option, the `ffmpeg` callback included, to `ffmpeg`. They add no callback of their own, so a call without one is rejected there (Ffmpeg.NormalizeOptions). Only the records they build are modelled; the `ffmpeg` run is I/O.
- Ffmpeg.ParseDecimal: `Number()` of a field covers digit strings with at most one dot. Whitespace, signs, exponents and hexadecimal forms give NaN here.
- Ffmpeg.FixedValue: the percent arithmetic is over exact reals. Binary double rounding is not modelled.
- Ffmpeg.Truncate: `parseInt` of a number reads the number's `String()` form, which the model does not go through. A number whose text is in exponent notation therefore gives a different result in the source: `parseInt(5e-7)` is 5 and `parseInt(1e21)` is 1, where the model gives 0 and 10^21. This affects the kbps of lines 73-75 of `lib/ffmpeg.js` (Ffmpeg.NewKbps, Ffmpeg.KbpsText) and the percent from 10 up.
- Numbers are exact: JavaScript's double-precision arithmetic is not modelled. This applies to the timemark sum (Ffmpeg.TimemarkValue), the duration and size folds (Helpers.Total), and the division by 1000 in Probe.Kilo.
- Js.IntToString: integers are unbounded. `String(n)` switching to exponent notation from 1e21 on is not modelled, and neither is the loss of exactness above 2^53.
- Utils.Shorten, Helpers.InputsLength: lengths count characters of the model's strings. JavaScript counts UTF-16 code units, so a character outside the Basic Multilingual Plane counts twice there; that is not modelled.
- Utils.Try: every entry of `fns` is a function. In the source a falsy entry ends the chain at that point, as if the list stopped there; that is not modelled.
- FilterGraph.ProcessInput: the `console.error(input)` logged before `Invalid input` is thrown (line 75 of `lib/complex-filter-generator.js`) is I/O and is not modelled.
- Ffmpeg.Progress: `currentFps`, `targetSize` and `frames` are carried but never changed, matching the source, where their handling is commented out.

## Findings

| source | as written | input that shows it | evidently intended | confidence | as-written member | corrected member |
|---|---|---|---|---|---|---|
| lib/ffprobe.js:66 | line 66 calls `_.humanDuration` (when the probe has a format) and line 94 calls `_.humanSize`; neither is defined in `lib/utils.js`, so a `TypeError` is thrown before the cache store at line 98 | any input that is not cached and whose stat and probe both succeed | resolve to the metadata record and cache it | not executed | Probe.ProbeAsWrittenNeverRecords | Probe.ProbeSuccess |
| lib/ffprobe.js:7 | `Error` is bound to `_.Error`, which `lib/utils.js` does not define, so `new Error(...)` at lines 31 and 51 throws a `TypeError` | an input whose stat fails, with `halt` not `false` | reject with `Couldn't read input: <input>` | not executed | Probe.ProbeAsWrittenFailure | Probe.ProbeFailure |
