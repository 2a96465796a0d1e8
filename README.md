# Photo and video organizer — a verified model of its decision logic

`organize_photos.py` moves every photo and video in a source directory into
a tree under a destination directory:

- a short video (a live-photo clip) goes to `<root>\live_photo`;
- a photo or video with a readable date goes to `<root>\<photo|video>\<year>\<MM>`;
- anything else of those two types goes to `<root>\<photo|video>\no_date`.

A photo's date is its EXIF `DateTimeOriginal`, or the file's creation time,
read with `"%Y:%m:%d %H:%M:%S"`. A video's date is the probe's
`creation_time`, read with `"%Y-%m-%dT%H:%M:%S.%fZ"` and then with
`"%Y-%m-%dT%H:%M:%SZ"`. `extract_date` turns a missing string, the all-zero
sentinel `"0000:00:00 00:00:00"` and every parse error into "no date".

The run does three things:

- it doubles every backslash in both directory arguments;
- it classifies each listed name by a case-insensitive extension match, photos first;
- it appends each name to one of three lists: successful, no date, unsupported.

The model has seven modules:

- `Wrappers`: `Option`.
- `Decimal`: digit strings, `str(n)` and `f"{n:02d}"`.
- `Escape`: the backslash doubling and its undoing before the video probe.
- `Ascii`: `str.lower` on ASCII letters.
- `Classify`: the extension test.
- `Strptime`: `datetime.strptime` for the three formats, and `extract_date`. Each field accepts what CPython's strptime accepts:
  - `%Y` takes four digits.
  - `%m %d %H %M %S` take one or two digits in their ranges. `%S` accepts up to 61, and the datetime constructor then refuses 60 and 61.
  - `%d` also accepts a space followed by one digit from 1 to 9.
  - `%f` takes one to six digits.
  - A space in the format matches any run of whitespace.
  - Letters match in either case.
  - Leftover input is an error, and so is a date that does not exist.
- `Organize`: routing, the move, `organize_file` and the run.

The metadata readers' answers are inputs to the model: the date string, and the duration as an optional number. A reading can also fail, when a reader raises an error that nothing catches: PIL cannot open the photo, the probe program cannot be started, the duration is not a number, or the date value is not a string. A failed reading stops the run before the file moves. The destination root is a parameter. The file system is a class `Volume` holding a map from path to content. `Volume.Rename` updates that map in place. The run loop is a `while` loop. It is proved equal to `RunSpec`, a function over the listing, and the run's properties are lemmas about `RunSpec`.

A live-photo clip counts as successful, because `organize_file` returns
True for it (organize_photos.py:99).

## Model

| member | source | states |
|---|---|---|
| Decimal.Show | organize_photos.py:106 | `str(n)`: at least one digit, all digits, and no leading zero unless the number is 0 |
| Decimal.Padded | organize_photos.py:106 | `f"{n:0{width}d}"` for a number below 10^width: exactly width digits |
| Decimal.ValueOfShow | organize_photos.py:106 | the year written by `str(year)` reads back as the year |
| Decimal.ValueOfPadded | organize_photos.py:106 | a month written as `{month:02d}` reads back as the month |
| Decimal.ShowInjective | organize_photos.py:106 | different years give different year directories |
| Decimal.ShowFourDigits | organize_photos.py:33-35 | for years 1000..9999 the decimal form is exactly four digits, as `%Y` needs |
| Escape.Double | organize_photos.py:152-155 | `replace("\\", "\\\\")`: every backslash written twice; its properties are DoubleCounts and CollapseDouble |
| Escape.Collapse | organize_photos.py:39 | `replace("\\\\", "\\")`, scanning left to right; its properties are CollapseWithoutBackslash, CollapseEscaped and CollapseDouble |
| Escape.DoubleCounts | organize_photos.py:152-155 | doubling turns each backslash into two and keeps every other character as often as before |
| Escape.CollapseWithoutBackslash | organize_photos.py:39 | collapsing leaves a string without backslashes unchanged |
| Escape.CollapseEscaped | organize_photos.py:39 | collapsing reads one doubled character back as that character |
| Escape.EscapedCounts | organize_photos.py:152-155 | doubling one character writes two backslashes for a backslash and the character itself otherwise |
| Escape.CollapseDoubleAppend | organize_photos.py:39 | collapsing a doubled prefix followed by anything gives back the prefix, then collapses the rest |
| Escape.CollapseDouble | organize_photos.py:152-155 | collapsing exactly undoes doubling, for every string |
| Escape.ProbePathUndoubled | organize_photos.py:39 | the path handed to the probe, a doubled directory plus a separator plus a listed name, collapses to the directory as typed, the separator and the name |
| Ascii.Lower | organize_photos.py:175 | `name.lower()`: no upper-case ASCII letter is left |
| Ascii.LowerLength | organize_photos.py:175 | the model's A-Z lowering keeps the length (Python's `lower` does not for U+0130) |
| Ascii.LowerAppend | organize_photos.py:175 | lower-casing distributes over concatenation |
| Classify.EndsWithAny | organize_photos.py:175 | `endswith` with a tuple is true exactly when one of the suffixes ends the string |
| Classify.KindOf | organize_photos.py:175-185 | photo iff the lowered name ends with a photo extension; video iff not a photo and it ends with a movie extension; unsupported iff neither |
| Classify.NoNameIsPhotoAndMovie | organize_photos.py:11-12 | no name ends with both a photo and a movie extension |
| Classify.ExtensionInAnyCase | organize_photos.py:175-181 | any stem followed by a listed extension, in any mix of cases, is a photo or a video accordingly |
| Strptime.DigitRun | organize_photos.py:72 | the length of the maximal run of digits at the head of the string |
| Strptime.SpaceRun | organize_photos.py:72 | the length of the maximal run of whitespace at the head of the string |
| Strptime.Step | organize_photos.py:72 | matching one directive of the format consumes at least one character |
| Strptime.Scan | organize_photos.py:72 | matching the directives in order consumes at least one character per directive |
| Strptime.Parse | organize_photos.py:72 | every date strptime returns is a real date: year 1..9999, month 1..12, day within the month (leap years included), hour < 24, minute < 60, second < 60 |
| Strptime.ExtractDate | organize_photos.py:67-77 | a missing string and the sentinel give no date without parsing; any date returned is the parse of the given string |
| Strptime.VideoDate | organize_photos.py:100-102 | a video's date is found only for a present string other than the sentinel, and is a real date |
| Strptime.VideoFormatsExclusive | organize_photos.py:100-102 | no string parses under both video formats |
| Strptime.VideoFormatOrderIrrelevant | organize_photos.py:100-102 | trying the plain video format before the fractional one would give the same date |
| Strptime.ValueOfZeros | organize_photos.py:68 | a string of zeros has value 0 |
| Strptime.ZeroYear | organize_photos.py:68 | `%Y` reads "0000" as year 0 |
| Strptime.ZeroMonthRefused | organize_photos.py:68 | `%m` refuses "00" |
| Strptime.StopsAfterYear | organize_photos.py:72 | a format of year then literal stops when the character after the year is another one |
| Strptime.StopsAtMonth | organize_photos.py:72 | a format of year, literal, month stops when the month is refused |
| Strptime.ZeroDatePhoto | organize_photos.py:68 | a string starting "0000:00:" does not match the photo format |
| Strptime.ZeroDateVideo | organize_photos.py:68 | a string starting "0000:" matches neither video format |
| Strptime.SentinelNeverParses | organize_photos.py:68 | the sentinel would fail to parse under all three formats anyway |
| Strptime.ExtractDateIsParse | organize_photos.py:67-77 | for a present string, extract_date under each of the three formats is exactly strptime with errors turned into no date |
| Strptime.DigitRunAppend | organize_photos.py:72 | digits followed by a non-digit form a run of exactly their length |
| Strptime.Strftime | organize_photos.py:33-35 | `strftime` writes at least one character per directive |
| Strptime.RenderStart | organize_photos.py:33-35 | what `Render` writes for one directive: digits for a field, a space for whitespace, the character for a literal |
| Strptime.FieldStep | organize_photos.py:72 | a field token that its directive accepts and that is followed by a non-digit is read as that field's value |
| Strptime.PaddedStep | organize_photos.py:72 | a zero-padded field of its width and range is read back as its value |
| Strptime.YearStep | organize_photos.py:72 | a four-digit year is read back as that year |
| Strptime.StepRender | organize_photos.py:72 | for years 1000..9999, reading back what one directive wrote restores that field and leaves the rest of the input |
| Strptime.ScanStrftime | organize_photos.py:33-35 | for years 1000..9999, matching a separated format against what strftime wrote with it consumes all of it and sets each field in the format |
| Strptime.FillGet | organize_photos.py:33-35 | each field after such a match is the written date's when the format has it, the default's when not |
| Strptime.RoundTrip | organize_photos.py:33-35 | for years 1000..9999, strptime reads back what strftime wrote, for every separated format with all fields, with microseconds zero unless the format has %f |
| Strptime.PhotoFormatSeparated | organize_photos.py:83 | the photo format has no two adjacent fields |
| Strptime.VideoFormatsSeparated | organize_photos.py:100-102 | neither video format has two adjacent fields |
| Strptime.PhotoFallbackRoundTrip | organize_photos.py:33-35 | for years 1000..9999, the creation-time fallback string of a photo parses back to that time with its microseconds set to zero, since `%S` drops them |
| Strptime.VideoFractionRoundTrip | organize_photos.py:100 | for years 1000..9999, a video date written with fractional seconds is read back exactly |
| Strptime.VideoPlainRoundTrip | organize_photos.py:102 | for years 1000..9999, a video date written without fractional seconds is read back to the second (microseconds zero), after the fractional format fails |
| Strptime.ScanKeeps | organize_photos.py:72 | a field the format lacks keeps its starting value |
| Strptime.YearAndMonthAsWritten | organize_photos.py:104-105 | in a format that starts year, separator, month, the parsed year is the first four digits and the month the one or two digits after the separator |
| Strptime.FormatsStartWithYearAndMonth | organize_photos.py:83 | the three formats start with year, separator, month and have neither field again |
| Strptime.DateAsWritten | organize_photos.py:104-105 | for all three formats, a parsed date's year and month are the ones written in the string |
| Organize.FileDate | organize_photos.py:83-102 | a photo's or video's date, when there is one, is a real date |
| Organize.IsLivePhoto | organize_photos.py:86-87 | the short-video test: a video whose duration is present and below 3.5; PhotosAreNeverLivePhotos and Place state its consequences |
| Organize.Place | organize_photos.py:86-120 | live photo iff a video with a duration below 3.5; dated iff not that and a date is found, with that date's year and month; no date otherwise |
| Organize.Leaf | organize_photos.py:89-115 | the directory below the root for each placement: `live_photo`, `<type>\<year>\<MM>` or `<type>\no_date`; LeafShape and LeafInjective state how they differ |
| Organize.DestinationDir | organize_photos.py:89-115 | the destination root joined with the leaf; DestinationDirInjective states that placements never share one |
| Organize.Join | organize_photos.py:109 | a directory and a name joined by one backslash; BasenameOfJoin states that the name can be read back |
| Organize.SourcePath | organize_photos.py:176-182 | the path handed to organize_file: the doubled source directory, a backslash and the listed name |
| Organize.Basename | organize_photos.py:109 | `os.path.basename`: a separator-free string no longer than the path |
| Organize.Destination | organize_photos.py:89-118 | the destination keeps the source's basename |
| Organize.LivePhotoDestination | organize_photos.py:86-99 | a short clip goes to `<root>\live_photo\<basename>` and returns True |
| Organize.DatedLeafReadsBack | organize_photos.py:106 | a dated directory is the type, the year in decimal and the month in two digits, and those parts read back as the year and month |
| Organize.BasenameOfJoin | organize_photos.py:109 | the basename of a directory joined with a listed name is the name |
| Organize.PhotosAreNeverLivePhotos | organize_photos.py:81-83 | a photo never goes to live_photo |
| Organize.PhotoPlacedByWrittenDate | organize_photos.py:83-106 | a dated photo's year and month are the ones written in its date string |
| Organize.UndatedVideo | organize_photos.py:100-120 | a video that is not short and whose string fits neither format goes to no_date |
| Organize.PaddedInjective | organize_photos.py:106 | different months give different two-digit directories |
| Organize.DatedLeafInjective | organize_photos.py:106 | two dated directories are equal only for the same type, year and month |
| Organize.LeafShape | organize_photos.py:89-115 | what tells the live_photo, dated and no_date directories apart |
| Organize.LeafInjective | organize_photos.py:89-115 | different placements (and, below live_photo, different types) never share a directory |
| Organize.DestinationDirInjective | organize_photos.py:89-115 | under one root, different placements give different destination directories |
| Organize.Moved | organize_photos.py:108-110 | after the move the target holds the source's content, the source is gone unless it is the target, and no other path changes |
| Organize.Volume.Rename | organize_photos.py:108-110 | the rename succeeds exactly when the source exists, and then the files are the moved map; otherwise nothing changes |
| Organize.OrganizeFile | organize_photos.py:80-120 | an existing file whose metadata reads cleanly is moved to its placement's directory under its basename, and the call returns True unless the file went to no_date; a failed reading or a missing file stops the run with nothing changed |
| Organize.RunStep | organize_photos.py:174-189 | one loop iteration on the files and the three lists, or the stop an uncaught error causes; MediaStep, UnsupportedStep and StepTally state what it does |
| Organize.RunSpec | organize_photos.py:174-189 | the loop over the listing as a fold of RunStep from the starting files and three empty lists; Run is proved equal to it |
| Organize.StoppedStaysStopped | organize_photos.py:174-189 | once the run has stopped, later entries change nothing |
| Organize.RunSpecStep | organize_photos.py:174-189 | the run over one more entry is one more loop iteration |
| Organize.UnsupportedStep | organize_photos.py:183-185 | an unsupported name is appended to the unsupported list and no file moves |
| Organize.MediaStep | organize_photos.py:175-189 | a photo or video is appended to the successful or no_date list as organize_file returned, or the run stops when its reading fails or the file is missing |
| Organize.Visit | organize_photos.py:175-189 | one iteration changes the files and the three lists exactly as one step of the run over the listing, and says whether the run goes on |
| Organize.Run | organize_photos.py:152-189 | the loop ends with the files, the three lists and the completion flag of the run over the listing, from the doubled directory arguments |
| Organize.BucketOf | organize_photos.py:175-189 | an entry is unsupported iff it is neither a photo nor a video; it is in no_date iff it is one and goes to no_date |
| Organize.StepTally | organize_photos.py:186-189 | an iteration that leaves the run going appends the entry to the end of its own list and to no other |
| Organize.RunTally | organize_photos.py:168-189 | a run that completes read every photo and video cleanly, and ends with each list holding the names of its entries, in listing order |
| Organize.TallyPartition | organize_photos.py:172-189 | every listed name is in exactly one list: the lengths add up to the listing's, and the lists together hold each name as often as the listing does |
| Organize.LivePhotoCountsAsSuccessful | organize_photos.py:99 | a short clip is counted as successful |
| Organize.JoinedNamesDiffer | organize_photos.py:109 | paths ending in different listed names are different |
| Organize.TargetKeepsName | organize_photos.py:108-110 | a listed file is moved into its directory under its own name |
| Organize.RunPrefixMoves | organize_photos.py:174-189 | on a well-formed listing, after each prefix the run is still going, each processed file is at its target with its content, and each remaining file is still at its source |
| Organize.RunMovesEveryFile | organize_photos.py:174-189 | on a well-formed listing (distinct separator-free names, every photo and video present and readable, no target equal to a source) the run completes and every photo and video ends at its target with the content it had |
| Organize.RunFrame | organize_photos.py:174-189 | every path that is neither the source nor the target of a listed photo or video, unsupported files included, is unchanged by the run |

## Left out

- Reading EXIF data with PIL and pillow_heif, and the `getctime`/`fromtimestamp` fallback, are not modelled. These are library calls and local time, so a photo's date string is an input.
- The ffprobe subprocess and its JSON are not modelled. They are external I/O, so a video's date string and duration are inputs. A failed probe gives both as absent.
- `float(duration)` and the IEEE comparison with 3.5 are not modelled. The duration is an already-parsed real, and "absent" stands for both the missing and the empty string. A duration that is not a number makes `float` raise, which the model gives as a failed reading.
- The ffprobe download, the zip extraction, argparse, the existence checks and the exits are not modelled. They are network and command-line plumbing.
- `os.makedirs` is not modelled. The map holds files only, so creating directories changes nothing in it. When a file already sits at the path of a directory to be made, `makedirs` raises `FileExistsError` (organize_photos.py:92, 107, 116), nothing catches it and the run stops; the model moves the file instead.
- Listing order, and whether an entry is a directory, are not modelled. The listing is an input sequence of names.
- `print` diagnostics are left out.
- Organize.Volume.Rename: overwrites an existing target, as on POSIX. On Windows `os.rename` raises when the target exists.
- Organize.Basename: splits at the last `\` or `/` and ignores drive letters, unlike `ntpath.basename`. Listed names never contain either.
- Strptime.Parse: accepts only the ASCII digits 0-9. Python's `\d` also accepts other Unicode decimal digits.
- Ascii.Lower: lowers only A-Z. Python's `str.lower` also turns two other characters into ASCII letters. U+212A KELVIN SIGN becomes 'k', which is in no extension. U+0130 becomes 'i' followed by the combining dot U+0307, two code points. That 'i' is always followed by U+0307, so it can never be the 'i' just before 'c' in ".heic", the only extension with an 'i'. Classification is therefore unaffected.
- Paths are compared as strings. Windows treats repeated separators as one and ignores case, and the model does neither. The map of files is keyed by the spellings the program builds, so WellListed and RunFrame do not rule out two spellings of one Windows path (for example a destination `C:\x` and a source `C:\x\live_photo`). A rename that fails because it crosses drives is not modelled.
- Strptime.RoundTrip: stated for years 1000 to 9999 only. How `strftime("%Y")` pads smaller years depends on the platform.
- Strptime.PhotoFallbackRoundTrip: stated for years 1000 to 9999 only, for the same reason.
- Strptime.StepRender: stated for years 1000 to 9999 only, for the same reason.
- Strptime.ScanStrftime: stated for years 1000 to 9999 only, for the same reason.
- Strptime.VideoFractionRoundTrip: stated for years 1000 to 9999 only, for the same reason.
- Strptime.VideoPlainRoundTrip: stated for years 1000 to 9999 only, for the same reason.
- Strptime.DateAsWritten: states only the year and the month, which are all the routing uses.
