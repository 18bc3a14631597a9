# Sounding ingestion and selection of `SHARPpy_skewts.py`, in Dafny

`SHARPpy_skewts.py` draws a skew-T chart for every GEMPAK sounding file
(`*.snd`) of a forecast run. This project models the script's logic that is not
drawing:

- **Visiting order** (`Ordering`): the file names are sorted in Python's string
  order, then cut to the first `nplots` when `nplots` is not negative.
- **Path decoding** (`PathDecoder`, on `Calendar` and `Text`): this is
  `get_title` without the title text.
  - The init time is the first path segment that `strptime(…, '%Y%m%d%H')`
    accepts. Python 2.7's lenient strptime is modelled as its regular
    expression, with alternation and backtracking.
  - The model is the segment before the init time, and must be in `model_str`.
  - The station and valid time are the first two `.`-fields of the basename.
  - `fhr` is the number of hours from init to valid.
- **Screening** (`Selection`): a file is plotted only if `fhr % interval == 0`,
  using Python's float `%`. A station name of more than three characters must
  also be in `no_ignore_station`.
- **Output key** (`Selection`): the plot's path is
  `init/project.skewt.STATION.hrNNN.png`, where `NNN` is `'%03d' % fhr`.
- **GEMPAK parsing** (`Gempak`): `parseGEMPAK` reads the header tokens, the
  data block after the column-header line, genfromtxt's six columns, and the
  360→0 wind-direction rewrite.
- **Per-file loop** (`Pipeline`): the screening, the existing-plot skip
  (unless `--force_new`), the parse and the empty-profile skip, over the set
  of plots on disk.
- **Wind barbs** (`Barbs`): the thinning loop that picks which levels get a
  barb.

The file `wrappers.dfy` holds `Option` and `Result`. `gempak_roundtrip.dfy`
writes a report out as GEMPAK text and proves that the parser reads it back.

The script's loop has no exception handler, so:

- **Errors end the run.** A path that does not decode, a sounding that does
  not parse, or an interval of 0 (ZeroDivisionError) ends the whole run
  (`Pipeline.Halt`); the remaining files are not visited. An unknown model
  ends it with status 2 and every other error with status 1. The same holds
  for errors past the parse that the model does not represent: SHARPpy's
  `create_profile` (line 163) and `savefig` (line 264) can raise too, and
  the model treats every non-empty profile that parses as plotted (see
  "Left out").
- **Bad tokens are NaN, not errors.** A data token that does not convert
  becomes NaN, which is genfromtxt's default, not a parse error. Only a row
  whose word count is not six fails.

## Model

| member | source | states |
|---|---|---|
| Ordering.LessEqTotal | SHARPpy_skewts.py:69 | Python's string order compares any two names |
| Ordering.LessEqAntisymmetric | SHARPpy_skewts.py:69 | two names that each sort no later than the other are equal, so the sort never has to choose between them |
| Ordering.LessEqTransitive | SHARPpy_skewts.py:69 | the string order is transitive |
| Ordering.Insert | SHARPpy_skewts.py:69 | inserting a name into a sorted list keeps it sorted and adds exactly that name |
| Ordering.Sort | SHARPpy_skewts.py:69 | the sorted file list is in order and is a permutation of the files found |
| Ordering.SortedUnique | SHARPpy_skewts.py:69 | two sorted lists with the same elements are equal, so the sorted list is determined by the files found |
| Ordering.Limit | SHARPpy_skewts.py:70-71 | the list is cut to a prefix of min(nplots, count) files when nplots > -1, and left whole otherwise |
| Ordering.VisitOrder | SHARPpy_skewts.py:65-71 | the files visited do not depend on the order the two globs list them in; they are found files, in sorted order |
| Gempak.EveryThirdWord | SHARPpy_skewts.py:78 | the `[2:9:3]` unpacking succeeds exactly when the line has at least nine words |
| Gempak.ReadHeaderFirstLine | SHARPpy_skewts.py:77-80 | a header is missing exactly when no line contains its marker; otherwise it is the 3rd, 6th and 9th words of the FIRST line that does, which needs nine words |
| Gempak.FindFirst | SHARPpy_skewts.py:77 | the line index returned is the first line satisfying the test; none is returned only when no line does |
| Gempak.DataBlock | SHARPpy_skewts.py:82-85 | the data block is missing exactly when no line equals the column header; otherwise it is every line after the first such line |
| Gempak.DataRows | SHARPpy_skewts.py:86-88 | genfromtxt skips lines with no words: no row is empty, and there are no more rows than lines |
| Gempak.DataRowsAppend | SHARPpy_skewts.py:86-88 | genfromtxt reads the block line by line: the rows of two blocks in turn are the rows of the first followed by those of the second |
| Gempak.DataRowsLine | SHARPpy_skewts.py:86-88 | one line gives exactly one row, its words before any `#`, or no row when it has no such words |
| Gempak.DataRowsKeepLines | SHARPpy_skewts.py:86-88 | when every line has words, there is one row per line, and row i is line i's words before any `#` |
| Gempak.Tabulate | SHARPpy_skewts.py:88 | unpacking succeeds exactly when every row has six words; the six columns are then aligned and row k of the columns is the k-th row's cells |
| Gempak.NormalizeDirections | SHARPpy_skewts.py:89 | every direction equal to 360 becomes 0, every other value is unchanged, and no 360 remains |
| Gempak.Parse | SHARPpy_skewts.py:73-90 | a parse that succeeds gives aligned columns with no direction of 360; the parse never fails merely because the data block is short |
| Gempak.ParseAsWritten | SHARPpy_skewts.py:73-90 | as the script behaves: any success has at least two rows |
| GempakRoundTrip.HeaderLineWords | SHARPpy_skewts.py:78-80 | a header line written from three tokens yields those three tokens as its 3rd, 6th and 9th words |
| GempakRoundTrip.RenderedLines | SHARPpy_skewts.py:75 | stripping and splitting the written text on newlines gives back the written lines |
| GempakRoundTrip.TableStage | SHARPpy_skewts.py:85-88 | the written data rows are read back by genfromtxt as the original columns |
| GempakRoundTrip.RoundTrip | SHARPpy_skewts.py:73-90 | a report written as GEMPAK text parses back to the same report (tokens, columns, latitude, longitude) |
| GempakRoundTrip.EmptyBlockFails | SHARPpy_skewts.py:88 | a well-formed sounding with no data rows is read by the corrected parser, but fails in the script as written, before the empty-profile check at line 159 |
| GempakRoundTrip.SingleRowFails | SHARPpy_skewts.py:88-89 | a well-formed sounding with one data row is read by the corrected parser, but fails in the script as written |
| GempakRoundTrip.AsWrittenAgrees | SHARPpy_skewts.py:73-90 | the script as written and the corrected parser agree on every input, except for data blocks of fewer than two rows |
| Calendar.ParseInitTime | SHARPpy_skewts.py:107 | an accepted init time is a valid calendar moment on the hour |
| Calendar.ParseValidTime | SHARPpy_skewts.py:116 | an accepted valid time is a valid calendar moment |
| Calendar.InitTimeRoundTrip | SHARPpy_skewts.py:107 | the ten-digit text of a moment on the hour is read back as that moment |
| Calendar.ValidTimeRoundTrip | SHARPpy_skewts.py:116 | the twelve-digit text of any moment is read back as that moment |
| Calendar.ShortTextAccepted | SHARPpy_skewts.py:105-110 | strptime also takes one-digit month, day and hour: "2017825" is 2017-08-02 05h, so a segment like that counts as an init time |
| Calendar.HourTwentyFourRejected | SHARPpy_skewts.py:107 | hour 24 is rejected: "2017082524" is not an init time |
| Calendar.HoursBetweenZero | SHARPpy_skewts.py:116-117 | the forecast hour is 0 exactly when the valid time equals the init time |
| Calendar.HoursBetweenWhole | SHARPpy_skewts.py:116-117 | two moments with the same minute are a whole number of hours apart, counted from day number and hour |
| PathDecoder.ExitStatus | SHARPpy_skewts.py:118-120 | an unknown model ends the run with status 2; every other decode error ends it with a non-zero status other than 2 |
| PathDecoder.BasenameSuffix | SHARPpy_skewts.py:101 | the basename is the text after the last '/': a suffix of the path with no '/', preceded by a '/' unless it is the whole path |
| PathDecoder.FirstInitSegment | SHARPpy_skewts.py:105-110 | the index found is the first segment strptime accepts; none is found only when no segment is accepted |
| PathDecoder.DecodeSound | SHARPpy_skewts.py:99-122 | a decoded model is in `model_str` with its label; both times parse; fhr is the hours from init to valid; an unknown model is reported as one; a path with no init-time segment fails |
| PathDecoder.Assemble | SHARPpy_skewts.py:113-122 | the result carries the chosen model, station and both texts; it succeeds only when both times parse and the model is listed, with its label and fhr the hours between; an unlisted model is reported by name; an init text that does not parse fails |
| PathDecoder.DecodeFields | SHARPpy_skewts.py:105-117 | on the path's segments, with segment i (not the first) the first init time, the model is segment i-1, the station and valid time are basename fields 0 and 1, and an unlisted model is the UnknownModel failure |
| PathDecoder.SoundingNameFacts | SHARPpy_skewts.py:113-115 | a sounding basename `STATION.VALID.snd` splits back into station, valid text and "snd" |
| PathDecoder.DecodeSoundingPath | SHARPpy_skewts.py:99-122 | decoding `dirs/model/init/sub/STATION.VALID.snd` recovers model, station, both times and the hours between; an unlisted model gives exit status 2 |
| PathDecoder.DecodedHours | SHARPpy_skewts.py:116-117 | the decoded fhr is 0 exactly when init equals valid, and a whole number of hours when the valid minute is 0 |
| Selection.PyMod | SHARPpy_skewts.py:146 | Python's float `%` takes the divisor's sign and lies within the divisor's range |
| Selection.PyModZero | SHARPpy_skewts.py:146 | `fhr % interval == 0` holds exactly when fhr is a whole multiple of the interval |
| Selection.Screen | SHARPpy_skewts.py:146-151 | the interval test comes first; a zero interval is an error; a station of at most three characters, or one on the allow-list, passes the station test; both directions of each outcome |
| Selection.IntervalInMinutes | SHARPpy_skewts.py:146 | for an fhr of m/60 hours, the interval test holds exactly when m is a multiple of 60·interval minutes |
| Selection.IntervalExamples | SHARPpy_skewts.py:146-148 | with interval 3, fhr 7 is skipped and fhr 6 is plotted |
| Selection.StationExamples | SHARPpy_skewts.py:149-151 | N40E140 (listed) is plotted, N99E999 (unlisted) is skipped, and any name of three characters or fewer is plotted |
| Selection.Trunc | SHARPpy_skewts.py:154 | `'%d'` truncates toward zero: the integer is within one of fhr, on fhr's side of zero |
| Selection.Pad3ReadBack | SHARPpy_skewts.py:154 | `'%03d'` text reads back as the number and holds no separator; it is a sign for a negative number then digits, exactly three characters unless the number needs more, and then with no leading zero |
| Selection.KeyRoundTrip | SHARPpy_skewts.py:154 | the output key reads back as its init time, project, station and truncated hour |
| Selection.KeyInjective | SHARPpy_skewts.py:154 | two soundings share an output key only if they share init time, project, station and truncated hour |
| Selection.KeyExample | SHARPpy_skewts.py:154 | init 2017082500, project hur15us, station 72A and fhr 6 give 2017082500/hur15us.skewt.72A.hr006.png |
| Barbs.Cutoff | SHARPpy_skewts.py:246-247 | the walk covers exactly the levels before the first pressure below 100 hPa |
| Barbs.Thin | SHARPpy_skewts.py:243-250 | the indices selected among the first n levels are below n |
| Barbs.ThinSpaced | SHARPpy_skewts.py:243-250 | the level-by-level selection has the spacing property: increasing indices; each selected level is far from the previous selection (2000 hPa for the first); each skipped level is near it |
| Barbs.SpaceBarbs | SHARPpy_skewts.py:243-250 | the loop stops at the first pressure below 100; its indices are increasing and in bounds with pressures ≥ 100; they satisfy the spacing property and equal the level-by-level selection |
| Barbs.SpacedIsThin | SHARPpy_skewts.py:243-250 | any selection with the spacing property is the level-by-level selection |
| Barbs.SpacedUnique | SHARPpy_skewts.py:243-250 | at most one selection has the spacing property, so the barb levels are determined |
| Barbs.RatioDecreasing | SHARPpy_skewts.py:244-250 | with the test `bot > p·ratio` and ratio ≥ 1, the barbed pressures strictly decrease from below 2000 hPa, staying at or above 100 hPa |
| Pipeline.Step | SHARPpy_skewts.py:145-161 | a plot is written only for a decoded sounding that passes both tests, under its output key, and only when forced or when the key is not on disk; a skip as existing happens only when the key is on disk and the run is not forced; conversely a path that does not decode ends the run with its decode error, a zero interval after a good decode ends it with the interval error, and a failed test gives that screening |
| Pipeline.StepReads | SHARPpy_skewts.py:155-161 | a decoded sounding that passes both tests, forced or with no plot on disk, ends the run if its file does not parse, is skipped as an empty profile if it has no levels, and is otherwise plotted under its output key |
| Pipeline.Admit | SHARPpy_skewts.py:146-161 | for decoded metadata, both directions of every outcome: the interval error exactly for a zero interval, the failed test's screening, an existing skip when the key is on disk and the run is not forced, and past that the parse failure, the empty-profile skip or the plot under the metadata's output key |
| Pipeline.StepSkipsExisting | SHARPpy_skewts.py:155 | a sounding that passes both tests, whose plot exists, is skipped as existing in an unforced run, whatever its file holds |
| Pipeline.AdmitForced | SHARPpy_skewts.py:155 | with `--force_new`, the loop body's outcome for decoded metadata does not depend on the plots on disk |
| Pipeline.AdmitAgain | SHARPpy_skewts.py:154-155 | for decoded metadata, an unforced pass on a store holding what a first pass wrote succeeds and writes nothing |
| Pipeline.Loop | SHARPpy_skewts.py:135-161 | for any loop body: at most one outcome per file; the loop stops early exactly when it records a halt; the plots on disk afterwards are those before plus exactly the keys written |
| Pipeline.LoopFollowsBody | SHARPpy_skewts.py:135-161 | outcome k is the body's result for file k on the plots on disk at that point (those before plus the keys written so far); a halt is the body's failure on the first file without an outcome |
| Pipeline.Run | SHARPpy_skewts.py:135-161 | the script's loop completes exactly when every file has an outcome; the plots on disk afterwards are those before plus exactly the keys written |
| Pipeline.RunFollowsSteps | SHARPpy_skewts.py:135-161 | outcome k of the script's loop is the step's result for file k on the plots on disk at that point; a run that stops does so on the step's failure for the next file |
| Pipeline.LoopBlind | SHARPpy_skewts.py:135-161 | a loop whose body ignores the plots on disk has the same outcomes and stopping point whatever is on disk |
| Pipeline.LoopAgain | SHARPpy_skewts.py:135-161 | after a completed loop, a body that repeats the first without writing completes on a store holding the loop's plots, writes nothing and leaves the store as it was |
| Pipeline.RunStatus | SHARPpy_skewts.py:118-120 | the exit status is 0 exactly when every file was handled, and 2 exactly when the run stopped on an unknown model |
| Pipeline.RunForced | SHARPpy_skewts.py:155 | with `--force_new`, the outcomes and the stopping point do not depend on which plots already exist |
| Pipeline.RerunGeneral | SHARPpy_skewts.py:154-155 | after a completed run, running the same files again unforced, with at least its plots on disk, writes nothing and completes |
| Pipeline.Rerun | SHARPpy_skewts.py:154-155 | idempotence: an unforced rerun after a completed run writes no plot and leaves the same plots on disk |
| Pipeline.SessionOrder | SHARPpy_skewts.py:65-71 | the whole run does not depend on the order the directory listings return the files in |

## Left out

- Command line, working directory and globbing are left out. The loop starts
  from the list of files found. The script changes to the output directory
  only under `--verbose` (line 61's indentation), so the `../*.snd` pattern
  and the existence test are relative to wherever the script started. The
  model treats the plots on disk as one set of keys.
- `os.path.realpath` is left out. The path is taken as already absolute and
  free of links.
- The display title and its `model_str` label formatting are left out. Decode
  keeps the label, but the title string is not modelled.
- Python's `float()` is not modelled; it is the parameter `float`. The model
  does not say which token texts are numbers, nor anything about `nan`/`inf`
  text.
- `utils.MS2KTS` is left out. The speed column stays as read.
- SHARPpy's profile construction, its quality control, the parcel and wind
  diagnostics, all Matplotlib drawing, `savefig`, and the `rsync` copy are
  left out. A written plot is modelled as its key joining the set on disk.
- Barbs.SpaceBarbs: the spacing test `log(bot / p) > 0.04` is the parameter
  `far`, because the model has no logarithm. RatioTest is its algebraic form
  `bot > p·e^0.04` for positive pressures, with the ratio as a parameter.
  The barb loop runs over a list of pressures, not the profile's masked
  array, so masked or NaN pressures are not modelled.
- Calendar.HoursBetweenZero: fhr is computed exactly as minutes/60. The
  script's `total_seconds()/3600.` gives m/60 for an offset of m minutes,
  which is a binary fraction, and so exact, only when m is a multiple of 15;
  otherwise the float is the nearest double. That rounding cannot change the
  interval test or `'%03d'` at realistic magnitudes: when m/60 is not a whole
  number of hours it is at least 1/60 from every integer (and so from every
  multiple of an integer interval), far more than the rounding error.
- Pipeline.Step: it uses the corrected parser (see Findings). A file with no
  data rows is therefore skipped as an empty profile, and a file with one row
  is drawn.
- Pipeline.Step: a sounding that parses with a non-empty profile is counted
  as plotted. SHARPpy's `create_profile(strictQC=True)` at line 163 and
  `savefig` at line 264 can raise, which with no handler would end the run;
  the model does not represent those failures.
- Pipeline.Step: the model does not read the file from disk. Its text is
  `read(path)`, and read errors are not modelled.

## Findings

| source | as written | input that shows it | evidently intended | confidence | as-written member | corrected member |
|---|---|---|---|---|---|---|
| SHARPpy_skewts.py:88-89, 159-161 | `p, h, T, Td, wdir, wspd = np.genfromtxt(..., unpack=True)` fails for an empty data block (nothing to unpack). A single row gives scalars, so `wdir[wdir == 360] = 0.` fails. The `wdir.size == 0` empty-profile skip therefore never runs. | a well-formed sounding whose column-header line is the last line, or is followed by a single data row | an empty block is skipped as an empty profile; a single-row block gives one-element columns | not executed | GempakRoundTrip.EmptyBlockFails | Gempak.Parse |
