# ffmpeg batch converter — a Dafny model

`ffmpeg.py` is a small command-line wrapper around the `ffmpeg` encoder. It
converts video files, converts or extracts audio, and downloads HLS (`.m3u8`)
streams. A conversion writes its output next to its input; a download writes
its output into the `--dir` directory when its `--output` name holds no
separator. In both cases the output gets a name that does not overwrite
anything. This project models the logic in that wrapper:

- **Output naming.** `generate_output_path` picks the output name. Given an
  input path, an output extension and an optional name, it probes `base.ext`,
  `base_1.ext`, `base_2.ext`, … in the input's directory and returns the first
  one that does not exist. The model runs the same loop against a snapshot of
  the filesystem: the finite set of paths that exist when it is called. It
  proves that:
  - the loop ends after at most |snapshot| + 1 probes;
  - the returned path is free, and it is the first free candidate;
  - the allocation is deterministic.
- **Media listing.** `list_media_files` selects the entries of a directory
  listing that are regular files and have a video or audio extension,
  compared without regard to ASCII case.
- **Command lines.** The handlers `convert_video`, `convert_audio` and
  `download_m3u8` build the ffmpeg command line. Each one is checked against
  an independent reader of ffmpeg command lines (`Commands.ReadArgv`): the
  reader recovers exactly the input, codecs, flags and output that the
  handler meant to pass.
- **The batch loop.** `process_inputs` calls a handler on every input and
  keeps going when a call raises. The model's result is the trace of
  attempts.

The Python library functions the wrapper relies on are written out in module
`PyPath`:

- `os.path.dirname`, `basename`, `splitext` and `join`, as POSIX `posixpath`
  defines them;
- `str.rfind`, `str.rstrip` and `str.lower` (ASCII only).

Module `Decimal` renders integers as in `f"{index}"`. Python's `None` and
empty-string truthiness become `Wrappers.Option` and `Wrappers.Truthy`.

The model leaves out I/O and replaces it with parameters:

| In the program | In the model |
|---|---|
| `os.path.exists` and `os.path.isfile` | membership in a set of paths |
| `os.listdir` | a sequence of names |
| the current time | a pre-formatted timestamp string |
| the handler passed to `process_inputs` | a function from an input to how its call ended |

## Model

| member | source | states |
|---|---|---|
| OutputPath.GenerateOutputPath | ffmpeg.py:36-49 | the returned path does not exist; it is the candidate at the first free index for the normalised extension, the input's directory and the base name; that index is at most the snapshot's size; when the unsuffixed name is free, that name is returned |
| OutputPath.ProbeFreeName | ffmpeg.py:42-49 | the probe loop returns a path missing from the snapshot, which is the first free candidate; it terminates because every probe is a distinct path, so at most \|existing\| probes find their path taken and at most \|existing\| + 1 probes are made |
| OutputPath.NormalizeExt | ffmpeg.py:37-38 | the result starts with a dot and is the extension itself or the extension with a dot put in front |
| OutputPath.NormalizeExtIdempotent | ffmpeg.py:37-38 | normalising twice changes nothing; an extension that already starts with a dot is kept; the empty extension becomes "." |
| OutputPath.OutputDir | ffmpeg.py:39 | never empty; "." for an input without a separator; otherwise `dirname` of the input |
| OutputPath.BaseName | ffmpeg.py:40 | a non-empty output name wins; otherwise the base name plus the split-off extension gives back the input's last component |
| OutputPath.Candidate | ffmpeg.py:44-46 | the probed path ends with the probed file name `base + suffix + ext` |
| OutputPath.Suffix | ffmpeg.py:44 | index 0 has no suffix; any other index gives `_` followed by decimal digits only, without a leading zero, that read back as the index: `_1`, `_2`, … |
| OutputPath.SuffixedNameInjective | ffmpeg.py:44-45 | two probed file names that are equal come from the same index |
| OutputPath.ProbeNameStart | ffmpeg.py:45 | a probed file name is absolute exactly when the base name is |
| OutputPath.JoinInjective | ffmpeg.py:46 | joining two names that are both relative, or both absolute, onto the same directory keeps distinct names apart |
| OutputPath.CandidateInjective | ffmpeg.py:44-46 | distinct indices probe distinct paths |
| OutputPath.ProbedBound | ffmpeg.py:42-49 | if the first k candidates all exist, the snapshot holds at least k paths |
| OutputPath.TakenStep | ffmpeg.py:47-49 | a taken candidate at index k extends the taken prefix to k+1 |
| OutputPath.RenderedCandidate | ffmpeg.py:44-46 | the path that the loop body builds at an index is the candidate at that index |
| OutputPath.FirstFreeFound | ffmpeg.py:47-48 | a free candidate after a taken prefix is the first free path, and it is the unsuffixed one whenever that one is free |
| OutputPath.FirstFreeUnique | ffmpeg.py:42-49 | the first free index is unique, so the allocation is deterministic |
| OutputPath.TakenPrefixNextFree | ffmpeg.py:42-49 | when exactly the candidates below n exist, n is the first free index |
| OutputPath.FifthSuffix | ffmpeg.py:44 | the probe at index 5 has suffix `_5` |
| OutputPath.FifthAfterFourTaken | ffmpeg.py:42-49 | with `base.ext` and `base_1.ext` to `base_4.ext` taken, the allocation is `base_5.ext` |
| OutputPath.FirstCandidate | ffmpeg.py:44-46 | the first probe is the directory joined with `base+ext` |
| OutputPath.StemStart | ffmpeg.py:40 | for an input without a separator, the stem followed by an extension does not start with a separator |
| OutputPath.FirstCandidateUnderDot | ffmpeg.py:39-46 | for an input without a separator, the first probe is `./<stem><ext>` |
| OutputPath.NoDirectoryFirstCandidate | ffmpeg.py:39-48 | an input without a directory part and without an output name is first offered as `./<stem><ext>` |
| PyPath.RFind | ffmpeg.py:39 | the index of the last occurrence, or -1 with no occurrence; the character there matches and none after it does |
| PyPath.RStrip | ffmpeg.py:39 | the result is a prefix; what was removed is all the stripped character; the result does not end with that character |
| PyPath.Dirname | ffmpeg.py:39 | the directory is a prefix of the path, and it is empty exactly when the path has no separator |
| PyPath.RStripAppend | ffmpeg.py:39 | stripping a string with one more trailing character gives the same result |
| PyPath.DirnameJoin | ffmpeg.py:39 | the directory of a name joined onto a directory without a trailing separator is that directory |
| PyPath.Basename | ffmpeg.py:40 | the base name is a suffix of the path with no separator; it is the whole path when there is no separator |
| PyPath.SplitExt | ffmpeg.py:40 | root and extension concatenate to the path; the extension is empty or starts with a dot |
| PyPath.SplitExtSplits | ffmpeg.py:40 | an extension is split off exactly when the last component has a non-dot character followed later by a dot; the split is then at the last dot (`movie.final.mov` gives `movie.final` and `.mov`) |
| PyPath.SplitExtWitness | ffmpeg.py:40 | a split extension starts at the last dot, with a non-dot character of the last component before it |
| PyPath.SplitExtCondition | ffmpeg.py:40 | a split happens only when the last dot follows the last separator and the characters between them are not all dots |
| PyPath.SplitExtFromWitness | ffmpeg.py:40 | a non-dot character followed later by a dot in the last component forces a split |
| PyPath.NotAllCharWitness | ffmpeg.py:40 | a string not made only of one character has a position holding another character |
| PyPath.SplitExtShape | ffmpeg.py:32 | the extension contains no separator and no dot after its first character |
| PyPath.SplitExtLeadingDots | ffmpeg.py:40 | when an extension is split off, the last component of the root is not made of dots only |
| PyPath.SplitExtWithoutDot | ffmpeg.py:40 | a name without a dot has no extension |
| PyPath.RFindPrefix | ffmpeg.py:40 | cutting a string after its last occurrence of a character keeps that occurrence last |
| PyPath.Join | ffmpeg.py:46 | an absolute second component replaces the first; otherwise the result starts with the first and ends with the second |
| PyPath.JoinRelative | ffmpeg.py:46 | a directory without a trailing separator and a relative name are joined with exactly one separator |
| PyPath.JoinBasename | ffmpeg.py:99 | joining a name without a separator gives a path whose last component is that name |
| PyPath.LowerChar | ffmpeg.py:32 | the result is never an upper-case ASCII letter; other characters are kept; an upper-case letter becomes the lower-case letter at the same place in the alphabet |
| PyPath.Lower | ffmpeg.py:32 | the length is kept and each character is folded on its own |
| PyPath.LowerIdempotent | ffmpeg.py:32 | folding twice equals folding once, and the result holds no upper-case ASCII letter |
| Decimal.DigitChar | ffmpeg.py:44 | a digit below ten renders as a character from '0' to '9' |
| Decimal.NatToString | ffmpeg.py:44 | at least one digit, no leading zero except for 0 itself, a single digit exactly below ten |
| Decimal.ParseNatToString | ffmpeg.py:44 | reading the rendered digits gives back the number |
| Decimal.NatToStringInjective | ffmpeg.py:44 | distinct indices render differently |
| MediaFiles.ExtensionsFor | ffmpeg.py:22-27 | the video set exactly for "video", the audio set exactly for "audio", and their union exactly for any other media type; the empty extension is never selected |
| MediaFiles.ExtensionSetsDisjoint | ffmpeg.py:9-10 | the video and audio extension sets are disjoint, and every media type selects from their union |
| MediaFiles.Comprehension | ffmpeg.py:29-33 | the comprehension has no more elements than its source |
| MediaFiles.ComprehensionMembers | ffmpeg.py:29-33 | an element is produced exactly when some kept source element maps to it |
| MediaFiles.ComprehensionAppend | ffmpeg.py:29-33 | a comprehension over two parts is the two comprehensions one after the other |
| MediaFiles.ComprehensionThree | ffmpeg.py:29-33 | keeping the first and third of three elements yields their images, in order |
| MediaFiles.IsMediaEntry | ffmpeg.py:32 | a selected entry is a regular file and has a non-empty extension |
| MediaFiles.ListMediaFiles | ffmpeg.py:21-33 | the result has no more entries than the listing |
| MediaFiles.ListMediaFilesMembers | ffmpeg.py:29-33 | a path is listed exactly when some entry joins to it, is a regular file and has a lower-cased extension in the selected set |
| MediaFiles.ListMediaFilesAppend | ffmpeg.py:29-33 | filtering a listing in two parts gives the two results one after the other, so listing order is kept |
| MediaFiles.SplitPlainName | ffmpeg.py:32 | a plain `stem.ext` name splits at its single extension |
| MediaFiles.PlainEntry | ffmpeg.py:32 | for a plain `stem.ext` entry, selection depends only on the file test and the lower-cased `ext` |
| MediaFiles.FoldedVideoExtensions | ffmpeg.py:32 | `.mp4` and `.MP4` fold into the video set and `.txt` does not |
| MediaFiles.ListOne | ffmpeg.py:29-33 | a one-entry listing lists the joined entry exactly when it is selected |
| MediaFiles.FilterThree | ffmpeg.py:29-33 | with the first and third of three entries selected and the second not, the first and third are listed, in that order |
| MediaFiles.VideoCaseInsensitive | ffmpeg.py:21-33 | from `a.mp4`, `b.txt` and `c.MP4`, the video listing is `a.mp4` then `c.MP4` |
| Commands.ReadSwitchStep | ffmpeg.py:72 | reading a stand-alone option sets its flag and continues with the rest |
| Commands.ReadValueStep | ffmpeg.py:72 | reading an option with a value records the value and continues with the rest |
| Commands.VideoArgv | ffmpeg.py:72 | nine words, the program first and the output path last; what they mean is stated by VideoArgvRead |
| Commands.VideoArgvRead | ffmpeg.py:72 | the video command line reads back as overwrite, the input, both codecs and the output, whatever the words are |
| Commands.ConvertVideo | ffmpeg.py:70-72 | the command line is the video command line, with an output that is free and allocated from the input with the requested extension |
| Commands.AudioArgv | ffmpeg.py:79-85 | seven to ten words, the program first and the output path last; what they mean is stated by AudioArgvRead |
| Commands.ReadAudioCodec | ffmpeg.py:82-84 | the codec words set the audio codec, and the bitrate words set the bitrate exactly when the bitrate is non-empty |
| Commands.AudioArgvRead | ffmpeg.py:79-85 | the audio command line reads back with no video exactly when extracting, and with a bitrate exactly when a non-empty one was given |
| Commands.AudioArgvShape | ffmpeg.py:79-85 | the word-by-word layout of the audio command line: the fixed prefix, then optional `-vn`, then the codec, then the optional bitrate, with the output last |
| Commands.AudioNoVideoOnce | ffmpeg.py:80-81 | `-vn` occurs once when extracting and not at all otherwise, unless a caller's word is literally `-vn` |
| Commands.BuildAudioCommand | ffmpeg.py:79-85 | appending the words step by step yields the audio command line |
| Commands.ConvertAudio | ffmpeg.py:77-85 | the command line is the audio command line, with an output that is free and allocated from the input with the requested extension |
| Commands.StreamArgv | ffmpeg.py:100-112 | eleven words, the program first and the output path last; what they mean is stated by StreamArgvRead |
| Commands.StreamArgvRead | ffmpeg.py:100-112 | the download command line reads back as overwrite, allowed extensions ALL, the URL, both codecs and the output |
| Commands.StreamBaseNameAsWritten | ffmpeg.py:93-97 | as written, the base name is the given output name, and the call raises exactly when no non-empty name is given |
| Commands.StreamBaseName | ffmpeg.py:93-97 | as intended: the given non-empty name, otherwise `output_` followed by the timestamp |
| Commands.DownloadM3u8 | ffmpeg.py:90-112 | the command line is the download command line; its output is free and allocated as `.mp4` from `<dir>/<base name>` |
| Commands.StreamNameLosesExtension | ffmpeg.py:99 | a download name is treated like an input file, so its last extension is dropped (`--output my.video` gives `my.mp4`) |
| Commands.StreamOutputDir | ffmpeg.py:91-99 | a download whose name holds no separator lands in the `--dir` directory (given without a trailing separator) |
| Commands.TimestampedNameKept | ffmpeg.py:96-99 | an unnamed download keeps `output_<timestamp>` whole as its base name |
| Wrappers.Truthy | ffmpeg.py:40 | an optional string is true exactly when it is neither None nor empty, as Python's truth test is for `output_name`, `--bitrate` and `--output` |
| Batch.Trace | ffmpeg.py:116-122 | one attempt per input |
| Batch.TraceAt | ffmpeg.py:117-120 | the i-th attempt is the i-th input with the outcome of that input's own call |
| Batch.TraceAppend | ffmpeg.py:117-122 | two batches processed in turn are their concatenation processed |
| Batch.FailureIsolation | ffmpeg.py:119-122 | an input's attempt depends only on the handler's result for that input, not on what earlier calls raised |
| Batch.ProcessInputs | ffmpeg.py:116-122 | the loop produces the trace: every input is attempted in order, each with its own outcome |

## Left out

- `check_ffmpeg` and `run_ffmpeg`: they start a subprocess. The handlers return the command line they would run; running it, and whether it succeeds, is outside the model.
- `print_file_info`: it reads file sizes and prints a floating-point summary.
- `main`:
  - argument parsing and its defaults;
  - the `isdir`/`isfile` dispatch;
  - the exit when ffmpeg is missing.

  The handlers are not wired into `Batch.ProcessInputs`; it takes any handler as a function.
- Logging: every `print` to stdout and stderr (`[PROCESSING]`, `[ERROR]`, `[INFO]`).
- Filesystem snapshot:
  - Existence is exact string membership: there is no path normalisation, symbolic link or case-insensitive filesystem.
  - The snapshot does not change during a call. The race between the `exists` test and ffmpeg creating the file is not modelled.
  - In a batch, the files earlier conversions create are not added to later snapshots.
- `os.listdir`: its order is platform-defined, so it is a parameter. `os.listdir` omits `.` and `..`; the listing parameter is taken as given. Errors from an unreadable directory are not modelled.
- PyPath.Lower: folds only ASCII 'A'..'Z'. Python's `str.lower` also folds other code points. For example, KELVIN SIGN U+212A becomes 'k', so an entry ending in `.M\u212AV` lowers to `.mkv`: Python lists it and the model does not.
- `datetime.now().strftime("%Y%m%d_%H%M%S")`: the clock and the formatting are a `timestamp` parameter.
- Batch.ProcessInputs: `except Exception` does not catch `KeyboardInterrupt` or `SystemExit`. Such a call would end the loop; the model's handler only returns or raises an ordinary error.
- Commands.ReadArgv: reads each option without regard to its position. ffmpeg applies an input option such as `-allowed_extensions` only to the `-i` that follows it. StreamArgvRead therefore shows that `ALL` is passed, but not that it applies to the URL.
- Commands.StreamOutputDir: covers only `--output` names without a separator. `os.path.join` lets an absolute name such as `/tmp/x` replace `--dir`, and a name such as `s/x` lands in `<dir>/s`; the model's `Join` does the same, but no lemma states where such a download goes.
- There is no aggregated exit status for a batch. The program returns nothing from `process_inputs`, and the model follows the code.

## Findings

| source | as written | input that shows it | evidently intended | confidence | as-written member | corrected member |
|---|---|---|---|---|---|---|
| ffmpeg.py:96 | `import datetime` binds the module, and `datetime.now()` does not exist on the module, so the call raises `AttributeError` | `m3u8 <url>` with no `--output` (or `--output ""`) | the base name `output_<timestamp>`, as `datetime.datetime.now()` would give | high; not executed | Commands.StreamBaseNameAsWritten | Commands.DownloadM3u8 |
