/** The ffmpeg command lines built by `convert_video`, `convert_audio` and
    `download_m3u8`, and the way the encoder reads such a command line. */
module Commands {
  import opened Wrappers
  import opened PyPath
  import opened OutputPath

  /** What a command line asks the encoder to do. */
  datatype Invocation = Invocation(
    overwrite: bool,
    allowedExtensions: Option<string>,
    input: Option<string>,
    noVideo: bool,
    videoCodec: Option<string>,
    audioCodec: Option<string>,
    audioBitrate: Option<string>,
    output: string)

  const NO_OPTIONS: Invocation := Invocation(false, None, None, false, None, None, None, "")

  /** Options that stand alone. */
  predicate IsSwitch(a: string)
  {
    a == "-y" || a == "-vn"
  }

  /** Options that take the next word as their value. */
  predicate TakesValue(a: string)
  {
    a == "-allowed_extensions" || a == "-i" || a == "-c:v" || a == "-c:a" || a == "-b:a"
  }

  function SetSwitch(acc: Invocation, a: string): Invocation
    requires IsSwitch(a)
  {
    if a == "-y" then acc.(overwrite := true) else acc.(noVideo := true)
  }

  function SetValue(acc: Invocation, a: string, v: string): Invocation
    requires TakesValue(a)
  {
    if a == "-allowed_extensions" then acc.(allowedExtensions := Some(v))
    else if a == "-i" then acc.(input := Some(v))
    else if a == "-c:v" then acc.(videoCodec := Some(v))
    else if a == "-c:a" then acc.(audioCodec := Some(v))
    else acc.(audioBitrate := Some(v))
  }

  /** Reads the options between the program name and the output file; a
      word that is not a known option, or an option missing its value, makes
      the command line unreadable. */
  function ReadOptions(opts: seq<string>, acc: Invocation): Option<Invocation>
    decreases |opts|
  {
    if opts == [] then Some(acc)
    else if IsSwitch(opts[0]) then ReadOptions(opts[1..], SetSwitch(acc, opts[0]))
    else if TakesValue(opts[0]) && |opts| >= 2 then ReadOptions(opts[2..], SetValue(acc, opts[0], opts[1]))
    else None
  }

  /** `ffmpeg <options> <output>`: the program name first, the output file
      last. */
  function ReadArgv(cmd: seq<string>): Option<Invocation>
  {
    if |cmd| < 2 || cmd[0] != "ffmpeg" then None
    else
      match ReadOptions(cmd[1..|cmd| - 1], NO_OPTIONS)
      case None => None
      case Some(inv) => Some(inv.(output := cmd[|cmd| - 1]))
  }

  lemma ReadSwitchStep(a: string, rest: seq<string>, acc: Invocation)
    requires IsSwitch(a)
    ensures ReadOptions([a] + rest, acc) == ReadOptions(rest, SetSwitch(acc, a))
  {
    assert ([a] + rest)[1..] == rest;
  }

  lemma ReadValueStep(a: string, v: string, rest: seq<string>, acc: Invocation)
    requires TakesValue(a)
    ensures ReadOptions([a, v] + rest, acc) == ReadOptions(rest, SetValue(acc, a, v))
  {
    assert ([a, v] + rest)[2..] == rest;
  }

  // ---------------------------------------------------------------- video

  /** The `convert_video` command line. */
  function VideoArgv(input: string, vcodec: string, acodec: string, output: string): (cmd: seq<string>)
    ensures |cmd| == 9 && cmd[0] == "ffmpeg" && cmd[|cmd| - 1] == output
  {
    ["ffmpeg", "-y", "-i", input, "-c:v", vcodec, "-c:a", acodec, output]
  }

  /** The encoder reads back exactly the input, the two codecs, overwrite
      and the output path; whatever the words themselves are. */
  lemma VideoArgvRead(input: string, vcodec: string, acodec: string, output: string)
    ensures ReadArgv(VideoArgv(input, vcodec, acodec, output))
            == Some(Invocation(true, None, Some(input), false, Some(vcodec), Some(acodec), None, output))
  {
    var cmd := VideoArgv(input, vcodec, acodec, output);
    var acc0 := NO_OPTIONS;
    var acc1 := SetSwitch(acc0, "-y");
    var acc2 := SetValue(acc1, "-i", input);
    var acc3 := SetValue(acc2, "-c:v", vcodec);
    var acc4 := SetValue(acc3, "-c:a", acodec);
    assert cmd[1..|cmd| - 1] == ["-y"] + (["-i", input] + (["-c:v", vcodec] + (["-c:a", acodec] + [])));
    ReadSwitchStep("-y", ["-i", input] + (["-c:v", vcodec] + (["-c:a", acodec] + [])), acc0);
    ReadValueStep("-i", input, ["-c:v", vcodec] + (["-c:a", acodec] + []), acc1);
    ReadValueStep("-c:v", vcodec, ["-c:a", acodec] + [], acc2);
    ReadValueStep("-c:a", acodec, [], acc3);
  }

  // ---------------------------------------------------------------- audio

  /** The `convert_audio` command line. */
  function AudioArgv(input: string, extract: bool, acodec: string, bitrate: Option<string>, output: string)
    : (cmd: seq<string>)
    ensures 7 <= |cmd| <= 10 && cmd[0] == "ffmpeg" && cmd[|cmd| - 1] == output
  {
    ["ffmpeg", "-y", "-i", input]
    + (if extract then ["-vn"] else [])
    + ["-c:a", acodec]
    + (if Truthy(bitrate) then ["-b:a", bitrate.value] else [])
    + [output]
  }

  /** The codec and bitrate words at the end of the audio options. */
  lemma ReadAudioCodec(acodec: string, bitrate: Option<string>, acc: Invocation)
    ensures ReadOptions(["-c:a", acodec] + (if Truthy(bitrate) then ["-b:a", bitrate.value] else []), acc)
            == Some(acc.(audioCodec := Some(acodec),
                         audioBitrate := if Truthy(bitrate) then bitrate else acc.audioBitrate))
  {
    var tail := if Truthy(bitrate) then ["-b:a", bitrate.value] else [];
    var acc1 := SetValue(acc, "-c:a", acodec);
    ReadValueStep("-c:a", acodec, tail, acc);
    if Truthy(bitrate) {
      assert tail == ["-b:a", bitrate.value] + [];
      ReadValueStep("-b:a", bitrate.value, [], acc1);
    }
  }

  /** The encoder drops the video stream exactly when `extract` is set and
      gets a bitrate exactly when a non-empty one was given. */
  lemma AudioArgvRead(input: string, extract: bool, acodec: string, bitrate: Option<string>, output: string)
    ensures ReadArgv(AudioArgv(input, extract, acodec, bitrate, output))
            == Some(Invocation(true, None, Some(input), extract, None, Some(acodec),
                               if Truthy(bitrate) then bitrate else None, output))
  {
    var cmd := AudioArgv(input, extract, acodec, bitrate, output);
    var mid := ["-c:a", acodec] + (if Truthy(bitrate) then ["-b:a", bitrate.value] else []);
    var front := if extract then ["-vn"] + mid else mid;
    assert cmd[1..|cmd| - 1] == ["-y"] + (["-i", input] + front);
    var acc1 := SetSwitch(NO_OPTIONS, "-y");
    var acc2 := SetValue(acc1, "-i", input);
    ReadSwitchStep("-y", ["-i", input] + front, NO_OPTIONS);
    ReadValueStep("-i", input, front, acc1);
    var acc3 := if extract then SetSwitch(acc2, "-vn") else acc2;
    if extract {
      ReadSwitchStep("-vn", mid, acc2);
    }
    ReadAudioCodec(acodec, bitrate, acc3);
  }

  /** The layout of the audio command line: `ffmpeg -y -i input`, then
      `-vn` when extracting, then `-c:a acodec`, then `-b:a bitrate` when a
      bitrate was given, and the output path last. */
  lemma AudioArgvShape(input: string, extract: bool, acodec: string, bitrate: Option<string>, output: string)
    ensures var cmd := AudioArgv(input, extract, acodec, bitrate, output);
            var c := if extract then 5 else 4;
            && |cmd| == c + 3 + (if Truthy(bitrate) then 2 else 0)
            && cmd[..4] == ["ffmpeg", "-y", "-i", input]
            && (extract <==> cmd[4] == "-vn")
            && cmd[c] == "-c:a" && cmd[c + 1] == acodec
            && (Truthy(bitrate) ==> cmd[c + 2] == "-b:a" && cmd[c + 3] == bitrate.value)
            && cmd[|cmd| - 1] == output
  {
  }

  /** When none of the caller's words is literally `-vn`, the command line
      holds `-vn` once if `extract` is set and not at all otherwise. */
  lemma AudioNoVideoOnce(input: string, extract: bool, acodec: string, bitrate: Option<string>, output: string)
    requires input != "-vn" && acodec != "-vn" && output != "-vn"
    requires bitrate.Some? ==> bitrate.value != "-vn"
    ensures multiset(AudioArgv(input, extract, acodec, bitrate, output))["-vn"] == if extract then 1 else 0
  {
  }

  // --------------------------------------------------------------- stream

  /** The `download_m3u8` command line. */
  function StreamArgv(url: string, vcodec: string, acodec: string, output: string): (cmd: seq<string>)
    ensures |cmd| == 11 && cmd[0] == "ffmpeg" && cmd[|cmd| - 1] == output
  {
    ["ffmpeg", "-y", "-allowed_extensions", "ALL", "-i", url, "-c:v", vcodec, "-c:a", acodec, output]
  }

  lemma StreamArgvRead(url: string, vcodec: string, acodec: string, output: string)
    ensures ReadArgv(StreamArgv(url, vcodec, acodec, output))
            == Some(Invocation(true, Some("ALL"), Some(url), false, Some(vcodec), Some(acodec), None, output))
  {
    var cmd := StreamArgv(url, vcodec, acodec, output);
    var acc1 := SetSwitch(NO_OPTIONS, "-y");
    var acc2 := SetValue(acc1, "-allowed_extensions", "ALL");
    var acc3 := SetValue(acc2, "-i", url);
    var acc4 := SetValue(acc3, "-c:v", vcodec);
    var r4 := ["-c:a", acodec] + [];
    var r3 := ["-c:v", vcodec] + r4;
    var r2 := ["-i", url] + r3;
    var r1 := ["-allowed_extensions", "ALL"] + r2;
    assert cmd[1..|cmd| - 1] == ["-y"] + r1;
    ReadSwitchStep("-y", r1, NO_OPTIONS);
    ReadValueStep("-allowed_extensions", "ALL", r2, acc1);
    ReadValueStep("-i", url, r3, acc2);
    ReadValueStep("-c:v", vcodec, r4, acc3);
    ReadValueStep("-c:a", acodec, [], acc4);
  }

  // ------------------------------------------------------------- handlers

  /** The parsed arguments each handler reads. */
  datatype VideoArgs = VideoArgs(ext: string, vcodec: string, acodec: string)
  datatype AudioArgs = AudioArgs(extract: bool, ext: string, acodec: string, bitrate: Option<string>)
  datatype StreamArgs = StreamArgs(output: Option<string>, dir: string, vcodec: string, acodec: string)

  /** `convert_video(input_file, args)`: allocates the output path next to
      the input and returns the command line it hands to the encoder. */
  method ConvertVideo(inputFile: string, args: VideoArgs, existing: set<string>) returns (cmd: seq<string>)
    ensures |cmd| == 9
    ensures cmd == VideoArgv(inputFile, args.vcodec, args.acodec, cmd[8])
    ensures cmd[8] !in existing && Allocated(existing, inputFile, args.ext, None, cmd[8])
  {
    var outputPath := GenerateOutputPath(inputFile, args.ext, None, existing);
    cmd := ["ffmpeg", "-y", "-i", inputFile, "-c:v", args.vcodec, "-c:a", args.acodec, outputPath];
  }

  /** `convert_audio(input_file, args)`: allocates the output path, then
      builds the command line. */
  method ConvertAudio(inputFile: string, args: AudioArgs, existing: set<string>) returns (cmd: seq<string>)
    ensures |cmd| >= 1
    ensures cmd == AudioArgv(inputFile, args.extract, args.acodec, args.bitrate, cmd[|cmd| - 1])
    ensures cmd[|cmd| - 1] !in existing && Allocated(existing, inputFile, args.ext, None, cmd[|cmd| - 1])
  {
    var outputPath := GenerateOutputPath(inputFile, args.ext, None, existing);
    cmd := BuildAudioCommand(inputFile, args.extract, args.acodec, args.bitrate, outputPath);
  }

  /** The audio command line grown word by word, as the program does. */
  method BuildAudioCommand(inputFile: string, extract: bool, acodec: string, bitrate: Option<string>,
                           outputPath: string) returns (cmd: seq<string>)
    ensures cmd == AudioArgv(inputFile, extract, acodec, bitrate, outputPath)
  {
    cmd := ["ffmpeg", "-y", "-i", inputFile];
    if extract {
      cmd := cmd + ["-vn"];
    }
    cmd := cmd + ["-c:a", acodec];
    if Truthy(bitrate) {
      cmd := cmd + ["-b:a", bitrate.value];
    }
    cmd := cmd + [outputPath];
  }

  const DATETIME_NOW_ERROR: string := "AttributeError: module 'datetime' has no attribute 'now'"

  /** The base name of a download as the program computes it: without a
      non-empty `--output` it calls `now()` on the `datetime` module, which
      has no such attribute, so the call raises. */
  function StreamBaseNameAsWritten(output: Option<string>): (r: Result<string, string>)
    ensures r.Failure? <==> !Truthy(output)
    ensures r.Success? ==> r.value == output.value
  {
    if Truthy(output) then Success(output.value) else Failure(DATETIME_NOW_ERROR)
  }

  /** The base name the program means to compute: `output_<timestamp>`
      without a name, where `timestamp` is the current time already
      formatted as `%Y%m%d_%H%M%S`. */
  function StreamBaseName(output: Option<string>, timestamp: string): (r: string)
    ensures r != ""
    ensures Truthy(output) ==> r == output.value
    ensures !Truthy(output) ==> StartsWith(r, "output_") && r[7..] == timestamp
  {
    if Truthy(output) then output.value else "output_" + timestamp
  }

  /** `download_m3u8(url, args)` with the base name computed as intended:
      the output is allocated as if `<dir>/<base>` were an input file with
      extension `.mp4`. */
  method DownloadM3u8(url: string, args: StreamArgs, timestamp: string, existing: set<string>)
    returns (cmd: seq<string>)
    ensures |cmd| == 11
    ensures cmd == StreamArgv(url, args.vcodec, args.acodec, cmd[10])
    ensures cmd[10] !in existing
    ensures Allocated(existing, Join(args.dir, StreamBaseName(args.output, timestamp)), ".mp4", None, cmd[10])
  {
    var baseName := StreamBaseName(args.output, timestamp);
    var outputPath := GenerateOutputPath(Join(args.dir, baseName), ".mp4", None, existing);
    cmd := ["ffmpeg", "-y", "-allowed_extensions", "ALL", "-i", url, "-c:v", args.vcodec, "-c:a", args.acodec,
            outputPath];
  }

  /** The name given to a download is treated like an input file name: its
      last extension is dropped, so `--output my.video` is saved as
      `my.mp4` (or `my_<n>.mp4`). */
  lemma StreamNameLosesExtension(dir: string, name: string)
    requires SEP !in name
    ensures BaseName(Join(dir, name), None) == SplitExt(name).0
  {
    JoinBasename(dir, name);
  }

  /** A download whose name holds no separator is saved in the `--dir`
      directory, when that directory is written without a trailing
      separator. */
  lemma StreamOutputDir(dir: string, name: string)
    requires dir != "" && dir[|dir| - 1] != SEP
    requires name != "" && SEP !in name
    ensures OutputDir(Join(dir, name)) == dir
  {
    JoinRelative(dir, name);
    assert Join(dir, name)[|dir|] == SEP;
    DirnameJoin(dir, name);
  }

  /** A timestamp without dots or separators survives as the whole base
      name, so a download without a name is saved as
      `output_<timestamp>.mp4` when that is free. */
  lemma TimestampedNameKept(dir: string, timestamp: string)
    requires SEP !in timestamp && EXTSEP !in timestamp
    ensures BaseName(Join(dir, StreamBaseName(None, timestamp)), None) == "output_" + timestamp
  {
    var name := "output_" + timestamp;
    assert SEP !in name && EXTSEP !in name;
    StreamNameLosesExtension(dir, name);
    SplitExtWithoutDot(name);
  }
}
