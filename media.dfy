/** `list_media_files`: the entries of a directory listing that are regular
    files with a recognised media extension.  The listing is a sequence of
    names (in whatever order the platform lists them) and "is a regular
    file" is membership in a snapshot set of paths. */
module MediaFiles {
  import opened PyPath

  const VIDEO_EXTENSIONS: set<string> := {".mp4", ".mov", ".mkv", ".avi", ".webm"}
  const AUDIO_EXTENSIONS: set<string> := {".mp3", ".m4a", ".aac", ".flac", ".wav"}

  /** "video" and "audio" select their own set; any other media type
      selects both. */
  function ExtensionsFor(mediaType: string): (exts: set<string>)
    ensures exts == VIDEO_EXTENSIONS <==> mediaType == "video"
    ensures exts == AUDIO_EXTENSIONS <==> mediaType == "audio"
    ensures exts == VIDEO_EXTENSIONS + AUDIO_EXTENSIONS <==> mediaType != "video" && mediaType != "audio"
    ensures "" !in exts
  {
    assert ".mp4" !in AUDIO_EXTENSIONS && ".mp3" !in VIDEO_EXTENSIONS;
    if mediaType == "video" then VIDEO_EXTENSIONS
    else if mediaType == "audio" then AUDIO_EXTENSIONS
    else VIDEO_EXTENSIONS + AUDIO_EXTENSIONS
  }

  lemma ExtensionSetsDisjoint()
    ensures VIDEO_EXTENSIONS * AUDIO_EXTENSIONS == {}
    ensures forall t :: ExtensionsFor(t) <= VIDEO_EXTENSIONS + AUDIO_EXTENSIONS
  {
  }

  /** The list comprehension `[f(x) for x in s if keep(x)]`. */
  function Comprehension(s: seq<string>, keep: string -> bool, f: string -> string): (r: seq<string>)
    ensures |r| <= |s|
  {
    if s == [] then []
    else if keep(s[0]) then [f(s[0])] + Comprehension(s[1..], keep, f)
    else Comprehension(s[1..], keep, f)
  }

  /** An element is produced exactly when some kept element maps to it. */
  lemma {:induction false} ComprehensionMembers(s: seq<string>, keep: string -> bool, f: string -> string, p: string)
    ensures p in Comprehension(s, keep, f) <==> exists x :: x in s && keep(x) && f(x) == p
  {
    if s != [] {
      ComprehensionMembers(s[1..], keep, f, p);
      if exists x :: x in s && keep(x) && f(x) == p {
        var x :| x in s && keep(x) && f(x) == p;
        if x != s[0] {
          assert x in s[1..];
        }
      }
      if exists x :: x in s[1..] && keep(x) && f(x) == p {
        var x :| x in s[1..] && keep(x) && f(x) == p;
        assert x in s;
      }
    }
  }

  /** A comprehension over two parts is the two comprehensions one after
      the other. */
  lemma {:induction false} ComprehensionAppend(a: seq<string>, b: seq<string>, keep: string -> bool, f: string -> string)
    ensures Comprehension(a + b, keep, f) == Comprehension(a, keep, f) + Comprehension(b, keep, f)
  {
    if a == [] {
      assert a + b == b;
    } else {
      assert (a + b)[0] == a[0];
      assert (a + b)[1..] == a[1..] + b;
      ComprehensionAppend(a[1..], b, keep, f);
      var front, back := Comprehension(a[1..], keep, f), Comprehension(b, keep, f);
      if keep(a[0]) {
        assert [f(a[0])] + (front + back) == ([f(a[0])] + front) + back;
      }
    }
  }

  /** The entry `name` of `directory` is a regular file whose extension,
      folded to lower case, is one of those selected by `mediaType`. */
  function IsMediaEntry(directory: string, name: string, regularFiles: set<string>, mediaType: string): (r: bool)
    ensures r ==> Join(directory, name) in regularFiles && SplitExt(name).1 != ""
  {
    Join(directory, name) in regularFiles && Lower(SplitExt(name).1) in ExtensionsFor(mediaType)
  }

  function Selects(directory: string, regularFiles: set<string>, mediaType: string): string -> bool
  {
    name => IsMediaEntry(directory, name, regularFiles, mediaType)
  }

  function JoinOnto(directory: string): string -> string
  {
    name => Join(directory, name)
  }

  /** `p` is the entry `name` of `directory`, joined onto it, and that
      entry is selected for `mediaType`. */
  predicate Lists(directory: string, regularFiles: set<string>, mediaType: string, name: string, p: string)
  {
    p == Join(directory, name) && IsMediaEntry(directory, name, regularFiles, mediaType)
  }

  /** `list_media_files(directory, media_type)` over a listing snapshot:
      the selected entries, each joined onto the directory, in listing
      order. */
  function ListMediaFiles(directory: string, listing: seq<string>, regularFiles: set<string>, mediaType: string)
    : (r: seq<string>)
    ensures |r| <= |listing|
  {
    Comprehension(listing, Selects(directory, regularFiles, mediaType), JoinOnto(directory))
  }

  /** A path is listed exactly when some entry of the listing is a selected
      media file that joins to it. */
  lemma ListMediaFilesMembers(directory: string, listing: seq<string>, regularFiles: set<string>,
                              mediaType: string, p: string)
    ensures p in ListMediaFiles(directory, listing, regularFiles, mediaType)
            <==> exists name :: name in listing && Lists(directory, regularFiles, mediaType, name, p)
  {
    var keep, f := Selects(directory, regularFiles, mediaType), JoinOnto(directory);
    ComprehensionMembers(listing, keep, f, p);
    if exists x :: x in listing && keep(x) && f(x) == p {
      var x :| x in listing && keep(x) && f(x) == p;
      assert Lists(directory, regularFiles, mediaType, x, p);
    }
    if exists name :: name in listing && Lists(directory, regularFiles, mediaType, name, p) {
      var name :| name in listing && Lists(directory, regularFiles, mediaType, name, p);
      assert keep(name) && f(name) == p;
    }
  }

  /** Filtering a listing in two parts gives the two filtered parts in the
      same order: the result keeps the listing order. */
  lemma ListMediaFilesAppend(directory: string, a: seq<string>, b: seq<string>,
                             regularFiles: set<string>, mediaType: string)
    ensures ListMediaFiles(directory, a + b, regularFiles, mediaType)
            == ListMediaFiles(directory, a, regularFiles, mediaType) + ListMediaFiles(directory, b, regularFiles, mediaType)
  {
    ComprehensionAppend(a, b, Selects(directory, regularFiles, mediaType), JoinOnto(directory));
  }

  /** A name made of a plain stem and one extension splits at that
      extension. */
  lemma SplitPlainName(stem: string, ext: string)
    requires PlainStem(stem) && PlainExt(ext)
    ensures SplitExt(stem + ext) == (stem, ext)
  {
    var p := stem + ext;
    assert RFind(p, SEP) == -1 by { assert SEP !in p; }
    assert RFind(p, EXTSEP) == |stem| by {
      assert p[|stem|] == EXTSEP;
      assert forall j :: |stem| < j < |p| ==> p[j] == ext[j - |stem|] && ext[j - |stem|] in ext[1..];
    }
    assert p[0..|stem|] == stem;
    assert !AllChar(stem, EXTSEP) by { assert stem[0] in stem; }
  }

  predicate PlainStem(stem: string)
  {
    stem != "" && SEP !in stem && EXTSEP !in stem
  }

  /** A dot followed by characters that are neither dots nor separators. */
  predicate PlainExt(ext: string)
  {
    |ext| >= 1 && ext[0] == EXTSEP && SEP !in ext && EXTSEP !in ext[1..]
  }

  /** For a plain `stem.ext` entry the test looks only at `ext`, folded to
      lower case. */
  lemma PlainEntry(directory: string, stem: string, ext: string, regularFiles: set<string>, mediaType: string)
    requires PlainStem(stem) && PlainExt(ext)
    ensures IsMediaEntry(directory, stem + ext, regularFiles, mediaType)
            <==> Join(directory, stem + ext) in regularFiles && Lower(ext) in ExtensionsFor(mediaType)
  {
    SplitPlainName(stem, ext);
  }

  lemma PlainExtensions()
    ensures PlainExt(".mp4") && PlainExt(".MP4") && PlainExt(".txt")
  {
    assert ".mp4"[1..] == "mp4" && ".MP4"[1..] == "MP4" && ".txt"[1..] == "txt";
  }

  /** Extensions match regardless of ASCII case: a directory holding
      `a.mp4`, `b.txt` and `c.MP4`, all regular files, lists `a.mp4` and
      `c.MP4` as video, in that order. */
  lemma VideoCaseInsensitive(directory: string, a: string, b: string, c: string, regularFiles: set<string>)
    requires PlainStem(a) && PlainStem(b) && PlainStem(c)
    requires Join(directory, a + ".mp4") in regularFiles
    requires Join(directory, c + ".MP4") in regularFiles
    ensures ListMediaFiles(directory, [a + ".mp4", b + ".txt", c + ".MP4"], regularFiles, "video")
            == [Join(directory, a + ".mp4"), Join(directory, c + ".MP4")]
  {
    PlainExtensions();
    FoldedVideoExtensions();
    PlainEntry(directory, a, ".mp4", regularFiles, "video");
    PlainEntry(directory, b, ".txt", regularFiles, "video");
    PlainEntry(directory, c, ".MP4", regularFiles, "video");
    FilterThree(directory, a + ".mp4", b + ".txt", c + ".MP4", regularFiles, "video");
  }

  lemma FoldedVideoExtensions()
    ensures Lower(".mp4") in ExtensionsFor("video") && Lower(".MP4") in ExtensionsFor("video")
    ensures Lower(".txt") !in ExtensionsFor("video")
  {
    assert Lower(".mp4") == ".mp4" && Lower(".MP4") == ".mp4" && Lower(".txt") == ".txt";
  }

  /** Keeping the first and third of three elements and dropping the
      second yields the images of the first and third. */
  lemma ComprehensionThree(x: string, y: string, z: string, keep: string -> bool, f: string -> string)
    requires keep(x) && !keep(y) && keep(z)
    ensures Comprehension([x, y, z], keep, f) == [f(x), f(z)]
  {
    assert [z][1..] == [];
    assert Comprehension([z], keep, f) == [f(z)];
    assert [y, z][1..] == [z];
    assert Comprehension([y, z], keep, f) == [f(z)];
    assert [x, y, z][1..] == [y, z];
    assert [f(x)] + [f(z)] == [f(x), f(z)];
  }

  lemma FilterThree(directory: string, x: string, y: string, z: string, regularFiles: set<string>, mediaType: string)
    requires IsMediaEntry(directory, x, regularFiles, mediaType)
    requires !IsMediaEntry(directory, y, regularFiles, mediaType)
    requires IsMediaEntry(directory, z, regularFiles, mediaType)
    ensures ListMediaFiles(directory, [x, y, z], regularFiles, mediaType) == [Join(directory, x), Join(directory, z)]
  {
    ComprehensionThree(x, y, z, Selects(directory, regularFiles, mediaType), JoinOnto(directory));
  }

  /** A one-entry listing lists that entry, joined onto the directory,
      exactly when the entry is selected. */
  lemma ListOne(directory: string, name: string, regularFiles: set<string>, mediaType: string)
    ensures ListMediaFiles(directory, [name], regularFiles, mediaType)
            == if IsMediaEntry(directory, name, regularFiles, mediaType) then [Join(directory, name)] else []
  {
    assert [name][1..] == [];
  }
}
