/** `generate_output_path`: choose an output path next to the input that
    does not collide with anything already on disk.  The filesystem is a
    snapshot: the finite set of paths that exist at the time of the call. */
module OutputPath {
  import opened Wrappers
  import opened PyPath
  import Decimal

  /** The extension, with a leading dot added when it has none. */
  function NormalizeExt(ext: string): (r: string)
    ensures |r| >= 1 && r[0] == EXTSEP
    ensures r == ext || r == [EXTSEP] + ext
  {
    if StartsWith(ext, [EXTSEP]) then ext else [EXTSEP] + ext
  }

  lemma NormalizeExtIdempotent(ext: string)
    ensures NormalizeExt(NormalizeExt(ext)) == NormalizeExt(ext)
    ensures StartsWith(ext, [EXTSEP]) ==> NormalizeExt(ext) == ext
    ensures NormalizeExt("") == "."
  {
  }

  /** The directory of the input, or "." when the input has none. */
  function OutputDir(inputPath: string): (d: string)
    ensures d != ""
    ensures SEP !in inputPath ==> d == "."
    ensures SEP in inputPath ==> d == Dirname(inputPath)
  {
    var d := Dirname(inputPath);
    if d == "" then "." else d
  }

  /** The caller's name when it is non-empty, otherwise the input's last
      component without its last extension. */
  function BaseName(inputPath: string, outputName: Option<string>): (b: string)
    ensures Truthy(outputName) ==> b == outputName.value
    ensures !Truthy(outputName) ==> b + SplitExt(Basename(inputPath)).1 == Basename(inputPath)
  {
    if Truthy(outputName) then outputName.value else SplitExt(Basename(inputPath)).0
  }

  /** "" for the first probe, then "_1", "_2", ... */
  function Suffix(index: nat): (s: string)
    ensures index == 0 <==> s == ""
    ensures index > 0 ==> s[0] == '_' && Decimal.ParseDecimal(s[1..]) == index
    ensures index > 0 ==> |s| >= 2 && s[1] != '0' && forall i :: 1 <= i < |s| ==> '0' <= s[i] <= '9'
  {
    if index > 0 then
      Decimal.ParseNatToString(index);
      assert ("_" + Decimal.NatToString(index))[1..] == Decimal.NatToString(index);
      "_" + Decimal.NatToString(index)
    else ""
  }

  /** The path probed at a given index. */
  function Candidate(dir: string, base: string, ext: string, index: nat): (path: string)
    ensures var name := base + Suffix(index) + ext;
            |name| <= |path| && path[|path| - |name|..] == name
  {
    Join(dir, base + Suffix(index) + ext)
  }

  /** The name probed at `index` determines `index`. */
  lemma SuffixedNameInjective(base: string, ext: string, i: nat, j: nat)
    requires base + Suffix(i) + ext == base + Suffix(j) + ext
    ensures i == j
  {
    var si, sj := Suffix(i), Suffix(j);
    assert |si| == |sj|;
    assert si == (base + si + ext)[|base|..|base| + |si|];
    assert sj == (base + sj + ext)[|base|..|base| + |sj|];
  }

  /** A probed name is absolute exactly when the base name is. */
  lemma ProbeNameStart(base: string, ext: string, i: nat)
    requires |ext| >= 1 && ext[0] == EXTSEP
    ensures StartsWith(base + Suffix(i) + ext, [SEP]) <==> StartsWith(base, [SEP])
  {
    var n := base + Suffix(i) + ext;
    if base != "" {
      assert n[..1] == base[..1];
    } else {
      assert n[0] == (if i == 0 then EXTSEP else '_');
      assert n[..1] == [n[0]];
    }
  }

  /** Joining onto the same directory keeps apart two names that are both
      absolute or both relative. */
  lemma JoinInjective(dir: string, x: string, y: string)
    requires StartsWith(x, [SEP]) <==> StartsWith(y, [SEP])
    requires Join(dir, x) == Join(dir, y)
    ensures x == y
  {
    if !StartsWith(x, [SEP]) {
      var r := Join(dir, x);
      assert |x| == |y|;
      assert x == r[|r| - |x|..];
    }
  }

  /** Distinct indices give distinct paths, so every probe is a new path. */
  lemma CandidateInjective(dir: string, base: string, ext: string, i: nat, j: nat)
    requires |ext| >= 1 && ext[0] == EXTSEP
    ensures Candidate(dir, base, ext, i) == Candidate(dir, base, ext, j) ==> i == j
  {
    if Candidate(dir, base, ext, i) == Candidate(dir, base, ext, j) {
      ProbeNameStart(base, ext, i);
      ProbeNameStart(base, ext, j);
      JoinInjective(dir, base + Suffix(i) + ext, base + Suffix(j) + ext);
      SuffixedNameInjective(base, ext, i, j);
    }
  }

  /** The smallest index whose candidate is free. */
  ghost predicate FirstFree(existing: set<string>, dir: string, base: string, ext: string, k: nat)
  {
    && Candidate(dir, base, ext, k) !in existing
    && forall j :: 0 <= j < k ==> Candidate(dir, base, ext, j) in existing
  }

  /** If the first `k` candidates are all taken, the snapshot holds at least
      `k` paths: the probe loop runs at most |existing| + 1 times. */
  lemma {:induction false} ProbedBound(existing: set<string>, dir: string, base: string, ext: string, k: nat)
    requires |ext| >= 1 && ext[0] == EXTSEP
    requires forall j :: 0 <= j < k ==> Candidate(dir, base, ext, j) in existing
    ensures k <= |existing|
  {
    if k > 0 {
      var last := Candidate(dir, base, ext, k - 1);
      var rest := existing - {last};
      forall j | 0 <= j < k - 1
        ensures Candidate(dir, base, ext, j) in rest
      {
        CandidateInjective(dir, base, ext, j, k - 1);
      }
      ProbedBound(rest, dir, base, ext, k - 1);
    }
  }

  /** The first free index is unique: the allocation is deterministic. */
  lemma FirstFreeUnique(existing: set<string>, dir: string, base: string, ext: string, k1: nat, k2: nat)
    requires FirstFree(existing, dir, base, ext, k1) && FirstFree(existing, dir, base, ext, k2)
    ensures k1 == k2
  {
  }

  /** When exactly the first `n` candidates are taken, index `n` is the
      first free one. */
  lemma TakenPrefixNextFree(dir: string, base: string, ext: string, n: nat)
    requires |ext| >= 1 && ext[0] == EXTSEP
    ensures FirstFree(set j | 0 <= j < n :: Candidate(dir, base, ext, j), dir, base, ext, n)
  {
    forall j | 0 <= j < n
      ensures Candidate(dir, base, ext, j) != Candidate(dir, base, ext, n)
    {
      CandidateInjective(dir, base, ext, j, n);
    }
  }

  /** The probe at index 5 carries the suffix `_5`. */
  lemma FifthSuffix()
    ensures Suffix(5) == "_5"
  {
    assert Decimal.NatToString(5) == "5";
  }

  /** With `base.ext` and `base_1.ext` .. `base_4.ext` taken, the next free
      name is `base_5.ext`. */
  lemma FifthAfterFourTaken(dir: string, base: string, ext: string)
    requires |ext| >= 1 && ext[0] == EXTSEP
    ensures var taken := set j | 0 <= j < 5 :: Candidate(dir, base, ext, j);
            FirstFree(taken, dir, base, ext, 5) && Candidate(dir, base, ext, 5) == Join(dir, base + "_5" + ext)
  {
    TakenPrefixNextFree(dir, base, ext, 5);
    FifthSuffix();
  }

  /** `path` is the candidate at the first free index, and that index is
      at most the size of the snapshot. */
  ghost predicate FirstFreePath(existing: set<string>, dir: string, base: string, ext: string, path: string)
  {
    exists k: nat :: k <= |existing| && FirstFree(existing, dir, base, ext, k) && path == Candidate(dir, base, ext, k)
  }

  /** `path` is what `generate_output_path` allocates for this input,
      extension and name. */
  ghost predicate Allocated(existing: set<string>, inputPath: string, outputExt: string, outputName: Option<string>,
                            path: string)
  {
    FirstFreePath(existing, OutputDir(inputPath), BaseName(inputPath, outputName), NormalizeExt(outputExt), path)
  }

  /** The name the loop builds at `index` is the candidate at `index`. */
  lemma RenderedCandidate(dir: string, base: string, ext: string, index: nat, suffix: string)
    requires suffix == if index > 0 then "_" + Decimal.NatToString(index) else ""
    ensures Join(dir, base + suffix + ext) == Candidate(dir, base, ext, index)
  {
  }

  /** A free candidate after `k` taken ones is the first free path, and it
      is the unsuffixed name whenever that one is free. */
  lemma FirstFreeFound(existing: set<string>, dir: string, base: string, ext: string, k: nat)
    requires k <= |existing|
    requires Candidate(dir, base, ext, k) !in existing
    requires forall j :: 0 <= j < k ==> Candidate(dir, base, ext, j) in existing
    ensures FirstFreePath(existing, dir, base, ext, Candidate(dir, base, ext, k))
    ensures Candidate(dir, base, ext, 0) !in existing ==> k == 0
  {
    assert FirstFree(existing, dir, base, ext, k);
  }

  /** One more taken candidate extends the taken prefix by one. */
  lemma TakenStep(existing: set<string>, dir: string, base: string, ext: string, k: nat)
    requires forall j :: 0 <= j < k ==> Candidate(dir, base, ext, j) in existing
    requires Candidate(dir, base, ext, k) in existing
    ensures forall j :: 0 <= j < k + 1 ==> Candidate(dir, base, ext, j) in existing
  {
  }

  /** The probe loop of `generate_output_path`: try `base`, `base_1`, ...
      under `dir` and return the first candidate missing from the snapshot. */
  method ProbeFreeName(dir: string, base: string, ext: string, existing: set<string>) returns (path: string)
    requires |ext| >= 1 && ext[0] == EXTSEP
    ensures path !in existing
    ensures FirstFreePath(existing, dir, base, ext, path)
    ensures Candidate(dir, base, ext, 0) !in existing ==> path == Candidate(dir, base, ext, 0)
  {
    var index := 0;
    while true
      invariant index <= |existing|
      invariant forall j :: 0 <= j < index ==> Candidate(dir, base, ext, j) in existing
      decreases |existing| - index
    {
      var suffix := if index > 0 then "_" + Decimal.NatToString(index) else "";
      path := Join(dir, base + suffix + ext);
      RenderedCandidate(dir, base, ext, index, suffix);
      if path !in existing {
        FirstFreeFound(existing, dir, base, ext, index);
        return;
      }
      TakenStep(existing, dir, base, ext, index);
      ProbedBound(existing, dir, base, ext, index + 1);
      index := index + 1;
    }
  }

  /** `generate_output_path(input_path, output_ext, output_name)` against a
      snapshot of existing paths. */
  method GenerateOutputPath(inputPath: string, outputExt: string, outputName: Option<string>, existing: set<string>)
    returns (path: string)
    ensures path !in existing
    ensures Allocated(existing, inputPath, outputExt, outputName, path)
    ensures var first := Candidate(OutputDir(inputPath), BaseName(inputPath, outputName), NormalizeExt(outputExt), 0);
            first !in existing ==> path == first
  {
    var ext := NormalizeExt(outputExt);
    var inputDir := OutputDir(inputPath);
    var baseName := BaseName(inputPath, outputName);
    path := ProbeFreeName(inputDir, baseName, ext, existing);
  }

  /** An input with no directory part and no caller-supplied name is
      written, when that name is free, as `./<stem><ext>`, where `<stem>` is
      the input without its last extension. */
  lemma NoDirectoryFirstCandidate(inputPath: string, outputExt: string)
    requires SEP !in inputPath
    ensures var stem := SplitExt(inputPath).0;
            Candidate(OutputDir(inputPath), BaseName(inputPath, None), NormalizeExt(outputExt), 0)
              == "./" + stem + NormalizeExt(outputExt)
  {
    assert BaseName(inputPath, None) == SplitExt(inputPath).0;
    FirstCandidateUnderDot(inputPath, NormalizeExt(outputExt));
  }

  /** The first probe carries no suffix. */
  lemma FirstCandidate(dir: string, base: string, ext: string)
    ensures Candidate(dir, base, ext, 0) == Join(dir, base + ext)
  {
    assert base + Suffix(0) + ext == base + ext;
  }

  lemma FirstCandidateUnderDot(inputPath: string, ext: string)
    requires SEP !in inputPath
    requires |ext| >= 1 && ext[0] == EXTSEP
    ensures Candidate(".", SplitExt(inputPath).0, ext, 0) == "./" + SplitExt(inputPath).0 + ext
  {
    var stem := SplitExt(inputPath).0;
    StemStart(inputPath, ext);
    FirstCandidate(".", stem, ext);
    JoinRelative(".", stem + ext);
    DotSlash(stem, ext);
  }

  /** A name made of a stem of a separator-free input and an extension
      does not start with a separator. */
  lemma StemStart(inputPath: string, ext: string)
    requires SEP !in inputPath
    requires |ext| >= 1 && ext[0] == EXTSEP
    ensures (SplitExt(inputPath).0 + ext)[0] != SEP
  {
    var stem := SplitExt(inputPath).0;
    if stem != "" {
      assert stem[0] == inputPath[0];
    }
  }

  lemma DotSlash(x: string, y: string)
    ensures "." + [SEP] + (x + y) == "./" + x + y
  {
  }
}
