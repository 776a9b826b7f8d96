/** The command-line driver: checks the parsed arguments, picks the
    optimisation level, then examines each file in order, classifying it by
    extension and by a content sniff, and looks the level up in the table at
    the first file that is a real PNG. */
module Driver {
  import opened OptLevels
  import opened Paths

  /** The parsed command line. */
  datatype Opt = Opt(reqOptLevel: Option<U8>, verbose: bool, files: seq<Path>)

  /** The content sniff: does the file at the path have the given MIME type? */
  type Sniffer = (string, Path) -> bool

  /** What examining one file found. */
  datatype Kind =
    | ValidPng          // ends with `.png` and sniffs as a PNG
    | PngMismatch       // ends with `.png` but does not sniff as one: skipped
    | ValidJpeg         // ends with `.jpg` or `.jpeg` and sniffs as a JPEG
    | JpegMismatch      // ends with `.jpg` or `.jpeg` but does not sniff as one: skipped
    | UnknownExtension  // none of the three: skipped

  datatype Handled = Handled(file: Path, kind: Kind)

  datatype Verdict = Success | Failure(message: string)

  /** The files handled, in order, and how the run ends. */
  datatype Run = Run(handled: seq<Handled>, verdict: Verdict)

  const DefaultOptLevel: U8 := 5
  const MissingFileMessage: string := "File argument is required but is missing. Run me with --help for assistance."
  const WindowsArgsMessage: string := "Sorry, I don't support Windows-style CLI args yet. Try using -h or --help instead."
  const WindowsHelpArg: string := "/?"
  const PngExtension: string := ".png"
  const JpgExtension: string := ".jpg"
  const JpegExtension: string := ".jpeg"
  const PngMime: string := "image/png"
  const JpegMime: string := "image/jpg"

  /** The argument checks: an empty file list and a first file `/?` are
      errors; otherwise the level to use, 5 when none was given. */
  function CheckArgs(opt: Opt): (r: Result<U8>)
    ensures r.Err? <==> |opt.files| == 0 || opt.files[0].text == WindowsHelpArg
    ensures |opt.files| == 0 ==> r == Err(MissingFileMessage)
    ensures |opt.files| > 0 && opt.files[0].text == WindowsHelpArg ==> r == Err(WindowsArgsMessage)
    ensures r.Ok? && opt.reqOptLevel.None? ==> r.value == DefaultOptLevel
    ensures r.Ok? && opt.reqOptLevel.Some? ==> r.value == opt.reqOptLevel.value
  {
    if |opt.files| == 0 then Err(MissingFileMessage)
    else if opt.files[0].text == WindowsHelpArg then Err(WindowsArgsMessage)
    else if opt.reqOptLevel.None? then Ok(DefaultOptLevel)
    else Ok(opt.reqOptLevel.value)
  }

  /** Only the first file is compared with `/?`; the same text later in the
      list is an ordinary file name. */
  lemma HelpArgOnlyFirst(opt: Opt, i: nat)
    requires 0 < i < |opt.files|
    requires opt.files[0].text != WindowsHelpArg
    requires opt.files[i].text == WindowsHelpArg
    ensures CheckArgs(opt).Ok?
  {
  }

  /** The classification of one file. The `.png` test comes first; the PNG
      branch asks the sniff for "image/png", the JPEG branch for "image/jpg". */
  function Classify(file: Path, sniff: Sniffer): (k: Kind)
    ensures k.ValidPng? || k.PngMismatch? <==> EndsWith(file, PngExtension)
    ensures k.ValidJpeg? || k.JpegMismatch? <==>
      !EndsWith(file, PngExtension) && (EndsWith(file, JpgExtension) || EndsWith(file, JpegExtension))
    ensures k.ValidPng? || k.PngMismatch? ==> (k.ValidPng? <==> sniff(PngMime, file))
    ensures k.ValidJpeg? || k.JpegMismatch? ==> (k.ValidJpeg? <==> sniff(JpegMime, file))
  {
    if EndsWith(file, PngExtension) then
      if sniff(PngMime, file) then ValidPng else PngMismatch
    else if EndsWith(file, JpgExtension) || EndsWith(file, JpegExtension) then
      if sniff(JpegMime, file) then ValidJpeg else JpegMismatch
    else UnknownExtension
  }

  /** The sniff is asked at most one question per file: `image/png` for a
      `.png` file, `image/jpg` for a `.jpg` or `.jpeg` file and nothing for any
      other file. Two sniffs that agree on that question classify the file
      alike. */
  lemma ClassifyAsksOnce(file: Path, s1: Sniffer, s2: Sniffer)
    requires EndsWith(file, PngExtension) ==> s1(PngMime, file) == s2(PngMime, file)
    requires !EndsWith(file, PngExtension) && (EndsWith(file, JpgExtension) || EndsWith(file, JpegExtension))
      ==> s1(JpegMime, file) == s2(JpegMime, file)
    ensures Classify(file, s1) == Classify(file, s2)
  {
  }

  /** A name `<stem>.png` with a non-empty stem is one named component, and
      it is none of `.png`, `.jpg` and `.jpeg`. */
  lemma PngNameIsOrdinary(stem: string)
    requires stem != [] && Separator !in stem
    ensures IsNormal(stem + PngExtension) && Separator !in stem + PngExtension
    ensures stem + PngExtension != PngExtension
    ensures stem + PngExtension != JpgExtension && stem + PngExtension != JpegExtension
  {
    var name := stem + PngExtension;
    forall i | 0 <= i < |name| ensures name[i] != Separator {
      if i >= |stem| { assert name[i] == PngExtension[i - |stem|]; }
    }
    assert name != JpegExtension by {
      if |name| == |JpegExtension| { assert name[1] == '.' != JpegExtension[1]; }
    }
  }

  /** An ordinary PNG file name such as `dir/photo.png` has the last
      component `photo.png`, not `.png`, so it is skipped as an unknown
      extension. */
  lemma NamedPngIsUnknownExtension(dir: string, stem: string, sniff: Sniffer)
    requires stem != [] && Separator !in stem
    ensures Classify(Path(dir + [Separator] + stem + PngExtension), sniff) == UnknownExtension
  {
    var name := stem + PngExtension;
    assert dir + [Separator] + stem + PngExtension == dir + [Separator] + name;
    PngNameIsOrdinary(stem);
    FileInDirEndsWith(dir, name, PngExtension);
    FileInDirEndsWith(dir, name, JpgExtension);
    FileInDirEndsWith(dir, name, JpegExtension);
  }

  /** The same for a bare name such as `photo.png`, given without a
      directory. */
  lemma BarePngIsUnknownExtension(stem: string, sniff: Sniffer)
    requires stem != [] && Separator !in stem
    ensures Classify(Path(stem + PngExtension), sniff) == UnknownExtension
  {
    var name := stem + PngExtension;
    PngNameIsOrdinary(stem);
    BareFileEndsWith(name, PngExtension);
    BareFileEndsWith(name, JpgExtension);
    BareFileEndsWith(name, JpegExtension);
  }

  /** The files examined, each with what was found, in input order. */
  function HandleAll(files: seq<Path>, sniff: Sniffer): (r: seq<Handled>)
    ensures |r| == |files|
    ensures forall i :: 0 <= i < |r| ==> r[i].file == files[i]
  {
    seq(|files|, i requires 0 <= i < |files| => Handled(files[i], Classify(files[i], sniff)))
  }

  /** Handling one more file extends the handled list by that file. */
  lemma HandleAllSnoc(files: seq<Path>, file: Path, sniff: Sniffer)
    ensures HandleAll(files + [file], sniff) == HandleAll(files, sniff) + [Handled(file, Classify(file, sniff))]
  {
  }

  /** The position of the first file that is a real PNG, or the length of
      the list when there is none. */
  function FirstValidPng(files: seq<Path>, sniff: Sniffer): (k: nat)
    ensures k <= |files|
    ensures forall i :: 0 <= i < k ==> !Classify(files[i], sniff).ValidPng?
    ensures k < |files| ==> Classify(files[k], sniff).ValidPng?
  {
    if files == [] then 0
    else if Classify(files[0], sniff).ValidPng? then 0
    else 1 + FirstValidPng(files[1..], sniff)
  }

  /** What the loop over the files does at level `optLevel`: every file is
      examined in order, unless the level is out of range and a real PNG
      turns up, in which case the run stops there with the range error and
      the files before it have been handled. */
  function Expected(files: seq<Path>, optLevel: U8, sniff: Sniffer): (r: Run)
    ensures |r.handled| <= |files|
    ensures forall i :: 0 <= i < |r.handled| ==>
      r.handled[i] == Handled(files[i], Classify(files[i], sniff))
    ensures r.verdict.Success? <==> |r.handled| == |files|
    ensures r.verdict.Failure? ==>
      optLevel > MaxOptLevel && r.verdict.message == InvalidRangeMessage &&
      Classify(files[|r.handled|], sniff).ValidPng?
  {
    var k := FirstValidPng(files, sniff);
    var options := GetOxipngOptions(optLevel);
    if k < |files| && options.Err? then Run(HandleAll(files[..k], sniff), Failure(options.error))
    else Run(HandleAll(files, sniff), Success)
  }

  /** Skips never abort the run: with no real PNG among the files, every
      file is handled and the run succeeds, whatever the level. */
  lemma SkipsNeverAbort(files: seq<Path>, optLevel: U8, sniff: Sniffer)
    requires forall i :: 0 <= i < |files| ==> !Classify(files[i], sniff).ValidPng?
    ensures Expected(files, optLevel, sniff) == Run(HandleAll(files, sniff), Success)
  {
  }

  /** With a level in 0..9 the run always succeeds and handles every file. */
  lemma ValidLevelNeverAborts(files: seq<Path>, optLevel: U8, sniff: Sniffer)
    requires optLevel <= MaxOptLevel
    ensures Expected(files, optLevel, sniff) == Run(HandleAll(files, sniff), Success)
  {
  }

  /** An out-of-range level stops the run exactly at the first real PNG. */
  lemma AbortAtFirstValidPng(files: seq<Path>, optLevel: U8, sniff: Sniffer, k: nat)
    requires optLevel > MaxOptLevel
    requires k < |files| && Classify(files[k], sniff).ValidPng?
    requires forall i :: 0 <= i < k ==> !Classify(files[i], sniff).ValidPng?
    ensures Expected(files, optLevel, sniff) == Run(HandleAll(files[..k], sniff), Failure(InvalidRangeMessage))
  {
  }

  /** Once a run has stopped, the files after the stopping point play no part:
      appending more files gives the same run. */
  lemma {:induction false} AbortIgnoresLaterFiles(files: seq<Path>, more: seq<Path>, optLevel: U8, sniff: Sniffer)
    requires Expected(files, optLevel, sniff).verdict.Failure?
    ensures Expected(files + more, optLevel, sniff) == Expected(files, optLevel, sniff)
  {
    var k := |Expected(files, optLevel, sniff).handled|;
    var all := files + more;
    forall i | 0 <= i < k
      ensures !Classify(all[i], sniff).ValidPng?
    {
      assert all[i] == files[i];
      assert Expected(files, optLevel, sniff).handled[i] == Handled(files[i], Classify(files[i], sniff));
      assert FirstValidPng(files, sniff) == k;
    }
    assert all[k] == files[k];
    AbortAtFirstValidPng(all, optLevel, sniff, k);
    assert all[..k] == files[..k];
  }

  /** The per-file loop: examine each file in order, skipping those whose
      extension or content is wrong, and look the level up at every real PNG,
      stopping with its error when the level is out of range. */
  method ProcessFiles(files: seq<Path>, optLevel: U8, sniff: Sniffer) returns (run: Run)
    ensures run == Expected(files, optLevel, sniff)
  {
    var handled: seq<Handled> := [];
    var i := 0;
    while i < |files|
      invariant 0 <= i <= |files|
      invariant handled == HandleAll(files[..i], sniff)
      invariant GetOxipngOptions(optLevel).Err? ==> i <= FirstValidPng(files, sniff)
    {
      var file := files[i];
      var kind := Classify(file, sniff);
      assert kind.ValidPng? ==> FirstValidPng(files, sniff) <= i;
      if kind.ValidPng? {
        var oxipngArgs := GetOxipngOptions(optLevel);
        if oxipngArgs.Err? {
          assert FirstValidPng(files, sniff) == i;
          return Run(handled, Failure(oxipngArgs.error));
        }
      }
      assert files[..i + 1] == files[..i] + [file];
      HandleAllSnoc(files[..i], file, sniff);
      handled := handled + [Handled(file, kind)];
      i := i + 1;
    }
    assert files[..i] == files;
    assert GetOxipngOptions(optLevel).Err? ==> FirstValidPng(files, sniff) == |files|;
    run := Run(handled, Success);
  }

  /** The whole program after argument parsing: the argument checks, then
      the loop over the files. */
  method Execute(opt: Opt, sniff: Sniffer) returns (run: Run)
    ensures |opt.files| == 0 ==> run == Run([], Failure(MissingFileMessage))
    ensures |opt.files| > 0 && opt.files[0].text == WindowsHelpArg ==>
      run == Run([], Failure(WindowsArgsMessage))
    ensures CheckArgs(opt).Ok? ==> run == Expected(opt.files, CheckArgs(opt).value, sniff)
  {
    var checked := CheckArgs(opt);
    if checked.Err? {
      return Run([], Failure(checked.error));
    }
    run := ProcessFiles(opt.files, checked.value, sniff);
  }
}
