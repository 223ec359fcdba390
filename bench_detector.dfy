/** The detector benchmark: it empties its result folder, loads the detector, takes
    the images of the input folder whose suffix is accepted, and for every one saves
    either the picture unchanged as `MISSED_<name>` (nothing detected) or the picture
    with each detected box drawn in blue and its padded box in red as
    `checked_<name>`. An exception while handling one file skips that file.

    The result folder is a map from output file to picture. The decoder, the
    detector, the drawing, disk failures on saving and whether `config` defines the
    padding are parameters. */
module BenchDetector {
  import opened Seqs
  import opened Paths
  import opened PaddedBox
  import RunPipeline
  import ImageGenerator

  type Picture = RunPipeline.Picture

  /** The suffixes the benchmark accepts, compared after lower-casing. */
  const DetectorExtensions: set<string> := {".jpg", ".jpeg", ".png", ".webp", ".bmp"}

  /** The two kinds of file the benchmark writes: `MISSED_<name>` and `checked_<name>`. */
  datatype OutputFile = MissedFile(name: string) | CheckedFile(name: string)

  function FileName(o: OutputFile): string
  {
    match o
    case MissedFile(n) => "MISSED_" + n
    case CheckedFile(n) => "checked_" + n
  }

  /** Distinct output files have distinct file names, so keying the folder by
      `OutputFile` loses nothing. */
  lemma FileNameInjective(a: OutputFile, b: OutputFile)
    ensures a != b ==> FileName(a) != FileName(b)
  {
    if a.MissedFile? != b.MissedFile? {
      assert FileName(a)[0] != FileName(b)[0];
    } else if a.MissedFile? {
      assert FileName(a)[7..] == a.name && FileName(b)[7..] == b.name;
    } else {
      assert FileName(a)[8..] == a.name && FileName(b)[8..] == b.name;
    }
  }

  /** The code the model leaves open: opening and converting a file (None when
      it raises), `detector.detect`, the picture after the given rectangles are
      drawn on it, and whether saving an output file raises. */
  datatype Ops = Ops(
    decode: string -> Option<Picture>,
    detect: Picture -> seq<Box>,
    render: (Picture, seq<Mark>) -> Picture,
    saveFails: OutputFile -> bool)

  /** How a run ends: the detector could not be loaded, no image was found, or every
      image was handled. */
  datatype Outcome = LoadFailed | NoFiles | Finished

  function IsDetectorImage(): string -> bool
  {
    name => HasSuffixIn(name, DetectorExtensions)
  }

  /** The images of the run, in the order `glob("*.*")` lists them (`listing`): the
      names whose lower-cased suffix is accepted. An accepted suffix is never empty,
      so every such name also matches `*.*`. */
  function Selected(listing: seq<string>): (r: seq<string>)
    ensures forall n :: n in r <==> n in listing && HasSuffixIn(n, DetectorExtensions)
  {
    Filter(listing, IsDetectorImage())
  }

  /** The rectangles drawn for the detected boxes, in drawing order: the box in
      blue, width 2, then its padded box in red, width 3. Built from the right, as
      the drawing loop extends it. */
  function DetectorMarks(boxes: seq<Box>, pad: int, w: int, h: int): seq<Mark>
  {
    if boxes == [] then []
    else
      var b := boxes[|boxes| - 1];
      DetectorMarks(boxes[..|boxes| - 1], pad, w, h) + [Mark(b, Blue, 2), Mark(Padded(b, pad, w, h), Red, 3)]
  }

  /** Two rectangles per box, the blue one the box itself and the red one its padded
      box, which lies in the image. */
  lemma {:induction false} DetectorMarksShape(boxes: seq<Box>, pad: int, w: int, h: int)
    ensures |DetectorMarks(boxes, pad, w, h)| == 2 * |boxes|
    ensures forall k :: 0 <= k < |boxes| ==>
      && DetectorMarks(boxes, pad, w, h)[2 * k] == Mark(boxes[k], Blue, 2)
      && DetectorMarks(boxes, pad, w, h)[2 * k + 1] == Mark(Padded(boxes[k], pad, w, h), Red, 3)
    ensures forall m :: m in DetectorMarks(boxes, pad, w, h) && m.outline == Red ==> InImage(m.box, w, h)
  {
    if boxes != [] {
      var init := boxes[..|boxes| - 1];
      var b := boxes[|boxes| - 1];
      DetectorMarksShape(init, pad, w, h);
      PaddedInImage(b, pad, w, h);
      assert forall k :: 0 <= k < |init| ==> boxes[k] == init[k];
    }
  }

  /** The drawing loop of lines 53-63. */
  method DrawMarks(boxes: seq<Box>, pad: int, w: int, h: int) returns (marks: seq<Mark>)
    ensures marks == DetectorMarks(boxes, pad, w, h)
  {
    marks := [];
    var i := 0;
    while i < |boxes|
      invariant 0 <= i <= |boxes|
      invariant marks == DetectorMarks(boxes[..i], pad, w, h)
    {
      var b := boxes[i];
      var padded := Padded(b, pad, w, h);
      marks := marks + [Mark(b, Blue, 2), Mark(padded, Red, 3)];
      assert boxes[..i + 1][..i] == boxes[..i];
      i := i + 1;
    }
    assert boxes[..|boxes|] == boxes;
  }

  /** A regular file of the input folder that opens and converts. */
  predicate Readable(input: map<string, Entry>, name: string, ops: Ops)
  {
    name in input && input[name].File? && ops.decode(input[name].data).Some?
  }

  function Original(input: map<string, Entry>, name: string, ops: Ops): Picture
    requires Readable(input, name, ops)
  {
    ops.decode(input[name].data).value
  }

  /** Lines 36-70 for one image: the file saved for it, if any. Nothing is saved when
      the file does not open, when boxes were found but `config.BOX_PADDING` is
      missing (`pad` is None), or when saving raises. */
  function CheckFile(input: map<string, Entry>, name: string, pad: Option<int>, ops: Ops): Option<(OutputFile, Picture)>
  {
    if !Readable(input, name, ops) then None
    else
      var original := Original(input, name, ops);
      var boxes := ops.detect(original);
      if boxes == [] then
        if ops.saveFails(MissedFile(name)) then None else Some((MissedFile(name), original))
      else if pad.None? || ops.saveFails(CheckedFile(name)) then None
      else
        var marks := DetectorMarks(boxes, pad.value, ImageGenerator.Width(original), |original|);
        Some((CheckedFile(name), ops.render(original, marks)))
  }

  function Store(saved: map<OutputFile, Picture>, r: Option<(OutputFile, Picture)>): map<OutputFile, Picture>
  {
    if r.Some? then saved[r.value.0 := r.value.1] else saved
  }

  /** The result folder after the loop of lines 35-70 has handled `files`. */
  function Checked(input: map<string, Entry>, files: seq<string>, pad: Option<int>, ops: Ops): map<OutputFile, Picture>
  {
    if files == [] then map[]
    else Store(Checked(input, files[..|files| - 1], pad, ops), CheckFile(input, files[|files| - 1], pad, ops))
  }

  /** The file saved for an image is named after that image. */
  lemma CheckFileNamed(input: map<string, Entry>, name: string, pad: Option<int>, ops: Ops)
    ensures CheckFile(input, name, pad, ops).Some? ==> CheckFile(input, name, pad, ops).value.0.name == name
  {
  }

  /** The folder holds exactly the files saved for the images handled, each with
      the picture saved for it. */
  lemma {:induction false} CheckedExactly(input: map<string, Entry>, files: seq<string>, pad: Option<int>, ops: Ops)
    ensures forall o :: o in Checked(input, files, pad, ops) <==>
      o.name in files && CheckFile(input, o.name, pad, ops).Some? && CheckFile(input, o.name, pad, ops).value.0 == o
    ensures forall o :: o in Checked(input, files, pad, ops) ==>
      Checked(input, files, pad, ops)[o] == CheckFile(input, o.name, pad, ops).value.1
  {
    if files != [] {
      var init, last := files[..|files| - 1], files[|files| - 1];
      CheckedExactly(input, init, pad, ops);
      CheckFileNamed(input, last, pad, ops);
      assert files == init + [last];
    }
  }

  /** What each saved file holds: a `MISSED_` file is an opened image in which
      nothing was detected, saved unchanged; a `checked_` file is an opened image
      with detections, drawn with a blue and a red rectangle per box, the red ones
      inside the image. And each opened image whose file could be saved is in the
      folder under the name its detections call for, never under both. */
  lemma CheckedContents(input: map<string, Entry>, files: seq<string>, pad: Option<int>, ops: Ops)
    ensures var r := Checked(input, files, pad, ops);
      forall o :: o in r ==>
        && o.name in files && Readable(input, o.name, ops)
        && (o.MissedFile? ==> ops.detect(Original(input, o.name, ops)) == [] && r[o] == Original(input, o.name, ops))
        && (o.CheckedFile? ==>
              && ops.detect(Original(input, o.name, ops)) != [] && pad.Some?
              && var pic := Original(input, o.name, ops);
                 r[o] == ops.render(pic, DetectorMarks(ops.detect(pic), pad.value, ImageGenerator.Width(pic), |pic|)))
    ensures var r := Checked(input, files, pad, ops);
      forall n :: n in files && Readable(input, n, ops) ==>
        && !(MissedFile(n) in r && CheckedFile(n) in r)
        && (ops.detect(Original(input, n, ops)) == [] && !ops.saveFails(MissedFile(n)) ==> MissedFile(n) in r)
        && (ops.detect(Original(input, n, ops)) != [] && pad.Some? && !ops.saveFails(CheckedFile(n)) ==> CheckedFile(n) in r)
  {
    CheckedExactly(input, files, pad, ops);
  }

  /** Extending the handled files by one adds that file's result. */
  lemma CheckedSnoc(input: map<string, Entry>, files: seq<string>, i: nat, pad: Option<int>, ops: Ops)
    requires i < |files|
    ensures Checked(input, files[..i + 1], pad, ops) == Store(Checked(input, files[..i], pad, ops), CheckFile(input, files[i], pad, ops))
  {
    assert files[..i + 1][..i] == files[..i];
  }

  /** The outcome of a run: `loads` says whether `WatermarkDetector()` succeeds. */
  function RunOutcome(loads: bool, listing: seq<string>): Outcome
  {
    if !loads then LoadFailed else if Selected(listing) == [] then NoFiles else Finished
  }

  /** `tests/step1_detection`, the folder the benchmark writes. */
  class ResultFolder {
    var saved: map<OutputFile, Picture>

    constructor (initial: map<OutputFile, Picture>)
      ensures saved == initial
    {
      saved := initial;
    }

    /** Lines 36-70 for one image. */
    method CheckImage(input: map<string, Entry>, name: string, pad: Option<int>, ops: Ops)
      modifies this
      ensures saved == Store(old(saved), CheckFile(input, name, pad, ops))
    {
      if name !in input || input[name].Dir? {
        return;
      }
      var decoded := ops.decode(input[name].data);
      if decoded.None? {
        return;
      }
      var original := decoded.value;
      var boxes := ops.detect(original);
      if boxes == [] {
        if !ops.saveFails(MissedFile(name)) {
          saved := saved[MissedFile(name) := original];
        }
        return;
      }
      if pad.None? {
        return;
      }
      var marks := DrawMarks(boxes, pad.value, ImageGenerator.Width(original), |original|);
      var drawn := ops.render(original, marks);
      if !ops.saveFails(CheckedFile(name)) {
        saved := saved[CheckedFile(name) := drawn];
      }
    }

    /** `test_detector()`: the folder is emptied first, whatever happens next. */
    method TestDetector(loads: bool, input: map<string, Entry>, listing: seq<string>, pad: Option<int>, ops: Ops)
      returns (outcome: Outcome)
      modifies this
      ensures outcome == RunOutcome(loads, listing)
      ensures saved == (if outcome == Finished then Checked(input, Selected(listing), pad, ops) else map[])
    {
      saved := map[];
      if !loads {
        return LoadFailed;
      }
      var files := Selected(listing);
      if files == [] {
        return NoFiles;
      }
      var i := 0;
      while i < |files|
        invariant 0 <= i <= |files|
        invariant saved == Checked(input, files[..i], pad, ops)
      {
        CheckedSnoc(input, files, i, pad, ops);
        CheckImage(input, files[i], pad, ops);
        i := i + 1;
      }
      assert files[..|files|] == files;
      return Finished;
    }
  }

  /** `.bmp` images are benchmarked, in any letter case. */
  lemma BmpSelected(stem: string)
    requires |stem| >= 1 && '.' !in stem
    ensures Selected([stem + ".bmp"]) == [stem + ".bmp"]
    ensures Selected([stem + ".BMP"]) == [stem + ".BMP"]
  {
    SuffixOfPrefixed(stem, ".bmp");
    SuffixOfPrefixed(stem, ".BMP");
    assert Lower(".BMP") == ".bmp" && Lower(".bmp") == ".bmp";
    assert [stem + ".bmp"][..0] == [] && [stem + ".BMP"][..0] == [];
  }
}
