/** The segmenter benchmark: it empties its result folder, loads the detector and
    the mask refiner, takes the images of the input folder whose suffix is accepted,
    and for every image in which something is detected saves, as `seg_<name>`, the
    picture with the refined mask laid over it in translucent red and each padded
    box drawn in blue. Images without detections are skipped; an exception while
    handling one file skips that file.

    The result folder is a map from output file to picture. The decoder, the
    detector, the mask refiner, the overlay and drawing, disk failures on saving and
    whether `config` defines the padding are parameters. */
module BenchSegmenter {
  import opened Seqs
  import opened Paths
  import opened PaddedBox
  import RunPipeline
  import ImageGenerator

  type Picture = RunPipeline.Picture
  type Mask = RunPipeline.Mask

  /** The suffixes the benchmark accepts, compared after lower-casing; `.bmp` is not
      among them. */
  const SegmenterExtensions: set<string> := {".jpg", ".png", ".jpeg", ".webp"}

  /** The one kind of file the benchmark writes, `seg_<name>`. */
  datatype OutputFile = SegFile(name: string)

  function FileName(o: OutputFile): string
  {
    "seg_" + o.name
  }

  /** Distinct output files have distinct file names. */
  lemma FileNameInjective(a: OutputFile, b: OutputFile)
    ensures a != b ==> FileName(a) != FileName(b)
  {
    assert FileName(a)[4..] == a.name && FileName(b)[4..] == b.name;
  }

  /** The code the model leaves open: opening and converting a file (None when
      it raises), `detector.detect`, `refiner.create_mask`, the picture after the
      mask is laid over it in red (alpha 100) and the given rectangles are drawn on
      it, and whether saving an output file raises. */
  datatype Ops = Ops(
    decode: string -> Option<Picture>,
    detect: Picture -> seq<Box>,
    createMask: (Picture, seq<Box>) -> Mask,
    render: (Picture, Mask, seq<Mark>) -> Picture,
    saveFails: OutputFile -> bool)

  /** How a run ends: loading a model raised (the script stops there), or every
      image was handled. */
  datatype Outcome = LoadFailed | Finished

  function IsSegmenterImage(): string -> bool
  {
    name => HasSuffixIn(name, SegmenterExtensions)
  }

  /** Line 20: the images of the run, in the order `glob("*.*")` lists them
      (`listing`). */
  function Selected(listing: seq<string>): (r: seq<string>)
    ensures forall n :: n in r <==> n in listing && HasSuffixIn(n, SegmenterExtensions)
  {
    Filter(listing, IsSegmenterImage())
  }

  /** The rectangles drawn for the detected boxes: each padded box in blue, width 2.
      Built from the right, as the drawing loop extends it. */
  function SegmenterMarks(boxes: seq<Box>, pad: int, w: int, h: int): seq<Mark>
  {
    if boxes == [] then []
    else
      var b := boxes[|boxes| - 1];
      SegmenterMarks(boxes[..|boxes| - 1], pad, w, h) + [Mark(Padded(b, pad, w, h), Blue, 2)]
  }

  /** One rectangle per box, its padded box, which lies in the image and, for a
      padding of at least 0 and a box inside the image, contains the box. */
  lemma {:induction false} SegmenterMarksShape(boxes: seq<Box>, pad: int, w: int, h: int)
    ensures |SegmenterMarks(boxes, pad, w, h)| == |boxes|
    ensures forall k :: 0 <= k < |boxes| ==> SegmenterMarks(boxes, pad, w, h)[k] == Mark(Padded(boxes[k], pad, w, h), Blue, 2)
    ensures forall k :: 0 <= k < |boxes| ==> InImage(SegmenterMarks(boxes, pad, w, h)[k].box, w, h)
    ensures forall k :: 0 <= k < |boxes| && pad >= 0 && InImage(boxes[k], w, h) ==>
      Within(boxes[k], SegmenterMarks(boxes, pad, w, h)[k].box)
  {
    if boxes != [] {
      var init := boxes[..|boxes| - 1];
      var b := boxes[|boxes| - 1];
      SegmenterMarksShape(init, pad, w, h);
      PaddedInImage(b, pad, w, h);
      if pad >= 0 && InImage(b, w, h) {
        PaddedContainsBox(b, pad, w, h);
      }
      assert forall k :: 0 <= k < |init| ==> boxes[k] == init[k];
    }
  }

  /** The drawing loop of lines 58-61. */
  method DrawMarks(boxes: seq<Box>, pad: int, w: int, h: int) returns (marks: seq<Mark>)
    ensures marks == SegmenterMarks(boxes, pad, w, h)
  {
    marks := [];
    var i := 0;
    while i < |boxes|
      invariant 0 <= i <= |boxes|
      invariant marks == SegmenterMarks(boxes[..i], pad, w, h)
    {
      var padded := Padded(boxes[i], pad, w, h);
      marks := marks + [Mark(padded, Blue, 2)];
      assert boxes[..i + 1][..i] == boxes[..i];
      i := i + 1;
    }
    assert boxes[..|boxes|] == boxes;
  }

  /** A regular file of the input folder that opens and converts. */
  predicate Readable(input: map<string, Entry>, name: string, ops: Ops)
  {
    name in input && input[name].File? && ops.decode(input[name].data).Some?
  }

  function Original(input: map<string, Entry>, name: string, ops: Ops): Picture
    requires Readable(input, name, ops)
  {
    ops.decode(input[name].data).value
  }

  /** Lines 24-67 for one image: the picture saved for it, if any. Nothing is saved
      when the file does not open, when nothing is detected, when
      `config.BOX_PADDING` is missing (`pad` is None), or when saving raises. */
  function SegmentFile(input: map<string, Entry>, name: string, pad: Option<int>, ops: Ops): Option<Picture>
  {
    if !Readable(input, name, ops) then None
    else
      var original := Original(input, name, ops);
      var boxes := ops.detect(original);
      if boxes == [] || pad.None? || ops.saveFails(SegFile(name)) then None
      else
        var mask := ops.createMask(original, boxes);
        var marks := SegmenterMarks(boxes, pad.value, ImageGenerator.Width(original), |original|);
        Some(ops.render(original, mask, marks))
  }

  function Store(saved: map<OutputFile, Picture>, name: string, r: Option<Picture>): map<OutputFile, Picture>
  {
    if r.Some? then saved[SegFile(name) := r.value] else saved
  }

  /** The result folder after the loop of lines 23-67 has handled `files`. */
  function Segmented(input: map<string, Entry>, files: seq<string>, pad: Option<int>, ops: Ops): map<OutputFile, Picture>
  {
    if files == [] then map[]
    else
      var last := files[|files| - 1];
      Store(Segmented(input, files[..|files| - 1], pad, ops), last, SegmentFile(input, last, pad, ops))
  }

  /** The folder holds a `seg_` file exactly for the images handled that had one
      saved, each with the picture saved for it. */
  lemma {:induction false} SegmentedExactly(input: map<string, Entry>, files: seq<string>, pad: Option<int>, ops: Ops)
    ensures forall o :: o in Segmented(input, files, pad, ops) <==> o.name in files && SegmentFile(input, o.name, pad, ops).Some?
    ensures forall o :: o in Segmented(input, files, pad, ops) ==>
      Segmented(input, files, pad, ops)[o] == SegmentFile(input, o.name, pad, ops).value
  {
    if files != [] {
      var init := files[..|files| - 1];
      SegmentedExactly(input, init, pad, ops);
      assert files == init + [files[|files| - 1]];
    }
  }

  /** What each saved file holds: an opened image with detections, overlaid with
      the refined mask of its boxes and drawn with their padded boxes, all inside
      the image. And every opened image with detections whose file could be saved
      is in the folder; one without detections never is. */
  lemma SegmentedContents(input: map<string, Entry>, files: seq<string>, pad: Option<int>, ops: Ops)
    ensures var r := Segmented(input, files, pad, ops);
      forall o :: o in r ==>
        && o.name in files && Readable(input, o.name, ops) && pad.Some?
        && var pic := Original(input, o.name, ops);
           var boxes := ops.detect(pic);
           && boxes != []
           && r[o] == ops.render(pic, ops.createMask(pic, boxes), SegmenterMarks(boxes, pad.value, ImageGenerator.Width(pic), |pic|))
    ensures var r := Segmented(input, files, pad, ops);
      forall n :: n in files && Readable(input, n, ops) ==>
        (SegFile(n) in r <==> ops.detect(Original(input, n, ops)) != [] && pad.Some? && !ops.saveFails(SegFile(n)))
  {
    SegmentedExactly(input, files, pad, ops);
  }

  /** Extending the handled files by one adds that file's result. */
  lemma SegmentedSnoc(input: map<string, Entry>, files: seq<string>, i: nat, pad: Option<int>, ops: Ops)
    requires i < |files|
    ensures Segmented(input, files[..i + 1], pad, ops) ==
      Store(Segmented(input, files[..i], pad, ops), files[i], SegmentFile(input, files[i], pad, ops))
  {
    assert files[..i + 1][..i] == files[..i];
  }

  /** `tests/step2_segmentation`, the folder the benchmark writes. */
  class ResultFolder {
    var saved: map<OutputFile, Picture>

    constructor (initial: map<OutputFile, Picture>)
      ensures saved == initial
    {
      saved := initial;
    }

    /** Lines 24-67 for one image. */
    method SegmentImage(input: map<string, Entry>, name: string, pad: Option<int>, ops: Ops)
      modifies this
      ensures saved == Store(old(saved), name, SegmentFile(input, name, pad, ops))
    {
      if name !in input || input[name].Dir? {
        return;
      }
      var decoded := ops.decode(input[name].data);
      if decoded.None? {
        return;
      }
      var original := decoded.value;
      var boxes := ops.detect(original);
      if boxes == [] {
        return;
      }
      var mask := ops.createMask(original, boxes);
      if pad.None? {
        return;
      }
      var marks := DrawMarks(boxes, pad.value, ImageGenerator.Width(original), |original|);
      var final := ops.render(original, mask, marks);
      if !ops.saveFails(SegFile(name)) {
        saved := saved[SegFile(name) := final];
      }
    }

    /** `test_segmenter()`: the folder is emptied first; `loads` says whether both
        models load. */
    method TestSegmenter(loads: bool, input: map<string, Entry>, listing: seq<string>, pad: Option<int>, ops: Ops)
      returns (outcome: Outcome)
      modifies this
      ensures outcome == (if loads then Finished else LoadFailed)
      ensures saved == (if loads then Segmented(input, Selected(listing), pad, ops) else map[])
    {
      saved := map[];
      if !loads {
        return LoadFailed;
      }
      var files := Selected(listing);
      var i := 0;
      while i < |files|
        invariant 0 <= i <= |files|
        invariant saved == Segmented(input, files[..i], pad, ops)
      {
        SegmentedSnoc(input, files, i, pad, ops);
        SegmentImage(input, files[i], pad, ops);
        i := i + 1;
      }
      assert files[..|files|] == files;
      return Finished;
    }
  }

  /** `.bmp` images are not segmented, unlike in the detector benchmark. */
  lemma BmpNotSelected(stem: string)
    requires |stem| >= 1 && '.' !in stem
    ensures Selected([stem + ".bmp"]) == []
  {
    SuffixOfPrefixed(stem, ".bmp");
    assert Lower(".bmp") == ".bmp";
    assert [stem + ".bmp"][..0] == [];
  }
}
