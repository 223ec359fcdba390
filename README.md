# Watermark pipeline scripts, modelled in Dafny

The repository trains and runs a watermark remover: a YOLO segmentation model
finds the watermark and an inpainting model paints it out. This project models
six of its scripts.

- **Synthetic data generator** (`1_image_generator.py`). Pastes a watermark,
  possibly inverted and turned a quarter, at a random scale and place onto a
  background, after an optional blur and an optional recolouring. It writes the picture and a YOLO polygon label
  `syn_<iiiii>.txt` into `train` or `val`.
- **Dataset preparation** (`1_prepare_dataset.py`). `prepare_data` pairs each
  image with its `.txt` label, splits the shuffled pairs 80/20 into train and
  val, copies them and writes `data.yaml`. `fix_labels` rewrites every label
  line whose class is not `0`.
- **Production watchdog** (`3_run_pipeline.py`). Scans `images_input` over and
  over. A non-empty scan is processed in name order: each image is cleaned into
  `images_cleaned`, or copied unchanged into `images_cleaned/skipped` when the
  detector finds nothing. Its source is then moved into `processed`, and a
  summary is printed. An empty scan prints a waiting message, once per idle
  period.
- **Batch renamer** (`img_rename.py`). Renames every image of a folder to a
  UUID temporary name, then to `img_1<suffix>`, `img_2<suffix>`, and so on.
- **Detector benchmark** (`benchmarks/1_bench_detector.py`). Draws each
  detected box and its padded box, then saves `checked_<name>`, or
  `MISSED_<name>` when nothing was detected.
- **Segmenter benchmark** (`benchmarks/2_bench_segmenter.py`). Overlays the
  refined mask and the padded boxes, then saves `seg_<name>`.

## How it is modelled

- **Folders** are maps: from name to entry (a file with its bytes, or a
  directory), to picture, or to label text. Each script's folder is a `class`
  whose methods update that map the way the script's loop does:
  `SyntheticDataset`, `PreparedDir`, `LabelsDir`, `Watchdog`, `Folder` and the
  two `ResultFolder`s.
- **Specification functions.** Every loop method is proved equal to a function
  of the old state: `GeneratedFiles` for the generator loop, `RunScans` for the
  watchdog loop, `RunBatch` for one batch, `Copied` and `FixedAll` for the
  dataset scripts, and so on. The properties the scripts promise are proved as
  lemmas about those functions.
- **Paths and output files** are datatypes:
  - `DestPath` is `images/<split>/<name>`, `labels/<split>/<name>` or
    `data.yaml`;
  - `OutputFile` is `MISSED_`, `checked_` or `seg_` plus a name.

  Lemmas show that distinct files render to distinct file names.
- **Path text** follows `pathlib`: `suffix` is the text from the last dot on,
  when that dot is neither first nor last. `with_suffix` and ASCII
  `lower()` are modelled too (module `Paths`).
- **Numbers.** `str(n)` and `:05d` are module `Decimal`. Label text is module
  `LabelText`, covering `readlines`, `writelines`, `split()` and `" ".join`.

Some things outside the model's view are parameters:

- the random draws and the UUIDs;
- what happens around each watchdog scan: the files that arrive in the input
  folder since the turn before, whether `iterdir()` raises, and the measured
  batch time;
- the OpenCV and PIL pixel operations (resize, blur, the grey level of a pixel,
  alpha blend, contour search, drawing, the mask overlay);
- the detector, the segmenter and the cleaner;
- the `:.6f` formatting;
- which disk operations raise.

Where a script's behaviour differs from its description, the model follows
the code:

- **Missing padding constant.** `config.py` defines no `BOX_PADDING`, but both
  benchmarks read it. So the padding is an `Option<int>`. With `None`, an image
  with detections gets no output file: the `AttributeError` is caught per file.
  The detector benchmark still saves `MISSED_` files without it
  (benchmarks/1_bench_detector.py:51). The segmenter computes the mask before
  reading the padding (benchmarks/2_bench_segmenter.py:35, 56).
- **Segmenter model load.** The segmenter benchmark loads its models outside any
  `try` (benchmarks/2_bench_segmenter.py:17-18). A failed load ends the run
  (`LoadFailed`).
- **Unreadable watchdog images.** An image the watchdog cannot open is logged and
  left in the input folder, so every later scan tries it again
  (3_run_pipeline.py:170-173).
- **Summary of a batch with no measured time.** `print_summary` computes
  `total_count / elapsed` (3_run_pipeline.py:74) for every non-empty batch. When
  the clock has not moved, that raises `ZeroDivisionError`. Only
  `KeyboardInterrupt` is caught (3_run_pipeline.py:187), so the watchdog stops
  after that batch (`Crashed`). A negative time is printed as it is.
- **Greyscale watermark.** `wm_original.shape[2]` (1_image_generator.py:91)
  raises `IndexError` for a single-channel `watermark.png`. Generation then stops
  before the loop (`SingleChannelWatermark`).
- **Final renames can overwrite.** A final rename replaces an existing file of
  that name (POSIX `rename`). If an image's temporary rename failed, it keeps
  its original name, which can be a final name such as `img_1.jpg`. A later
  final rename can then overwrite it. The placement lemma covers the files
  that went through both phases.

## Model

| member | source | states |
|---|---|---|
| ImageGenerator.RepairSourceAlpha | 1_image_generator.py:13-27 | a dilation size of 0 or less returns the watermark unchanged |
| ImageGenerator.OpaqueKeepsColour | 1_image_generator.py:91-94 | adding the alpha channel keeps the colour and makes the pixel fully opaque |
| ImageGenerator.WithAlpha | 1_image_generator.py:91-94 | a 3-channel watermark becomes a same-sized 4-channel one, every pixel with alpha 255 and its original colour |
| ImageGenerator.InvertColour | 1_image_generator.py:120 | each colour channel becomes 255 minus itself; alpha is kept |
| ImageGenerator.InvertColours | 1_image_generator.py:119-120 | in place, every pixel of the array becomes the inversion of its old value |
| ImageGenerator.InvertGrid | 1_image_generator.py:119-120 | the inverted grid has the same shape and inverts pixel by pixel |
| ImageGenerator.InvertTwice | 1_image_generator.py:119-120 | inverting twice gives back the watermark |
| ImageGenerator.RotateClockwise | 1_image_generator.py:122-123 | a clockwise quarter turn swaps height and width, and puts row h-1-j, column i at row i, column j |
| ImageGenerator.RotateFourTimes | 1_image_generator.py:122-123 | four quarter turns give back the image |
| ImageGenerator.Trunc | 1_image_generator.py:127 | `int()` of a real truncates toward zero |
| ImageGenerator.ScaleDiv | 1_image_generator.py:128 | `int(a * (b / c))` with exact division is the floor of a*b/c for a non-negative product |
| ImageGenerator.TargetSize | 1_image_generator.py:125-134 | the pasted size: its properties are stated by `TargetSizeFits` and `OffsetsFit` |
| ImageGenerator.TargetSizeFits | 1_image_generator.py:125-134 | with a scale of at most 1, every size that is kept is at least 10 by 10 and fits in the background |
| ImageGenerator.ScaledWidthFits | 1_image_generator.py:127 | the scaled width never exceeds the background width |
| ImageGenerator.CutWidthFits | 1_image_generator.py:130-132 | after the height is cut, the recomputed width is no larger than the first one |
| ImageGenerator.OffsetsFit | 1_image_generator.py:147-150 | offsets drawn in the `randint` ranges put the region of interest inside the background |
| ImageGenerator.CompositeGrid | 1_image_generator.py:150-154 | pixels outside the region are unchanged; each pixel inside is the blend of background and watermark |
| ImageGenerator.Composite | 1_image_generator.py:150-154 | the in-place paste leaves the background array equal to the composited grid of its old contents |
| ImageGenerator.MaskValue | 1_image_generator.py:158 | a mask pixel is 255 exactly when the alpha exceeds 10, otherwise 0 |
| ImageGenerator.MaskGrid | 1_image_generator.py:156-159 | the mask has the background's size, is 0 outside the region and is 255 inside exactly where the watermark alpha exceeds 10 |
| ImageGenerator.MaskAt | 1_image_generator.py:156-159 | the same facts for a single mask pixel |
| ImageGenerator.BuildMask | 1_image_generator.py:156-159 | the mask array built in place equals the mask grid |
| ImageGenerator.Clamp01 | 1_image_generator.py:41-42 | `max(0, min(1, v))` lies in [0, 1] and keeps every v already there |
| ImageGenerator.Normalise | 1_image_generator.py:40-42 | normalised coordinates lie in [0, 1] and equal x/w and y/h for points inside the image |
| ImageGenerator.PointTexts | 1_image_generator.py:38-43 | one text per vertex, in order |
| ImageGenerator.PolygonTextsOfKept | 1_image_generator.py:30-45 | the polygons are exactly the texts of the contours that pass both filters, in order |
| ImageGenerator.PolygonTextsEmpty | 1_image_generator.py:30-45 | no polygon is returned exactly when no contour passes the filters |
| ImageGenerator.PolygonVertices | 1_image_generator.py:34-42 | a kept contour has at least 4 vertices, all normalised into [0, 1] |
| ImageGenerator.GetYoloPolygon | 1_image_generator.py:30-45 | the contour loop returns the polygon texts of its input |
| ImageGenerator.FormatPolygon | 1_image_generator.py:38-44 | the vertex loop returns the contour's polygon text |
| ImageGenerator.PolygonTextsHaveNoNewline | 1_image_generator.py:43-44 | no polygon text holds a newline when the number format writes none |
| ImageGenerator.LabelLines | 1_image_generator.py:168-169 | one label line per polygon, in order |
| ImageGenerator.LabelLineShape | 1_image_generator.py:169 | a label line is one line ending in a newline, its first token is `0`, and `fix_labels` leaves it alone |
| ImageGenerator.GeneratedLabelIsClean | 1_image_generator.py:164-169 | reading a written label file back gives its lines, every line has class 0, and `fix_labels` leaves the file unchanged |
| ImageGenerator.SampleStemInjective | 1_image_generator.py:165 | distinct sample numbers give distinct stems, and a stem below 100000 is 9 characters long |
| ImageGenerator.TintChannel | 1_image_generator.py:63-67 | a recoloured channel is the drawn value scaled by the grey level and truncated: never above the drawn value, equal to it at full grey |
| ImageGenerator.TintPixel | 1_image_generator.py:63-67 | recolouring keeps alpha and caps each colour channel by the drawn colour |
| ImageGenerator.ApplyRandomColor | 1_image_generator.py:60-69 | in place, every pixel becomes its recoloured value |
| ImageGenerator.TintGrid | 1_image_generator.py:60-69 | the grid form: same shape, every pixel recoloured |
| ImageGenerator.BlurShape | 1_image_generator.py:54-58 | the blurred watermark keeps its shape |
| ImageGenerator.Finished | 1_image_generator.py:137-138 | the optional blur and recolouring keep the watermark's shape |
| ImageGenerator.FinishResized | 1_image_generator.py:136-138 | the array after blur and recolouring holds the grid `Finished` describes |
| ImageGenerator.Resized | 1_image_generator.py:136-138 | the resized, blurred and recoloured watermark has the planned size and fits in the background at the drawn offsets |
| ImageGenerator.TintKeepsPolygons | 1_image_generator.py:60-69 | the drawn colour never changes the label polygons: they are those of the same draw without it |
| ImageGenerator.PreparedWatermark | 1_image_generator.py:91-103 | the prepared watermark is a 4-channel image |
| ImageGenerator.AugmentWatermark | 1_image_generator.py:116-123 | the working copy holds the watermark after the optional inversion and quarter turn |
| ImageGenerator.PasteAndTrace | 1_image_generator.py:136-162 | the pasted background and the polygons are those of the composited sample |
| ImageGenerator.SyntheticDataset.WriteSample | 1_image_generator.py:164-169 | with no polygon nothing is written; otherwise the picture and its label text are stored under their paths |
| ImageGenerator.SyntheticDataset.GenerateSample | 1_image_generator.py:108-169 | an unreadable background, a size below 10 and an empty polygon list each skip the sample and write nothing; otherwise the composited picture and its label go under `syn_<iiiii>` in the drawn split; the new files are `SampleFiles` of the old |
| ImageGenerator.SyntheticDataset.GenerateDataset | 1_image_generator.py:71-169 | a missing watermark file, no backgrounds, an unreadable or a greyscale watermark each stop with nothing written; otherwise the files are `GeneratedFiles` of the old ones, the loop's iterations one after the other |
| ImageGenerator.GeneratedFilesSnoc | 1_image_generator.py:108-169 | the loop over some draws is the last iteration after the loop over the others |
| ImageGenerator.GeneratedLabels | 1_image_generator.py:108-169 | the loop only adds files, and every label file after it is an old one unchanged or a generated one, which `fix_labels` leaves alone |
| ImageGenerator.SamplePathsDistinct | 1_image_generator.py:165-167 | two iterations never write the same image or label path |
| ImageGenerator.SampleFiles | 1_image_generator.py:108-169 | the files after one iteration: its properties are stated by `SampleFilesElsewhere` and `SampleFilesHere` |
| ImageGenerator.GeneratedFiles | 1_image_generator.py:108-169 | the files after the loop: its properties are stated by `GeneratedLabels`, `GeneratedSample` and `GeneratedPathsUntouched` |
| ImageGenerator.SampleFilesElsewhere | 1_image_generator.py:164-169 | an iteration leaves the paths of every other sample as they were |
| ImageGenerator.SampleFilesHere | 1_image_generator.py:164-169 | an iteration writes its composited image and label exactly when it writes, and leaves its paths alone otherwise |
| ImageGenerator.SampleAsLeftKept | 1_image_generator.py:108-169 | later iterations keep what an iteration left at its paths |
| ImageGenerator.GeneratedPathsUntouched | 1_image_generator.py:108-169 | iterations before sample `k` leave its paths as they were |
| ImageGenerator.GeneratedSample | 1_image_generator.py:108-169 | after the loop, sample `k` holds its composited image and polygons' label exactly when its background is readable, its size at least 10 and its mask gives a polygon; otherwise its paths hold what they held before |
| ImageGenerator.SampleWrittenIsClean | 1_image_generator.py:162-169 | a written sample's label text is already fixed: `fix_labels` changes nothing |
| PrepareDataset.ValidPairs | 1_prepare_dataset.py:41-49 | the paired images: their membership is stated by `ValidPairsMembers` |
| PrepareDataset.ValidPairsMembers | 1_prepare_dataset.py:41-49 | a file is kept exactly when it is an image by suffix and its `.txt` sibling exists |
| PrepareDataset.PairWithLabels | 1_prepare_dataset.py:45-49 | the pairing loop keeps, in order, the files whose label exists |
| PrepareDataset.ValidFiles | 1_prepare_dataset.py:41-49 | the listing filtered by suffix and then by label, with the membership rule above |
| PrepareDataset.TrainCount | 1_prepare_dataset.py:57 | the split index is at most n, and 5k <= 4n < 5k + 5 |
| PrepareDataset.SplitTrainVal | 1_prepare_dataset.py:56-59 | train followed by val is the shuffled list, and train has the split index's length |
| PrepareDataset.SplitDisjoint | 1_prepare_dataset.py:56-59 | with distinct files, no file is both in train and in val |
| PrepareDataset.Copied | 1_prepare_dataset.py:64-71 | the destination tree after `copy_set`: its properties are stated by `CopiedImage`, `CopiedLabel` and `CopiedFrame` |
| PrepareDataset.CopiedImage | 1_prepare_dataset.py:69 | every copied image lands in `images/<split>/` under its name, with its content |
| PrepareDataset.CopiedLabel | 1_prepare_dataset.py:71 | every copied label lands in `labels/<split>/` under its name, with its content |
| PrepareDataset.CopiedFrame | 1_prepare_dataset.py:64-71 | a path that the copy does not target keeps its old content |
| PrepareDataset.CopiedPlaces | 1_prepare_dataset.py:64-71 | the images and labels are all placed, and every other path is unchanged |
| PrepareDataset.PreparedDir.CopySet | 1_prepare_dataset.py:64-71 | `copy_set` leaves the destination equal to the copied map |
| PrepareDataset.PreparedDir.PrepareData | 1_prepare_dataset.py:27-87 | a missing source folder or no pairs stops with nothing written; otherwise train and val are copied and `data.yaml` is written |
| PrepareDataset.FixLine | 1_prepare_dataset.py:112-127 | a blank line is dropped; a line with class 0 is kept as it is; any other line has its first token replaced by `0` and ends in a newline |
| PrepareDataset.FixFileLines | 1_prepare_dataset.py:109-127 | the line loop returns the fixed lines, and `changed` is set exactly when some line needed fixing |
| PrepareDataset.FixedLinesAreFixed | 1_prepare_dataset.py:109-127 | no fixed line needs fixing again |
| PrepareDataset.FixedLinesWellFormed | 1_prepare_dataset.py:109-127 | fixing keeps the lines well formed |
| PrepareDataset.FixLineRebuiltShape | 1_prepare_dataset.py:121-123 | a rebuilt line is a single line ending in a newline |
| PrepareDataset.FixedContent | 1_prepare_dataset.py:104-133 | one label file after `fix_labels`: its properties are stated by `FixedContentIsFixed` |
| PrepareDataset.FixedContentIsFixed | 1_prepare_dataset.py:104-133 | a fixed file, read back, has no line to fix, and fixing it again changes nothing |
| PrepareDataset.RerunRewritesNothing | 1_prepare_dataset.py:93-135 | after one run, a second run counts no file to fix |
| PrepareDataset.FixedAll | 1_prepare_dataset.py:104-133 | the label files after `fix_labels`: their properties are stated by `FixedAllContents` and `FixLabelsIdempotent` |
| PrepareDataset.FixedAllContents | 1_prepare_dataset.py:104-133 | the run keeps the set of files, fixes each listed file and leaves the others alone |
| PrepareDataset.FixLabelsIdempotent | 1_prepare_dataset.py:93-135 | running `fix_labels` twice is the same as running it once |
| PrepareDataset.LabelsDir.FixFile | 1_prepare_dataset.py:104-133 | one file is rewritten to its fixed content, and the result says whether a line needed fixing |
| PrepareDataset.LabelsDir.FixLabels | 1_prepare_dataset.py:93-135 | with no label folder nothing changes; otherwise every listed file is fixed and the count is the number of files that needed it |
| RunPipeline.Listing | 3_run_pipeline.py:105 | `iterdir()` lists every name of the folder exactly once, in an order left open |
| RunPipeline.ListFolder | 3_run_pipeline.py:105 | the listing built holds every name of the folder exactly once |
| RunPipeline.Candidates | 3_run_pipeline.py:102-110 | the candidates of a listing are exactly its regular files with an accepted suffix; a listing that raised gives none |
| RunPipeline.TurnCandidates | 3_run_pipeline.py:102-125 | a turn's batch is sorted, holds each name once, and holds exactly the folder's regular files with an accepted suffix; it is empty when `iterdir()` raised |
| RunPipeline.NoCandidates | 3_run_pipeline.py:102-113 | a turn has no batch exactly when `iterdir()` raised or no regular file with an accepted suffix is in the folder |
| RunPipeline.ScanOrderIrrelevant | 3_run_pipeline.py:105-125 | whatever order `iterdir()` lists the folder in, sorting the candidates gives the same batch |
| RunPipeline.ScanFolder | 3_run_pipeline.py:102-125 | listing the folder, keeping the candidates and sorting them gives the turn's batch |
| Seqs.SameMembersPermutation | 3_run_pipeline.py:105-110 | two duplicate-free lists of the same names are permutations of each other |
| Seqs.NoDupsPermutation | 3_run_pipeline.py:125 | sorting a duplicate-free list leaves it duplicate-free |
| Seqs.SortedUnique | 3_run_pipeline.py:125 | a collection of names has exactly one sorted order, so `sort()` depends only on the names |
| Seqs.LexLeAntisymmetric | 3_run_pipeline.py:125 | two names each at most the other are equal |
| RunPipeline.SortNames | 3_run_pipeline.py:125 | `sort()` gives a sorted permutation of the candidates |
| RunPipeline.SortNamesSameNames | 3_run_pipeline.py:125 | sorting keeps the length and the set of names |
| RunPipeline.SavedRule | 3_run_pipeline.py:43-44 | a save writes only the named output folder, under the given name |
| RunPipeline.MovedSourceRule | 3_run_pipeline.py:47-56 | the move leaves the outputs alone and changes the archive only under the source's name |
| RunPipeline.MoveRule | 3_run_pipeline.py:37-60 | when nothing fails, the source moves into the archive with its content and leaves the input folder; nothing else moves |
| RunPipeline.SaveRule | 3_run_pipeline.py:37-60 | a result is saved exactly when the result and the path are given and the save succeeds |
| RunPipeline.WorkerKeepsOutputs | 3_run_pipeline.py:37-60 | a worker never adds input files and never removes outputs |
| RunPipeline.Saved | 3_run_pipeline.py:43-44 | the save step: its properties are stated by `SavedRule` |
| RunPipeline.MovedSource | 3_run_pipeline.py:47-56 | the move step: its properties are stated by `MovedSourceRule` and `MoveRule` |
| RunPipeline.AfterWorker | 3_run_pipeline.py:37-60 | the whole worker job: its properties are stated by `SaveRule`, `MoveRule` and `WorkerKeepsOutputs` |
| RunPipeline.Route | 3_run_pipeline.py:142-171 | one image of the batch loop: its properties are stated by `RouteTargets` |
| RunPipeline.RouteTargets | 3_run_pipeline.py:142-171 | a cleaned image goes to the clean folder, a skipped one goes unchanged to `skipped`, and an unreadable one changes nothing |
| RunPipeline.RunBatch | 3_run_pipeline.py:139-175 | the batch loop gives one outcome per image; its properties are stated by `BatchTurnLast` and `OutcomesAddUp` |
| RunPipeline.OutcomesAddUp | 3_run_pipeline.py:159-182 | cleaned, skipped and failed add up to the batch size, and processed is the batch size minus the skipped |
| RunPipeline.Summarise | 3_run_pipeline.py:62-77 | the summary fails exactly for a non-empty batch with zero elapsed time (`ZeroDivisionError`); otherwise processed is total minus skipped, and seconds per photo and FPS are given only for a non-empty batch and multiply back to the elapsed time |
| RunPipeline.Tick | 3_run_pipeline.py:100-182 | one turn as a function of the folders, the flag and the scan: its properties are stated by `TickRule`, `TickIdle` and `TickBatch` |
| RunPipeline.TickRule | 3_run_pipeline.py:100-182 | a turn is idle exactly when `iterdir()` raised or the folder, with its arrivals, holds no candidate; it sets the flag exactly when idle, prints the waiting message exactly when the flag was clear, and then changes the folders only by the arrivals; it crashes exactly when it has candidates and zero elapsed time |
| RunPipeline.TickIdle | 3_run_pipeline.py:112-119 | a turn without candidates takes in the arrivals, sets the flag and shows `Idle` |
| RunPipeline.TickBatch | 3_run_pipeline.py:121-182 | a turn with candidates runs them as a batch in sorted order and ends with its summary, or crashes if the summary raises |
| RunPipeline.WaitingPatternSnoc | 3_run_pipeline.py:113-122 | a turn that prints the message exactly when the flag is clear keeps the once-per-idle-period pattern |
| RunPipeline.ContinuePattern | 3_run_pipeline.py:99-186 | one more turn keeps the waiting pattern and the flag in step with it |
| RunPipeline.RunScansPattern | 3_run_pipeline.py:99-186 | over any run of scans, the waiting message appears exactly on the first idle turn after a batch (or at the start, if the flag was clear), and the flag ends as the last turn left it |
| RunPipeline.ContinueShape | 3_run_pipeline.py:99-187 | after a crash nothing more happens; otherwise a turn adds one event, and a crash only for zero elapsed time |
| RunPipeline.RunScansShape | 3_run_pipeline.py:99-187 | a run has one event per scan up to the first crash, which is the last event, and a crash comes only from a scan with zero elapsed time |
| RunPipeline.RunScansSnoc | 3_run_pipeline.py:99-186 | the run over one more scan is the run so far continued by that scan's turn |
| RunPipeline.RunScansStep | 3_run_pipeline.py:99-186 | a run that has not crashed is continued by the next turn's folders, flag and event |
| RunPipeline.RunScansStopped | 3_run_pipeline.py:187 | once a turn has crashed, later scans change nothing |
| RunPipeline.RunScansDone | 3_run_pipeline.py:99-187 | a run left at its end or at a crash is the whole run, and has the waiting pattern and the shape above |
| RunPipeline.Watchdog.SaveAndMove | 3_run_pipeline.py:37-60 | the folders after the worker are its save and then its move |
| RunPipeline.Watchdog.MoveToArchive | 3_run_pipeline.py:47-56 | the folders after the move step are as the move rule says |
| RunPipeline.Watchdog.RouteImage | 3_run_pipeline.py:142-171 | the folders and the outcome are those of routing the image |
| RunPipeline.Watchdog.ProcessBatch | 3_run_pipeline.py:139-175 | the folders are those after the batch, and the skipped count is the number of skipped outcomes |
| RunPipeline.Watchdog.Step | 3_run_pipeline.py:100-182 | the folders, the flag and the event are those of `Tick`: the turn is idle exactly when `iterdir()` raised or no candidate is in the folder with its arrivals; an idle turn prints the waiting message only if the flag was clear, sets it and changes the folders only by the arrivals; otherwise the batch runs in sorted order and its summary is returned, or the turn crashes when no time elapsed |
| RunPipeline.Watchdog.Run | 3_run_pipeline.py:99-187 | the folders, the flag and the events are those of `RunScans`; the events follow the waiting pattern, and the run ends early only on a crash |
| ImgRename.AcceptedSuffixNonEmpty | img_rename.py:20 | an accepted image always has a non-empty suffix |
| ImgRename.ImageFiles | img_rename.py:23-26 | the images are the regular files of the listing with an accepted suffix |
| ImgRename.Rename | img_rename.py:43 | one `rename`: its properties are stated by `RenameEffect` |
| ImgRename.RenameEffect | img_rename.py:43 | a rename succeeds exactly when it is allowed, moves the entry to the new name and changes nothing else; a failed one changes nothing |
| ImgRename.TempNameKeepsSuffix | img_rename.py:39 | a temporary name keeps the image's suffix |
| ImgRename.TempNames | img_rename.py:39 | one temporary name per image, `<uuid><suffix>` |
| ImgRename.Phase1 | img_rename.py:36-46 | phase 1 hands on at most one temporary name per image; its properties are stated by `Phase1Temps`, `Phase1AllRenamed` and `Phase1TempsDistinct` |
| ImgRename.Phase1Temps | img_rename.py:36-46 | every name handed to phase 2 is one of the temporary names |
| ImgRename.MoveAllMoved | img_rename.py:43 | with no clashes, each image ends up under its temporary name with its content |
| ImgRename.MoveAllOther | img_rename.py:43 | names that are neither images nor temporary names are untouched |
| ImgRename.Phase1AllRenamed | img_rename.py:36-46 | when no rename fails or clashes, phase 1 moves every image and hands on every temporary name |
| ImgRename.Phase2From | img_rename.py:53-63 | phase 2 from a given turn renames at most the temporary names left; its properties are stated by `Phase2FromTemps`, `Phase2FromFrame` and `Phase2FromPlacement` |
| ImgRename.Phase2 | img_rename.py:53-63 | phase 2 from a counter of 1 renames at most the temporary names given; its properties are stated by `Phase2AllRenamed` and `RenameResult` |
| ImgRename.Phase2FromTemps | img_rename.py:53-63 | phase 2 reports only temporary names it was given |
| ImgRename.Phase2AllRenamed | img_rename.py:53-63 | when no rename fails or clashes, the k-th temporary file becomes `img_<k+1><suffix>` |
| ImgRename.FinalNames | img_rename.py:56 | the k-th renamed file gets `img_<k+1><suffix>` |
| ImgRename.FinalNamesDiffer | img_rename.py:56 | different counters give different final names, whatever the suffixes |
| ImgRename.FinalNamesDistinct | img_rename.py:56 | the final names of a run are pairwise distinct |
| ImgRename.TempsHaveSuffixes | img_rename.py:39 | every temporary name still has an accepted suffix |
| ImgRename.TempNameInjective | img_rename.py:39 | temporary names from different UUIDs differ |
| ImgRename.TempNamesDistinct | img_rename.py:39 | with distinct UUIDs the temporary names are distinct, each has a suffix and none begins with `i`, so none is a final name |
| ImgRename.Phase1TempsDistinct | img_rename.py:36-46 | phase 1 hands on each temporary name at most once |
| ImgRename.Phase2FromPlacement | img_rename.py:53-63 | whichever renames fail, the k-th file renamed from counter c is under its final name with its content, and its temporary name is gone |
| ImgRename.RenamedPlacement | img_rename.py:36-63 | with distinct UUIDs, each file renamed in phase 2 is under `img_<k+1><suffix>` with the content it had after phase 1 |
| ImgRename.Folder.RenameToTemporary | img_rename.py:36-46 | the first loop leaves the folder and the temporary list as phase 1 defines them |
| ImgRename.Folder.RenameToFinal | img_rename.py:53-65 | the second loop leaves the folder as phase 2 defines it, and the total is the number of successful renames |
| ImgRename.Folder.BatchRename | img_rename.py:14-65 | a missing folder or no images changes nothing; otherwise the folder is the result of both phases and the total is reported |
| ImgRename.RenameResult | img_rename.py:14-65 | the final names of a run are pairwise distinct, and every renamed file has an accepted suffix |
| BenchDetector.FileNameInjective | benchmarks/1_bench_detector.py:47-66 | distinct output files have distinct file names |
| BenchDetector.Selected | benchmarks/1_bench_detector.py:25-27 | the images are the listed names whose lower-cased suffix is accepted |
| BenchDetector.BmpSelected | benchmarks/1_bench_detector.py:26-27 | `.bmp` files are selected in either letter case |
| BenchDetector.DetectorMarksShape | benchmarks/1_bench_detector.py:53-63 | two rectangles per box, in order: the box in blue, width 2, then its padded box in red, width 3, inside the image |
| BenchDetector.DrawMarks | benchmarks/1_bench_detector.py:53-63 | the drawing loop draws exactly those rectangles |
| BenchDetector.CheckFile | benchmarks/1_bench_detector.py:36-70 | the file saved for one image, if any: its properties are stated by `CheckFileNamed` and `CheckedContents` |
| BenchDetector.Checked | benchmarks/1_bench_detector.py:35-70 | the result folder after the loop: its properties are stated by `CheckedExactly` and `CheckedContents` |
| BenchDetector.CheckFileNamed | benchmarks/1_bench_detector.py:44-66 | the file saved for an image is named after that image |
| BenchDetector.CheckedExactly | benchmarks/1_bench_detector.py:35-70 | the folder holds exactly the files saved for the images handled |
| BenchDetector.CheckedContents | benchmarks/1_bench_detector.py:35-70 | a `MISSED_` file is an image with no detections, saved unchanged; a `checked_` file is an image with detections, drawn with its rectangles; no image gets both |
| BenchDetector.ResultFolder.CheckImage | benchmarks/1_bench_detector.py:36-70 | one image adds its saved file, if any, and nothing else |
| BenchDetector.ResultFolder.TestDetector | benchmarks/1_bench_detector.py:11-72 | a failed load or no images stops with an empty folder; otherwise the folder holds the checked files |
| BenchSegmenter.FileNameInjective | benchmarks/2_bench_segmenter.py:63 | distinct output files have distinct file names |
| BenchSegmenter.Selected | benchmarks/2_bench_segmenter.py:20 | the images are the listed names whose lower-cased suffix is accepted |
| BenchSegmenter.BmpNotSelected | benchmarks/2_bench_segmenter.py:20 | `.bmp` files are not segmented |
| BenchSegmenter.SegmenterMarksShape | benchmarks/2_bench_segmenter.py:56-61 | one blue rectangle of width 2 per box: its padded box, inside the image, containing a box that lies in the image |
| BenchSegmenter.DrawMarks | benchmarks/2_bench_segmenter.py:58-61 | the drawing loop draws exactly those rectangles |
| BenchSegmenter.SegmentFile | benchmarks/2_bench_segmenter.py:24-67 | the picture saved for one image, if any: its properties are stated by `SegmentedContents` |
| BenchSegmenter.Segmented | benchmarks/2_bench_segmenter.py:23-67 | the result folder after the loop: its properties are stated by `SegmentedExactly` and `SegmentedContents` |
| BenchSegmenter.SegmentedExactly | benchmarks/2_bench_segmenter.py:23-67 | the folder holds a `seg_` file exactly for the images that had one saved |
| BenchSegmenter.SegmentedContents | benchmarks/2_bench_segmenter.py:23-67 | each saved file is an image with detections, overlaid and drawn; an image whose save succeeds is saved exactly when it has detections and a padding |
| BenchSegmenter.ResultFolder.SegmentImage | benchmarks/2_bench_segmenter.py:24-67 | one image adds its `seg_` file, if any, and nothing else |
| BenchSegmenter.ResultFolder.TestSegmenter | benchmarks/2_bench_segmenter.py:11-67 | a failed load leaves an empty folder; otherwise the folder holds the segmented files |
| PaddedBox.PaddedInImage | benchmarks/1_bench_detector.py:58-61 | the padded box never leaves the image |
| PaddedBox.PaddedReachesBox | benchmarks/1_bench_detector.py:58-61 | with padding of at least 0, the padded box reaches at least to the box on every side inside the image |
| PaddedBox.PaddedContainsBox | benchmarks/1_bench_detector.py:58-63 | a box inside the image lies within its padded box, and the padded box of a box that is not inverted is not inverted |
| PaddedBox.PaddedCovers | benchmarks/2_bench_segmenter.py:59-60 | the padded box covers exactly the points of the grown box that lie in the image |
| PaddedBox.PaddedAwayFromEdges | benchmarks/2_bench_segmenter.py:59-60 | a box at least `pad` away from every edge is simply grown |
| PaddedBox.PaddedByZero | benchmarks/1_bench_detector.py:58-61 | a padding of 0 leaves a box inside the image as it is |
| PaddedBox.PaddedIdempotent | benchmarks/1_bench_detector.py:58-61 | clamping again changes nothing |
| Paths.SuffixShape | img_rename.py:39 | the suffix is empty exactly when the last dot is missing, first or last; otherwise it is a dot and a dot-free tail that ends the name |
| Paths.StemAndSuffix | 1_prepare_dataset.py:47 | the stem followed by the suffix is the name |
| Paths.SuffixOfPrefixed | img_rename.py:39 | a dot-free prefix followed by a suffix has exactly that suffix |
| Paths.Lower | img_rename.py:25 | `lower()` keeps the length and maps each character on its own |
| Decimal.NatToString | img_rename.py:56 | `str(n)` is a non-empty run of digits with no leading zero |
| Decimal.ValueOfNatToString | img_rename.py:56 | reading `str(n)` back gives n |
| Decimal.NatToStringInjective | img_rename.py:56 | distinct numbers have distinct decimal texts |
| Decimal.ZeroPad | 1_image_generator.py:165 | `:05d` keeps the value and pads with zeros to the width |
| Decimal.ZeroPadWidth | 1_image_generator.py:165 | a number below 10^width is padded to exactly that width |
| Seqs.Filter | 1_prepare_dataset.py:42 | a comprehension keeps exactly the members that pass its test |
| Seqs.Insert | 3_run_pipeline.py:125 | insertion into a sorted list keeps it sorted and adds exactly the element |
| Seqs.LexLeTotal | 3_run_pipeline.py:125 | any two names compare one way or the other |
| Seqs.LexLeTransitive | 3_run_pipeline.py:125 | name order is transitive |
| LabelText.Tokens | 1_prepare_dataset.py:113 | `split()` yields only non-empty runs with no whitespace |
| LabelText.TokensOfJoinedLine | 1_prepare_dataset.py:123 | words joined by spaces, plus a newline, split back into the words |
| LabelText.ConcatReadLines | 1_prepare_dataset.py:106-107 | writing back the lines read gives the same text |
| LabelText.ReadLinesWellFormed | 1_prepare_dataset.py:107 | the lines read are well formed: each one ends in a newline except perhaps the last |
| LabelText.ReadLinesConcat | 1_prepare_dataset.py:131-132 | reading back lines that were written gives the same lines when they are well formed |

## Left out

- The generator's `data.yaml` (1_image_generator.py:171-178) is not modelled: `GenerateDataset` ends with the sample loop and writes no `data.yaml`.
- The contents of the preparation script's `data.yaml` (1_prepare_dataset.py:77-87) are not modelled. `PrepareData` takes the YAML text as a parameter and writes it as one file.
- Folder creation and removal (`mkdir`, `rmtree`, `setup_structure`) is left out. Every folder is taken to exist. The benchmarks start from an empty result folder.
- Floating-point behaviour is left out. The alpha blend at its opacity, the blur, the grey level of a pixel and resize interpolation are opaque parameters. `:.6f` is a parameter too.
- ImageGenerator.TintChannel: `color[c] * (gray / 255.0)` is computed exactly and then truncated. A floating-point product just below a whole number, which truncates one lower, is not modelled.
- `int(x * 0.8)`, `int(h * 0.9)` and `int(x * (a / b))` are computed in exact rationals, not in floating point.
- Randomness is left out. The split choice, background choice, inversion, rotation, blur and its kernel, recolouring and its colour, scale, opacity, offsets, shuffle and UUIDs are inputs.
- ImgRename.RenamedPlacement: it assumes distinct UUIDs. `uuid4` does not guarantee that; collisions are only improbable.
- The watchdog's thread pool is run sequentially. Each job finishes before the next image is read, so different jobs never interleave.
- The models of the watchdog (3_run_pipeline.py:86-92) are taken as loaded. So are the detector's (benchmarks/1_bench_detector.py:18-22) beyond a success flag.
- The watchdog's `while True` loop is modelled as a finite run of scans. Each scan carries, as inputs, the files that arrive before it, whether `iterdir()` raises and its measured batch time. The clock itself, the sleep, `KeyboardInterrupt` and the shutdown are not modelled.
- RunPipeline.Watchdog.Run: other programs only add files to the input folder. A file that someone else deletes, renames or rewrites is not modelled. A file that arrives while a batch runs is taken in at the start of the next turn, when the next `iterdir()` would first see it. If it arrives under the name of an image of the running batch before that image is moved, the source would move the new file instead; that is not modelled.
- Logging, printing, `tqdm` and the confirmation prompt of img_rename.py:68-76 are left out. Console output is not state.
- Text is read after newline translation, and `lower()` is ASCII only. Unicode case mapping is not modelled.
- Renames and name order follow POSIX semantics. The Windows behaviour is not modelled. There `rename` fails when the target exists, and `WindowsPath` sorts names without regard to case, which changes only the order a watchdog batch is processed in. The model sorts by code point, as `PosixPath` does.
- PIL drawing, `Image.composite`, the overlay pixels and the `paste` are left out. They are parameters, or dropped where their result is unused (benchmarks/2_bench_segmenter.py:43).
- PIL raising on an inverted padded rectangle is not modelled.
- core/detector.py is not part of this model. The benchmarks call a `.detect` method that it does not define, so the boxes are inputs.
- BenchDetector.ResultFolder.TestDetector: the script imports `WatermarkDetector` from core/detector.py (benchmarks/1_bench_detector.py:5), which defines only `YourClassDetector` (core/detector.py:12). As the repository stands, the script stops with `ImportError` before any file is processed. The model describes a run whose import succeeds.
- BenchSegmenter.ResultFolder.TestSegmenter: the same import (benchmarks/2_bench_segmenter.py:5) fails the same way. The model describes a run whose import succeeds.
- PrepareDataset.PreparedDir.PrepareData: a source entry is a regular file. A directory named like an image (`x.jpg/`) and paired with `x.txt` is not modelled; `shutil.copy` would raise on it (1_prepare_dataset.py:69). A copy that raises part-way (1_prepare_dataset.py:69, 71), leaving some files copied and no `data.yaml`, is not modelled either. I/O errors are outside the model.
- PrepareDataset.LabelsDir.FixLabels: every matched `.txt` is a readable text file. `open`/`readlines` raising (1_prepare_dataset.py:106-107), on undecodable text or a directory matched by `rglob`, would stop the pass after the earlier rewrites. That is not modelled.
- PrepareDataset.TrainCount: `int(n * 0.8)` is taken as the exact 4n/5. Floating-point rounding of n * 0.8 is not modelled.
- PaddedBox.PaddedReachesBox: the left and top sides are covered only for an edge of at least 0. A negative edge is clamped to 0, and a padded edge at 0 does not reach back past it.
- ImgRename.RenamedPlacement: final contents are related to the temporary file after phase 1, not to the original image. An image whose temporary rename failed can collide with a final name.
