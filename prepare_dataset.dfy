/** `1_prepare_dataset.py`: pairing the hand-labelled images of `dataset_raw` with
    their `.txt` labels, the shuffled train/val split, the copy into
    `datasets/prepared`, and the `fix_labels` pass that forces class id "0". */
module PrepareDataset {
  import opened Seqs
  import opened Paths
  import opened LabelText

  const ImageExtensions: set<string> := {".jpg", ".jpeg", ".png", ".webp"}

  predicate IsImageName(name: string)
  {
    HasSuffixIn(name, ImageExtensions)
  }

  /** `img_path.with_suffix(".txt").name`. */
  function LabelName(image: string): string
  {
    WithSuffix(image, ".txt")
  }

  /** The images of the listing that have a sibling label, in listing order. */
  function ValidPairs(source: map<string, string>, listing: seq<string>): seq<string>
  {
    Filter(Filter(listing, IsImageName), HasLabelIn(source))
  }

  /** `img_path.with_suffix(".txt").exists()`, as a test on image names. */
  function HasLabelIn(source: map<string, string>): string -> bool
  {
    image => LabelName(image) in source
  }

  /** A name is a valid pair exactly when it is listed, is an image and its label
      is listed too. */
  lemma ValidPairsMembers(source: map<string, string>, listing: seq<string>)
    requires forall n :: n in listing <==> n in source
    ensures forall n :: n in ValidPairs(source, listing) <==> n in source && IsImageName(n) && LabelName(n) in source
  {
    var files := Filter(listing, IsImageName);
    forall n ensures n in ValidPairs(source, listing) <==> n in files && HasLabelIn(source)(n) {
    }
  }

  /** The pairing loop: keeps, in order, the images whose label exists. */
  method PairWithLabels(source: map<string, string>, files: seq<string>) returns (valid: seq<string>)
    ensures valid == Filter(files, HasLabelIn(source))
  {
    var hasLabel := HasLabelIn(source);
    valid := [];
    var i := 0;
    while i < |files|
      invariant 0 <= i <= |files|
      invariant valid == Filter(files[..i], hasLabel)
    {
      FilterSnoc(files, i, hasLabel);
      assert hasLabel(files[i]) == (LabelName(files[i]) in source);
      if LabelName(files[i]) in source {
        valid := valid + [files[i]];
      }
      i := i + 1;
    }
    assert files[..|files|] == files;
  }

  /** The comprehension and the pairing loop that build `valid_files`. */
  method ValidFiles(source: map<string, string>, listing: seq<string>) returns (valid: seq<string>)
    requires forall n :: n in listing <==> n in source
    ensures valid == ValidPairs(source, listing)
    ensures forall n :: n in valid <==> n in source && IsImageName(n) && LabelName(n) in source
  {
    var files := Filter(listing, IsImageName);
    valid := PairWithLabels(source, files);
    ValidPairsMembers(source, listing);
  }

  /** `int(n * 0.8)`, exact for every n as 4n/5: the floor of four fifths of n. */
  function TrainCount(n: nat): (k: nat)
    ensures k <= n && 5 * k <= 4 * n < 5 * k + 5
  {
    4 * n / 5
  }

  /** `valid_files[:split_idx], valid_files[split_idx:]`. */
  function SplitTrainVal<T>(shuffled: seq<T>): (r: (seq<T>, seq<T>))
    ensures r.0 + r.1 == shuffled
    ensures |r.0| == TrainCount(|shuffled|)
  {
    var k := TrainCount(|shuffled|);
    assert shuffled[..k] + shuffled[k..] == shuffled;
    (shuffled[..k], shuffled[k..])
  }

  /** With distinct names no file lands in both splits. */
  lemma SplitDisjoint<T>(shuffled: seq<T>)
    requires NoDups(shuffled)
    ensures forall x :: x in SplitTrainVal(shuffled).0 ==> x !in SplitTrainVal(shuffled).1
  {
    var (train, val) := SplitTrainVal(shuffled);
    forall x | x in train ensures x !in val {
      var i :| 0 <= i < |train| && train[i] == x;
      forall j | 0 <= j < |val| ensures val[j] != x {
        assert shuffled[i] == x && shuffled[|train| + j] == val[j];
      }
    }
  }

  /** A path under `datasets/prepared`: `data.yaml`, `images/<split>/<name>` or
      `labels/<split>/<name>`. */
  datatype DestPath = DataYaml | ImageFile(split: string, name: string) | LabelFile(split: string, name: string)

  predicate Paired(source: map<string, string>, files: seq<string>)
  {
    forall k :: 0 <= k < |files| ==> files[k] in source && LabelName(files[k]) in source
  }

  /** The destination tree after `copy_set(files, split)`, one file at a time. */
  function Copied(dest: map<DestPath, string>, source: map<string, string>, files: seq<string>, split: string): map<DestPath, string>
    requires Paired(source, files)
  {
    if files == [] then dest
    else
      var f := files[|files| - 1];
      Copied(dest, source, files[..|files| - 1], split)
        [ImageFile(split, f) := source[f]]
        [LabelFile(split, LabelName(f)) := source[LabelName(f)]]
  }

  /** The paths `copy_set(files, split)` writes. */
  predicate Touched(p: DestPath, files: seq<string>, split: string)
  {
    exists k :: 0 <= k < |files| && (p == ImageFile(split, files[k]) || p == LabelFile(split, LabelName(files[k])))
  }

  lemma PairedPrefix(source: map<string, string>, files: seq<string>, n: nat)
    requires Paired(source, files) && n <= |files|
    ensures Paired(source, files[..n])
  {
    forall k | 0 <= k < n ensures files[..n][k] == files[k] { }
  }

  /** Copying one more file writes its image and then its label. */
  lemma CopiedSnoc(dest: map<DestPath, string>, source: map<string, string>, files: seq<string>, split: string, i: nat)
    requires Paired(source, files) && i < |files|
    ensures Paired(source, files[..i]) && Paired(source, files[..i + 1])
    ensures files[i] in source && LabelName(files[i]) in source
    ensures Copied(dest, source, files[..i + 1], split)
      == Copied(dest, source, files[..i], split)
           [ImageFile(split, files[i]) := source[files[i]]]
           [LabelFile(split, LabelName(files[i])) := source[LabelName(files[i])]]
  {
    PairedPrefix(source, files, i);
    PairedPrefix(source, files, i + 1);
    assert files[..i + 1][..i] == files[..i];
  }

  /** Every copied image is under `images/<split>/` with its name unchanged. */
  lemma {:induction false} CopiedImage(dest: map<DestPath, string>, source: map<string, string>, files: seq<string>, split: string, k: nat)
    requires Paired(source, files) && k < |files|
    ensures ImageFile(split, files[k]) in Copied(dest, source, files, split)
    ensures Copied(dest, source, files, split)[ImageFile(split, files[k])] == source[files[k]]
  {
    var g := files[k];
    if k < |files| - 1 {
      PairedPrefix(source, files, |files| - 1);
      assert files[..|files| - 1][k] == g;
      CopiedImage(dest, source, files[..|files| - 1], split, k);
    }
  }

  /** Every copied label is under `labels/<split>/` with its name unchanged. */
  lemma {:induction false} CopiedLabel(dest: map<DestPath, string>, source: map<string, string>, files: seq<string>, split: string, k: nat)
    requires Paired(source, files) && k < |files|
    ensures LabelFile(split, LabelName(files[k])) in Copied(dest, source, files, split)
    ensures Copied(dest, source, files, split)[LabelFile(split, LabelName(files[k]))] == source[LabelName(files[k])]
  {
    var g := files[k];
    if k < |files| - 1 {
      PairedPrefix(source, files, |files| - 1);
      assert files[..|files| - 1][k] == g;
      CopiedLabel(dest, source, files[..|files| - 1], split, k);
    }
  }

  /** `copy_set` leaves every other path as it was and adds no other path. */
  lemma {:induction false} CopiedFrame(dest: map<DestPath, string>, source: map<string, string>, files: seq<string>, split: string, p: DestPath)
    requires Paired(source, files) && !Touched(p, files, split)
    ensures p in Copied(dest, source, files, split) <==> p in dest
    ensures p in dest ==> Copied(dest, source, files, split)[p] == dest[p]
  {
    if files != [] {
      var init := files[..|files| - 1];
      PairedPrefix(source, files, |files| - 1);
      assert !Touched(p, init, split);
      assert p != ImageFile(split, files[|files| - 1]) && p != LabelFile(split, LabelName(files[|files| - 1]));
      CopiedFrame(dest, source, init, split, p);
    }
  }

  /** `copy_set` places every image under `images/<split>/` and its label under
      `labels/<split>/` with their names unchanged, and touches nothing else. */
  lemma CopiedPlaces(dest: map<DestPath, string>, source: map<string, string>, files: seq<string>, split: string)
    requires Paired(source, files)
    ensures forall k :: 0 <= k < |files| ==>
      && ImageFile(split, files[k]) in Copied(dest, source, files, split)
      && Copied(dest, source, files, split)[ImageFile(split, files[k])] == source[files[k]]
      && LabelFile(split, LabelName(files[k])) in Copied(dest, source, files, split)
      && Copied(dest, source, files, split)[LabelFile(split, LabelName(files[k]))] == source[LabelName(files[k])]
    ensures forall p :: !Touched(p, files, split) ==>
      (p in Copied(dest, source, files, split) <==> p in dest)
      && (p in dest ==> Copied(dest, source, files, split)[p] == dest[p])
  {
    forall k | 0 <= k < |files|
      ensures ImageFile(split, files[k]) in Copied(dest, source, files, split)
      ensures Copied(dest, source, files, split)[ImageFile(split, files[k])] == source[files[k]]
      ensures LabelFile(split, LabelName(files[k])) in Copied(dest, source, files, split)
      ensures Copied(dest, source, files, split)[LabelFile(split, LabelName(files[k]))] == source[LabelName(files[k])]
    {
      CopiedImage(dest, source, files, split, k);
      CopiedLabel(dest, source, files, split, k);
    }
    forall p | !Touched(p, files, split)
      ensures p in Copied(dest, source, files, split) <==> p in dest
      ensures p in dest ==> Copied(dest, source, files, split)[p] == dest[p]
    {
      CopiedFrame(dest, source, files, split, p);
    }
  }

  /** What `prepare_data` reports. */
  datatype PrepareOutcome = NoSourceDir | NoPairs | Prepared(train: seq<string>, val: seq<string>)

  /** `datasets/prepared`, as a map from relative path to content. */
  class PreparedDir {
    var contents: map<DestPath, string>

    constructor (initial: map<DestPath, string>)
      ensures contents == initial
    {
      contents := initial;
    }

    /** `copy_set(files_list, split_name)`. */
    method CopySet(source: map<string, string>, files: seq<string>, split: string)
      requires Paired(source, files)
      modifies this
      ensures contents == Copied(old(contents), source, files, split)
    {
      ghost var start := contents;
      var i := 0;
      while i < |files|
        invariant 0 <= i <= |files|
        invariant contents == Copied(start, source, files[..i], split)
      {
        CopiedSnoc(start, source, files, split, i);
        var f := files[i];
        contents := contents[ImageFile(split, f) := source[f]];
        contents := contents[LabelFile(split, LabelName(f)) := source[LabelName(f)]];
        i := i + 1;
      }
      assert files[..|files|] == files;
    }

    /** `prepare_data()`. `source` is `dataset_raw` (None when it does not exist),
        `listing` the order `iterdir()` gives, `shuffled` the order `random.shuffle`
        leaves `valid_files` in, and `yaml` the text written to `data.yaml`. */
    method PrepareData(source: Option<map<string, string>>, listing: seq<string>, shuffled: seq<string>, yaml: string)
      returns (outcome: PrepareOutcome)
      requires source.Some? ==> forall n :: n in listing <==> n in source.value
      requires source.Some? ==> multiset(shuffled) == multiset(ValidPairs(source.value, listing))
      modifies this
      ensures source.None? ==> outcome == NoSourceDir && contents == old(contents)
      ensures source.Some? && ValidPairs(source.value, listing) == [] ==>
        outcome == NoPairs && contents == old(contents)
      ensures source.Some? && ValidPairs(source.value, listing) != [] ==>
        && outcome == Prepared(SplitTrainVal(shuffled).0, SplitTrainVal(shuffled).1)
        && Paired(source.value, shuffled)
        && contents == Copied(Copied(old(contents), source.value, outcome.train, "train"),
                              source.value, outcome.val, "val")[DataYaml := yaml]
    {
      if source.None? {
        return NoSourceDir;
      }
      var src := source.value;
      var valid := ValidFiles(src, listing);
      if |valid| == 0 {
        return NoPairs;
      }
      assert Paired(src, shuffled) by {
        forall k | 0 <= k < |shuffled| ensures shuffled[k] in src && LabelName(shuffled[k]) in src {
          assert shuffled[k] in multiset(shuffled);
          assert shuffled[k] in multiset(valid);
        }
      }
      var (train, val) := SplitTrainVal(shuffled);
      assert Paired(src, train) && Paired(src, val) by {
        forall k | 0 <= k < |train| ensures train[k] == shuffled[k] { }
        forall k | 0 <= k < |val| ensures val[k] == shuffled[|train| + k] { }
      }
      CopySet(src, train, "train");
      CopySet(src, val, "val");
      contents := contents[DataYaml := yaml];
      outcome := Prepared(train, val);
    }
  }

  // ---------------------------------------------------------------------------
  // fix_labels

  /** A line whose class id is not "0": it has a token and the first is not "0". */
  predicate LineNeedsFix(line: string)
  {
    var ts := Tokens(line);
    ts != [] && ts[0] != "0"
  }

  /** One pass of the body of the line loop: a blank line is dropped, a line whose
      first token is "0" is kept verbatim, any other line is rebuilt from its tokens
      with the first replaced by "0". */
  function FixLine(line: string): (r: Option<string>)
    ensures r.None? <==> Tokens(line) == []
    ensures r.Some? && !LineNeedsFix(line) ==> r.value == line
    ensures r.Some? && LineNeedsFix(line) ==> Tokens(r.value) == ["0"] + Tokens(line)[1..]
    ensures r.Some? && LineNeedsFix(line) ==> |r.value| >= 1 && r.value[|r.value| - 1] == '\n'
  {
    var parts := Tokens(line);
    if parts == [] then None
    else if parts[0] != "0" then
      var rebuilt := ["0"] + parts[1..];
      TokensOfJoinedLine(rebuilt);
      Some(Join(rebuilt, " ") + "\n")
    else Some(line)
  }

  /** `new_lines` after the line loop. */
  function FixedLines(lines: seq<string>): seq<string>
  {
    if lines == [] then []
    else
      var r := FixLine(lines[|lines| - 1]);
      FixedLines(lines[..|lines| - 1]) + (if r.Some? then [r.value] else [])
  }

  /** The `changed` flag after the line loop. */
  predicate AnyNeedsFix(lines: seq<string>)
  {
    exists k :: 0 <= k < |lines| && LineNeedsFix(lines[k])
  }

  /** The file text after `fix_labels`: rewritten only when some line changed. */
  function FixedContent(text: string): string
  {
    var lines := ReadLines(text);
    if AnyNeedsFix(lines) then Concat(FixedLines(lines)) else text
  }

  /** The line loop of `fix_labels`, lines 109-127. */
  method FixFileLines(lines: seq<string>) returns (newLines: seq<string>, changed: bool)
    ensures newLines == FixedLines(lines)
    ensures changed <==> AnyNeedsFix(lines)
  {
    newLines := [];
    changed := false;
    var i := 0;
    while i < |lines|
      invariant 0 <= i <= |lines|
      invariant newLines == FixedLines(lines[..i])
      invariant changed <==> AnyNeedsFix(lines[..i])
    {
      assert lines[..i + 1][..i] == lines[..i];
      var line := lines[i];
      var parts := Tokens(line);
      if parts != [] {
        if parts[0] != "0" {
          var rebuilt := ["0"] + parts[1..];
          newLines := newLines + [Join(rebuilt, " ") + "\n"];
          changed := true;
        } else {
          newLines := newLines + [line];
        }
      }
      assert AnyNeedsFix(lines[..i + 1]) <==> AnyNeedsFix(lines[..i]) || LineNeedsFix(line) by {
        if AnyNeedsFix(lines[..i + 1]) && !LineNeedsFix(line) {
          var k :| 0 <= k < i + 1 && LineNeedsFix(lines[..i + 1][k]);
          assert k < i && lines[..i][k] == lines[..i + 1][k];
        }
        if AnyNeedsFix(lines[..i]) {
          var k :| 0 <= k < i && LineNeedsFix(lines[..i][k]);
          assert lines[..i + 1][k] == lines[..i][k];
        }
      }
      i := i + 1;
    }
    assert lines[..|lines|] == lines;
  }

  /** Every line the loop keeps or builds has "0" as its class id. */
  lemma {:induction false} FixedLinesAreFixed(lines: seq<string>)
    ensures !AnyNeedsFix(FixedLines(lines))
  {
    if lines != [] {
      FixedLinesAreFixed(lines[..|lines| - 1]);
      var r := FixLine(lines[|lines| - 1]);
      var out := FixedLines(lines);
      var init := FixedLines(lines[..|lines| - 1]);
      forall k | 0 <= k < |out| ensures !LineNeedsFix(out[k]) {
        if k < |init| {
          assert out[k] == init[k];
        } else {
          assert out[k] == r.value;
        }
      }
    }
  }

  /** Fixing keeps lines in the shape `readlines()` gives back unchanged. When
      every input line ends in "\n", so does every output line. */
  lemma {:induction false} FixedLinesWellFormed(lines: seq<string>)
    requires WellFormedLines(lines)
    ensures WellFormedLines(FixedLines(lines))
    ensures (forall k :: 0 <= k < |lines| ==> EndsWithNewline(lines[k])) ==>
      forall k :: 0 <= k < |FixedLines(lines)| ==> EndsWithNewline(FixedLines(lines)[k])
  {
    if lines != [] {
      var init := lines[..|lines| - 1];
      var line := lines[|lines| - 1];
      assert WellFormedLines(init) && forall k :: 0 <= k < |init| ==> EndsWithNewline(init[k]) by {
        forall k | 0 <= k < |init| ensures init[k] == lines[k] { }
      }
      FixedLinesWellFormed(init);
      var before := FixedLines(init);
      var r := FixLine(line);
      if r.Some? {
        assert FixedLines(lines) == before + [r.value];
        assert IsLine(r.value) && ((forall k :: 0 <= k < |lines| ==> EndsWithNewline(lines[k])) ==> EndsWithNewline(r.value)) by {
          if LineNeedsFix(line) {
            FixLineRebuiltShape(line);
          } else {
            assert IsLine(lines[|lines| - 1]);
          }
        }
      }
    }
  }

  /** A rebuilt line is one line ending in "\n". */
  lemma FixLineRebuiltShape(line: string)
    requires LineNeedsFix(line)
    ensures IsLine(FixLine(line).value) && EndsWithNewline(FixLine(line).value)
  {
    var rebuilt := ["0"] + Tokens(line)[1..];
    assert forall k :: 0 <= k < |rebuilt| ==> IsWord(rebuilt[k]) by {
      forall k | 0 <= k < |rebuilt| ensures IsWord(rebuilt[k]) {
        if k > 0 { assert rebuilt[k] == Tokens(line)[k]; }
      }
    }
    JoinedWordsHaveNoNewline(rebuilt);
    var j := Join(rebuilt, " ");
    assert FixLine(line).value == j + "\n";
    forall i | 0 <= i < |j| ensures (j + "\n")[i] != '\n' {
      assert (j + "\n")[i] == j[i];
    }
  }

  /** Idempotence of `fix_labels`: its output never needs fixing again, so a second
      run rewrites nothing. */
  lemma FixedContentIsFixed(text: string)
    ensures !AnyNeedsFix(ReadLines(FixedContent(text)))
    ensures FixedContent(FixedContent(text)) == FixedContent(text)
  {
    var lines := ReadLines(text);
    if AnyNeedsFix(lines) {
      ReadLinesWellFormed(text);
      FixedLinesWellFormed(lines);
      ReadLinesConcat(FixedLines(lines));
      FixedLinesAreFixed(lines);
    }
  }

  predicate AllListed(listing: seq<string>, files: map<string, string>)
  {
    forall k :: 0 <= k < |listing| ==> listing[k] in files
  }

  /** How many of the listed label files `fix_labels` rewrites. */
  function CountNeedingFix(listing: seq<string>, files: map<string, string>): nat
    requires AllListed(listing, files)
  {
    if listing == [] then 0
    else
      CountNeedingFix(listing[..|listing| - 1], files)
      + (if AnyNeedsFix(ReadLines(files[listing[|listing| - 1]])) then 1 else 0)
  }

  /** A second `fix_labels` over the first one's output rewrites nothing. */
  lemma {:induction false} RerunRewritesNothing(listing: seq<string>, before: map<string, string>, after: map<string, string>)
    requires AllListed(listing, before) && AllListed(listing, after)
    requires forall k :: 0 <= k < |listing| ==> after[listing[k]] == FixedContent(before[listing[k]])
    ensures CountNeedingFix(listing, after) == 0
  {
    if listing != [] {
      var init := listing[..|listing| - 1];
      assert AllListed(init, before) && AllListed(init, after) by {
        forall k | 0 <= k < |init| ensures init[k] == listing[k] { }
      }
      forall k | 0 <= k < |init| ensures after[init[k]] == FixedContent(before[init[k]]) {
        assert init[k] == listing[k];
      }
      RerunRewritesNothing(init, before, after);
      FixedContentIsFixed(before[listing[|listing| - 1]]);
    }
  }

  /** The label files after fixing each listed one in turn. */
  function FixedAll(files: map<string, string>, listing: seq<string>): map<string, string>
    requires AllListed(listing, files)
  {
    if listing == [] then files
    else
      var last := listing[|listing| - 1];
      FixedAll(files, listing[..|listing| - 1])[last := FixedContent(files[last])]
  }

  /** Fixing the listed files touches exactly those, each once, and adds none. */
  lemma {:induction false} FixedAllContents(files: map<string, string>, listing: seq<string>)
    requires AllListed(listing, files)
    ensures FixedAll(files, listing).Keys == files.Keys
    ensures forall f :: f in files ==>
      FixedAll(files, listing)[f] == if f in listing then FixedContent(files[f]) else files[f]
  {
    if listing != [] {
      var init := listing[..|listing| - 1];
      assert AllListed(init, files) by {
        forall k | 0 <= k < |init| ensures init[k] == listing[k] { }
      }
      FixedAllContents(files, init);
      forall f | f in files
        ensures FixedAll(files, listing)[f] == if f in listing then FixedContent(files[f]) else files[f]
      {
        assert listing == init + [listing[|listing| - 1]];
        assert f in listing <==> f in init || f == listing[|listing| - 1];
      }
    }
  }

  /** Running `fix_labels` twice: the second run finds nothing to fix and leaves
      every file as the first run wrote it. */
  lemma FixLabelsIdempotent(files: map<string, string>, listing: seq<string>)
    requires AllListed(listing, files)
    ensures AllListed(listing, FixedAll(files, listing))
    ensures CountNeedingFix(listing, FixedAll(files, listing)) == 0
    ensures FixedAll(FixedAll(files, listing), listing) == FixedAll(files, listing)
  {
    var once := FixedAll(files, listing);
    FixedAllContents(files, listing);
    assert AllListed(listing, once);
    forall k | 0 <= k < |listing| ensures once[listing[k]] == FixedContent(files[listing[k]]) {
      assert listing[k] in listing;
    }
    RerunRewritesNothing(listing, files, once);
    FixedAllContents(once, listing);
    forall f | f in once ensures FixedAll(once, listing)[f] == once[f] {
      if f in listing {
        FixedContentIsFixed(files[f]);
      }
    }
  }

  /** One turn of the file loop of `fix_labels`: the next file is still untouched,
      and the count and the map each grow by that file. */
  lemma FixLabelsStep(start: map<string, string>, listing: seq<string>, i: nat)
    requires NoDups(listing) && AllListed(listing, start) && i < |listing|
    ensures AllListed(listing[..i], start) && AllListed(listing[..i + 1], start)
    ensures listing[i] in FixedAll(start, listing[..i])
    ensures FixedAll(start, listing[..i])[listing[i]] == start[listing[i]]
    ensures CountNeedingFix(listing[..i + 1], start) == CountNeedingFix(listing[..i], start)
      + (if AnyNeedsFix(ReadLines(start[listing[i]])) then 1 else 0)
    ensures FixedAll(start, listing[..i + 1])
      == FixedAll(start, listing[..i])[listing[i] := FixedContent(start[listing[i]])]
  {
    assert AllListed(listing[..i], start) && AllListed(listing[..i + 1], start) by {
      forall k | 0 <= k < i + 1 ensures listing[..i + 1][k] == listing[k] { }
    }
    assert listing[..i + 1][..i] == listing[..i];
    assert listing[i] !in listing[..i] by {
      forall k | 0 <= k < i ensures listing[..i][k] != listing[i] {
        assert listing[..i][k] == listing[k];
      }
    }
    FixedAllContents(start, listing[..i]);
  }

  /** `datasets/prepared/labels`, as a map from path to file text. */
  class LabelsDir {
    var files: map<string, string>

    constructor (initial: map<string, string>)
      ensures files == initial
    {
      files := initial;
    }

    /** One pass of the file loop of `fix_labels`: read, fix the lines, and write
        the file back only when some line changed. */
    method FixFile(txtFile: string) returns (changed: bool)
      requires txtFile in files
      modifies this
      ensures changed <==> AnyNeedsFix(ReadLines(old(files)[txtFile]))
      ensures files == old(files)[txtFile := FixedContent(old(files)[txtFile])]
    {
      var text := files[txtFile];
      var newLines;
      newLines, changed := FixFileLines(ReadLines(text));
      if changed {
        files := files[txtFile := Concat(newLines)];
      } else {
        assert files == files[txtFile := text];
      }
    }

    /** `fix_labels()`. `baseExists` says whether the labels directory exists and
        `listing` is the order `rglob("*.txt")` yields the label files in. */
    method FixLabels(baseExists: bool, listing: seq<string>) returns (fixedCount: nat)
      requires NoDups(listing) && AllListed(listing, files)
      modifies this
      ensures !baseExists ==> fixedCount == 0 && files == old(files)
      ensures baseExists ==> fixedCount == CountNeedingFix(listing, old(files))
      ensures baseExists ==> files == FixedAll(old(files), listing)
    {
      fixedCount := 0;
      if !baseExists {
        return;
      }
      ghost var start := files;
      var i := 0;
      while i < |listing|
        invariant 0 <= i <= |listing|
        invariant AllListed(listing[..i], start)
        invariant fixedCount == CountNeedingFix(listing[..i], start)
        invariant files == FixedAll(start, listing[..i])
      {
        var txtFile := listing[i];
        FixLabelsStep(start, listing, i);
        var changed := FixFile(txtFile);
        if changed {
          fixedCount := fixedCount + 1;
        }
        i := i + 1;
      }
      assert listing[..|listing|] == listing;
    }
  }
}
