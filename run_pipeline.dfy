/** The watchdog of the production pipeline: it scans the input folder, and for a
    non-empty scan cleans every candidate image in name order, saves the result to
    the output folder (or the original to its `skipped` sub-folder when the detector
    finds nothing), moves the source into the `processed` archive and prints a
    summary; for an empty scan it prints a waiting message once per idle period.

    Folders are maps from name to entry or picture. The decoder, the detector, the
    inpainting model and the disk failures of the I/O worker are parameters. The
    I/O worker runs each job to completion before the next image is read. */
module RunPipeline {
  import opened Seqs
  import opened Paths

  /** The suffixes the scan accepts, compared after lower-casing. */
  const InputExtensions: set<string> := {".jpg", ".jpeg", ".png", ".webp"}

  type Byte = x: int | 0 <= x < 256

  datatype Rgb = Rgb(r: Byte, g: Byte, b: Byte)

  /** A decoded RGB picture and a greyscale ("L") mask. */
  type Picture = seq<seq<Rgb>>
  type Mask = seq<seq<Byte>>

  /** `mask.getbbox()` is not None: some pixel of the mask is non-zero. */
  predicate HasBox(m: Mask)
  {
    exists i, j :: 0 <= i < |m| && 0 <= j < |m[i]| && m[i][j] != 0
  }

  /** The two places a result is saved to: `OUTPUT_DIR` and `OUTPUT_DIR/skipped`. */
  datatype Dest = CleanDir | SkippedDir

  /** The code the model leaves open: opening and converting a file
      (None when `Image.open` raises), `get_mask`, `clean`, and whether saving to a
      path or moving a source raises. */
  datatype Ops = Ops(
    decode: string -> Option<Picture>,
    detect: Picture -> Mask,
    clean: (Picture, Mask) -> Picture,
    saveFails: (Dest, string) -> bool,
    moveFails: string -> bool)

  /** The folders the watchdog touches: `images_input` (its entries), its
      `processed` archive, `images_cleaned` and `images_cleaned/skipped`. */
  datatype Dirs = Dirs(
    input: map<string, Entry>,
    archive: map<string, Entry>,
    cleaned: map<string, Picture>,
    skipped: map<string, Picture>)

  // ---------------------------------------------------------------------------
  // Scanning

  /** The test of the scan's comprehension: a regular file with an accepted suffix. */
  predicate IsCandidate(input: map<string, Entry>, name: string)
  {
    name in input && input[name].File? && HasSuffixIn(name, InputExtensions)
  }

  function IsCandidateIn(input: map<string, Entry>): string -> bool
  {
    name => IsCandidate(input, name)
  }

  /** Some regular file with an accepted suffix is in the folder. */
  predicate HasCandidate(input: map<string, Entry>)
  {
    exists n :: n in input && IsCandidate(input, n)
  }

  /** The folder as `iterdir()` lists it: every name once, in an order the model
      leaves open; `ScanOrderIrrelevant` shows that the sort makes it immaterial. */
  ghost function Listing(names: set<string>): (r: seq<string>)
    ensures NoDups(r) && forall n :: n in r <==> n in names
    decreases |names|
  {
    if names == {} then []
    else
      var n :| n in names;
      var rest := Listing(names - {n});
      NoDupsSnoc(rest, n);
      rest + [n]
  }

  /** `iterdir()`: the names of the folder, each once, in whatever order. */
  method ListFolder(names: set<string>) returns (listing: seq<string>)
    ensures NoDups(listing) && forall n :: n in listing <==> n in names
  {
    listing := [];
    var rest := names;
    while rest != {}
      invariant NoDups(listing)
      invariant forall n :: n in listing <==> n in names && n !in rest
      invariant rest <= names
      decreases |rest|
    {
      var n :| n in rest;
      NoDupsSnoc(listing, n);
      listing := listing + [n];
      rest := rest - {n};
    }
  }

  /** Lines 102-110: the candidates of one scan, in the order `iterdir()` lists them
      (`listing`); None stands for `iterdir()` raising, which leaves the list empty. */
  function Candidates(input: map<string, Entry>, listing: Option<seq<string>>): (r: seq<string>)
    ensures forall n :: n in r <==> listing.Some? && n in listing.value && IsCandidate(input, n)
  {
    if listing.None? then [] else Filter(listing.value, IsCandidateIn(input))
  }

  /** `candidates.sort()`: the same names in ascending code-point order. */
  function SortNames(s: seq<string>): (r: seq<string>)
    ensures Sorted(r) && multiset(r) == multiset(s)
  {
    if s == [] then []
    else
      assert s == s[..|s| - 1] + [s[|s| - 1]];
      Insert(SortNames(s[..|s| - 1]), s[|s| - 1])
  }

  /** Sorting changes only the order of the names. */
  lemma {:induction false} SortNamesSameNames(s: seq<string>)
    ensures |SortNames(s)| == |s|
    ensures forall n :: n in SortNames(s) <==> n in s
  {
    var r := SortNames(s);
    assert |r| == |multiset(r)| == |multiset(s)| == |s|;
    forall n ensures n in r <==> n in s {
      assert n in r <==> n in multiset(r);
      assert n in s <==> n in multiset(s);
    }
  }

  /** The batch of a turn, lines 102-125: the regular files of the folder with an
      accepted suffix, each once, in ascending order; none when `iterdir()` raised. */
  ghost function TurnCandidates(input: map<string, Entry>, listFails: bool): (r: seq<string>)
    ensures Sorted(r) && NoDups(r)
    ensures forall n :: n in r <==> !listFails && IsCandidate(input, n)
  {
    var c := Candidates(input, if listFails then None else Some(Listing(input.Keys)));
    FilterNoDups(Listing(input.Keys), IsCandidateIn(input));
    SortNamesSameNames(c);
    NoDupsPermutation(c, SortNames(c));
    SortNames(c)
  }

  /** Lines 102-110 and 125: lists the folder (unless `iterdir()` raises), keeps
      the candidates and sorts them. */
  method ScanFolder(input: map<string, Entry>, listFails: bool) returns (candidates: seq<string>)
    ensures candidates == TurnCandidates(input, listFails)
  {
    var listing: Option<seq<string>> := None;
    if !listFails {
      var names := ListFolder(input.Keys);
      listing := Some(names);
      ScanOrderIrrelevant(input, names);
    }
    candidates := Candidates(input, listing);
    candidates := SortNames(candidates);
  }

  /** A turn has no batch exactly when the listing raised or no regular file with
      an accepted suffix is in the folder. */
  lemma NoCandidates(input: map<string, Entry>, listFails: bool)
    ensures TurnCandidates(input, listFails) == [] <==> listFails || !HasCandidate(input)
  {
    var cands := TurnCandidates(input, listFails);
    if cands != [] {
      assert IsCandidate(input, cands[0]);
    }
    if !listFails && HasCandidate(input) {
      var n :| n in input && IsCandidate(input, n);
      assert n in cands;
    }
  }

  /** Whatever order `iterdir()` lists the folder in, the sorted candidates are the
      batch of the turn. */
  lemma ScanOrderIrrelevant(input: map<string, Entry>, listing: seq<string>)
    requires NoDups(listing) && forall n :: n in listing <==> n in input
    ensures SortNames(Candidates(input, Some(listing))) == TurnCandidates(input, false)
  {
    var mine := Candidates(input, Some(listing));
    var theirs := Candidates(input, Some(Listing(input.Keys)));
    FilterNoDups(listing, IsCandidateIn(input));
    FilterNoDups(Listing(input.Keys), IsCandidateIn(input));
    SameMembersPermutation(mine, theirs);
    SortedUnique(SortNames(mine), SortNames(theirs));
  }

  // ---------------------------------------------------------------------------
  // The I/O worker

  function Save(d: Dirs, dest: Dest, name: string, pic: Picture): Dirs
  {
    match dest
    case CleanDir => d.(cleaned := d.cleaned[name := pic])
    case SkippedDir => d.(skipped := d.skipped[name := pic])
  }

  /** Whether the worker is asked to save, and the save raises. */
  predicate SaveFails(result: Option<Picture>, saveTo: Option<(Dest, string)>, ops: Ops)
  {
    result.Some? && saveTo.Some? && ops.saveFails(saveTo.value.0, saveTo.value.1)
  }

  /** The folders after the save step, when it does not raise. */
  function Saved(d: Dirs, result: Option<Picture>, saveTo: Option<(Dest, string)>): Dirs
  {
    if result.Some? && saveTo.Some? then Save(d, saveTo.value.0, saveTo.value.1, result.value) else d
  }

  /** The move step: when the source still exists, an archived file of its name is
      unlinked and the source is moved into the archive. An archived folder of
      that name cannot be unlinked and ends the job; a failed move leaves the
      source where it was, the old archived file already gone. */
  function MovedSource(d: Dirs, name: string, ops: Ops): Dirs
  {
    if name !in d.input then d
    else if name in d.archive && d.archive[name].Dir? then d
    else
      var d2 := d.(archive := d.archive - {name});
      if ops.moveFails(name) then d2
      else d2.(input := d2.input - {name}, archive := d2.archive[name := d.input[name]])
  }

  /** `save_and_move_worker(result, save_to, source)`: the save, then the move. An
      exception ends the job, so a failed save moves nothing. */
  function AfterWorker(d: Dirs, result: Option<Picture>, saveTo: Option<(Dest, string)>,
                       name: string, ops: Ops): Dirs
  {
    if SaveFails(result, saveTo, ops) then d else MovedSource(Saved(d, result, saveTo), name, ops)
  }

  /** Saving touches only the output folder it names, and only under the given name. */
  lemma SavedRule(d: Dirs, result: Option<Picture>, saveTo: Option<(Dest, string)>)
    ensures var a := Saved(d, result, saveTo);
      && a.input == d.input && a.archive == d.archive
      && (result.Some? && saveTo.Some? && saveTo.value.0 == CleanDir ==>
            a.cleaned == d.cleaned[saveTo.value.1 := result.value] && a.skipped == d.skipped)
      && (result.Some? && saveTo.Some? && saveTo.value.0 == SkippedDir ==>
            a.skipped == d.skipped[saveTo.value.1 := result.value] && a.cleaned == d.cleaned)
      && (!(result.Some? && saveTo.Some?) ==> a == d)
  {
  }

  /** The move step leaves the outputs alone, takes at most the source out of the
      input folder and changes the archive only under the source's name. */
  lemma MovedSourceRule(d: Dirs, name: string, ops: Ops)
    ensures var a := MovedSource(d, name, ops);
      && a.cleaned == d.cleaned && a.skipped == d.skipped
      && (a.input == d.input || a.input == d.input - {name})
      && (forall n :: n != name ==> (n in a.archive <==> n in d.archive))
      && (forall n :: n != name && n in d.archive ==> a.archive[n] == d.archive[n])
  {
  }

  /** The move rule. When nothing fails, a source that exists ends up in the archive
      under its name, with its content, replacing any earlier file there, and is
      gone from the input folder; a source that does not exist moves nothing. The
      rest of the archive and the input folder is untouched. */
  lemma MoveRule(d: Dirs, result: Option<Picture>, saveTo: Option<(Dest, string)>, name: string, ops: Ops)
    requires !SaveFails(result, saveTo, ops)
    requires !ops.moveFails(name)
    requires !(name in d.archive && d.archive[name].Dir?)
    ensures var a := AfterWorker(d, result, saveTo, name, ops);
      && (name in d.input ==> name !in a.input && name in a.archive && a.archive[name] == d.input[name])
      && (name !in d.input ==> a.input == d.input && a.archive == d.archive)
      && (forall n :: n != name ==> (n in a.input <==> n in d.input) && (n in a.archive <==> n in d.archive))
      && (forall n :: n != name && n in d.input ==> a.input[n] == d.input[n])
      && (forall n :: n != name && n in d.archive ==> a.archive[n] == d.archive[n])
  {
    var d1 := Saved(d, result, saveTo);
    SavedRule(d, result, saveTo);
    MovedSourceRule(d1, name, ops);
  }

  /** A result is saved exactly when both it and the path are given and the save
      does not fail; it then replaces any earlier output of that name. */
  lemma SaveRule(d: Dirs, result: Option<Picture>, saveTo: Option<(Dest, string)>, name: string, ops: Ops)
    ensures var a := AfterWorker(d, result, saveTo, name, ops);
      && (result.Some? && saveTo.Some? && !ops.saveFails(saveTo.value.0, saveTo.value.1) ==>
            if saveTo.value.0 == CleanDir
            then a.cleaned == d.cleaned[saveTo.value.1 := result.value] && a.skipped == d.skipped
            else a.skipped == d.skipped[saveTo.value.1 := result.value] && a.cleaned == d.cleaned)
      && (!(result.Some? && saveTo.Some?) || ops.saveFails(saveTo.value.0, saveTo.value.1) ==>
            a.cleaned == d.cleaned && a.skipped == d.skipped)
  {
    if !SaveFails(result, saveTo, ops) {
      SavedRule(d, result, saveTo);
      MovedSourceRule(Saved(d, result, saveTo), name, ops);
    }
  }

  /** A worker never adds to the input folder or takes from the outputs: every
      input entry after it was there before, and every output before is still
      there. */
  lemma WorkerKeepsOutputs(d: Dirs, result: Option<Picture>, saveTo: Option<(Dest, string)>, name: string, ops: Ops)
    ensures var a := AfterWorker(d, result, saveTo, name, ops);
      && a.input.Keys <= d.input.Keys
      && d.cleaned.Keys <= a.cleaned.Keys && d.skipped.Keys <= a.skipped.Keys
  {
    if !SaveFails(result, saveTo, ops) {
      var d1 := Saved(d, result, saveTo);
      SavedRule(d, result, saveTo);
      MovedSourceRule(d1, name, ops);
      assert d.cleaned.Keys <= d1.cleaned.Keys && d.skipped.Keys <= d1.skipped.Keys;
    }
  }

  // ---------------------------------------------------------------------------
  // One batch

  /** Where an image went: cleaned, skipped (empty mask), or failed (not readable). */
  datatype RouteOutcome = Cleaned | Skipped | Failed

  /** Lines 142-171 for one image: a readable image whose mask has a box is cleaned
      and the result goes to `OUTPUT_DIR/<name>`; one whose mask is empty goes as it
      is to `OUTPUT_DIR/skipped/<name>`; when the file cannot be opened the error is
      logged and nothing is saved or moved. */
  function Route(d: Dirs, name: string, ops: Ops): (Dirs, RouteOutcome)
  {
    if name !in d.input || d.input[name].Dir? || ops.decode(d.input[name].data).None? then (d, Failed)
    else
      var original := ops.decode(d.input[name].data).value;
      var mask := ops.detect(original);
      if HasBox(mask) then
        (AfterWorker(d, Some(ops.clean(original, mask)), Some((CleanDir, name)), name, ops), Cleaned)
      else
        (AfterWorker(d, Some(original), Some((SkippedDir, name)), name, ops), Skipped)
  }

  /** Routing sends a cleaned image to the clean folder and a skipped one, unchanged,
      to the skipped folder, each under the source's name; a failed one changes
      nothing. */
  lemma RouteTargets(d: Dirs, name: string, ops: Ops)
    ensures var (a, o) := Route(d, name, ops);
      && (o == Failed ==> a == d)
      && (o != Failed ==> name in d.input && d.input[name].File? && ops.decode(d.input[name].data).Some?)
      && (o == Cleaned ==> HasBox(ops.detect(ops.decode(d.input[name].data).value)))
      && (o == Skipped ==> !HasBox(ops.detect(ops.decode(d.input[name].data).value)))
      && (o == Cleaned && !ops.saveFails(CleanDir, name) ==>
            var pic := ops.decode(d.input[name].data).value;
            name in a.cleaned && a.cleaned[name] == ops.clean(pic, ops.detect(pic)) && a.skipped == d.skipped)
      && (o == Skipped && !ops.saveFails(SkippedDir, name) ==>
            name in a.skipped && a.skipped[name] == ops.decode(d.input[name].data).value && a.cleaned == d.cleaned)
  {
    if name in d.input && d.input[name].File? && ops.decode(d.input[name].data).Some? {
      var original := ops.decode(d.input[name].data).value;
      var mask := ops.detect(original);
      if HasBox(mask) {
        SaveRule(d, Some(ops.clean(original, mask)), Some((CleanDir, name)), name, ops);
      } else {
        SaveRule(d, Some(original), Some((SkippedDir, name)), name, ops);
      }
    }
  }

  /** The batch loop as a function: the folders after it and where each image went. */
  function RunBatch(d: Dirs, names: seq<string>, ops: Ops): (r: (Dirs, seq<RouteOutcome>))
    ensures |r.1| == |names|
  {
    if names == [] then (d, [])
    else
      var (before, outs) := RunBatch(d, names[..|names| - 1], ops);
      var (after, o) := Route(before, names[|names| - 1], ops);
      (after, outs + [o])
  }

  function CountOf(outs: seq<RouteOutcome>, o: RouteOutcome): (n: nat)
    ensures n <= |outs|
  {
    if outs == [] then 0 else CountOf(outs[..|outs| - 1], o) + (if outs[|outs| - 1] == o then 1 else 0)
  }

  /** The state of the batch loop after `i` names: the folders and the outcomes
      so far are those of the batch over the first `i` names. */
  ghost predicate BatchTurn(start: Dirs, names: seq<string>, i: int, d: Dirs, outs: seq<RouteOutcome>, ops: Ops)
  {
    0 <= i <= |names| && (d, outs) == RunBatch(start, names[..i], ops)
  }

  /** One more name routed extends the batch by that name. */
  lemma BatchTurnNext(start: Dirs, names: seq<string>, i: int, d: Dirs, outs: seq<RouteOutcome>, ops: Ops)
    requires BatchTurn(start, names, i, d, outs, ops) && i < |names|
    ensures BatchTurn(start, names, i + 1, Route(d, names[i], ops).0, outs + [Route(d, names[i], ops).1], ops)
  {
    assert names[..i + 1][..i] == names[..i];
  }

  lemma BatchTurnLast(start: Dirs, names: seq<string>, d: Dirs, outs: seq<RouteOutcome>, ops: Ops)
    requires BatchTurn(start, names, |names|, d, outs, ops)
    ensures (d, outs) == RunBatch(start, names, ops)
  {
    assert names[..|names|] == names;
  }

  lemma CountOfSnoc(outs: seq<RouteOutcome>, o: RouteOutcome, x: RouteOutcome)
    ensures CountOf(outs + [o], x) == CountOf(outs, x) + (if o == x then 1 else 0)
  {
    assert (outs + [o])[..|outs|] == outs;
  }

  /** Every image is cleaned, skipped or failed, so the skip count never exceeds the
      batch size, and `total - skipped` counts the failed images with the cleaned. */
  lemma {:induction false} OutcomesAddUp(outs: seq<RouteOutcome>)
    ensures CountOf(outs, Cleaned) + CountOf(outs, Skipped) + CountOf(outs, Failed) == |outs|
    ensures |outs| - CountOf(outs, Skipped) == CountOf(outs, Cleaned) + CountOf(outs, Failed)
  {
    if outs != [] {
      OutcomesAddUp(outs[..|outs| - 1]);
    }
  }

  // ---------------------------------------------------------------------------
  // The summary

  /** What `print_summary` prints, as numbers. */
  datatype Summary = Summary(processed: int, skipped: nat, total: nat,
                             secondsPerPhoto: Option<real>, fps: Option<real>)

  /** `print_summary`: processed is total minus skipped, and the per-photo time and
      the frame rate are printed only for a non-empty batch. `elapsed` is the
      measured batch time, any real (the wall clock can stand still or step back).
      None when the frame rate `total_count / elapsed` divides by zero: a non-empty
      batch with no measured time raises `ZeroDivisionError` there. */
  function Summarise(total: nat, skipped: nat, elapsed: real): (s: Option<Summary>)
    ensures s.None? <==> total > 0 && elapsed == 0.0
    ensures s.Some? ==>
      s.value.processed == total - skipped && s.value.skipped == skipped && s.value.total == total
    ensures s.Some? ==> (s.value.secondsPerPhoto.Some? <==> total > 0)
    ensures s.Some? ==> (s.value.fps.Some? <==> total > 0)
    ensures s.Some? && total > 0 ==> s.value.secondsPerPhoto.value * total as real == elapsed
    ensures s.Some? && total > 0 ==> s.value.fps.value * elapsed == total as real
  {
    if total == 0 then Some(Summary(total - skipped, skipped, total, None, None))
    else if elapsed == 0.0 then None
    else Some(Summary(total - skipped, skipped, total, Some(elapsed / total as real), Some(total as real / elapsed)))
  }

  // ---------------------------------------------------------------------------
  // The watchdog

  /** What one turn of the `while True` loop shows: an idle turn (with or without
      the waiting message), the summary of a batch, or the `ZeroDivisionError` of
      the summary, which only `KeyboardInterrupt` being caught lets end `main`. */
  datatype Event = Idle(printedWaiting: bool) | Batch(summary: Summary) | Crashed

  /** What happens around one scan: the files that arrive in the input folder since
      the turn before (while the watchdog slept or ran its batch), whether
      `iterdir()` raises, and the time the batch the scan starts takes. */
  datatype Scan = Scan(arrivals: map<string, Entry>, listFails: bool, elapsed: real)

  /** The folders with the arrivals of `scan` in the input folder; an arrival
      under a name already there replaces that entry. */
  function Arrived(d: Dirs, scan: Scan): Dirs
  {
    d.(input := d.input + scan.arrivals)
  }

  /** One turn of the loop as a function of the folders and the flag
      `is_waiting_message_shown`: the folders, the flag and the event after it. */
  ghost function Tick(d: Dirs, shown: bool, scan: Scan, ops: Ops): (Dirs, bool, Event)
  {
    var d0 := Arrived(d, scan);
    var cands := TurnCandidates(d0.input, scan.listFails);
    if cands == [] then (d0, true, Idle(!shown))
    else
      var r := RunBatch(d0, cands, ops);
      var s := Summarise(|cands|, CountOf(r.1, Skipped), scan.elapsed);
      (r.0, false, if s.Some? then Batch(s.value) else Crashed)
  }

  /** A turn without candidates only takes in the arrivals and sets the flag. */
  lemma TickIdle(d: Dirs, shown: bool, scan: Scan, ops: Ops)
    requires TurnCandidates(Arrived(d, scan).input, scan.listFails) == []
    ensures Tick(d, shown, scan, ops) == (Arrived(d, scan), true, Idle(!shown))
  {
  }

  /** A turn with candidates runs them as a batch and ends with its summary. */
  lemma TickBatch(d: Dirs, shown: bool, scan: Scan, ops: Ops, cands: seq<string>, skippedInBatch: nat)
    requires cands == TurnCandidates(Arrived(d, scan).input, scan.listFails) && cands != []
    requires skippedInBatch == CountOf(RunBatch(Arrived(d, scan), cands, ops).1, Skipped)
    ensures var s := Summarise(|cands|, skippedInBatch, scan.elapsed);
      Tick(d, shown, scan, ops) == (RunBatch(Arrived(d, scan), cands, ops).0, false, if s.Some? then Batch(s.value) else Crashed)
  {
  }

  /** The turns end with a crash. */
  predicate Stopped(events: seq<Event>)
  {
    events != [] && events[|events| - 1].Crashed?
  }

  /** The loop over a finite run of scans as a function: the turns one after the
      other, until one crashes. */
  ghost function RunScans(d: Dirs, shown: bool, scans: seq<Scan>, ops: Ops): (Dirs, bool, seq<Event>)
    decreases |scans|
  {
    if scans == [] then (d, shown, [])
    else Continue(RunScans(d, shown, scans[..|scans| - 1], ops), scans[|scans| - 1], ops)
  }

  /** The run `r` so far followed by the turn of `scan`, unless it has crashed. */
  ghost function Continue(r: (Dirs, bool, seq<Event>), scan: Scan, ops: Ops): (Dirs, bool, seq<Event>)
  {
    if Stopped(r.2) then r
    else
      var t := Tick(r.0, r.1, scan, ops);
      (t.0, t.1, r.2 + [t.2])
  }

  /** A turn is idle exactly when the listing raised or the folder, with the
      arrivals, holds no candidate; the flag is set exactly by an idle turn, and the
      waiting message is printed on an idle turn exactly when the flag was clear; a
      turn crashes exactly when it has candidates and no measured time; an idle turn
      changes the folders only by the arrivals. */
  lemma TickRule(d: Dirs, shown: bool, scan: Scan, ops: Ops)
    ensures var t := Tick(d, shown, scan, ops);
      var input := d.input + scan.arrivals;
      && (t.2.Idle? <==> scan.listFails || !HasCandidate(input))
      && (t.1 <==> t.2.Idle?)
      && (t.2.Idle? ==> t.2.printedWaiting == !shown && t.0 == Arrived(d, scan))
      && (t.2.Crashed? <==> !scan.listFails && HasCandidate(input) && scan.elapsed == 0.0)
  {
    NoCandidates(d.input + scan.arrivals, scan.listFails);
  }

  /** The waiting message is printed on an idle turn exactly when the turn before
      was not idle (or, for the first turn, when the flag `shown0` was clear): once
      per run of empty scans. */
  ghost predicate WaitingPattern(events: seq<Event>, shown0: bool)
  {
    forall k :: 0 <= k < |events| && events[k].Idle? ==>
      (events[k].printedWaiting <==> if k == 0 then !shown0 else !events[k - 1].Idle?)
  }

  /** `is_waiting_message_shown` after the turns `events`, starting from `shown0`. */
  function FlagAfter(events: seq<Event>, shown0: bool): bool
  {
    if events == [] then shown0 else events[|events| - 1].Idle?
  }

  /** A turn that prints the message exactly when the flag is clear extends the
      pattern. */
  lemma WaitingPatternSnoc(events: seq<Event>, shown0: bool, e: Event)
    requires WaitingPattern(events, shown0)
    requires e.Idle? ==> (e.printedWaiting <==> !FlagAfter(events, shown0))
    ensures WaitingPattern(events + [e], shown0)
  {
    var es := events + [e];
    forall k | 0 <= k < |es| && es[k].Idle?
      ensures es[k].printedWaiting <==> if k == 0 then !shown0 else !es[k - 1].Idle?
    {
      if k < |events| {
        assert es[k] == events[k];
        assert events[k].printedWaiting <==> if k == 0 then !shown0 else !events[k - 1].Idle?;
        if k > 0 { assert es[k - 1] == events[k - 1]; }
      } else {
        assert es[k] == e;
        if k > 0 {
          assert es[k - 1] == events[|events| - 1];
          assert FlagAfter(events, shown0) == events[|events| - 1].Idle?;
        } else {
          assert e.printedWaiting <==> !shown0;
        }
      }
    }
    assert WaitingPattern(es, shown0);
  }

  /** One more turn keeps the waiting pattern and the flag in step with it. */
  lemma ContinuePattern(r: (Dirs, bool, seq<Event>), shown0: bool, scan: Scan, ops: Ops)
    requires WaitingPattern(r.2, shown0) && r.1 == FlagAfter(r.2, shown0)
    ensures WaitingPattern(Continue(r, scan, ops).2, shown0)
    ensures Continue(r, scan, ops).1 == FlagAfter(Continue(r, scan, ops).2, shown0)
  {
    if !Stopped(r.2) {
      var t := Tick(r.0, r.1, scan, ops);
      TickRule(r.0, r.1, scan, ops);
      WaitingPatternSnoc(r.2, shown0, t.2);
      assert Continue(r, scan, ops) == (t.0, t.1, r.2 + [t.2]);
    }
  }

  /** The turns of a run follow the waiting pattern from the flag as it was, and
      the flag ends as the last turn left it. */
  lemma {:induction false} RunScansPattern(d: Dirs, shown: bool, scans: seq<Scan>, ops: Ops)
    ensures WaitingPattern(RunScans(d, shown, scans, ops).2, shown)
    ensures RunScans(d, shown, scans, ops).1 == FlagAfter(RunScans(d, shown, scans, ops).2, shown)
    decreases |scans|
  {
    if scans != [] {
      RunScansPattern(d, shown, scans[..|scans| - 1], ops);
      ContinuePattern(RunScans(d, shown, scans[..|scans| - 1], ops), shown, scans[|scans| - 1], ops);
    }
  }

  /** No event but the last is a crash. */
  predicate CrashOnlyLast(events: seq<Event>)
  {
    forall k :: 0 <= k < |events| - 1 ==> !events[k].Crashed?
  }

  /** One more turn adds at most one event, and one only to a run that has not
      crashed; a crash comes only from a scan with no measured time. */
  lemma ContinueShape(r: (Dirs, bool, seq<Event>), scan: Scan, ops: Ops)
    ensures var c := Continue(r, scan, ops);
      && (Stopped(r.2) ==> c == r)
      && (!Stopped(r.2) ==> |c.2| == |r.2| + 1)
      && (CrashOnlyLast(r.2) ==> CrashOnlyLast(c.2))
      && (!Stopped(r.2) && Stopped(c.2) ==> scan.elapsed == 0.0)
  {
    if !Stopped(r.2) {
      var t := Tick(r.0, r.1, scan, ops);
      TickRule(r.0, r.1, scan, ops);
      var es := r.2 + [t.2];
      assert Continue(r, scan, ops) == (t.0, t.1, es);
      if CrashOnlyLast(r.2) {
        forall k | 0 <= k < |es| - 1 ensures !es[k].Crashed? {
          assert es[k] == r.2[k];
        }
      }
    }
  }

  /** A run has one event per scan up to the first crash, which ends it; a crash
      comes only from a scan with no measured time. */
  lemma {:induction false} RunScansShape(d: Dirs, shown: bool, scans: seq<Scan>, ops: Ops)
    ensures var events := RunScans(d, shown, scans, ops).2;
      && |events| <= |scans|
      && (|events| < |scans| ==> Stopped(events))
      && CrashOnlyLast(events)
      && (Stopped(events) ==> scans[|events| - 1].elapsed == 0.0)
    decreases |scans|
  {
    if scans != [] {
      var front := scans[..|scans| - 1];
      var r := RunScans(d, shown, front, ops);
      RunScansShape(d, shown, front, ops);
      ContinueShape(r, scans[|scans| - 1], ops);
      assert RunScans(d, shown, scans, ops) == Continue(r, scans[|scans| - 1], ops);
      if Stopped(r.2) {
        assert front[|r.2| - 1] == scans[|r.2| - 1];
      }
    }
  }

  /** The run over one more scan is the run so far continued by its turn. */
  lemma RunScansSnoc(d: Dirs, shown: bool, scans: seq<Scan>, i: nat, ops: Ops)
    requires i < |scans|
    ensures RunScans(d, shown, scans[..i + 1], ops) == Continue(RunScans(d, shown, scans[..i], ops), scans[i], ops)
  {
    assert scans[..i + 1][..i] == scans[..i];
  }

  /** A run over a prefix that has not crashed is continued by the turn of the next
      scan: its folders, its flag and one more event. */
  lemma RunScansStep(d: Dirs, shown: bool, scans: seq<Scan>, i: nat, ops: Ops)
    requires i < |scans| && !Stopped(RunScans(d, shown, scans[..i], ops).2)
    ensures var r := RunScans(d, shown, scans[..i], ops);
      var t := Tick(r.0, r.1, scans[i], ops);
      RunScans(d, shown, scans[..i + 1], ops) == (t.0, t.1, r.2 + [t.2])
  {
    RunScansSnoc(d, shown, scans, i, ops);
  }

  /** A run left at scan `i`, at its end or on a crash, is the whole run. */
  lemma RunScansDone(d: Dirs, shown: bool, scans: seq<Scan>, i: nat, ops: Ops)
    requires i <= |scans|
    requires i < |scans| ==> Stopped(RunScans(d, shown, scans[..i], ops).2)
    ensures RunScans(d, shown, scans[..i], ops) == RunScans(d, shown, scans, ops)
    ensures var events := RunScans(d, shown, scans, ops).2;
      && WaitingPattern(events, shown)
      && RunScans(d, shown, scans, ops).1 == FlagAfter(events, shown)
      && |events| <= |scans| && (|events| < |scans| ==> Stopped(events))
  {
    if i < |scans| {
      RunScansStopped(d, shown, scans, i, |scans|, ops);
    }
    assert scans[..|scans|] == scans;
    RunScansPattern(d, shown, scans, ops);
    RunScansShape(d, shown, scans, ops);
  }

  /** Once a run has crashed, later scans change nothing. */
  lemma {:induction false} RunScansStopped(d: Dirs, shown: bool, scans: seq<Scan>, i: nat, j: nat, ops: Ops)
    requires i <= j <= |scans|
    requires Stopped(RunScans(d, shown, scans[..i], ops).2)
    ensures RunScans(d, shown, scans[..j], ops) == RunScans(d, shown, scans[..i], ops)
    decreases j
  {
    if j > i {
      RunScansStopped(d, shown, scans, i, j - 1, ops);
      RunScansSnoc(d, shown, scans, j - 1, ops);
      ContinueShape(RunScans(d, shown, scans[..j - 1], ops), scans[j - 1], ops);
    }
  }

  class Watchdog {
    var input: map<string, Entry>
    var archive: map<string, Entry>
    var cleaned: map<string, Picture>
    var skipped: map<string, Picture>
    var waitingShown: bool

    function State(): Dirs
      reads this
    {
      Dirs(input, archive, cleaned, skipped)
    }

    /** The folders as found; the waiting flag starts cleared. */
    constructor (folders: Dirs)
      ensures State() == folders && !waitingShown
    {
      input, archive, cleaned, skipped := folders.input, folders.archive, folders.cleaned, folders.skipped;
      waitingShown := false;
    }

    /** `save_and_move_worker`, run to completion. */
    method SaveAndMove(result: Option<Picture>, saveTo: Option<(Dest, string)>, name: string, ops: Ops)
      modifies this
      ensures State() == AfterWorker(old(State()), result, saveTo, name, ops)
      ensures waitingShown == old(waitingShown)
    {
      if result.Some? && saveTo.Some? {
        if ops.saveFails(saveTo.value.0, saveTo.value.1) {
          return;
        }
        if saveTo.value.0 == CleanDir {
          cleaned := cleaned[saveTo.value.1 := result.value];
        } else {
          skipped := skipped[saveTo.value.1 := result.value];
        }
      }
      MoveToArchive(name, ops);
    }

    /** The move step of the worker. */
    method MoveToArchive(name: string, ops: Ops)
      modifies this
      ensures State() == MovedSource(old(State()), name, ops)
      ensures waitingShown == old(waitingShown)
    {
      if name in input {
        if name in archive {
          if archive[name].Dir? {
            return;
          }
          archive := archive - {name};
        }
        if !ops.moveFails(name) {
          archive := archive[name := input[name]];
          input := input - {name};
        }
      }
    }

    /** The body of the `for img_path in pbar` loop for one candidate: a readable
        image is detected and handed, cleaned or as it is, to the worker. */
    method RouteImage(name: string, ops: Ops) returns (outcome: RouteOutcome)
      modifies this
      ensures (State(), outcome) == Route(old(State()), name, ops)
      ensures waitingShown == old(waitingShown)
    {
      if name in input && input[name].File? && ops.decode(input[name].data).Some? {
        var original := ops.decode(input[name].data).value;
        var mask := ops.detect(original);
        if HasBox(mask) {
          SaveAndMove(Some(ops.clean(original, mask)), Some((CleanDir, name)), name, ops);
          outcome := Cleaned;
        } else {
          SaveAndMove(Some(original), Some((SkippedDir, name)), name, ops);
          outcome := Skipped;
        }
      } else {
        outcome := Failed;
      }
    }

    /** The `for img_path in pbar` loop: routes every candidate in turn, handing each
        result to the worker, and counts the skipped ones. */
    method ProcessBatch(candidates: seq<string>, ops: Ops) returns (skippedInBatch: nat)
      modifies this
      ensures State() == RunBatch(old(State()), candidates, ops).0
      ensures skippedInBatch == CountOf(RunBatch(old(State()), candidates, ops).1, Skipped)
      ensures skippedInBatch <= |candidates|
      ensures waitingShown == old(waitingShown)
    {
      ghost var start := State();
      ghost var outs: seq<RouteOutcome> := [];
      skippedInBatch := 0;
      var i := 0;
      while i < |candidates|
        invariant BatchTurn(start, candidates, i, State(), outs, ops)
        invariant skippedInBatch == CountOf(outs, Skipped)
        invariant waitingShown == old(waitingShown)
      {
        BatchTurnNext(start, candidates, i, State(), outs, ops);
        var outcome := RouteImage(candidates[i], ops);
        CountOfSnoc(outs, outcome, Skipped);
        if outcome == Skipped {
          skippedInBatch := skippedInBatch + 1;
        }
        outs := outs + [outcome];
        i := i + 1;
      }
      BatchTurnLast(start, candidates, State(), outs, ops);
    }

    /** One turn of the `while True` loop. An empty scan prints the waiting message
        only when it is not already shown, then sets the flag; a non-empty scan
        clears the flag, runs the batch in sorted order and prints its summary,
        which raises when the batch took no measured time. */
    method Step(scan: Scan, ops: Ops) returns (event: Event)
      modifies this
      ensures (State(), waitingShown, event) == Tick(old(State()), old(waitingShown), scan, ops)
      ensures event.Idle? <==> waitingShown
      ensures event.Idle? <==> scan.listFails || !HasCandidate(old(input) + scan.arrivals)
      ensures event.Idle? ==> event.printedWaiting == !old(waitingShown) && State() == Arrived(old(State()), scan)
      ensures event.Crashed? <==> !scan.listFails && HasCandidate(old(input) + scan.arrivals) && scan.elapsed == 0.0
    {
      ghost var d, shown := State(), waitingShown;
      input := input + scan.arrivals;
      assert State() == Arrived(d, scan);
      var candidates := ScanFolder(input, scan.listFails);
      NoCandidates(input, scan.listFails);
      if candidates == [] {
        TickIdle(d, shown, scan, ops);
        event := Idle(!waitingShown);
        waitingShown := true;
        return;
      }
      waitingShown := false;
      var batchTotal := |candidates|;
      var skippedInBatch := ProcessBatch(candidates, ops);
      TickBatch(d, shown, scan, ops, candidates, skippedInBatch);
      var summary := Summarise(batchTotal, skippedInBatch, scan.elapsed);
      if summary.Some? {
        event := Batch(summary.value);
      } else {
        event := Crashed;
      }
    }

    /** The loop over a finite run of scans, left when a summary raises: it does
        what `RunScans` says, so the events follow the waiting pattern from the flag
        as it was, the flag ends as the last event left it, and the run stops early
        only at a crash. */
    method Run(scans: seq<Scan>, ops: Ops) returns (events: seq<Event>)
      modifies this
      ensures (State(), waitingShown, events) == RunScans(old(State()), old(waitingShown), scans, ops)
      ensures WaitingPattern(events, old(waitingShown))
      ensures waitingShown == FlagAfter(events, old(waitingShown))
      ensures |events| <= |scans| && (|events| < |scans| ==> Stopped(events))
    {
      ghost var start, shown0 := State(), waitingShown;
      events := [];
      var i := 0;
      while i < |scans| && !Stopped(events)
        invariant 0 <= i <= |scans|
        invariant (State(), waitingShown, events) == RunScans(start, shown0, scans[..i], ops)
      {
        RunScansStep(start, shown0, scans, i, ops);
        var event := Step(scans[i], ops);
        events := events + [event];
        i := i + 1;
      }
      RunScansDone(start, shown0, scans, i, ops);
    }
  }
}
