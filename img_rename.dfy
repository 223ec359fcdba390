/** The batch renamer: every image file of a folder is first renamed to a unique
    temporary name that keeps its suffix, then the temporary files are renamed in
    turn to `img_1<suffix>`, `img_2<suffix>`, ..., the number advancing only when a
    rename succeeds.

    The folder is a map from name to entry. Renames follow POSIX `rename`: the
    target is replaced when it is a file, and the call fails when the target is
    a directory or the source is missing. Other failures (permissions, locks) are
    given by `fails` parameters, and the random UUIDs are an input. */
module ImgRename {
  import opened Seqs
  import opened Paths
  import opened Decimal

  /** The suffixes the renamer accepts, compared after lower-casing. */
  const RenameExtensions: set<string> := {".jpg", ".jpeg", ".png", ".webp", ".bmp", ".tiff"}

  const BaseName: string := "img_"

  /** The comprehension's test: a regular file with an accepted suffix. */
  predicate IsImageFile(entries: map<string, Entry>, name: string)
  {
    name in entries && entries[name].File? && HasSuffixIn(name, RenameExtensions)
  }

  /** An accepted suffix is never the empty one: every accepted suffix is at least
      four characters long and lower-casing keeps the length. */
  lemma AcceptedSuffixNonEmpty(name: string)
    requires HasSuffixIn(name, RenameExtensions)
    ensures Suffix(name) != ""
  {
    assert forall e :: e in RenameExtensions ==> |e| >= 4;
    assert |Lower(Suffix(name))| == |Suffix(name)|;
  }

  function IsImageFileIn(entries: map<string, Entry>): string -> bool
  {
    name => IsImageFile(entries, name)
  }

  /** Lines 23-26: the images, in `iterdir()` order. */
  function ImageFiles(entries: map<string, Entry>, listing: seq<string>): (r: seq<string>)
    ensures forall n :: n in r <==> n in listing && IsImageFile(entries, n)
  {
    Filter(listing, IsImageFileIn(entries))
  }

  /** `src.rename(dst)`: the new entries and whether it succeeded. */
  function Rename(entries: map<string, Entry>, src: string, dst: string, fails: bool): (map<string, Entry>, bool)
  {
    if fails || src !in entries || (dst != src && dst in entries && entries[dst].Dir?) then (entries, false)
    else if dst == src then (entries, true)
    else ((entries - {src})[dst := entries[src]], true)
  }

  /** A successful rename moves the entry to the new name and changes nothing else;
      a failed one changes nothing at all. */
  lemma RenameEffect(entries: map<string, Entry>, src: string, dst: string, fails: bool)
    ensures var (after, ok) := Rename(entries, src, dst, fails);
      && (ok <==> !fails && src in entries && (dst == src || dst !in entries || entries[dst].File?))
      && (!ok ==> after == entries)
      && (ok ==> dst in after && after[dst] == entries[src])
      && (ok && dst != src ==> src !in after)
      && (forall n :: n != src && n != dst ==> (n in after <==> n in entries))
      && (forall n :: n != src && n != dst && n in entries ==> after[n] == entries[n])
  {
  }

  // ---------------------------------------------------------------------------
  // Phase 1

  /** `f"{uuid.uuid4()}{file_path.suffix}"`. */
  function TempName(uuid: string, name: string): string
  {
    uuid + Suffix(name)
  }

  /** The text of a UUID: hex digits and dashes, so no dot. */
  predicate IsUuidText(u: string)
  {
    |u| >= 1 && forall k :: 0 <= k < |u| ==> ('0' <= u[k] <= '9' || 'a' <= u[k] <= 'f' || u[k] == '-')
  }

  /** The temporary name keeps the file's suffix, letter case included. */
  lemma TempNameKeepsSuffix(uuid: string, name: string)
    requires IsUuidText(uuid) && Suffix(name) != ""
    ensures Suffix(TempName(uuid, name)) == Suffix(name)
  {
    assert '.' !in uuid by {
      forall k | 0 <= k < |uuid| ensures uuid[k] != '.' { }
    }
    SuffixOfPrefixed(uuid, Suffix(name));
  }

  /** The temporary name of every image, in order. */
  function TempNames(files: seq<string>, uuids: seq<string>): (r: seq<string>)
    requires |uuids| >= |files|
    ensures |r| == |files|
    ensures forall k :: 0 <= k < |r| ==> r[k] == TempName(uuids[k], files[k])
  {
    seq(|files|, k requires 0 <= k < |files| => TempName(uuids[k], files[k]))
  }

  /** The first loop as a function of the image list, `names[k]` being the
      temporary name of `files[k]`: the entries after it and the temporary names
      of the files it renamed, in order. */
  function Phase1(entries: map<string, Entry>, files: seq<string>, names: seq<string>,
                  tempFails: string -> bool): (r: (map<string, Entry>, seq<string>))
    requires |names| >= |files|
    ensures |r.1| <= |files|
  {
    if files == [] then (entries, [])
    else
      var (before, temps) := Phase1(entries, files[..|files| - 1], names, tempFails);
      var f := files[|files| - 1];
      var t := names[|files| - 1];
      var (after, ok) := Rename(before, f, t, tempFails(f));
      (after, temps + (if ok then [t] else []))
  }

  lemma Phase1Step(entries: map<string, Entry>, files: seq<string>, names: seq<string>,
                   tempFails: string -> bool)
    requires files != [] && |names| >= |files|
    ensures var (before, temps) := Phase1(entries, files[..|files| - 1], names, tempFails);
      var f := files[|files| - 1];
      var t := names[|files| - 1];
      var (after, ok) := Rename(before, f, t, tempFails(f));
      Phase1(entries, files, names, tempFails) == (after, temps + (if ok then [t] else []))
  {
  }

  /** The state of the first loop before turn `i`: the result of the turns so far. */
  ghost predicate Phase1Turn(start: map<string, Entry>, files: seq<string>, names: seq<string>,
                             tempFails: string -> bool, i: nat, entries: map<string, Entry>, temps: seq<string>)
    requires |names| >= |files|
  {
    i <= |files| && (entries, temps) == Phase1(start, files[..i], names, tempFails)
  }

  /** One turn keeps that state. */
  lemma Phase1TurnNext(start: map<string, Entry>, files: seq<string>, names: seq<string>,
                       tempFails: string -> bool, i: nat, entries: map<string, Entry>, temps: seq<string>)
    requires |names| >= |files| && i < |files| && Phase1Turn(start, files, names, tempFails, i, entries, temps)
    ensures var (after, ok) := Rename(entries, files[i], names[i], tempFails(files[i]));
      Phase1Turn(start, files, names, tempFails, i + 1, after, if ok then temps + [names[i]] else temps)
  {
    var upto := files[..i + 1];
    assert upto[..i] == files[..i] && upto[i] == files[i] && |upto| - 1 == i;
    Phase1Step(start, upto, names, tempFails);
    assert temps + [] == temps;
  }

  /** Every temporary name is the name chosen for some image whose rename did not
      raise; a file whose rename failed is left out of phase 2. */
  lemma {:induction false} Phase1Temps(entries: map<string, Entry>, files: seq<string>, names: seq<string>,
                                       tempFails: string -> bool)
    requires |names| >= |files|
    ensures forall t :: t in Phase1(entries, files, names, tempFails).1 ==>
      exists k :: 0 <= k < |files| && t == names[k] && !tempFails(files[k])
  {
    if files != [] {
      var init := files[..|files| - 1];
      Phase1Temps(entries, init, names, tempFails);
      forall t | t in Phase1(entries, files, names, tempFails).1
        ensures exists k :: 0 <= k < |files| && t == names[k] && !tempFails(files[k])
      {
        if t in Phase1(entries, init, names, tempFails).1 {
          var k :| 0 <= k < |init| && t == names[k] && !tempFails(init[k]);
          assert files[k] == init[k];
        } else {
          var k := |files| - 1;
          assert t == names[k] && !tempFails(files[k]);
        }
      }
    }
  }

  /** Each `files[k]` renamed to `temps[k]` in turn, none of the renames raising. */
  function MoveAll(entries: map<string, Entry>, files: seq<string>, temps: seq<string>): map<string, Entry>
    requires |temps| == |files|
  {
    if files == [] then entries
    else
      var m := |files| - 1;
      Rename(MoveAll(entries, files[..m], temps[..m]), files[m], temps[m], false).0
  }

  /** The images are distinct files of the folder and their new names are
      distinct and new to the folder. */
  ghost predicate MoveClear(entries: map<string, Entry>, files: seq<string>, temps: seq<string>)
    requires |temps| == |files|
  {
    && NoDups(files) && NoDups(temps)
    && (forall k :: 0 <= k < |files| ==> files[k] in entries && entries[files[k]].File?)
    && (forall k :: 0 <= k < |temps| ==> temps[k] !in entries)
  }

  lemma MoveClearPrefix(entries: map<string, Entry>, files: seq<string>, temps: seq<string>)
    requires |temps| == |files| && files != [] && MoveClear(entries, files, temps)
    ensures var m := |files| - 1;
      && MoveClear(entries, files[..m], temps[..m])
      && files[m] !in files[..m] && files[m] !in temps[..m]
      && temps[m] !in files[..m] && temps[m] !in temps[..m] && temps[m] != files[m]
  {
    var m := |files| - 1;
    assert files[m] !in files[..m] by {
      forall k | 0 <= k < m ensures files[..m][k] != files[m] { }
    }
    assert temps[m] !in temps[..m] by {
      forall k | 0 <= k < m ensures temps[..m][k] != temps[m] { }
    }
    assert files[m] !in temps[..m] by {
      forall k | 0 <= k < m ensures temps[..m][k] != files[m] {
        assert temps[k] !in entries;
      }
    }
    assert temps[m] !in files[..m] by {
      forall k | 0 <= k < m ensures files[..m][k] != temps[m] {
        assert files[k] in entries;
      }
    }
  }

  /** The `j`-th move is clear of the moves before it. */
  lemma MoveClearAt(entries: map<string, Entry>, files: seq<string>, temps: seq<string>, j: nat)
    requires |temps| == |files| && j < |files| && MoveClear(entries, files, temps)
    ensures files[j] in entries && entries[files[j]].File? && temps[j] !in entries
    ensures files[j] !in files[..j] && files[j] !in temps[..j]
    ensures temps[j] !in files[..j] && temps[j] !in temps[..j]
  {
    assert files[j] !in files[..j] by {
      forall k | 0 <= k < j ensures files[..j][k] != files[j] { }
    }
    assert temps[j] !in temps[..j] by {
      forall k | 0 <= k < j ensures temps[..j][k] != temps[j] { }
    }
    assert files[j] !in temps[..j] by {
      forall k | 0 <= k < j ensures temps[..j][k] != files[j] {
        assert temps[k] !in entries;
      }
    }
    assert temps[j] !in files[..j] by {
      forall k | 0 <= k < j ensures files[..j][k] != temps[j] {
        assert files[k] in entries;
      }
    }
  }

  /** An entry that is neither moved nor a new name is left as it was. */
  lemma {:induction false} MoveAllOther(entries: map<string, Entry>, files: seq<string>, temps: seq<string>, n: string)
    requires |temps| == |files| && n !in files && n !in temps
    ensures n in MoveAll(entries, files, temps) <==> n in entries
    ensures n in entries ==> MoveAll(entries, files, temps)[n] == entries[n]
  {
    if files != [] {
      var m := |files| - 1;
      assert files[m] in files && temps[m] in temps;
      assert forall x :: x in files[..m] ==> x in files;
      assert forall x :: x in temps[..m] ==> x in temps;
      MoveAllOther(entries, files[..m], temps[..m], n);
      RenameEffect(MoveAll(entries, files[..m], temps[..m]), files[m], temps[m], false);
    }
  }

  /** Every image ends up under its new name, with its contents, and no longer
      under its old one. */
  lemma {:induction false} MoveAllMoved(entries: map<string, Entry>, files: seq<string>, temps: seq<string>, k: nat)
    requires |temps| == |files| && MoveClear(entries, files, temps) && k < |files|
    ensures temps[k] in MoveAll(entries, files, temps) && MoveAll(entries, files, temps)[temps[k]] == entries[files[k]]
    ensures files[k] !in MoveAll(entries, files, temps)
  {
    var m := |files| - 1;
    var init, temps0 := files[..m], temps[..m];
    MoveClearPrefix(entries, files, temps);
    var before := MoveAll(entries, init, temps0);
    MoveAllOther(entries, init, temps0, files[m]);
    MoveAllOther(entries, init, temps0, temps[m]);
    RenameEffect(before, files[m], temps[m], false);
    if k < m {
      MoveAllMoved(entries, init, temps0, k);
      assert temps[k] != files[m] by {
        assert temps[k] !in entries;
      }
      assert temps[k] != temps[m] && files[k] != files[m];
      assert files[k] != temps[m] by {
        assert files[k] in entries;
      }
    }
  }

  /** The conditions under which phase 1 renames every image: the renames are
      clear of each other and none of them raises for another reason. */
  ghost predicate Phase1Clear(entries: map<string, Entry>, files: seq<string>, names: seq<string>,
                              tempFails: string -> bool)
    requires |names| >= |files|
  {
    && MoveClear(entries, files, names[..|files|])
    && (forall k :: 0 <= k < |files| ==> !tempFails(files[k]))
  }

  /** Under those conditions phase 1 renames every image to its temporary name,
      in order; `MoveAllMoved` and `MoveAllOther` then say what the folder holds. */
  lemma {:induction false} Phase1AllRenamed(entries: map<string, Entry>, files: seq<string>, names: seq<string>,
                                            tempFails: string -> bool)
    requires |names| >= |files|
    requires Phase1Clear(entries, files, names, tempFails)
    ensures Phase1(entries, files, names, tempFails) == (MoveAll(entries, files, names[..|files|]), names[..|files|])
  {
    if files != [] {
      var m := |files| - 1;
      var init, temps := files[..m], names[..|files|];
      assert temps[..m] == names[..m];
      MoveClearPrefix(entries, files, temps);
      assert Phase1Clear(entries, init, names, tempFails);
      Phase1AllRenamed(entries, init, names, tempFails);
      var before := MoveAll(entries, init, names[..m]);
      MoveAllOther(entries, init, names[..m], files[m]);
      MoveAllOther(entries, init, names[..m], names[m]);
      assert files[m] in before && names[m] !in before;
      Phase1Step(entries, files, names, tempFails);
      assert temps == names[..m] + [names[m]];
    }
  }

  // ---------------------------------------------------------------------------
  // Phase 2

  /** `f"{BASE_NAME}{count}{temp_path.suffix}"`. */
  function FinalName(count: nat, temp: string): string
  {
    BaseName + NatToString(count) + Suffix(temp)
  }

  /** The second loop from some turn on, as a function of the entries at that
      turn, the temporary names left and the counter: the entries after it and the
      temporary names it renamed, in order. */
  function Phase2From(entries: map<string, Entry>, temps: seq<string>, count: nat,
                      nameOf: (nat, string) -> string, finalFails: string -> bool): (r: (map<string, Entry>, seq<string>))
    ensures |r.1| <= |temps|
    decreases |temps|
  {
    if temps == [] then (entries, [])
    else
      var t := temps[0];
      var (after, ok) := Rename(entries, t, nameOf(count, t), finalFails(t));
      var (final, rest) := Phase2From(after, temps[1..], if ok then count + 1 else count, nameOf, finalFails);
      (final, (if ok then [t] else []) + rest)
  }

  /** The whole second loop: the counter starts at 1. */
  function Phase2(entries: map<string, Entry>, temps: seq<string>,
                  finalFails: string -> bool): (r: (map<string, Entry>, seq<string>))
    ensures |r.1| <= |temps|
  {
    Phase2From(entries, temps, 1, FinalName, finalFails)
  }

  /** Phase 2 renames only temporary names from its input. */
  lemma {:induction false} Phase2FromTemps(entries: map<string, Entry>, temps: seq<string>, count: nat,
                                           nameOf: (nat, string) -> string,
                                             finalFails: string -> bool)
    ensures forall t :: t in Phase2From(entries, temps, count, nameOf, finalFails).1 ==> t in temps
    decreases |temps|
  {
    if temps != [] {
      var t := temps[0];
      var (after, ok) := Rename(entries, t, nameOf(count, t), finalFails(t));
      Phase2FromTemps(after, temps[1..], if ok then count + 1 else count, nameOf, finalFails);
      assert forall x :: x in temps[1..] ==> x in temps;
    }
  }

  /** The state of the second loop before turn `j`: `entries` and the counter
      `count`, `done` being the temporary names renamed so far, such that running
      the rest of the loop from there gives `whole`, the whole loop's result. */
  ghost predicate Phase2Turn(whole: (map<string, Entry>, seq<string>), temps: seq<string>,
                             nameOf: (nat, string) -> string, finalFails: string -> bool,
                             j: nat, entries: map<string, Entry>, done: seq<string>, count: int)
  {
    && j <= |temps| && count == |done| + 1
    && whole.0 == Phase2From(entries, temps[j..], count, nameOf, finalFails).0
    && whole.1 == done + Phase2From(entries, temps[j..], count, nameOf, finalFails).1
  }

  /** One turn keeps that state. */
  lemma Phase2TurnNext(whole: (map<string, Entry>, seq<string>), temps: seq<string>,
                       nameOf: (nat, string) -> string, finalFails: string -> bool,
                       j: nat, entries: map<string, Entry>, done: seq<string>, count: int)
    requires j < |temps| && Phase2Turn(whole, temps, nameOf, finalFails, j, entries, done, count)
    ensures var (after, ok) := Rename(entries, temps[j], nameOf(count, temps[j]), finalFails(temps[j]));
      Phase2Turn(whole, temps, nameOf, finalFails, j + 1, after,
                 if ok then done + [temps[j]] else done, if ok then count + 1 else count)
  {
    var rest, t := temps[j..], temps[j];
    assert rest[0] == t && rest[1..] == temps[j + 1..];
    var (after, ok) := Rename(entries, t, nameOf(count, t), finalFails(t));
    var next := if ok then count + 1 else count;
    var tail := Phase2From(after, temps[j + 1..], next, nameOf, finalFails);
    assert Phase2From(entries, rest, count, nameOf, finalFails) == (tail.0, (if ok then [t] else []) + tail.1);
    assert done + ((if ok then [t] else []) + tail.1) == (if ok then done + [t] else done) + tail.1;
  }

  /** Before the first turn, the whole loop is still ahead. */
  lemma Phase2TurnFirst(entries: map<string, Entry>, temps: seq<string>, finalFails: string -> bool)
    ensures Phase2Turn(Phase2(entries, temps, finalFails), temps, FinalName, finalFails, 0, entries, [], 1)
  {
    assert temps[0..] == temps;
  }

  /** After the last turn, the state is the loop's result. */
  lemma Phase2TurnLast(whole: (map<string, Entry>, seq<string>), temps: seq<string>,
                       nameOf: (nat, string) -> string, finalFails: string -> bool,
                       entries: map<string, Entry>, done: seq<string>, count: int)
    requires Phase2Turn(whole, temps, nameOf, finalFails, |temps|, entries, done, count)
    ensures (entries, done) == whole && count == |done| + 1
  {
    assert temps[|temps|..] == [];
    assert Phase2From(entries, [], count, nameOf, finalFails) == (entries, []);
    assert done + [] == done;
  }

  /** The names phase 2 gave: the k-th temporary name it renamed got the number
      k + 1, so numbers run 1, 2, 3, ... with no gap, whichever renames failed. */
  function FinalNames(renamed: seq<string>): (r: seq<string>)
    ensures |r| == |renamed|
    ensures forall k :: 0 <= k < |r| ==> r[k] == FinalName(k + 1, renamed[k])
  {
    seq(|renamed|, k requires 0 <= k < |renamed| => FinalName(k + 1, renamed[k]))
  }

  /** When no rename raises, the temporary files are distinct files and their
      final names `finals` are distinct and new to the folder, phase 2 renames
      every one of them in turn (shown from turn `j` on). */
  lemma {:induction false} Phase2FromAllRenamed(entries: map<string, Entry>, temps: seq<string>, finals: seq<string>,
                                                nameOf: (nat, string) -> string, finalFails: string -> bool, j: nat)
    requires j <= |temps| && |finals| == |temps| && MoveClear(entries, temps, finals)
    requires forall k :: 0 <= k < |temps| ==> finals[k] == nameOf(k + 1, temps[k]) && !finalFails(temps[k])
    ensures Phase2From(MoveAll(entries, temps[..j], finals[..j]), temps[j..], j + 1, nameOf, finalFails)
      == (MoveAll(entries, temps, finals), temps[j..])
    decreases |temps| - j
  {
    if j == |temps| {
      assert temps[..j] == temps && finals[..j] == finals;
    } else {
      Phase2AllRenamedTurn(entries, temps, finals, nameOf, finalFails, j);
      Phase2FromAllRenamed(entries, temps, finals, nameOf, finalFails, j + 1);
      assert temps[j..] == [temps[j]] + temps[j + 1..];
    }
  }

  /** One turn under those conditions: the rename at turn `j` succeeds and gives
      the moves of the first `j + 1` files. */
  lemma Phase2AllRenamedTurn(entries: map<string, Entry>, temps: seq<string>, finals: seq<string>,
                             nameOf: (nat, string) -> string, finalFails: string -> bool, j: nat)
    requires j < |temps| && |finals| == |temps| && MoveClear(entries, temps, finals)
    requires forall k :: 0 <= k < |temps| ==> finals[k] == nameOf(k + 1, temps[k]) && !finalFails(temps[k])
    ensures var rest := Phase2From(MoveAll(entries, temps[..j + 1], finals[..j + 1]), temps[j + 1..], j + 2, nameOf, finalFails);
      Phase2From(MoveAll(entries, temps[..j], finals[..j]), temps[j..], j + 1, nameOf, finalFails)
        == (rest.0, [temps[j]] + rest.1)
  {
    var before := MoveAll(entries, temps[..j], finals[..j]);
    var t, n := temps[j], finals[j];
    RenameAtTurn(entries, temps, finals, j);
    assert temps[j..][0] == t && temps[j..][1..] == temps[j + 1..];
    assert Rename(before, t, nameOf(j + 1, t), finalFails(t)) == (MoveAll(entries, temps[..j + 1], finals[..j + 1]), true);
  }

  /** With the files distinct and present and their new names distinct and new, the
      move at index `j` succeeds on what the earlier moves left. */
  lemma RenameAtTurn(entries: map<string, Entry>, temps: seq<string>, finals: seq<string>, j: nat)
    requires j < |temps| && |finals| == |temps| && MoveClear(entries, temps, finals)
    ensures Rename(MoveAll(entries, temps[..j], finals[..j]), temps[j], finals[j], false)
      == (MoveAll(entries, temps[..j + 1], finals[..j + 1]), true)
  {
    var before := MoveAll(entries, temps[..j], finals[..j]);
    var t, n := temps[j], finals[j];
    MoveClearAt(entries, temps, finals, j);
    MoveAllOther(entries, temps[..j], finals[..j], t);
    MoveAllOther(entries, temps[..j], finals[..j], n);
    assert temps[..j + 1][..j] == temps[..j] && finals[..j + 1][..j] == finals[..j];
  }

  /** The whole of phase 2 under those conditions: every temporary file is
      renamed, the k-th to `img_<k + 1><suffix>`. */
  lemma Phase2AllRenamed(entries: map<string, Entry>, temps: seq<string>, finalFails: string -> bool)
    requires MoveClear(entries, temps, FinalNames(temps))
    requires forall k :: 0 <= k < |temps| ==> !finalFails(temps[k])
    ensures Phase2(entries, temps, finalFails) == (MoveAll(entries, temps, FinalNames(temps)), temps)
  {
    Phase2FromAllRenamed(entries, temps, FinalNames(temps), FinalName, finalFails, 0);
    assert temps[..0] == [] && FinalNames(temps)[..0] == [] && temps[0..] == temps;
  }

  /** Length of the leading run of decimal digits. */
  function DigitRun(s: string): (n: nat)
    ensures n <= |s|
  {
    if s == [] || !IsDigit(s[0]) then 0 else 1 + DigitRun(s[1..])
  }

  lemma {:induction false} DigitRunOf(d: string, rest: string)
    requires AllDigits(d) && rest != [] && !IsDigit(rest[0])
    ensures DigitRun(d + rest) == |d|
    decreases |d|
  {
    if d == [] {
      assert d + rest == rest;
    } else {
      assert (d + rest)[1..] == d[1..] + rest;
      DigitRunOf(d[1..], rest);
    }
  }

  /** `img_` followed by different numbers, each followed by a suffix, are different
      names: the first dot ends the number. */
  lemma FinalNamesDiffer(a: nat, b: nat, ta: string, tb: string)
    requires a != b
    requires Suffix(ta) != "" && Suffix(tb) != ""
    ensures FinalName(a, ta) != FinalName(b, tb)
  {
    var da, db := NatToString(a), NatToString(b);
    var sa, sb := Suffix(ta), Suffix(tb);
    assert !IsDigit(sa[0]) && !IsDigit(sb[0]);
    DigitRunOf(da, sa);
    DigitRunOf(db, sb);
    if FinalName(a, ta) == FinalName(b, tb) {
      assert FinalName(a, ta)[4..] == da + sa;
      assert FinalName(b, tb)[4..] == db + sb;
      assert |da| == |db|;
      assert da == (da + sa)[..|da|];
      assert db == (db + sb)[..|db|];
      NatToStringInjective(a, b);
    }
  }

  /** When every temporary name has a suffix, the final names are pairwise
      distinct. */
  lemma FinalNamesDistinct(renamed: seq<string>)
    requires forall k :: 0 <= k < |renamed| ==> Suffix(renamed[k]) != ""
    ensures NoDups(FinalNames(renamed))
  {
    var finals := FinalNames(renamed);
    forall i, j | 0 <= i < j < |finals| ensures finals[i] != finals[j] {
      FinalNamesAt(renamed, i, j);
    }
  }

  lemma FinalNamesAt(renamed: seq<string>, i: nat, j: nat)
    requires i < j < |renamed| && Suffix(renamed[i]) != "" && Suffix(renamed[j]) != ""
    ensures FinalNames(renamed)[i] != FinalNames(renamed)[j]
  {
    FinalNamesDiffer(i + 1, j + 1, renamed[i], renamed[j]);
  }

  /** With the images' suffixes, every temporary name has one too, so phase 2's
      names are distinct. */
  lemma TempsHaveSuffixes(entries: map<string, Entry>, files: seq<string>, uuids: seq<string>,
                          tempFails: string -> bool)
    requires |uuids| >= |files|
    requires forall k :: 0 <= k < |files| ==> HasSuffixIn(files[k], RenameExtensions)
    requires forall k :: 0 <= k < |uuids| ==> IsUuidText(uuids[k])
    ensures forall t :: t in Phase1(entries, files, TempNames(files, uuids), tempFails).1 ==> HasSuffixIn(t, RenameExtensions)
  {
    var names := TempNames(files, uuids);
    Phase1Temps(entries, files, names, tempFails);
    forall t | t in Phase1(entries, files, names, tempFails).1 ensures HasSuffixIn(t, RenameExtensions) {
      var k :| 0 <= k < |files| && t == names[k] && !tempFails(files[k]);
      AcceptedSuffixNonEmpty(files[k]);
      TempNameKeepsSuffix(uuids[k], files[k]);
    }
  }

  // ---------------------------------------------------------------------------
  // Where each renamed file ends up, whichever renames fail

  /** Every final name begins with the `i` of `img_`. */
  lemma FinalNameInitial(count: nat, temp: string)
    ensures |FinalName(count, temp)| >= 1 && FinalName(count, temp)[0] == 'i'
  {
  }

  /** A name that has a suffix and does not begin with `i`: no final name is one. */
  predicate IsTempLike(t: string)
  {
    Suffix(t) != "" && |t| >= 1 && t[0] != 'i'
  }

  /** The rest of phase 2 leaves alone a name that is neither one of its temporary
      names nor a final name it can still give. */
  lemma {:induction false} Phase2FromFrame(entries: map<string, Entry>, temps: seq<string>, count: nat,
                                           finalFails: string -> bool, x: string)
    requires x !in temps
    requires forall n: nat, k :: count <= n && 0 <= k < |temps| ==> FinalName(n, temps[k]) != x
    ensures var final := Phase2From(entries, temps, count, FinalName, finalFails).0;
      (x in final <==> x in entries) && (x in entries ==> final[x] == entries[x])
    decreases |temps|
  {
    if temps != [] {
      var t, rest := temps[0], temps[1..];
      RenameEffect(entries, t, FinalName(count, t), finalFails(t));
      var (after, ok) := Rename(entries, t, FinalName(count, t), finalFails(t));
      var next := if ok then count + 1 else count;
      forall n: nat, k | next <= n && 0 <= k < |rest| ensures FinalName(n, rest[k]) != x {
        assert rest[k] == temps[k + 1];
      }
      assert x !in rest by {
        forall k | 0 <= k < |rest| ensures rest[k] != x {
          assert rest[k] == temps[k + 1];
        }
      }
      Phase2FromFrame(after, rest, next, finalFails, x);
    }
  }

  /** A rename leaves every name other than its source and target as it was. */
  lemma RenameKeeps(entries: map<string, Entry>, src: string, dst: string, fails: bool, n: string)
    requires n != src && n != dst
    ensures var after := Rename(entries, src, dst, fails).0;
      (n in after <==> n in entries) && (n in entries ==> after[n] == entries[n])
  {
  }

  /** No final name is a name that does not begin with `i`. */
  lemma FinalNamesAvoid(temps: seq<string>, count: nat, x: string)
    requires |x| >= 1 && x[0] != 'i'
    ensures forall n: nat, k :: count <= n && 0 <= k < |temps| ==> FinalName(n, temps[k]) != x
  {
    forall n: nat, k | count <= n && 0 <= k < |temps| ensures FinalName(n, temps[k]) != x {
      FinalNameInitial(n, temps[k]);
    }
  }

  /** The final names still to come, numbered from `count` on, differ from one
      given earlier with a smaller number. */
  lemma LaterFinalsDiffer(temps: seq<string>, count: nat, earlier: nat, t: string)
    requires earlier < count && Suffix(t) != ""
    requires forall k :: 0 <= k < |temps| ==> IsTempLike(temps[k])
    ensures forall n: nat, k :: count <= n && 0 <= k < |temps| ==> FinalName(n, temps[k]) != FinalName(earlier, t)
  {
    forall n: nat, k | count <= n && 0 <= k < |temps| ensures FinalName(n, temps[k]) != FinalName(earlier, t) {
      assert IsTempLike(temps[k]);
      FinalNamesDiffer(n, earlier, temps[k], t);
    }
  }

  /** What `Phase2FromPlacement` promises about a run from `count`. */
  ghost predicate Placed(entries: map<string, Entry>, count: nat, nameOf: (nat, string) -> string,
                         r: (map<string, Entry>, seq<string>))
  {
    forall k :: 0 <= k < |r.1| ==>
      && r.1[k] in entries && r.1[k] !in r.0
      && nameOf(count + k, r.1[k]) in r.0
      && r.0[nameOf(count + k, r.1[k])] == entries[r.1[k]]
  }

  /** Phase 2 from counter `count`, whichever renames fail: the k-th temporary file
      it renamed now holds, under `img_<count + k><suffix>`, what it held before,
      and its temporary name is gone. An earlier file of that final name is
      replaced. */
  lemma {:induction false} Phase2FromPlacement(entries: map<string, Entry>, temps: seq<string>, count: nat,
                                               finalFails: string -> bool)
    requires NoDups(temps)
    requires forall k :: 0 <= k < |temps| ==> IsTempLike(temps[k])
    ensures Placed(entries, count, FinalName, Phase2From(entries, temps, count, FinalName, finalFails))
    decreases |temps|
  {
    if temps != [] {
      var t, rest := temps[0], temps[1..];
      NoDupsTail(temps);
      TempLikeTail(temps);
      var step := Rename(entries, t, FinalName(count, t), finalFails(t));
      var next := if step.1 then count + 1 else count;
      Phase2FromPlacement(step.0, rest, next, finalFails);
      Phase2HeadStep(entries, temps, count, finalFails);
      var tail := Phase2From(step.0, rest, next, FinalName, finalFails);
      if step.1 {
        LaterUntouched(entries, t, count, finalFails, rest, next);
        HeadPlaced(entries, t, count, finalFails, rest);
        PlacedCons(entries, count, FinalName, t, step.0, tail);
      } else {
        assert step.0 == entries && next == count && [] + tail.1 == tail.1;
      }
    }
  }

  /** The rest of a sequence of temporary names are temporary names too. */
  lemma TempLikeTail(temps: seq<string>)
    requires temps != [] && forall k :: 0 <= k < |temps| ==> IsTempLike(temps[k])
    ensures forall k :: 0 <= k < |temps[1..]| ==> IsTempLike(temps[1..][k])
  {
    forall k | 0 <= k < |temps[1..]| ensures IsTempLike(temps[1..][k]) {
      assert temps[1..][k] == temps[k + 1];
    }
  }

  /** The files phase 2 renames after its first turn held, after that turn, what
      they held before it. */
  lemma LaterUntouched(entries: map<string, Entry>, t: string, count: nat, finalFails: string -> bool,
                       rest: seq<string>, next: nat)
    requires t !in rest && forall k :: 0 <= k < |rest| ==> IsTempLike(rest[k])
    ensures var after := Rename(entries, t, FinalName(count, t), finalFails(t)).0;
      var later := Phase2From(after, rest, next, FinalName, finalFails).1;
      forall k :: 0 <= k < |later| ==> later[k] in after ==> later[k] in entries && after[later[k]] == entries[later[k]]
  {
    var after := Rename(entries, t, FinalName(count, t), finalFails(t)).0;
    var later := Phase2From(after, rest, next, FinalName, finalFails).1;
    Phase2FromTemps(after, rest, next, FinalName, finalFails);
    FinalNameInitial(count, t);
    forall k | 0 <= k < |later| && later[k] in after ensures later[k] in entries && after[later[k]] == entries[later[k]] {
      assert later[k] in rest;
      var m :| 0 <= m < |rest| && rest[m] == later[k];
      assert IsTempLike(rest[m]);
      RenameKeeps(entries, t, FinalName(count, t), finalFails(t), later[k]);
    }
  }

  /** A successful first turn of phase 2 leaves its file under its final name,
      which no later turn touches, and takes it from its temporary name for good. */
  lemma HeadPlaced(entries: map<string, Entry>, t: string, count: nat, finalFails: string -> bool, rest: seq<string>)
    requires Rename(entries, t, FinalName(count, t), finalFails(t)).1
    requires IsTempLike(t) && t !in rest && forall k :: 0 <= k < |rest| ==> IsTempLike(rest[k])
    ensures var after := Rename(entries, t, FinalName(count, t), finalFails(t)).0;
      var final := Phase2From(after, rest, count + 1, FinalName, finalFails).0;
      && t in entries && t !in final
      && FinalName(count, t) in final && final[FinalName(count, t)] == entries[t]
  {
    var target := FinalName(count, t);
    var after := Rename(entries, t, target, finalFails(t)).0;
    FinalNameInitial(count, t);
    RenameEffect(entries, t, target, finalFails(t));
    FinalNamesAvoid(rest, count + 1, t);
    Phase2FromFrame(after, rest, count + 1, finalFails, t);
    assert target !in rest by {
      forall k | 0 <= k < |rest| ensures rest[k] != target {
        assert IsTempLike(rest[k]);
      }
    }
    LaterFinalsDiffer(rest, count + 1, count, t);
    Phase2FromFrame(after, rest, count + 1, finalFails, target);
  }

  /** The first turn of a run of phase 2, then the rest from the next counter. */
  lemma Phase2HeadStep(entries: map<string, Entry>, temps: seq<string>, count: nat, finalFails: string -> bool)
    requires temps != []
    ensures var step := Rename(entries, temps[0], FinalName(count, temps[0]), finalFails(temps[0]));
      var tail := Phase2From(step.0, temps[1..], if step.1 then count + 1 else count, FinalName, finalFails);
      Phase2From(entries, temps, count, FinalName, finalFails) == (tail.0, (if step.1 then [temps[0]] else []) + tail.1)
  {
  }

  /** A successful first rename followed by a placed rest gives a placed run. */
  lemma PlacedCons(entries: map<string, Entry>, count: nat, nameOf: (nat, string) -> string, t: string,
                   after: map<string, Entry>, tail: (map<string, Entry>, seq<string>))
    requires Placed(after, count + 1, nameOf, tail)
    requires t in entries && t !in tail.0
    requires nameOf(count, t) in tail.0 && tail.0[nameOf(count, t)] == entries[t]
    requires forall k :: 0 <= k < |tail.1| ==> tail.1[k] in after ==> tail.1[k] in entries && after[tail.1[k]] == entries[tail.1[k]]
    ensures Placed(entries, count, nameOf, (tail.0, [t] + tail.1))
  {
    var r := [t] + tail.1;
    forall k | 0 <= k < |r|
      ensures r[k] in entries && r[k] !in tail.0 && nameOf(count + k, r[k]) in tail.0
      ensures tail.0[nameOf(count + k, r[k])] == entries[r[k]]
    {
      if k > 0 {
        assert r[k] == tail.1[k - 1] && count + k == count + 1 + (k - 1);
      }
    }
  }

  /** Phase 1 hands on each temporary name at most once when the names are distinct. */
  lemma {:induction false} Phase1TempsDistinct(entries: map<string, Entry>, files: seq<string>, names: seq<string>,
                                               tempFails: string -> bool)
    requires |names| >= |files| && NoDups(names)
    ensures NoDups(Phase1(entries, files, names, tempFails).1)
  {
    if files != [] {
      var init := files[..|files| - 1];
      Phase1TempsDistinct(entries, init, names, tempFails);
      Phase1Temps(entries, init, names, tempFails);
      var temps := Phase1(entries, init, names, tempFails).1;
      var t := names[|files| - 1];
      assert t !in temps by {
        forall u | u in temps ensures u != t {
          var k :| 0 <= k < |init| && u == names[k] && !tempFails(init[k]);
        }
      }
      NoDupsSnoc(temps, t);
    }
  }

  /** Two different UUIDs give two different temporary names: the UUID has no dot
      and the suffix starts with one, so the name shows where the UUID ends. */
  lemma TempNameInjective(u1: string, u2: string, f1: string, f2: string)
    requires IsUuidText(u1) && IsUuidText(u2) && u1 != u2
    requires Suffix(f1) != "" && Suffix(f2) != ""
    ensures TempName(u1, f1) != TempName(u2, f2)
  {
    SuffixShape(f1);
    SuffixShape(f2);
    var s1, s2 := TempName(u1, f1), TempName(u2, f2);
    if |u1| < |u2| {
      assert s1[|u1|] == '.' && s2[|u1|] == u2[|u1|] != '.';
    } else if |u2| < |u1| {
      assert s2[|u2|] == '.' && s1[|u2|] == u1[|u2|] != '.';
    } else {
      assert s1[..|u1|] == u1 && s2[..|u2|] == u2;
    }
  }

  /** With distinct UUIDs for images that have suffixes, the temporary names are
      distinct and are none of them a final name. */
  lemma TempNamesDistinct(files: seq<string>, uuids: seq<string>)
    requires |uuids| >= |files|
    requires NoDups(uuids) && forall k :: 0 <= k < |uuids| ==> IsUuidText(uuids[k])
    requires forall k :: 0 <= k < |files| ==> Suffix(files[k]) != ""
    ensures NoDups(TempNames(files, uuids))
    ensures forall k :: 0 <= k < |files| ==> IsTempLike(TempNames(files, uuids)[k])
  {
    var names := TempNames(files, uuids);
    forall i, j | 0 <= i < j < |names| ensures names[i] != names[j] {
      TempNameInjective(uuids[i], uuids[j], files[i], files[j]);
    }
    forall k | 0 <= k < |files| ensures IsTempLike(names[k]) {
      TempNameKeepsSuffix(uuids[k], files[k]);
    }
  }

  /** Whichever renames fail, with distinct UUIDs: the k-th temporary file phase 2
      renamed is now `img_<k + 1><suffix>`, holding what its temporary file held
      after phase 1, and no longer under its temporary name. */
  lemma RenamedPlacement(entries: map<string, Entry>, listing: seq<string>, uuids: seq<string>,
                         tempFails: string -> bool, finalFails: string -> bool)
    requires |uuids| >= |listing|
    requires NoDups(uuids) && forall k :: 0 <= k < |uuids| ==> IsUuidText(uuids[k])
    ensures var files := ImageFiles(entries, listing);
      var (afterTemp, temps) := Phase1(entries, files, TempNames(files, uuids), tempFails);
      var (afterFinal, renamed) := Phase2(afterTemp, temps, finalFails);
      forall k :: 0 <= k < |renamed| ==>
        && renamed[k] in afterTemp && renamed[k] !in afterFinal
        && FinalNames(renamed)[k] in afterFinal
        && afterFinal[FinalNames(renamed)[k]] == afterTemp[renamed[k]]
  {
    var files := ImageFiles(entries, listing);
    forall k | 0 <= k < |files| ensures IsImageFile(entries, files[k]) {
      assert files[k] in files;
    }
    Phase1TempsUsable(entries, files, uuids, tempFails);
    var phase1 := Phase1(entries, files, TempNames(files, uuids), tempFails);
    Phase2FromPlacement(phase1.0, phase1.1, 1, finalFails);
  }

  /** With distinct UUIDs, the temporary names phase 1 hands on are distinct and
      none of them is a final name. */
  lemma Phase1TempsUsable(entries: map<string, Entry>, files: seq<string>, uuids: seq<string>,
                          tempFails: string -> bool)
    requires |uuids| >= |files|
    requires NoDups(uuids) && forall k :: 0 <= k < |uuids| ==> IsUuidText(uuids[k])
    requires forall k :: 0 <= k < |files| ==> IsImageFile(entries, files[k])
    ensures var temps := Phase1(entries, files, TempNames(files, uuids), tempFails).1;
      NoDups(temps) && forall k :: 0 <= k < |temps| ==> IsTempLike(temps[k])
  {
    forall k | 0 <= k < |files| ensures Suffix(files[k]) != "" {
      AcceptedSuffixNonEmpty(files[k]);
    }
    var names := TempNames(files, uuids);
    TempNamesDistinct(files, uuids);
    Phase1TempsDistinct(entries, files, names, tempFails);
    Phase1Temps(entries, files, names, tempFails);
    var temps := Phase1(entries, files, names, tempFails).1;
    forall k | 0 <= k < |temps| ensures IsTempLike(temps[k]) {
      assert temps[k] in temps;
    }
  }

  /** How `batch_rename` ended. */
  datatype RenameOutcome = NoFolder | NoImages | Renamed(total: nat)

  /** `dataset_raw`, as a map from name to entry. */
  class Folder {
    var entries: map<string, Entry>

    constructor (initial: map<string, Entry>)
      ensures entries == initial
    {
      entries := initial;
    }

    /** Phase 1 of `batch_rename()`: every image to `<uuid><suffix>`, in order;
        the names of the files renamed are returned. */
    method RenameToTemporary(files: seq<string>, uuids: seq<string>, tempFails: string -> bool)
      returns (tempFiles: seq<string>)
      requires |uuids| >= |files|
      modifies this
      ensures (entries, tempFiles) == Phase1(old(entries), files, TempNames(files, uuids), tempFails)
    {
      ghost var start := entries;
      ghost var names := TempNames(files, uuids);
      tempFiles := [];
      var i := 0;
      while i < |files|
        invariant Phase1Turn(start, files, names, tempFails, i, entries, tempFiles)
      {
        var tempName := TempName(uuids[i], files[i]);
        var (renamed, ok) := Rename(entries, files[i], tempName, tempFails(files[i]));
        Phase1TurnNext(start, files, names, tempFails, i, entries, tempFiles);
        entries := renamed;
        if ok {
          tempFiles := tempFiles + [tempName];
        }
        i := i + 1;
      }
      assert files[..|files|] == files;
    }

    /** Phase 2 of `batch_rename()`: the counter starts at 1 and advances on each
        successful rename; the total is the counter less one. */
    method RenameToFinal(tempFiles: seq<string>, finalFails: string -> bool) returns (total: nat)
      modifies this
      ensures entries == Phase2(old(entries), tempFiles, finalFails).0
      ensures total == |Phase2(old(entries), tempFiles, finalFails).1|
    {
      ghost var whole := Phase2(entries, tempFiles, finalFails);
      ghost var done: seq<string> := [];
      Phase2TurnFirst(entries, tempFiles, finalFails);
      var count := 1;
      var j := 0;
      while j < |tempFiles|
        invariant Phase2Turn(whole, tempFiles, FinalName, finalFails, j, entries, done, count)
      {
        var newName := FinalName(count, tempFiles[j]);
        var (renamed, ok) := Rename(entries, tempFiles[j], newName, finalFails(tempFiles[j]));
        Phase2TurnNext(whole, tempFiles, FinalName, finalFails, j, entries, done, count);
        entries := renamed;
        if ok {
          done := done + [tempFiles[j]];
          count := count + 1;
        }
        j := j + 1;
      }
      Phase2TurnLast(whole, tempFiles, FinalName, finalFails, entries, done, count);
      total := count - 1;
    }

    /** `batch_rename()`. `folderExists` says whether the folder exists, `listing`
        is `iterdir()`'s order, `uuids[k]` the UUID drawn for the k-th image,
        `tempFails` and `finalFails` which renames raise `OSError` for reasons
        other than a missing source or a directory in the way. The reported total
        is the number of successful final renames. */
    method BatchRename(folderExists: bool, listing: seq<string>, uuids: seq<string>,
                       tempFails: string -> bool, finalFails: string -> bool)
      returns (outcome: RenameOutcome)
      requires |uuids| >= |listing|
      modifies this
      ensures !folderExists ==> outcome == NoFolder && entries == old(entries)
      ensures folderExists && ImageFiles(old(entries), listing) == [] ==>
        outcome == NoImages && entries == old(entries)
      ensures folderExists && ImageFiles(old(entries), listing) != [] ==>
        var files := ImageFiles(old(entries), listing);
        var (afterTemp, temps) := Phase1(old(entries), files, TempNames(files, uuids), tempFails);
        var (afterFinal, renamed) := Phase2(afterTemp, temps, finalFails);
        entries == afterFinal && outcome == Renamed(|renamed|)
    {
      if !folderExists {
        return NoFolder;
      }
      var files := ImageFiles(entries, listing);
      if files == [] {
        return NoImages;
      }
      var tempFiles := RenameToTemporary(files, uuids, tempFails);
      var total := RenameToFinal(tempFiles, finalFails);
      outcome := Renamed(total);
    }
  }

  /** What the run promises: with UUID temporary names, the final names are
      pairwise distinct and the k-th is `img_<k + 1>` followed by the suffix of
      the image it came from, letter case kept, which is an accepted one. */
  lemma RenameResult(entries: map<string, Entry>, listing: seq<string>, uuids: seq<string>,
                     tempFails: string -> bool, finalFails: string -> bool)
    requires |uuids| >= |listing|
    requires forall k :: 0 <= k < |uuids| ==> IsUuidText(uuids[k])
    ensures var files := ImageFiles(entries, listing);
      var (afterTemp, temps) := Phase1(entries, files, TempNames(files, uuids), tempFails);
      var renamed := Phase2(afterTemp, temps, finalFails).1;
      && NoDups(FinalNames(renamed))
      && (forall k :: 0 <= k < |renamed| ==> HasSuffixIn(renamed[k], RenameExtensions))
  {
    var files := ImageFiles(entries, listing);
    forall k | 0 <= k < |files| ensures HasSuffixIn(files[k], RenameExtensions) {
      assert files[k] in files;
    }
    TempsHaveSuffixes(entries, files, uuids, tempFails);
    var (afterTemp, temps) := Phase1(entries, files, TempNames(files, uuids), tempFails);
    var renamed := Phase2(afterTemp, temps, finalFails).1;
    Phase2FromTemps(afterTemp, temps, 1, FinalName, finalFails);
    forall k | 0 <= k < |renamed| ensures Suffix(renamed[k]) != "" && HasSuffixIn(renamed[k], RenameExtensions) {
      assert renamed[k] in renamed;
      AcceptedSuffixNonEmpty(renamed[k]);
    }
    FinalNamesDistinct(renamed);
  }
}
