/** Replacing a directory tree by a copy of another, with rollback (installer/backup_archive.py,
    `_copy_tree`). */
module TreeReplacement {
  import opened Wrappers
  import opened BackupPaths

  /** The files of a directory, by relative path. */
  type Tree = map<Path, string>

  datatype Entry = Directory(tree: Tree) | NotDirectory | DanglingLink

  /** What is to be copied. `Invalid`: not a directory. `Unsafe`: it contains something that is neither
      a directory nor a regular file of acceptable size. */
  datatype Source = Invalid | Unsafe | Listed(files: seq<(Path, string)>)

  /** Where an exception strikes: an error of the call there, or an interrupt between two statements.
      `Copying` strikes after `done` files, `RemovingOld` when `left` of the old tree is still there. A
      point that is not reached does not strike. */
  datatype Strike =
    | Nowhere
    | BeforeTemporary
    | AfterTemporary
    | Copying(done: nat)
    | SettingModes
    | BeforeMovingOld
    | AfterMovingOld
    | BeforeMovingNew
    | AfterMovingNew
    | RemovingOld(left: Tree)

  function TreeOf(files: seq<(Path, string)>): Tree {
    if files == [] then map[]
    else TreeOf(files[..|files| - 1])[files[|files| - 1].0 := files[|files| - 1].1]
  }

  ghost predicate Distinct(files: seq<(Path, string)>) {
    forall i, j :: 0 <= i < j < |files| ==> files[i].0 != files[j].0
  }

  /** The copy has exactly the listed files, with their contents. */
  lemma {:induction false} TreeOfExact(files: seq<(Path, string)>)
    requires Distinct(files)
    ensures forall p, c :: (p in TreeOf(files) && TreeOf(files)[p] == c) <==> (p, c) in files
  {
    if files != [] {
      var before, last := files[..|files| - 1], files[|files| - 1];
      TreeOfExact(before);
      assert files == before + [last];
      forall p, c ensures (p in TreeOf(files) && TreeOf(files)[p] == c) <==> (p, c) in files {
        if p == last.0 {
          assert forall i :: 0 <= i < |before| ==> before[i] == files[i] && files[i].0 != p;
        }
      }
    }
  }

  // The moment between the rename of the old tree and the note that it was renamed.
  predicate LosesTrack(source: Source, before: Option<Entry>, strike: Strike) {
    source.Listed? && before.Some? && before.value.Directory? && strike.AfterMovingOld?
  }

  // The moment between the creation of the temporary directory and the protected block.
  predicate LeavesTemporary(source: Source, strike: Strike) {
    !source.Invalid? && strike.AfterTemporary?
  }

  // The second rename takes place.
  predicate Swaps(source: Source, before: Option<Entry>, strike: Strike) {
    && source.Listed? && (before.None? || before.value.Directory?)
    && match strike
       case BeforeTemporary => false
       case AfterTemporary => false
       case Copying(done) => done >= |source.files|
       case SettingModes => false
       case BeforeMovingOld => before.None?
       case AfterMovingOld => before.None?
       case BeforeMovingNew => false
       case _ => true
  }

  /** What is left of the three directories when `_copy_tree` returns or raises. */
  datatype Left = Left(destination: Option<Entry>, temporary: Option<Tree>, previous: Option<Entry>)

  function Outcome(source: Source, before: Option<Entry>, strike: Strike): Left {
    if LosesTrack(source, before, strike) then Left(None, None, None)
    else if Swaps(source, before, strike) then Left(Some(Directory(TreeOf(source.files))), None, None)
    else Left(before, if LeavesTemporary(source, strike) then Some(map[]) else None, None)
  }

  // Either tree in whole: the old one, or the copy.
  predicate Whole(source: Source, before: Option<Entry>, after: Option<Entry>) {
    after == before || (source.Listed? && after == Some(Directory(TreeOf(source.files))))
  }

  /** All or nothing: afterwards there is the whole old tree or the whole new one, except that an
      exception between the rename of the old tree and the note of it loses both. */
  lemma AllOrNothing(source: Source, before: Option<Entry>, strike: Strike)
    ensures Whole(source, before, Outcome(source, before, strike).destination) <==> !LosesTrack(source, before, strike)
  {
  }

  lemma LosesBothTrees()
    ensures Outcome(Listed([(["key"], "new")]), Some(Directory(map[["key"] := "old"])), AfterMovingOld)
              == Left(None, None, None)
  {
  }

  class Restorer {
    var destination: Option<Entry>
    var temporary: Option<Tree>
    var previous: Option<Entry>

    constructor (destination: Option<Entry>)
      ensures this.destination == destination && temporary.None? && previous.None?
    {
      this.destination, temporary, previous := destination, None, None;
    }

    // The copy loop; it stops where the exception strikes.
    method CopyFiles(files: seq<(Path, string)>, strike: Strike) returns (completed: bool)
      requires temporary == Some(map[])
      modifies this`temporary
      ensures temporary.Some? && (completed ==> temporary.value == TreeOf(files))
      ensures completed <==> !(strike.Copying? && strike.done < |files|)
    {
      for i := 0 to |files|
        invariant temporary.Some? && temporary.value == TreeOf(files[..i])
        invariant strike.Copying? ==> i <= strike.done
      {
        if strike == Copying(i) { return false; }
        temporary := Some(temporary.value[files[i].0 := files[i].1]);
        assert files[..i + 1][..i] == files[..i];
      }
      assert files[..|files|] == files;
      return true;
    }

    // The renames; `moved` is `moved_old` at the moment the block is left.
    method Swap(strike: Strike) returns (completed: bool, moved: bool)
      requires temporary.Some? && previous.None?
      modifies this
      ensures
        if old(destination).None? then
          if strike.BeforeMovingNew? then unchanged(this) && !completed && !moved
          else
            && destination == Some(Directory(old(temporary).value)) && temporary.None? && previous.None?
            && completed == !strike.AfterMovingNew? && !moved
        else if !old(destination).value.Directory? || strike.BeforeMovingOld? then
          unchanged(this) && !completed && !moved
        else if strike.AfterMovingOld? || strike.BeforeMovingNew? then
          && destination.None? && temporary == old(temporary) && previous == old(destination)
          && !completed && moved == strike.BeforeMovingNew?
        else
          && destination == Some(Directory(old(temporary).value)) && temporary.None? && moved
          && completed == !(strike.AfterMovingNew? || strike.RemovingOld?)
          && (completed ==> previous.None?)
    {
      moved := false;
      // `exists` follows links: a dangling one counts as absent here, and the rename over it fails.
      if destination.Some? && !destination.value.DanglingLink? {
        if !destination.value.Directory? || strike.BeforeMovingOld? { return false, moved; }
        previous, destination := destination, None;
        if strike.AfterMovingOld? { return false, moved; }
        moved := true;
      }
      if strike.BeforeMovingNew? || destination.Some? { return false, moved; }
      destination, temporary := Some(Directory(temporary.value)), None;
      if strike.AfterMovingNew? { return false, moved; }
      if moved {
        if strike.RemovingOld? {
          previous := Some(Directory(strike.left));
          return false, moved;
        }
        previous := None;
      }
      return true, moved;
    }

    /** Replaces the destination by a copy of the source. The rollback rename and the removals of the
        handlers are taken to succeed. */
    method CopyTree(source: Source, strike: Strike) returns (completed: bool)
      requires temporary.None? && previous.None?
      modifies this
      ensures Left(destination, temporary, previous) == Outcome(source, old(destination), strike)
      ensures Whole(source, old(destination), destination) <==> !LosesTrack(source, old(destination), strike)
      ensures previous.None? && (temporary.Some? <==> LeavesTemporary(source, strike))
      ensures completed ==> Swaps(source, old(destination), strike)
      ensures strike.Nowhere? && Swaps(source, old(destination), strike) ==> completed
    {
      if source.Invalid? || strike.BeforeTemporary? { return false; }
      temporary := Some(map[]);
      if strike.AfterTemporary? { return false; }
      var moved := false;
      completed := source.Listed?;
      if completed { completed := CopyFiles(source.files, strike); }
      if completed && strike.SettingModes? { completed := false; }
      if completed { completed, moved := Swap(strike); }
      if !completed && moved && destination.None? && previous.Some? {
        destination, previous := previous, None;
      }
      temporary, previous := None, None;
    }
  }
}
