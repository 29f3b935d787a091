/**
 Replacing a file through a backup, with rollback.

 Every rename, removal and metadata query may fail at any call; a failing call
 leaves the file system as it was.  Such failures are counted, so that the
 outcome can be tied to how many of them there were.
 */
module ReplaceFile {

  datatype Node = File(bytes: seq<nat>) | Other

  datatype Metadata = Found(node: Node) | NotFound | Unreadable

  datatype Outcome =
    | Replaced
    | NotARegularFile
    | MetadataFailed
    | BackupFailed
    | ReplacementFailed
    | ReplacementFailedAndNotRestored
    | CleanupFailed
    | CleanupFailedAndNotRestored

  /** The errors whose text says that the original could not be put back. */
  predicate NotRestored(o: Outcome) { o.ReplacementFailedAndNotRestored? || o.CleanupFailedAndNotRestored? }

  /** Exactly what each outcome leaves behind, given the state before the call. */
  predicate Ended<Path(==)>(r: Outcome, before: map<Path, Node>, after: map<Path, Node>,
                            staged: Path, destination: Path, backup: Path)
  {
    match r
    case Replaced =>
      && staged in before && staged != destination
      && (destination in before ==> before[destination].File?)
      && after == (before - {staged})[destination := before[staged]]
    case NotARegularFile =>
      destination in before && before[destination].Other? && after == before
    case MetadataFailed | ReplacementFailed =>
      after == before
    case BackupFailed =>
      destination in before && after == before
    case CleanupFailed =>
      && destination in before && staged in before && staged != destination
      && after == before - {staged}
    case ReplacementFailedAndNotRestored =>
      destination in before && after == (before - {destination})[backup := before[destination]]
    case CleanupFailedAndNotRestored =>
      && destination in before && staged in before && staged != destination
      && (|| after == (before - {staged})[destination := before[staged]][backup := before[destination]]
          || after == (before - {staged, destination})[backup := before[destination]])
  }

  /** The request can be carried out: something is staged elsewhere and the target is no directory or link. */
  predicate Replaceable<Path(==)>(nodes: map<Path, Node>, staged: Path, destination: Path)
  {
    staged in nodes && staged != destination && (destination in nodes ==> nodes[destination].File?)
  }

  /** What the number of failing operations says about the outcome, and the outcome about it. */
  predicate Blamed<Path(==)>(r: Outcome, faults: nat, before: map<Path, Node>, staged: Path, destination: Path)
  {
    && (r.Replaced? <==> faults == 0 && Replaceable(before, staged, destination))
    && (r.NotARegularFile? <==> faults == 0 && destination in before && before[destination].Other?)
    && (r.MetadataFailed? || r.BackupFailed? ==> faults == 1)
    && (r.ReplacementFailed? ==> faults <= 1)
    && (r.CleanupFailed? ==> faults == 1 && staged in before && before[staged].File?)
    && (NotRestored(r) && Replaceable(before, staged, destination) && before[staged].File? ==> faults == 2)
  }

  class FileSystem<Path(==)> {
    var nodes: map<Path, Node>
    ghost var faults: nat

    constructor (nodes: map<Path, Node>)
      ensures this.nodes == nodes && faults == 0
    {
      this.nodes := nodes;
      faults := 0;
    }

    method SymlinkMetadata(path: Path) returns (m: Metadata)
      modifies this`faults
      ensures m == if faults > old(faults) then Unreadable else if path in nodes then Found(nodes[path]) else NotFound
      ensures old(faults) <= faults <= old(faults) + 1
    {
      var fault: bool := *;
      if fault {
        faults := faults + 1;
        return Unreadable;
      }
      m := if path in nodes then Found(nodes[path]) else NotFound;
    }

    method Rename(from: Path, to: Path) returns (ok: bool)
      modifies this
      ensures ok <==> from in old(nodes) && faults == old(faults)
      ensures ok ==> nodes == (old(nodes) - {from})[to := old(nodes)[from]]
      ensures !ok ==> nodes == old(nodes)
      ensures old(faults) <= faults <= old(faults) + 1
    {
      var fault: bool := *;
      if fault {
        faults := faults + 1;
        return false;
      }
      if from !in nodes {
        return false;
      }
      nodes := (nodes - {from})[to := nodes[from]];
      ok := true;
    }

    method RemoveFile(path: Path) returns (ok: bool)
      modifies this
      ensures ok <==> path in old(nodes) && old(nodes)[path].File? && faults == old(faults)
      ensures ok ==> nodes == old(nodes) - {path}
      ensures !ok ==> nodes == old(nodes)
      ensures old(faults) <= faults <= old(faults) + 1
    {
      var fault: bool := *;
      if fault {
        faults := faults + 1;
        return false;
      }
      if path !in nodes || nodes[path].Other? {
        return false;
      }
      nodes := nodes - {path};
      ok := true;
    }

    /** `backup` is the fresh sibling name that the program makes up. */
    method ReplaceFileWithRollback(staged: Path, destination: Path, backup: Path) returns (r: Outcome)
      requires backup !in nodes && backup != staged && backup != destination
      modifies this
      ensures Ended(r, old(nodes), nodes, staged, destination, backup)
      ensures faults >= old(faults)
      ensures Blamed(r, faults - old(faults), old(nodes), staged, destination)
    {
      var metadata := SymlinkMetadata(destination);
      var hadDestination := false;
      match metadata {
        case Found(node) =>
          if node.Other? {
            return NotARegularFile;
          }
          hadDestination := true;
        case NotFound =>
        case Unreadable =>
          return MetadataFailed;
      }
      if hadDestination {
        var moved := Rename(destination, backup);
        if !moved {
          return BackupFailed;
        }
      }
      var replaced := Rename(staged, destination);
      if !replaced {
        if hadDestination {
          var restored := Rename(backup, destination);
          if !restored {
            return ReplacementFailedAndNotRestored;
          }
          assert nodes == old(nodes);
        }
        return ReplacementFailed;
      }
      if hadDestination {
        var cleaned := RemoveFile(backup);
        if !cleaned {
          var removed := RemoveFile(destination);
          if !removed {
            return CleanupFailedAndNotRestored;
          }
          var restored := Rename(backup, destination);
          if !restored {
            return CleanupFailedAndNotRestored;
          }
          assert nodes == old(nodes) - {staged};
          return CleanupFailed;
        }
      }
      assert nodes == (old(nodes) - {staged})[destination := old(nodes)[staged]];
      r := Replaced;
    }
  }

  /** In every outcome but success the original survives, at the destination or under the backup name. */
  lemma OriginalSurvives<Path>(r: Outcome, before: map<Path, Node>, after: map<Path, Node>,
                               staged: Path, destination: Path, backup: Path)
    requires Ended(r, before, after, staged, destination, backup)
    requires backup !in before && backup != staged && backup != destination
    requires destination in before && !r.Replaced?
    ensures || (destination in after && after[destination] == before[destination])
            || (backup in after && after[backup] == before[destination])
    ensures !NotRestored(r) ==> destination in after && after[destination] == before[destination]
  {
  }

  /** Replacing one file by another, a single failing operation of any kind leaves the original at its place. */
  lemma OneFailureIsRolledBack<Path>(r: Outcome, faults: nat, before: map<Path, Node>, after: map<Path, Node>,
                                     staged: Path, destination: Path, backup: Path)
    requires Ended(r, before, after, staged, destination, backup)
    requires Blamed(r, faults, before, staged, destination)
    requires backup !in before && backup != staged && backup != destination
    requires destination in before && Replaceable(before, staged, destination) && before[staged].File?
    ensures faults == 1 ==> destination in after && after[destination] == before[destination] && backup !in after
    ensures faults == 0 ==> destination in after && after[destination] == before[staged] && backup !in after
  {
  }

  /** Paths that were not named are untouched, and only a failed restoration leaves a backup. */
  lemma NothingElseChanges<Path>(r: Outcome, before: map<Path, Node>, after: map<Path, Node>,
                                 staged: Path, destination: Path, backup: Path, p: Path)
    requires Ended(r, before, after, staged, destination, backup)
    requires backup !in before && backup != staged && backup != destination
    ensures p != staged && p != destination && p != backup ==>
              (p in after <==> p in before) && (p in after ==> after[p] == before[p])
    ensures backup in after <==> NotRestored(r)
  {
  }

  /** On success the destination holds exactly what was staged, and the staged name is gone. */
  lemma SuccessInstallsStaged<Path>(before: map<Path, Node>, after: map<Path, Node>,
                                    staged: Path, destination: Path, backup: Path)
    requires Ended(Replaced, before, after, staged, destination, backup)
    requires backup !in before && backup != staged && backup != destination
    ensures destination in after && after[destination] == before[staged]
    ensures staged !in after && backup !in after
  {
  }
}
